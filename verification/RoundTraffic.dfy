/** What a round of a distance-vector router tells its neighbours about one destination. */
module RoundTraffic {
  import opened DistanceVector
  import opened VectorRouter

  // ---------- What is told about one destination ----------

  /** The distances told to x about d. */
  function About(ms: seq<DistMsg>, x: int, d: int): seq<int> {
    AboutFirst(ms, |ms|, x, d)
  }

  function AboutFirst(ms: seq<DistMsg>, k: nat, x: int, d: int): seq<int>
    requires k <= |ms|
  {
    if k == 0 then []
    else AboutFirst(ms, k - 1, x, d) + if ms[k - 1].to == x && ms[k - 1].node == d then [ms[k - 1].dist] else []
  }

  lemma {:induction false} SameFirst(a: seq<DistMsg>, b: seq<DistMsg>, k: nat, x: int, d: int)
    requires k <= |a| && k <= |b| && a[..k] == b[..k]
    ensures AboutFirst(a, k, x, d) == AboutFirst(b, k, x, d)
  {
    if k > 0 {
      assert a[..k][..k - 1] == a[..k - 1] && b[..k][..k - 1] == b[..k - 1];
      assert a[k - 1] == a[..k][k - 1] == b[..k][k - 1] == b[k - 1];
      SameFirst(a, b, k - 1, x, d);
    }
  }

  lemma {:induction false} AboutMore(a: seq<DistMsg>, b: seq<DistMsg>, k: nat, x: int, d: int)
    requires k <= |b|
    ensures AboutFirst(a + b, |a| + k, x, d) == About(a, x, d) + AboutFirst(b, k, x, d)
  {
    if k > 0 {
      AboutMore(a, b, k - 1, x, d);
      assert (a + b)[|a| + k - 1] == b[k - 1];
    } else {
      assert (a + b)[..|a|] == a == a[..|a|];
      SameFirst(a + b, a, |a|, x, d);
    }
  }

  lemma AboutBoth(a: seq<DistMsg>, b: seq<DistMsg>, x: int, d: int)
    ensures About(a + b, x, d) == About(a, x, d) + About(b, x, d)
  {
    AboutMore(a, b, |b|, x, d);
  }

  lemma AboutOne(m: DistMsg, x: int, d: int)
    ensures About([m], x, d) == if m.to == x && m.node == d then [m.dist] else []
  {
    assert AboutFirst([m], 0, x, d) == [];
  }

  lemma {:induction false} NothingFirstIff(ms: seq<DistMsg>, k: nat, x: int, d: int)
    requires k <= |ms|
    ensures AboutFirst(ms, k, x, d) == [] <==> forall i :: 0 <= i < k ==> !(ms[i].to == x && ms[i].node == d)
  {
    if k > 0 {
      NothingFirstIff(ms, k - 1, x, d);
    }
  }

  /** Nothing is told about d to x. */
  lemma AboutNothingIff(ms: seq<DistMsg>, x: int, d: int)
    ensures About(ms, x, d) == [] <==> forall i :: 0 <= i < |ms| ==> !(ms[i].to == x && ms[i].node == d)
  {
    NothingFirstIff(ms, |ms|, x, d);
  }

  /** One update of an entry tells every neighbour the advert. */
  lemma {:induction false} AboutTell(conn: seq<bool>, hop: int, node: int, dist: int, k: nat, x: int, d: int)
    requires k <= |conn|
    ensures About(Tell(conn, hop, node, dist, k), x, d)
            == if d == node && 0 <= x < k && conn[x] then [if x == hop then -1 else dist] else []
  {
    if k > 0 {
      AboutTell(conn, hop, node, dist, k - 1, x, d);
      AboutNeighbour(conn, hop, node, dist, k - 1, x, d);
      AboutBoth(Tell(conn, hop, node, dist, k - 1), ToNeighbour(conn, hop, node, dist, k - 1), x, d);
      assert Tell(conn, hop, node, dist, k)
          == Tell(conn, hop, node, dist, k - 1) + ToNeighbour(conn, hop, node, dist, k - 1);
    }
  }

  function ToNeighbour(conn: seq<bool>, hop: int, node: int, dist: int, i: nat): seq<DistMsg>
    requires i < |conn|
  {
    if conn[i] then [DistMsg(i, node, if i == hop then -1 else dist)] else []
  }

  lemma AboutNeighbour(conn: seq<bool>, hop: int, node: int, dist: int, i: nat, x: int, d: int)
    requires i < |conn|
    ensures About(ToNeighbour(conn, hop, node, dist, i), x, d)
            == if d == node && x == i && conn[x] then [if x == hop then -1 else dist] else []
  {
    AboutOne(DistMsg(i, node, if i == hop then -1 else dist), x, d);
  }

  /** What the news about d says when the entry for d becomes e and is told to those in conn. */
  function News(conn: seq<bool>, e: Route, tells: bool, x: int): seq<int> {
    if tells && Up(conn, x) then [Advert(e, x)] else []
  }

  lemma AboutUpdate(conn: seq<bool>, me: int, e: Route, node: int, dist: int, hop: int, x: int, d: int)
    ensures About(UpdateSends(conn, me, e, node, dist, hop), x, d)
            == News(conn, Updated(conn, me, e, node, dist, hop), d == node && Fires(conn, me, e, node, dist, hop), x)
  {
    var e' := Updated(conn, me, e, node, dist, hop);
    AboutTell(conn, e'.nextHop, node, e'.dist, |conn|, x, d);
  }

  // ---------- Several updates in a row ----------

  function Chain(parts: seq<seq<DistMsg>>, k: nat): seq<DistMsg>
    requires k <= |parts|
  {
    if k == 0 then [] else Chain(parts, k - 1) + parts[k - 1]
  }

  predicate IsAt(tells: bool, at: int, i: int) {
    tells && i == at
  }

  predicate IsBelow(tells: bool, at: int, k: int) {
    tells && 0 <= at < k
  }

  /** Of all parts only number `at` may concern d. */
  ghost predicate OnlyAt(parts: seq<seq<DistMsg>>, conn: seq<bool>, e: Route, tells: bool, at: int, x: int, d: int) {
    forall i :: 0 <= i < |parts| ==> About(parts[i], x, d) == News(conn, e, IsAt(tells, at, i), x)
  }

  lemma {:induction false} AboutChain(parts: seq<seq<DistMsg>>, conn: seq<bool>, e: Route, tells: bool, at: int, k: nat,
                                      x: int, d: int)
    requires k <= |parts| && OnlyAt(parts, conn, e, tells, at, x, d)
    ensures About(Chain(parts, k), x, d) == News(conn, e, IsBelow(tells, at, k), x)
  {
    if k > 0 {
      AboutChain(parts, conn, e, tells, at, k - 1, x, d);
      AboutBoth(Chain(parts, k - 1), parts[k - 1], x, d);
    }
  }

  lemma AboutTellIf(tells: bool, conn: seq<bool>, e: Route, node: int, x: int, d: int)
    ensures About(if tells then Tell(conn, e.nextHop, node, e.dist, |conn|) else [], x, d)
            == News(conn, e, IsAt(tells, d, node), x)
  {
    AboutTell(conn, e.nextHop, node, e.dist, |conn|, x, d);
  }

  /** A periodic update, entry by entry. */
  function UpdateParts(conn: seq<bool>, table: seq<Route>): (parts: seq<seq<DistMsg>>)
    ensures |parts| == |table|
    ensures forall i :: 0 <= i < |table| ==>
              parts[i] == if table[i].dist != -1 then Tell(conn, table[i].nextHop, i, table[i].dist, |conn|) else []
  {
    seq(|table|, i requires 0 <= i < |table| =>
      if table[i].dist != -1 then Tell(conn, table[i].nextHop, i, table[i].dist, |conn|) else [])
  }

  lemma {:induction false} UpdateIsChain(conn: seq<bool>, table: seq<Route>, parts: seq<seq<DistMsg>>, k: nat)
    requires k <= |table| == |parts|
    requires forall i :: 0 <= i < |table| ==>
               parts[i] == if table[i].dist != -1 then Tell(conn, table[i].nextHop, i, table[i].dist, |conn|) else []
    ensures TellAll(conn, table, k) == Chain(parts, k)
  {
    if k > 0 {
      UpdateIsChain(conn, table, parts, k - 1);
    }
  }

  lemma AboutTellAll(conn: seq<bool>, table: seq<Route>, x: int, d: int)
    requires 0 <= d < |table|
    ensures About(TellAll(conn, table, |table|), x, d) == News(conn, table[d], table[d].dist != -1, x)
  {
    var parts, tells := UpdateParts(conn, table), table[d].dist != -1;
    forall i | 0 <= i < |parts|
      ensures About(parts[i], x, d) == News(conn, table[d], IsAt(tells, d, i), x)
    {
      AboutTellIf(table[i].dist != -1, conn, table[i], i, x, d);
    }
    AboutChain(parts, conn, table[d], tells, d, |table|, x, d);
    UpdateIsChain(conn, table, parts, |table|);
  }

  /** The withdrawals of the routes through v, entry by entry. */
  function WithdrawalParts(conn: seq<bool>, table: seq<Route>, v: int): (parts: seq<seq<DistMsg>>)
    ensures |parts| == |table|
    ensures forall i :: 0 <= i < |table| ==>
              parts[i] == if table[i].nextHop == v then Tell(conn, -1, i, -1, |conn|) else []
  {
    seq(|table|, i requires 0 <= i < |table| => if table[i].nextHop == v then Tell(conn, -1, i, -1, |conn|) else [])
  }

  lemma {:induction false} WithdrawalsAreChain(conn: seq<bool>, table: seq<Route>, v: int, parts: seq<seq<DistMsg>>,
                                               k: nat)
    requires k <= |table| == |parts|
    requires forall i :: 0 <= i < |table| ==>
               parts[i] == if table[i].nextHop == v then Tell(conn, -1, i, -1, |conn|) else []
    ensures Withdrawals(conn, table, v, k) == Chain(parts, k)
  {
    if k > 0 {
      WithdrawalsAreChain(conn, table, v, parts, k - 1);
    }
  }

  lemma AboutWithdrawals(conn: seq<bool>, table: seq<Route>, v: int, x: int, d: int)
    requires 0 <= d < |table|
    ensures About(Withdrawals(conn, table, v, |table|), x, d) == News(conn, UNREACHABLE, table[d].nextHop == v, x)
  {
    var parts, tells := WithdrawalParts(conn, table, v), table[d].nextHop == v;
    forall i | 0 <= i < |parts|
      ensures About(parts[i], x, d) == News(conn, UNREACHABLE, IsAt(tells, d, i), x)
    {
      AboutTellIf(table[i].nextHop == v, conn, UNREACHABLE, i, x, d);
    }
    AboutChain(parts, conn, UNREACHABLE, tells, d, |table|, x, d);
    WithdrawalsAreChain(conn, table, v, parts, |table|);
  }

  /** Neighbour v is dropped by a sweep. */
  predicate Silent(conn: seq<bool>, last: seq<int>, now: int, v: int)
    requires |conn| == |last|
  {
    Up(conn, v) && now - last[v] >= TIMEOUT
  }

  lemma AboutExpirySend(conn: seq<bool>, last: seq<int>, table: seq<Route>, now: int, i: nat, x: int, d: int)
    requires i < |conn| == |last| == |table| && 0 <= d < |table| && !Silent(conn, last, now, x)
    ensures var hop := table[d].nextHop;
            About(ExpirySend(conn, last, table, now, i), x, d)
            == News(conn, UNREACHABLE, IsAt(Silent(conn, last, now, hop), hop, i), x)
  {
    var left := Survivors(conn, last, now, i + 1);
    AboutWithdrawals(left, table, i, x, d);
    assert Up(left, x) <==> Up(conn, x);
  }

  /** What the steps of the sweep tell, one after the other. */
  function ExpiryParts(conn: seq<bool>, last: seq<int>, table: seq<Route>, now: int): (parts: seq<seq<DistMsg>>)
    requires |conn| == |last| == |table|
    ensures |parts| == |conn|
    ensures forall i :: 0 <= i < |conn| ==> parts[i] == ExpirySend(conn, last, table, now, i)
  {
    seq(|conn|, i requires 0 <= i < |conn| => ExpirySend(conn, last, table, now, i))
  }

  lemma {:induction false} ExpiryIsChain(conn: seq<bool>, last: seq<int>, table: seq<Route>, now: int,
                                         parts: seq<seq<DistMsg>>, k: nat)
    requires k <= |conn| && |conn| == |last| == |table| == |parts|
    requires forall i :: 0 <= i < |conn| ==> parts[i] == ExpirySend(conn, last, table, now, i)
    ensures ExpirySends(conn, last, table, now, k) == Chain(parts, k)
  {
    if k > 0 {
      ExpiryIsChain(conn, last, table, now, parts, k - 1);
    }
  }

  /** A neighbour that stays is told once that a route through one that goes is lost. */
  lemma AboutExpiry(conn: seq<bool>, last: seq<int>, table: seq<Route>, now: int, x: int, d: int)
    requires |conn| == |last| == |table| && 0 <= d < |table| && !Silent(conn, last, now, x)
    ensures About(ExpirySends(conn, last, table, now, |table|), x, d)
            == News(conn, UNREACHABLE, Silent(conn, last, now, table[d].nextHop), x)
  {
    var parts, hop := ExpiryParts(conn, last, table, now), table[d].nextHop;
    var tells := Silent(conn, last, now, hop);
    forall i | 0 <= i < |parts|
      ensures About(parts[i], x, d) == News(conn, UNREACHABLE, IsAt(tells, hop, i), x)
    {
      AboutExpirySend(conn, last, table, now, i, x, d);
    }
    AboutChain(parts, conn, UNREACHABLE, tells, hop, |table|, x, d);
    ExpiryIsChain(conn, last, table, now, parts, |table|);
  }

  // ---------- Reading what has been sent ----------

  /** Messages to others change nothing. */
  lemma SkipOthers(ms: seq<DistMsg>, p: int, i: int, x: int, d: int)
    requires 0 <= p <= i <= |ms| && forall j :: p <= j < i ==> ms[j].to != x
    ensures About(ms[..i], x, d) == About(ms[..p], x, d)
  {
    AboutNothingIff(ms[p..i], x, d);
    AboutBoth(ms[..p], ms[p..i], x, d);
    assert ms[..p] + ms[p..i] == ms[..i];
  }

  lemma FrontOfAbout(ms: seq<DistMsg>, i: int, x: int, d: int)
    requires 0 <= i <= |ms|
    ensures About(ms[..i], x, d) <= About(ms, x, d)
  {
    AboutBoth(ms[..i], ms[i..], x, d);
    assert ms[..i] + ms[i..] == ms;
  }

  /** The next message to x is the next about d, if it is about d. */
  lemma ReadNext(ms: seq<DistMsg>, p: int, i: int, x: int, d: int)
    requires 0 <= p <= i < |ms| && ms[i].to == x && forall j :: p <= j < i ==> ms[j].to != x
    ensures About(ms[..i + 1], x, d) == About(ms[..p], x, d) + if ms[i].node == d then [ms[i].dist] else []
    ensures About(ms[..i + 1], x, d) <= About(ms, x, d)
  {
    SkipOthers(ms, p, i, x, d);
    FrontOfAbout(ms, i + 1, x, d);
    AboutBoth(ms[..i], [ms[i]], x, d);
    AboutOne(ms[i], x, d);
    assert ms[..i] + [ms[i]] == ms[..i + 1];
  }

  lemma AboutFive(o: seq<DistMsg>, a: seq<DistMsg>, b: seq<DistMsg>, c: seq<DistMsg>, f: seq<DistMsg>, x: int, d: int)
    ensures About(o + (a + b + c + f), x, d)
            == About(o, x, d) + About(a, x, d) + About(b, x, d) + About(c, x, d) + About(f, x, d)
  {
    assert o + (a + b + c + f) == (((o + a) + b) + c) + f;
    AboutBoth(((o + a) + b) + c, f, x, d);
    AboutBoth((o + a) + b, c, x, d);
    AboutBoth(o + a, b, x, d);
    AboutBoth(o, a, x, d);
  }

  lemma {:induction false} AboutIsAmong(ms: seq<DistMsg>, m: nat, x: int, d: int, k: int) returns (i: int)
    requires m <= |ms| && 0 <= k < |AboutFirst(ms, m, x, d)|
    ensures 0 <= i < |ms| && ms[i].to == x && ms[i].node == d && ms[i].dist == AboutFirst(ms, m, x, d)[k]
  {
    if k < |AboutFirst(ms, m - 1, x, d)| {
      i := AboutIsAmong(ms, m - 1, x, d, k);
    } else {
      i := m - 1;
    }
  }
}

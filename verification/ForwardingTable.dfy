/** What a link-state forwarding table is, apart from how it is computed, and the invariant of
    the confirmed/tentative search that computes it. */
module ForwardingTable {
  import opened Graphs

  datatype Entry = Entry(dest: int, cost: int, nexthop: int)
  type Table = map<int, Entry>

  // ---------- The reference: a function of the graph alone ----------

  /** k is the node before d on some shortest path from s to d. */
  ghost predicate LastHop(g: Matrix, s: int, k: int, d: int) {
    && Edge(g, k, d) && Reach(g, s, k) && Reach(g, s, d)
    && Dist(g, s, k) + g[k][d] == Dist(g, s, d)
  }

  ghost predicate IsLowestLastHop(g: Matrix, s: int, k: int, d: int) {
    LastHop(g, s, k, d) && forall j :: LastHop(g, s, j, d) ==> k <= j
  }

  /** The node before the end of a shortest path is a last hop, and the path up to it is shortest. */
  lemma {:induction false} LastHopOfPath(g: Matrix, s: int, p: seq<int>, d: int) returns (k: int)
    requires IsPath(g, s, p, d) && p != [] && PathCost(g, s, p, d) == Dist(g, s, d)
    ensures k == (if |p| == 1 then s else p[|p| - 2])
    ensures LastHop(g, s, k, d)
  {
    k := if |p| == 1 then s else p[|p| - 2];
    SplitLast(g, s, p, d);
    var q :| IsPath(g, s, q, k) && PathCost(g, s, q, k) == Dist(g, s, k);
    Append(g, s, q, k, d);
  }

  lemma {:induction false} SplitLast(g: Matrix, u: int, p: seq<int>, d: int)
    requires IsPath(g, u, p, d) && p != []
    ensures var k := if |p| == 1 then u else p[|p| - 2];
            && IsPath(g, u, p[..|p| - 1], k) && Edge(g, k, d)
            && PathCost(g, u, p[..|p| - 1], k) + g[k][d] == PathCost(g, u, p, d)
    decreases |p|
  {
    if |p| == 1 {
      assert p[1..] == [];
    } else {
      SplitLast(g, p[0], p[1..], d);
      assert p[..|p| - 1][1..] == p[1..][..|p| - 2];
    }
  }

  lemma {:induction false} LowestExists(g: Matrix, s: int, k: int, d: int)
    requires LastHop(g, s, k, d)
    ensures exists m :: IsLowestLastHop(g, s, m, d)
    decreases k
  {
    if j :| LastHop(g, s, j, d) && j < k {
      LowestExists(g, s, j, d);
    } else {
      assert IsLowestLastHop(g, s, k, d);
    }
  }

  lemma LowestLastHopExists(g: Matrix, s: int, d: int)
    requires Reach(g, s, d) && s != d
    ensures exists m :: IsLowestLastHop(g, s, m, d)
  {
    var p :| IsPath(g, s, p, d) && PathCost(g, s, p, d) == Dist(g, s, d);
    var k := LastHopOfPath(g, s, p, d);
    LowestExists(g, s, k, d);
  }

  ghost function LowestLastHop(g: Matrix, s: int, d: int): (k: int)
    requires Reach(g, s, d) && s != d
    ensures IsLowestLastHop(g, s, k, d)
  {
    LowestLastHopExists(g, s, d);
    var m :| IsLowestLastHop(g, s, m, d);
    m
  }

  /** The path obtained by always stepping back to the lowest last hop. */
  ghost function CanonicalPath(g: Matrix, s: int, d: int): (p: seq<int>)
    requires Reach(g, s, d)
    ensures (p == []) == (s == d)
    decreases Dist(g, s, d)
  {
    if s == d then [] else CanonicalPath(g, s, LowestLastHop(g, s, d)) + [d]
  }

  /** The node just before the end of a path from s. */
  function Before(s: int, p: seq<int>): int
    requires p != []
  {
    if |p| == 1 then s else p[|p| - 2]
  }

  /** The canonical path is a shortest path, and no shortest path to its end has a smaller node
      just before that end. */
  lemma {:induction false} CanonicalPathIsShortest(g: Matrix, s: int, d: int)
    requires Reach(g, s, d)
    ensures var p := CanonicalPath(g, s, d);
            && IsPath(g, s, p, d) && PathCost(g, s, p, d) == Dist(g, s, d)
            && (forall q :: s != d && IsPath(g, s, q, d) && q != [] && PathCost(g, s, q, d) == Dist(g, s, d) ==>
                  Before(s, p) <= Before(s, q))
    decreases Dist(g, s, d)
  {
    if s == d {
      DistSelf(g, s);
    } else {
      var k := LowestLastHop(g, s, d);
      CanonicalPathIsShortest(g, s, k);
      var r := CanonicalPath(g, s, k);
      Append(g, s, r, k, d);
      assert Before(s, r + [d]) == k by {
        if r != [] {
          PathEnd(g, s, r, k);
        }
      }
      forall q | IsPath(g, s, q, d) && q != [] && PathCost(g, s, q, d) == Dist(g, s, d)
        ensures k <= Before(s, q)
      {
        var j := LastHopOfPath(g, s, q, d);
      }
    }
  }

  lemma {:induction false} PathEnd(g: Matrix, s: int, p: seq<int>, d: int)
    requires IsPath(g, s, p, d) && p != []
    ensures p[|p| - 1] == d
    decreases |p|
  {
    if |p| == 1 { assert p[1..] == []; } else { PathEnd(g, p[0], p[1..], d); }
  }

  /** The table every router is meant to hold: one entry per reachable node, with its distance
      and the first node of its canonical path. The router's own entry has no next hop. */
  ghost function CanonicalTable(g: Matrix, s: int): Table
    requires 0 <= s < |g|
  {
    map d | 0 <= d < |g| && Reach(g, s, d) :: CanonicalEntry(g, s, d)
  }

  ghost function CanonicalEntry(g: Matrix, s: int, d: int): Entry
    requires Reach(g, s, d)
  {
    Entry(d, Dist(g, s, d), if d == s then -1 else CanonicalPath(g, s, d)[0])
  }

  /** A table without a promise about which of several shortest paths it follows. */
  ghost predicate SoundTable(g: Matrix, s: int, c: Table) {
    && (forall d :: d in c <==> 0 <= d < |g| && Reach(g, s, d))
    && (forall d :: d in c ==> c[d].dest == d && c[d].cost == Dist(g, s, d))
    && (s in c ==> c[s].nexthop == -1)
    && (forall d :: d in c && d != s ==> StartsShortest(g, s, c[d].nexthop, d))
  }

  // ---------- The invariant of the search ----------

  /** The links taken into account so far: all of them, except that while the links out of `nx`
      are being scanned only those to ids below `lim` count. */
  predicate Seen(g: Matrix, nx: int, lim: int, k: int, i: int) {
    Edge(g, k, i) && (k != nx || i < lim)
  }

  predicate Tight(g: Matrix, nx: int, lim: int, c: Table, k: int, i: int, cost: int) {
    k in c && Seen(g, nx, lim, k, i) && c[k].cost + g[k][i] == cost
  }

  /** The next hop towards i when k is the node before i. */
  function Via(c: Table, me: int, k: int, i: int): int {
    if k == me then i else if k in c then c[k].nexthop else -1
  }

  /** The router has a link to i of exactly this cost, according to matrix m. */
  predicate OwnLink(m: Matrix, me: int, i: int, cost: int) {
    Edge(m, me, i) && m[me][i] == cost
  }

  /** The last hops seen so far from which i is reached at this cost. */
  ghost function Tights(g: Matrix, nx: int, lim: int, c: Table, i: int, cost: int): iset<int> {
    iset k | Tight(g, nx, lim, c, k, i, cost)
  }

  ghost predicate Lowest(T: iset<int>, k: int) {
    k in T && forall j :: j in T ==> k <= j
  }

  /** There are two last hops besides the router itself. */
  ghost predicate Many(me: int, T: iset<int>) {
    exists j, k :: j < k && j in T && k in T && j != me && k != me
  }

  /** Which last hop k of T the search has settled on. `own` says whether there is an own link of the
      cost in question, `known` whether there is one according to the matrix that the tie-break reads.
      Where the two agree, it is the lowest. An own link that the matrix does not know keeps its place
      until there are two others and is then forgotten. An own link that only the matrix knows hides the
      others above it: unless one is below it, the one found first stays, which is a nearest one. */
  ghost predicate Chosen(own: bool, known: bool, me: int, T: iset<int>, cost: int -> int, k: int) {
    && k in T
    && if own == known then Lowest(T, k)
       else if own then (if Many(me, T) then Lowest(T - iset{me}, k) else k == me)
       else (forall j :: j in T && j < me ==> k <= j) && (me <= k ==> Nearest(T, cost, k))
  }

  ghost predicate Nearest(T: iset<int>, cost: int -> int, k: int) {
    forall j :: j in T ==> cost(k) <= cost(j)
  }

  function CostIn(c: Table): int -> int {
    k => if k in c then c[k].cost else 0
  }

  /** Only the costs of the last hops matter. */
  lemma ChosenSame(own: bool, known: bool, me: int, T: iset<int>, cost: int -> int, cost': int -> int, k: int)
    requires Chosen(own, known, me, T, cost, k) && forall j :: j in T ==> cost'(j) == cost(j)
    ensures Chosen(own, known, me, T, cost', k)
  {
  }

  /** The entry's next hop is the one inherited from the chosen last hop. */
  ghost predicate HopRule(g: Matrix, me: int, nx: int, lim: int, c: Table, e: Entry, a: Matrix) {
    exists k :: HopFrom(g, me, nx, lim, c, e, a, k)
  }

  ghost predicate HopFrom(g: Matrix, me: int, nx: int, lim: int, c: Table, e: Entry, a: Matrix, k: int) {
    && e.nexthop == Via(c, me, k, e.dest)
    && Chosen(OwnLink(g, me, e.dest, e.cost), OwnLink(a, me, e.dest, e.cost), me,
              Tights(g, nx, lim, c, e.dest, e.cost), CostIn(c), k)
  }

  ghost predicate ConfirmedInv(g: Matrix, me: int, c: Table, a: Matrix) {
    && 0 <= me < |g| && me in c && c[me] == Entry(me, 0, -1)
    && (forall k :: k in c ==> 0 <= k < |g| && c[k].dest == k && 0 <= c[k].cost)
    && (forall k, i :: k in c && i in c && Edge(g, k, i) ==> c[i].cost <= c[k].cost + g[k][i])
    && (forall i {:trigger HopRule(g, me, -1, 0, c, c[i], a)} ::
          i in c && i != me ==> HopRule(g, me, -1, 0, c, c[i], a))
  }

  ghost predicate Listed(t: seq<Entry>, i: int) {
    exists x :: 0 <= x < |t| && t[x].dest == i
  }

  ghost predicate Fresh(g: Matrix, c: Table, t: seq<Entry>) {
    && (forall x :: 0 <= x < |t| ==> 0 <= t[x].dest < |g| && t[x].dest !in c)
    && (forall x, y :: 0 <= x < y < |t| ==> t[x].dest != t[y].dest)
  }

  ghost predicate NoneCheaper(c: Table, t: seq<Entry>) {
    forall x, k :: 0 <= x < |t| && k in c ==> c[k].cost <= t[x].cost
  }

  /** Every node across a seen link is confirmed or tentative. */
  ghost predicate Frontier(g: Matrix, nx: int, lim: int, c: Table, t: seq<Entry>) {
    forall k, i :: k in c && Seen(g, nx, lim, k, i) ==> i in c || Listed(t, i)
  }

  /** No tentative cost exceeds that of a path with one more seen link. */
  ghost predicate NoneDearer(g: Matrix, nx: int, lim: int, c: Table, t: seq<Entry>) {
    forall x, k :: 0 <= x < |t| && k in c && Seen(g, nx, lim, k, t[x].dest) ==>
      t[x].cost <= c[k].cost + g[k][t[x].dest]
  }

  ghost predicate HopRules(g: Matrix, me: int, nx: int, lim: int, c: Table, t: seq<Entry>, a: Matrix) {
    forall x {:trigger HopRule(g, me, nx, lim, c, t[x], a)} ::
      0 <= x < |t| ==> HopRule(g, me, nx, lim, c, t[x], a)
  }

  /** Which entries there are, and their costs. */
  ghost predicate Shape(g: Matrix, nx: int, lim: int, c: Table, t: seq<Entry>) {
    Fresh(g, c, t) && NoneCheaper(c, t) && Frontier(g, nx, lim, c, t) && NoneDearer(g, nx, lim, c, t)
  }

  ghost predicate TentativeInv(g: Matrix, me: int, nx: int, lim: int, c: Table, t: seq<Entry>, a: Matrix) {
    Shape(g, nx, lim, c, t) && HopRules(g, me, nx, lim, c, t, a)
  }

  /** Moving a cheapest tentative entry to the confirmed ones: the confirmed side. */
  lemma ConfirmConfirmed(g: Matrix, me: int, c: Table, t: seq<Entry>, idx: nat, a: Matrix)
    requires ConfirmedInv(g, me, c, a) && TentativeInv(g, me, -1, 0, c, t, a)
    requires idx < |t|
    ensures ConfirmedInv(g, me, c[t[idx].dest := t[idx]], a)
  {
    var nx := t[idx];
    var c' := c[nx.dest := nx];
    assert c[me].cost <= nx.cost;
    forall i | i in c' && i != me
      ensures HopRule(g, me, -1, 0, c', c'[i], a)
    {
      HopRuleKept(g, me, c, c'[i], nx, a);
    }
    forall k, i | k in c' && i in c' && Edge(g, k, i)
      ensures c'[i].cost <= c'[k].cost + g[k][i]
    {
      if k in c && i == nx.dest {
        assert Seen(g, -1, 0, k, i);
      }
    }
  }

  /** The tentative side: no link of the confirmed node has been scanned yet. */
  lemma ConfirmTentative(g: Matrix, me: int, c: Table, t: seq<Entry>, idx: nat, a: Matrix)
    requires TentativeInv(g, me, -1, 0, c, t, a)
    requires idx < |t| && forall x :: 0 <= x < |t| ==> t[idx].cost <= t[x].cost
    ensures TentativeInv(g, me, t[idx].dest, 0, c[t[idx].dest := t[idx]], t[..idx] + t[idx + 1..], a)
  {
    ConfirmShape(g, c, t, idx);
    ConfirmHops(g, me, c, t, idx, a);
  }

  lemma ConfirmShape(g: Matrix, c: Table, t: seq<Entry>, idx: nat)
    requires Shape(g, -1, 0, c, t)
    requires idx < |t| && forall x :: 0 <= x < |t| ==> t[idx].cost <= t[x].cost
    ensures Shape(g, t[idx].dest, 0, c[t[idx].dest := t[idx]], t[..idx] + t[idx + 1..])
  {
    var nx := t[idx];
    var c' := c[nx.dest := nx];
    var t' := t[..idx] + t[idx + 1..];
    assert forall x :: 0 <= x < |t'| ==> t'[x] == t[if x < idx then x else x + 1];
    forall x, k | 0 <= x < |t'| && k in c' && Seen(g, nx.dest, 0, k, t'[x].dest)
      ensures t'[x].cost <= c'[k].cost + g[k][t'[x].dest]
    {
      assert Seen(g, -1, 0, k, t[if x < idx then x else x + 1].dest);
    }
    ConfirmFrontier(g, c, t, idx);
  }

  lemma ConfirmHops(g: Matrix, me: int, c: Table, t: seq<Entry>, idx: nat, a: Matrix)
    requires idx < |t| && Fresh(g, c, t) && HopRules(g, me, -1, 0, c, t, a)
    ensures HopRules(g, me, t[idx].dest, 0, c[t[idx].dest := t[idx]], t[..idx] + t[idx + 1..], a)
  {
    var t' := t[..idx] + t[idx + 1..];
    forall x | 0 <= x < |t'|
      ensures HopRule(g, me, t[idx].dest, 0, c[t[idx].dest := t[idx]], t'[x], a)
    {
      var y := if x < idx then x else x + 1;
      assert HopRule(g, me, -1, 0, c, t[y], a);
      HopRuleHidden(g, me, c, t[y], t[idx], a);
    }
  }

  lemma ConfirmFrontier(g: Matrix, c: Table, t: seq<Entry>, idx: nat)
    requires idx < |t| && Frontier(g, -1, 0, c, t)
    ensures Frontier(g, t[idx].dest, 0, c[t[idx].dest := t[idx]], t[..idx] + t[idx + 1..])
  {
    var nx := t[idx];
    var c' := c[nx.dest := nx];
    var t' := t[..idx] + t[idx + 1..];
    forall k, i | k in c' && Seen(g, nx.dest, 0, k, i) && i !in c'
      ensures Listed(t', i)
    {
      assert k in c && Seen(g, -1, 0, k, i);
      var y :| 0 <= y < |t| && t[y].dest == i;
      assert t'[if y < idx then y else y - 1] == t[y];
    }
  }

  /** A newly confirmed, most expensive entry is no last hop of the confirmed ones. */
  lemma HopRuleKept(g: Matrix, me: int, c: Table, e: Entry, nx: Entry, a: Matrix)
    requires HopRule(g, me, -1, 0, c, e, a) && nx.dest !in c && e.cost <= nx.cost
    ensures HopRule(g, me, -1, 0, c[nx.dest := nx], e, a)
  {
    var c' := c[nx.dest := nx];
    var k :| HopFrom(g, me, -1, 0, c, e, a, k);
    assert Tights(g, -1, 0, c, e.dest, e.cost) == Tights(g, -1, 0, c', e.dest, e.cost);
    ChosenSame(OwnLink(g, me, e.dest, e.cost), OwnLink(a, me, e.dest, e.cost), me,
               Tights(g, -1, 0, c, e.dest, e.cost), CostIn(c), CostIn(c'), k);
    assert HopFrom(g, me, -1, 0, c', e, a, k);
  }

  lemma HopRuleHidden(g: Matrix, me: int, c: Table, e: Entry, nx: Entry, a: Matrix)
    requires HopRule(g, me, -1, 0, c, e, a) && nx.dest !in c && 0 <= e.dest
    ensures HopRule(g, me, nx.dest, 0, c[nx.dest := nx], e, a)
  {
    var c' := c[nx.dest := nx];
    var k :| HopFrom(g, me, -1, 0, c, e, a, k);
    assert Tights(g, -1, 0, c, e.dest, e.cost) == Tights(g, nx.dest, 0, c', e.dest, e.cost);
    ChosenSame(OwnLink(g, me, e.dest, e.cost), OwnLink(a, me, e.dest, e.cost), me,
               Tights(g, -1, 0, c, e.dest, e.cost), CostIn(c), CostIn(c'), k);
    assert HopFrom(g, me, nx.dest, 0, c', e, a, k);
  }

  /** The invariant between two iterations. */
  ghost predicate SearchInv(g: Matrix, me: int, c: Table, t: seq<Entry>, a: Matrix) {
    ConfirmedInv(g, me, c, a) && TentativeInv(g, me, -1, 0, c, t, a)
  }

  /** The state in which the links of `next` are about to be scanned. */
  ghost predicate ScanReady(g: Matrix, me: int, c: Table, next: Entry, t: seq<Entry>, a: Matrix) {
    && me in c && c[me] == Entry(me, 0, -1)
    && 0 <= next.dest < |g| && next.dest != me && next.dest in c && c[next.dest] == next
    && (forall k :: k in c ==> c[k].cost <= next.cost)
    && TentativeInv(g, me, next.dest, 0, c, t, a)
  }

  lemma ConfirmStep(g: Matrix, me: int, c: Table, t: seq<Entry>, idx: nat, a: Matrix)
    requires SearchInv(g, me, c, t, a)
    requires idx < |t| && forall x :: 0 <= x < |t| ==> t[idx].cost <= t[x].cost
    ensures var c' := c[t[idx].dest := t[idx]];
            && ConfirmedInv(g, me, c', a)
            && ScanReady(g, me, c', t[idx], t[..idx] + t[idx + 1..], a)
            && NodesBelow(|g|) - c'.Keys < NodesBelow(|g|) - c.Keys
  {
    ConfirmConfirmed(g, me, c, t, idx, a);
    ConfirmTentative(g, me, c, t, idx, a);
    assert t[idx].dest in NodesBelow(|g|) - c.Keys;
  }

  // ---------- Scanning the link from nx to i ----------

  /** Nothing to do when there is no link, or its end is already confirmed. */
  lemma ScanSkip(g: Matrix, me: int, nx: int, i: int, c: Table, t: seq<Entry>, a: Matrix)
    requires TentativeInv(g, me, nx, i, c, t, a)
    requires !Edge(g, nx, i) || i in c
    ensures TentativeInv(g, me, nx, i + 1, c, t, a)
  {
    SkipLink(g, nx, i, c, t);
    assert HopRules(g, me, nx, i + 1, c, t, a) by {
      forall x | 0 <= x < |t|
        ensures HopRule(g, me, nx, i + 1, c, t[x], a)
      {
        HopRuleOther(g, me, nx, i, c, t[x], a);
      }
    }
  }

  lemma SkipLink(g: Matrix, nx: int, i: int, c: Table, t: seq<Entry>)
    requires Fresh(g, c, t) && Frontier(g, nx, i, c, t) && NoneDearer(g, nx, i, c, t)
    requires !Edge(g, nx, i) || i in c
    ensures Frontier(g, nx, i + 1, c, t) && NoneDearer(g, nx, i + 1, c, t)
  {
  }

  /** The link to i says nothing about entries for other destinations. */
  lemma HopRuleOther(g: Matrix, me: int, nx: int, i: int, c: Table, e: Entry, a: Matrix)
    requires HopRule(g, me, nx, i, c, e, a) && (e.dest != i || !Edge(g, nx, i))
    ensures HopRule(g, me, nx, i + 1, c, e, a)
  {
    var k :| HopFrom(g, me, nx, i, c, e, a, k);
    var lim := i + 1;
    assert Tights(g, nx, i, c, e.dest, e.cost) == Tights(g, nx, lim, c, e.dest, e.cost);
    assert HopFrom(g, me, nx, i + 1, c, e, a, k);
  }

  /** A path through nx that is the only one of its cost. */
  lemma OnlyChoice(g: Matrix, a: Matrix, me: int, nx: int, i: int, lim: int, c: Table, e: Entry)
    requires lim == i + 1 && me in c && c[me].cost == 0 && nx in c && Edge(g, nx, i)
    requires e == Entry(i, c[nx].cost + g[nx][i], Via(c, me, nx, i))
    requires forall k :: Tight(g, nx, lim, c, k, i, e.cost) ==> k == nx
    ensures HopRule(g, me, nx, lim, c, e, a)
  {
    var T := Tights(g, nx, lim, c, i, e.cost);
    assert Tight(g, nx, lim, c, nx, i, e.cost);
    assert T == iset{nx};
    assert OwnLink(g, me, i, e.cost) ==> Tight(g, nx, lim, c, me, i, e.cost);
    assert HopFrom(g, me, nx, lim, c, e, a, nx);
  }

  /** A destination seen for the first time. */
  lemma ScanNew(g: Matrix, me: int, nx: int, i: int, c: Table, t: seq<Entry>, a: Matrix)
    requires TentativeInv(g, me, nx, i, c, t, a)
    requires me in c && c[me].cost == 0 && nx in c && Edge(g, nx, i) && i !in c
    requires forall x :: 0 <= x < |t| ==> t[x].dest != i
    requires forall k :: k in c ==> c[k].cost <= c[nx].cost
    ensures TentativeInv(g, me, nx, i + 1, c, t + [Entry(i, c[nx].cost + g[nx][i], Via(c, me, nx, i))], a)
  {
    var e := Entry(i, c[nx].cost + g[nx][i], Via(c, me, nx, i));
    NewShape(g, nx, i, c, t, e);
    assert forall k :: k in c && Seen(g, nx, i + 1, k, i) && k != nx ==> Seen(g, nx, i, k, i);
    OnlyChoice(g, a, me, nx, i, i + 1, c, e);
    OthersKeepHops(g, me, nx, i, c, t, t + [e], a);
  }

  lemma NewShape(g: Matrix, nx: int, i: int, c: Table, t: seq<Entry>, e: Entry)
    requires Shape(g, nx, i, c, t) && nx in c && Edge(g, nx, i) && i !in c
    requires forall x :: 0 <= x < |t| ==> t[x].dest != i
    requires forall k :: k in c ==> c[k].cost <= c[nx].cost
    requires e.dest == i && e.cost == c[nx].cost + g[nx][i]
    ensures Shape(g, nx, i + 1, c, t + [e])
  {
    var t' := t + [e];
    assert forall k :: k in c && Seen(g, nx, i + 1, k, i) && k != nx ==> Seen(g, nx, i, k, i);
    ScanNewFrontier(g, nx, i, c, t, e);
    forall x, k | 0 <= x < |t| && k in c && Seen(g, nx, i + 1, k, t[x].dest)
      ensures t[x].cost <= c[k].cost + g[k][t[x].dest]
    {
      assert Seen(g, nx, i, k, t[x].dest);
    }
  }

  /** The entries for other destinations keep their hops, and the one for i has one that obeys the rule. */
  lemma OthersKeepHops(g: Matrix, me: int, nx: int, i: int, c: Table, t: seq<Entry>, t': seq<Entry>, a: Matrix)
    requires HopRules(g, me, nx, i, c, t, a)
    requires forall x :: 0 <= x < |t'| ==>
               (t'[x].dest == i && HopRule(g, me, nx, i + 1, c, t'[x], a)) ||
               (t'[x].dest != i && x < |t| && t'[x] == t[x])
    ensures HopRules(g, me, nx, i + 1, c, t', a)
  {
    forall x | 0 <= x < |t'|
      ensures HopRule(g, me, nx, i + 1, c, t'[x], a)
    {
      if t'[x].dest != i {
        assert HopRule(g, me, nx, i, c, t[x], a);
        HopRuleOther(g, me, nx, i, c, t[x], a);
      }
    }
  }

  lemma ScanNewFrontier(g: Matrix, nx: int, i: int, c: Table, t: seq<Entry>, e: Entry)
    requires Frontier(g, nx, i, c, t) && e.dest == i
    ensures Frontier(g, nx, i + 1, c, t + [e])
  {
    var t' := t + [e];
    assert t'[|t|].dest == i;
    forall k, j | k in c && Seen(g, nx, i + 1, k, j) && j !in c && j != i
      ensures Listed(t', j)
    {
      assert Seen(g, nx, i, k, j);
      var x :| 0 <= x < |t| && t[x].dest == j;
      assert t'[x].dest == j;
    }
  }

  /** A tentative destination whose entry is replaced by e: the cheaper cost of the old entry and
      the path through nx, with a next hop that obeys the rule. */
  lemma ScanUpdate(g: Matrix, me: int, nx: int, i: int, c: Table, t: seq<Entry>, x: nat, e: Entry, a: Matrix)
    requires TentativeInv(g, me, nx, i, c, t, a)
    requires nx in c && Edge(g, nx, i) && x < |t| && t[x].dest == i == e.dest
    requires forall k :: k in c ==> c[k].cost <= c[nx].cost
    requires e.cost == if c[nx].cost + g[nx][i] < t[x].cost then c[nx].cost + g[nx][i] else t[x].cost
    requires HopRule(g, me, nx, i + 1, c, e, a)
    ensures TentativeInv(g, me, nx, i + 1, c, t[x := e], a)
  {
    UpdateShape(g, nx, i, c, t, x, e);
    OthersKeepHops(g, me, nx, i, c, t, t[x := e], a);
  }

  lemma UpdateShape(g: Matrix, nx: int, i: int, c: Table, t: seq<Entry>, x: nat, e: Entry)
    requires Shape(g, nx, i, c, t)
    requires nx in c && Edge(g, nx, i) && x < |t| && t[x].dest == i == e.dest
    requires forall k :: k in c ==> c[k].cost <= c[nx].cost
    requires e.cost == if c[nx].cost + g[nx][i] < t[x].cost then c[nx].cost + g[nx][i] else t[x].cost
    ensures Shape(g, nx, i + 1, c, t[x := e])
  {
    var t' := t[x := e];
    assert Frontier(g, nx, i + 1, c, t') by {
      assert t'[x].dest == i;
      forall k, j | k in c && Seen(g, nx, i + 1, k, j) && j !in c && j != i
        ensures Listed(t', j)
      {
        assert Seen(g, nx, i, k, j);
        var y :| 0 <= y < |t| && t[y].dest == j;
        assert t'[y].dest == j;
      }
    }
    assert NoneDearer(g, nx, i + 1, c, t') by {
      forall y, k | 0 <= y < |t'| && k in c && Seen(g, nx, i + 1, k, t'[y].dest)
        ensures t'[y].cost <= c[k].cost + g[k][t'[y].dest]
      {
        assert k != nx || t'[y].dest != i ==> Seen(g, nx, i, k, t[y].dest);
      }
    }
  }

  /** The path through nx is strictly better: nx is the only last hop. */
  lemma HopCheaper(g: Matrix, me: int, nx: int, i: int, c: Table, t: seq<Entry>, x: nat, a: Matrix)
    requires Shape(g, nx, i, c, t)
    requires me in c && c[me].cost == 0 && nx in c && Edge(g, nx, i) && x < |t| && t[x].dest == i
    requires c[nx].cost + g[nx][i] < t[x].cost
    ensures HopRule(g, me, nx, i + 1, c, Entry(i, c[nx].cost + g[nx][i], Via(c, me, nx, i)), a)
  {
    var cost := c[nx].cost + g[nx][i];
    assert forall j :: Tight(g, nx, i + 1, c, j, i, cost) && j != nx ==> Seen(g, nx, i, j, i);
    OnlyChoice(g, a, me, nx, i, i + 1, c, Entry(i, cost, Via(c, me, nx, i)));
  }

  /** The path through nx is worse: nothing changes. */
  lemma HopDearer(g: Matrix, me: int, nx: int, i: int, c: Table, e: Entry, a: Matrix)
    requires HopRule(g, me, nx, i, c, e, a)
    requires nx in c && Edge(g, nx, i) && e.dest == i && e.cost < c[nx].cost + g[nx][i]
    ensures HopRule(g, me, nx, i + 1, c, e, a)
  {
    var k :| HopFrom(g, me, nx, i, c, e, a, k);
    var lim := i + 1;
    assert Tights(g, nx, i, c, e.dest, e.cost) == Tights(g, nx, lim, c, e.dest, e.cost);
    assert HopFrom(g, me, nx, i + 1, c, e, a, k);
  }

  /** After the whole row has been scanned every link counts again. */
  lemma ScanDone(g: Matrix, me: int, nx: int, c: Table, t: seq<Entry>, a: Matrix)
    requires TentativeInv(g, me, nx, |g|, c, t, a)
    ensures TentativeInv(g, me, -1, 0, c, t, a)
  {
    var lim := |g|;
    assert forall k, i :: Seen(g, -1, 0, k, i) <==> Seen(g, nx, lim, k, i);
    forall x | 0 <= x < |t|
      ensures HopRule(g, me, -1, 0, c, t[x], a)
    {
      assert HopRule(g, me, nx, lim, c, t[x], a);
      var k :| HopFrom(g, me, nx, lim, c, t[x], a, k);
      assert Tights(g, -1, 0, c, t[x].dest, t[x].cost) == Tights(g, nx, lim, c, t[x].dest, t[x].cost);
      assert HopFrom(g, me, -1, 0, c, t[x], a, k);
    }
  }

  // ---------- The first scan: the router's own links ----------

  function SelfOnly(me: int): Table {
    map[me := Entry(me, 0, -1)]
  }

  ghost predicate NeighbourInv(g: Matrix, me: int, i: int, t: seq<Entry>, a: Matrix) {
    && TentativeInv(g, me, me, i, SelfOnly(me), t, a)
    && (forall x :: 0 <= x < |t| ==> t[x].dest < i)
  }

  lemma NeighbourAdd(g: Matrix, me: int, i: int, cost: int, t: seq<Entry>, a: Matrix)
    requires 0 <= me < |g| && Edge(g, me, i) && g[me][i] == cost && i != me && NeighbourInv(g, me, i, t, a)
    ensures NeighbourInv(g, me, i + 1, t + [Entry(i, cost, i)], a)
  {
    ScanNew(g, me, me, i, SelfOnly(me), t, a);
  }

  lemma NeighbourSkip(g: Matrix, me: int, i: int, t: seq<Entry>, a: Matrix)
    requires !Edge(g, me, i) && NeighbourInv(g, me, i, t, a)
    ensures NeighbourInv(g, me, i + 1, t, a)
  {
    ScanSkip(g, me, me, i, SelfOnly(me), t, a);
  }

  lemma NeighbourDone(g: Matrix, me: int, t: seq<Entry>, a: Matrix)
    requires NeighbourInv(g, me, |g|, t, a)
    requires Square(g) && 0 <= me < |g| && !Edge(g, me, me)
    ensures SearchInv(g, me, SelfOnly(me), t, a)
  {
    ScanDone(g, me, me, SelfOnly(me), t, a);
  }

  // ---------- The tie-break ----------

  /** The graph of router `me`: its own links from its connection state, all others from `a`. */
  ghost predicate GraphOf(g: Matrix, a: Matrix, me: int) {
    && Square(g) && Square(a) && |g| == |a| && 0 <= me < |a|
    && (forall u :: 0 <= u < |a| && u != me ==> g[u] == a[u])
    && (forall u, v :: 0 <= u < |a| && 0 <= v < |a| ==> a[u][v] == a[v][u])
  }

  /** The matrix and the connection state agree on the links of `me`. */
  ghost predicate SelfRowAgrees(g: Matrix, a: Matrix, me: int) {
    forall u :: (Edge(g, me, u) <==> Edge(a, me, u)) && (Edge(g, me, u) && Edge(a, me, u) ==> g[me][u] == a[me][u])
  }

  /** What the tie-break looks for: another confirmed node whose link from i, read in the
      direction away from i, closes an equally expensive path. */
  predicate TiedNeighbour(a: Matrix, nx: int, c: Table, k: int, i: int, cost: int) {
    k != nx && Edge(a, i, k) && k in c && c[k].cost + a[i][k] == cost
  }

  ghost predicate LowestTied(a: Matrix, nx: int, c: Table, m: int, i: int, cost: int) {
    TiedNeighbour(a, nx, c, m, i, cost) && forall k :: TiedNeighbour(a, nx, c, k, i, cost) ==> m <= k
  }

  lemma {:induction false} LowestTiedExists(a: Matrix, nx: int, c: Table, k: int, i: int, cost: int) returns (m: int)
    requires TiedNeighbour(a, nx, c, k, i, cost)
    ensures LowestTied(a, nx, c, m, i, cost)
    decreases k
  {
    if j :| TiedNeighbour(a, nx, c, j, i, cost) && j < k {
      m := LowestTiedExists(a, nx, c, j, i, cost);
    } else {
      m := k;
    }
  }

  /** The next hop chosen on a tie with lowest tied neighbour m. */
  function TieHop(c: Table, me: int, nx: int, i: int, m: int, hop: int): int {
    if nx < m then Via(c, me, nx, i)
    else if m != me && m in c && hop != c[m].nexthop then c[m].nexthop
    else hop
  }

  /** The outcome r of a tie: the old hop without tied neighbours, TieHop with the lowest one otherwise. */
  ghost predicate TieBroken(a: Matrix, me: int, c: Table, nx: int, i: int, cost: int, hop: int, r: int) {
    && ((forall k :: !TiedNeighbour(a, nx, c, k, i, cost)) ==> r == hop)
    && (forall m :: LowestTied(a, nx, c, m, i, cost) ==> r == TieHop(c, me, nx, i, m, hop))
  }

  /** The last hops that the tie-break takes into account before nx is one. */
  ghost function TiedSet(known: bool, me: int, T: iset<int>): iset<int> {
    iset k | (if k == me then known else k in T)
  }

  /** The tie-break finds the other last hops seen so far, and the router itself if the matrix has an
      own link of this cost. */
  lemma TiedAre(g: Matrix, a: Matrix, me: int, nx: int, i: int, c: Table, cost: int)
    requires GraphOf(g, a, me) && 0 <= i < |a| && nx != me && me in c && c[me].cost == 0
    ensures (iset k | TiedNeighbour(a, nx, c, k, i, cost))
            == TiedSet(OwnLink(a, me, i, cost), me, Tights(g, nx, i, c, i, cost))
  {
    forall k
      ensures TiedNeighbour(a, nx, c, k, i, cost) <==>
                if k == me then OwnLink(a, me, i, cost) else Tight(g, nx, i, c, k, i, cost)
    {
      assert Edge(a, i, k) <==> Edge(a, k, i);
      assert k != me ==> (Edge(g, k, i) <==> Edge(a, k, i));
    }
  }

  /** The choice after nx has become one more last hop, without any tied neighbour ... */
  lemma ChosenAlone(own: bool, known: bool, me: int, T: iset<int>, cost: int -> int, nx: int, k: int)
    requires Chosen(own, known, me, T, cost, k) && nx !in T && nx != me && (me in T <==> own)
    requires forall j :: j in T ==> cost(j) <= cost(nx)
    requires TiedSet(known, me, T) == iset{}
    ensures Chosen(own, known, me, T + iset{nx}, cost, k)
  {
    assert k in TiedSet(known, me, T) || k == me;
  }

  /** ... and with m the lowest of them. */
  lemma ChosenTie(own: bool, known: bool, me: int, T: iset<int>, cost: int -> int, nx: int, k: int, m: int)
    requires Chosen(own, known, me, T, cost, k) && nx !in T && nx != me && (me in T <==> own)
    requires forall j :: j in T ==> cost(j) <= cost(nx)
    requires Lowest(TiedSet(known, me, T), m)
    ensures Chosen(own, known, me, T + iset{nx}, cost, if nx < m then nx else if m == me then k else m)
  {
    var T', k' := T + iset{nx}, if nx < m then nx else if m == me then k else m;
    assert forall j :: j in TiedSet(known, me, T) <==> if j == me then known else j in T;
    if own == known {
      assert k == m;
    } else if own {
      var lo, hi := if nx < m then nx else m, if nx < m then m else nx;
      assert lo < hi && lo in T' && hi in T';
      assert Many(me, T');
      assert Lowest(T' - iset{me}, lo);
    } else {
      assert me in TiedSet(known, me, T);
    }
  }

  /** The link from nx makes nx one more last hop. */
  ghost predicate TieAt(g: Matrix, a: Matrix, me: int, nx: int, i: int, c: Table, e: Entry, hop: int) {
    && GraphOf(g, a, me) && nx in c && nx != me && Edge(g, nx, i) && e.dest == i && i != me
    && e.cost == c[nx].cost + g[nx][i] && me in c && c[me].cost == 0
    && (forall k :: k in c ==> c[k].cost <= c[nx].cost)
    && HopRule(g, me, nx, i, c, e, a) && TieBroken(a, me, c, nx, i, e.cost, e.nexthop, hop)
  }

  lemma TieRule(g: Matrix, a: Matrix, me: int, nx: int, i: int, c: Table, e: Entry, hop: int)
    requires TieAt(g, a, me, nx, i, c, e, hop)
    ensures HopRule(g, me, nx, i + 1, c, e.(nexthop := hop), a)
  {
    var own, known := OwnLink(g, me, i, e.cost), OwnLink(a, me, i, e.cost);
    var lim, T := i + 1, Tights(g, nx, i, c, i, e.cost);
    TiedAre(g, a, me, nx, i, c, e.cost);
    assert Tights(g, nx, lim, c, i, e.cost) == T + iset{nx};
    var tied := iset k | TiedNeighbour(a, nx, c, k, i, e.cost);
    var k :| HopFrom(g, me, nx, i, c, e, a, k);
    if t :| t in tied {
      var m := LowestTiedExists(a, nx, c, t, i, e.cost);
      assert Lowest(tied, m);
      ChosenTie(own, known, me, T, CostIn(c), nx, k, m);
      assert HopFrom(g, me, nx, lim, c, e.(nexthop := hop), a, if nx < m then nx else if m == me then k else m);
    } else {
      assert forall j :: TiedNeighbour(a, nx, c, j, i, e.cost) ==> j in tied;
      ChosenAlone(own, known, me, T, CostIn(c), nx, k);
      assert HopFrom(g, me, nx, lim, c, e.(nexthop := hop), a, k);
    }
  }

  // ---------- One link of the scan ----------

  /** What scanning the link from `next` to i does to the tentative entries t. */
  ghost predicate ScannedLink(a: Matrix, me: int, c: Table, next: Entry, i: int, t: seq<Entry>, t': seq<Entry>) {
    if !Edge(a, next.dest, i) then t' == t
    else
      var cost := next.cost + a[next.dest][i];
      if Listed(t, i) then
        exists x :: 0 <= x < |t| && t[x].dest == i && UpdatedEntry(a, me, c, next, i, cost, t, x, t')
      else if i in c then t' == t
      else t' == t + [Entry(i, cost, next.nexthop)]
  }

  ghost predicate UpdatedEntry(a: Matrix, me: int, c: Table, next: Entry, i: int, cost: int,
                               t: seq<Entry>, x: nat, t': seq<Entry>)
    requires x < |t|
  {
    if t[x].cost > cost then t' == t[x := Entry(i, cost, next.nexthop)]
    else if t[x].cost < cost then t' == t
    else |t'| == |t| && t' == t[x := t[x].(nexthop := t'[x].nexthop)]
         && TieBroken(a, me, c, next.dest, i, cost, t[x].nexthop, t'[x].nexthop)
  }

  lemma ScanRule(g: Matrix, a: Matrix, me: int, c: Table, next: Entry, i: int, t: seq<Entry>, t': seq<Entry>)
    requires GraphOf(g, a, me) && me in c && c[me].cost == 0 && TentativeInv(g, me, next.dest, i, c, t, a)
    requires next.dest in c && c[next.dest] == next && next.dest != me && 0 <= i < |a|
    requires forall k :: k in c ==> c[k].cost <= next.cost
    requires ScannedLink(a, me, c, next, i, t, t')
    ensures TentativeInv(g, me, next.dest, i + 1, c, t', a)
  {
    if !Edge(a, next.dest, i) {
      ScanSkip(g, me, next.dest, i, c, t, a);
    } else if i in c {
      assert Fresh(g, c, t);
      ScanSkip(g, me, next.dest, i, c, t, a);
    } else if !Listed(t, i) {
      ScanNew(g, me, next.dest, i, c, t, a);
    } else {
      assert i != me by { assert Fresh(g, c, t); }
      var x :| 0 <= x < |t| && t[x].dest == i
               && UpdatedEntry(a, me, c, next, i, next.cost + a[next.dest][i], t, x, t');
      ScanFound(g, a, me, c, next, i, t, x, t');
    }
  }

  /** The state in which the entry for i is found at place x. */
  ghost predicate Found(g: Matrix, a: Matrix, me: int, c: Table, next: Entry, i: int, t: seq<Entry>, x: nat) {
    && GraphOf(g, a, me) && i != me && me in c && c[me].cost == 0
    && TentativeInv(g, me, next.dest, i, c, t, a)
    && next.dest in c && c[next.dest] == next && next.dest != me && 0 <= i < |a| && Edge(a, next.dest, i)
    && (forall k :: k in c ==> c[k].cost <= next.cost)
    && x < |t| && t[x].dest == i
  }

  lemma FoundDearer(g: Matrix, a: Matrix, me: int, c: Table, next: Entry, i: int, t: seq<Entry>, x: nat)
    requires Found(g, a, me, c, next, i, t, x) && next.cost + a[next.dest][i] < t[x].cost
    ensures TentativeInv(g, me, next.dest, i + 1, c, t[x := Entry(i, next.cost + a[next.dest][i], next.nexthop)], a)
  {
    var e := Entry(i, next.cost + a[next.dest][i], next.nexthop);
    HopCheaper(g, me, next.dest, i, c, t, x, a);
    ScanUpdate(g, me, next.dest, i, c, t, x, e, a);
  }

  lemma FoundCheaper(g: Matrix, a: Matrix, me: int, c: Table, next: Entry, i: int, t: seq<Entry>, x: nat)
    requires Found(g, a, me, c, next, i, t, x) && t[x].cost < next.cost + a[next.dest][i]
    ensures TentativeInv(g, me, next.dest, i + 1, c, t, a)
  {
    assert HopRule(g, me, next.dest, i, c, t[x], a);
    HopDearer(g, me, next.dest, i, c, t[x], a);
    ScanUpdate(g, me, next.dest, i, c, t, x, t[x], a);
    assert t == t[x := t[x]];
  }

  lemma FoundTied(g: Matrix, a: Matrix, me: int, c: Table, next: Entry, i: int, t: seq<Entry>, x: nat, hop: int)
    requires Found(g, a, me, c, next, i, t, x) && t[x].cost == next.cost + a[next.dest][i]
    requires TieBroken(a, me, c, next.dest, i, t[x].cost, t[x].nexthop, hop)
    ensures TentativeInv(g, me, next.dest, i + 1, c, t[x := t[x].(nexthop := hop)], a)
  {
    assert HopRule(g, me, next.dest, i, c, t[x], a);
    TieRule(g, a, me, next.dest, i, c, t[x], hop);
    ScanUpdate(g, me, next.dest, i, c, t, x, t[x].(nexthop := hop), a);
  }

  lemma ScanFound(g: Matrix, a: Matrix, me: int, c: Table, next: Entry, i: int, t: seq<Entry>, x: nat, t': seq<Entry>)
    requires Found(g, a, me, c, next, i, t, x)
    requires UpdatedEntry(a, me, c, next, i, next.cost + a[next.dest][i], t, x, t')
    ensures TentativeInv(g, me, next.dest, i + 1, c, t', a)
  {
    var cost := next.cost + a[next.dest][i];
    if cost < t[x].cost {
      FoundDearer(g, a, me, c, next, i, t, x);
    } else if t[x].cost < cost {
      FoundCheaper(g, a, me, c, next, i, t, x);
    } else {
      FoundTied(g, a, me, c, next, i, t, x, t'[x].nexthop);
    }
  }
}

/** What the link-state search can end with, and where its tie-break meets the documented rule. */
module SearchOutcome {
  import opened Graphs
  import opened ForwardingTable

  // ---------- When nothing is tentative any more ----------

  ghost predicate Finished(g: Matrix, a: Matrix, me: int, c: Table) {
    ConfirmedInv(g, me, c, a) && Frontier(g, -1, 0, c, [])
  }

  lemma SearchCosts(g: Matrix, a: Matrix, me: int, c: Table)
    requires Finished(g, a, me, c)
    ensures forall d :: d in c <==> 0 <= d < |g| && Reach(g, me, d)
    ensures forall d :: d in c ==> c[d].cost == Dist(g, me, d)
  {
    var t := map k | k in c :: c[k].cost;
    assert TightTable(g, me, t) by {
      forall u, v | u in t && Edge(g, u, v)
        ensures v in t
      {
        assert Seen(g, -1, 0, u, v);
      }
      forall v | v in t && v != me
        ensures exists u :: u in t && Edge(g, u, v) && t[u] + g[u][v] == t[v]
      {
        assert HopRule(g, me, -1, 0, c, c[v], a);
        var k :| HopFrom(g, me, -1, 0, c, c[v], a, k);
        assert k in t && Edge(g, k, v);
      }
    }
    TightTableIsDist(g, me, t);
    assert forall d :: d in c <==> d in t;
  }

  ghost function LastHops(g: Matrix, me: int, d: int): iset<int> {
    iset k | LastHop(g, me, k, d)
  }

  /** In a finished table the last hops are those of the graph. */
  lemma TightsAreLastHops(g: Matrix, a: Matrix, me: int, c: Table, d: int)
    requires Finished(g, a, me, c) && d in c
    ensures Tights(g, -1, 0, c, d, c[d].cost) == LastHops(g, me, d)
  {
    SearchCosts(g, a, me, c);
    forall k | LastHop(g, me, k, d)
      ensures 0 <= k < |g|
    {
      assert Edge(g, k, d);
    }
  }

  lemma {:induction false} SearchHopsSound(g: Matrix, a: Matrix, me: int, c: Table, d: int)
    requires Finished(g, a, me, c) && d in c && d != me
    ensures StartsShortest(g, me, c[d].nexthop, d)
    decreases c[d].cost
  {
    SearchCosts(g, a, me, c);
    assert HopRule(g, me, -1, 0, c, c[d], a);
    var k :| HopFrom(g, me, -1, 0, c, c[d], a, k);
    DistSelf(g, d);
    if k == me {
      DistSelf(g, me);
    } else {
      SearchHopsSound(g, a, me, c, k);
      var h := c[d].nexthop;
      LastHopBound(g, h, k, d);
      FirstHopBound(g, me, h, d);
    }
  }

  /** Whatever the own links say, the finished table is sound. */
  lemma SearchSound(g: Matrix, a: Matrix, me: int, c: Table)
    requires Finished(g, a, me, c)
    ensures SoundTable(g, me, c)
  {
    SearchCosts(g, a, me, c);
    forall d | d in c && d != me
      ensures StartsShortest(g, me, c[d].nexthop, d)
    {
      SearchHopsSound(g, a, me, c, d);
    }
  }

  // ---------- The outcomes are the tables that follow a choice of last hops ----------

  ghost function DistTo(g: Matrix, me: int): int -> int {
    k => if Reach(g, me, k) then Dist(g, me, k) else 0
  }

  /** k is a last hop that the search can settle on for d. Of several nearest last hops, the one found first
      depends on the order in which the nodes were confirmed; everything else is decided by the graph. */
  ghost predicate Choice(g: Matrix, a: Matrix, me: int, d: int, k: int)
    requires Reach(g, me, d)
  {
    Chosen(OwnLink(g, me, d, Dist(g, me, d)), OwnLink(a, me, d, Dist(g, me, d)), me, LastHops(g, me, d),
        DistTo(g, me), k)
  }

  ghost predicate Choices(g: Matrix, a: Matrix, me: int, f: int -> int) {
    forall d :: Reach(g, me, d) && d != me ==> Choice(g, a, me, d, f(d))
  }

  /** f steps back along shortest paths. */
  ghost predicate StepsBack(g: Matrix, me: int, f: int -> int) {
    forall d {:trigger f(d)} :: Reach(g, me, d) && d != me ==> LastHop(g, me, f(d), d)
  }

  /** The first node of the path that f steps back along. */
  ghost function FirstHop(g: Matrix, me: int, f: int -> int, d: int): int
    requires StepsBack(g, me, f) && Reach(g, me, d) && d != me
    decreases Dist(g, me, d)
  {
    if f(d) == me then d else FirstHop(g, me, f, f(d))
  }

  ghost function TableBy(g: Matrix, me: int, f: int -> int): Table
    requires StepsBack(g, me, f) && 0 <= me < |g|
  {
    map d | 0 <= d < |g| && Reach(g, me, d) ::
      Entry(d, Dist(g, me, d), if d == me then -1 else FirstHop(g, me, f, d))
  }

  ghost predicate Follows(g: Matrix, a: Matrix, me: int, c: Table, f: int -> int) {
    0 <= me < |g| && Choices(g, a, me, f) && StepsBack(g, me, f) && c == TableBy(g, me, f)
  }

  lemma ChoicesStepBack(g: Matrix, a: Matrix, me: int, f: int -> int)
    requires Choices(g, a, me, f)
    ensures StepsBack(g, me, f)
  {
    forall d | Reach(g, me, d) && d != me
      ensures LastHop(g, me, f(d), d)
    {
      assert Choice(g, a, me, d, f(d));
    }
  }

  /** The last hop a finished table has settled on for d. */
  ghost function Settled(g: Matrix, a: Matrix, me: int, c: Table, d: int): (k: int)
    requires Finished(g, a, me, c) && d in c && d != me
    ensures HopFrom(g, me, -1, 0, c, c[d], a, k)
  {
    assert HopRule(g, me, -1, 0, c, c[d], a);
    var k :| HopFrom(g, me, -1, 0, c, c[d], a, k);
    k
  }

  lemma SettledIsChoice(g: Matrix, a: Matrix, me: int, c: Table, d: int)
    requires Finished(g, a, me, c) && d in c && d != me && Reach(g, me, d)
    ensures var k := Settled(g, a, me, c, d);
            Choice(g, a, me, d, k) && LastHop(g, me, k, d) && k in c && c[d].nexthop == Via(c, me, k, d)
  {
    var k := Settled(g, a, me, c, d);
    SearchCosts(g, a, me, c);
    TightsAreLastHops(g, a, me, c, d);
    assert k in LastHops(g, me, d);
    forall j | j in LastHops(g, me, d)
      ensures DistTo(g, me)(j) == CostIn(c)(j)
    {
      assert Tight(g, -1, 0, c, j, d, c[d].cost);
    }
    ChosenSame(OwnLink(g, me, d, c[d].cost), OwnLink(a, me, d, c[d].cost), me, LastHops(g, me, d), CostIn(c),
               DistTo(g, me), k);
  }

  ghost function SettledOn(g: Matrix, a: Matrix, me: int, c: Table): int -> int
    requires Finished(g, a, me, c)
  {
    d => if d in c && d != me then Settled(g, a, me, c, d) else 0
  }

  lemma {:induction false} SettledFirstHop(g: Matrix, a: Matrix, me: int, c: Table, f: int -> int, d: int)
    requires Finished(g, a, me, c) && f == SettledOn(g, a, me, c) && StepsBack(g, me, f)
    requires Reach(g, me, d) && d != me && d in c
    ensures c[d].nexthop == FirstHop(g, me, f, d)
    decreases Dist(g, me, d)
  {
    SettledIsChoice(g, a, me, c, d);
    if f(d) != me {
      SettledFirstHop(g, a, me, c, f, f(d));
    }
  }

  lemma SettledChoices(g: Matrix, a: Matrix, me: int, c: Table)
    requires Finished(g, a, me, c)
    ensures Choices(g, a, me, SettledOn(g, a, me, c)) && StepsBack(g, me, SettledOn(g, a, me, c))
  {
    var f := SettledOn(g, a, me, c);
    forall d | Reach(g, me, d) && d != me
      ensures Choice(g, a, me, d, f(d))
    {
      ReachInRange(g, me, d);
      assert d in c by {
        SearchCosts(g, a, me, c);
      }
      SettledIsChoice(g, a, me, c, d);
    }
    ChoicesStepBack(g, a, me, f);
  }

  /** The entry of a table by f. */
  ghost predicate EntryBy(g: Matrix, me: int, f: int -> int, d: int, e: Entry)
    requires StepsBack(g, me, f) && Reach(g, me, d)
  {
    e == Entry(d, Dist(g, me, d), if d == me then -1 else FirstHop(g, me, f, d))
  }

  lemma IsTableBy(g: Matrix, me: int, f: int -> int, c: Table)
    requires StepsBack(g, me, f) && 0 <= me < |g|
    requires forall d :: d in c <==> 0 <= d < |g| && Reach(g, me, d)
    requires forall d :: d in c ==> EntryBy(g, me, f, d, c[d])
    ensures c == TableBy(g, me, f)
  {
    var t := TableBy(g, me, f);
    assert c.Keys == t.Keys;
    forall d | d in c
      ensures c[d] == t[d]
    {
      assert EntryBy(g, me, f, d, c[d]);
    }
  }

  lemma SettledEntry(g: Matrix, a: Matrix, me: int, c: Table, f: int -> int, d: int)
    requires Finished(g, a, me, c) && f == SettledOn(g, a, me, c) && StepsBack(g, me, f) && d in c
    ensures Reach(g, me, d) && EntryBy(g, me, f, d, c[d])
  {
    SearchCosts(g, a, me, c);
    DistSelf(g, me);
    if d != me {
      SettledFirstHop(g, a, me, c, f, d);
    }
  }

  /** A finished table follows the choices it has settled on ... */
  lemma FinishedFollows(g: Matrix, a: Matrix, me: int, c: Table)
    requires Finished(g, a, me, c)
    ensures Follows(g, a, me, c, SettledOn(g, a, me, c))
  {
    var f := SettledOn(g, a, me, c);
    SettledChoices(g, a, me, c);
    SearchCosts(g, a, me, c);
    forall d | d in c
      ensures EntryBy(g, me, f, d, c[d])
    {
      SettledEntry(g, a, me, c, f, d);
    }
    IsTableBy(g, me, f, c);
  }

  lemma ReachInRange(g: Matrix, me: int, d: int)
    requires 0 <= me < |g| && Reach(g, me, d)
    ensures 0 <= d < |g|
  {
    if d != me {
      var k := LowestLastHop(g, me, d);
      assert Edge(g, k, d);
    }
  }

  /** ... and every table that follows some choices is one the search can end with. */
  lemma FollowsFinished(g: Matrix, a: Matrix, me: int, c: Table, f: int -> int)
    requires Follows(g, a, me, c, f)
    ensures Finished(g, a, me, c)
  {
    DistSelf(g, me);
    forall k, i | k in c && Edge(g, k, i)
      ensures i in c && c[i].cost <= c[k].cost + g[k][i]
    {
      LastHopBound(g, me, k, i);
    }
    forall i | i in c && i != me
      ensures HopRule(g, me, -1, 0, c, c[i], a)
    {
      FollowsRule(g, a, me, c, f, i);
    }
    assert ConfirmedInv(g, me, c, a);
    forall k, i | k in c && Seen(g, -1, 0, k, i)
      ensures i in c
    {
    }
  }

  lemma FollowsRule(g: Matrix, a: Matrix, me: int, c: Table, f: int -> int, i: int)
    requires Follows(g, a, me, c, f) && i in c && i != me
    ensures HopRule(g, me, -1, 0, c, c[i], a)
  {
    var k := f(i);
    var T := LastHops(g, me, i);
    assert Choice(g, a, me, i, k);
    assert LastHop(g, me, k, i);
    assert T == Tights(g, -1, 0, c, i, c[i].cost) by {
      forall j | LastHop(g, me, j, i)
        ensures j in c
      {
        ReachInRange(g, me, j);
      }
    }
    forall j | j in T
      ensures CostIn(c)(j) == DistTo(g, me)(j)
    {
      ReachInRange(g, me, j);
    }
    ChosenSame(OwnLink(g, me, i, c[i].cost), OwnLink(a, me, i, c[i].cost), me, T, DistTo(g, me), CostIn(c), k);
    ReachInRange(g, me, k);
    assert HopFrom(g, me, -1, 0, c, c[i], a, k);
  }

  /** The search ends with exactly the tables that follow some choices. */
  lemma OutcomesIff(g: Matrix, a: Matrix, me: int, c: Table)
    ensures Finished(g, a, me, c) <==> exists f :: Follows(g, a, me, c, f)
  {
    if Finished(g, a, me, c) {
      FinishedFollows(g, a, me, c);
    }
    if f :| Follows(g, a, me, c, f) {
      FollowsFinished(g, a, me, c, f);
    }
  }

  // ---------- There always is one ----------

  lemma {:induction false} LowestOf(T: iset<int>, k: int) returns (m: int)
    requires k in T && 0 <= k && forall j :: j in T ==> 0 <= j
    ensures Lowest(T, m)
    decreases k
  {
    if j :| j in T && j < k {
      m := LowestOf(T, j);
    } else {
      m := k;
    }
  }

  lemma {:induction false} NearestOf(T: iset<int>, cost: int -> int, k: int) returns (m: int)
    requires k in T && 0 <= cost(k) && forall j :: j in T ==> 0 <= cost(j)
    ensures m in T && Nearest(T, cost, m)
    decreases cost(k)
  {
    if j :| j in T && cost(j) < cost(k) {
      m := NearestOf(T, cost, j);
    } else {
      m := k;
    }
  }

  lemma ChoiceExists(g: Matrix, a: Matrix, me: int, d: int) returns (k: int)
    requires 0 <= me < |g| && Reach(g, me, d) && d != me
    ensures Choice(g, a, me, d, k)
  {
    var own, known := OwnLink(g, me, d, Dist(g, me, d)), OwnLink(a, me, d, Dist(g, me, d));
    var T, m := LastHops(g, me, d), LowestLastHop(g, me, d);
    assert Lowest(T, m);
    forall j | j in T
      ensures 0 <= j
    {
      assert Edge(g, j, d);
    }
    OwnIsLastHop(g, me, d);
    if own == known || (!own && m < me) {
      k := m;
    } else if own {
      if Many(me, T) {
        var j, x :| j < x && j in T && x in T && j != me && x != me;
        assert j in T - iset{me};
        k := LowestOf(T - iset{me}, j);
      } else {
        k := me;
      }
    } else {
      k := NearestOf(T, DistTo(g, me), m);
      assert m <= k;
    }
  }

  /** An own link on a shortest path makes the router itself a last hop. */
  lemma OwnIsLastHop(g: Matrix, me: int, d: int)
    requires Reach(g, me, d)
    ensures me in LastHops(g, me, d) <==> OwnLink(g, me, d, Dist(g, me, d))
  {
    DistSelf(g, me);
  }

  ghost function AnyChoice(g: Matrix, a: Matrix, me: int): int -> int
    requires 0 <= me < |g|
  {
    d => if Reach(g, me, d) && d != me then (var k := PickChoice(g, a, me, d); k) else 0
  }

  ghost function PickChoice(g: Matrix, a: Matrix, me: int, d: int): (k: int)
    requires 0 <= me < |g| && Reach(g, me, d) && d != me
    ensures Choice(g, a, me, d, k)
  {
    assert exists x :: Choice(g, a, me, d, x) by {
      var x := ChoiceExists(g, a, me, d);
    }
    var k :| Choice(g, a, me, d, k);
    k
  }

  // ---------- Where the tie-break rule is met ----------

  /** Out of the last hops T, the choice of the search is the lowest for certain. */
  ghost predicate FairChoice(own: bool, known: bool, me: int, T: iset<int>) {
    if own == known then true
    else if own && !Many(me, T) then forall k :: k in T ==> me <= k
    else Many(me, T) ==> exists k :: k in T && k < me
  }

  /** The tie-break decides d by the documented rule: the matrix and the connection state say the same
      about an own link on a shortest path to d, or what they say makes no difference. */
  ghost predicate Fair(g: Matrix, a: Matrix, me: int, d: int)
    requires Reach(g, me, d)
  {
    FairChoice(OwnLink(g, me, d, Dist(g, me, d)), OwnLink(a, me, d, Dist(g, me, d)), me, LastHops(g, me, d))
  }

  lemma ChosenIsFair(own: bool, known: bool, me: int, T: iset<int>, cost: int -> int, k: int, m: int)
    requires Chosen(own, known, me, T, cost, k) && Lowest(T, m) && (me in T <==> own)
    ensures FairChoice(own, known, me, T) ==> k == m
    ensures own && !FairChoice(own, known, me, T) ==> (k == me <==> m != me)
  {
    if own == known {
    } else if own {
      if Many(me, T) {
        assert k in T - iset{me};
        assert m != me ==> m in T - iset{me};
        if j :| j in T && j < me {
          assert j in T - iset{me};
        }
      }
    } else if !Many(me, T) {
      assert k < m || m < k || k == m;
    }
  }

  /** All nodes of the canonical path to d are decided by the rule. */
  ghost predicate FairPath(g: Matrix, a: Matrix, me: int, d: int)
    requires Reach(g, me, d)
    decreases Dist(g, me, d)
  {
    d == me || (Fair(g, a, me, d) && FairPath(g, a, me, LowestLastHop(g, me, d)))
  }

  /** The rule is missed at d for certain: there is an own link on a shortest path to d that the matrix
      does not know, and it matters. */
  ghost predicate Misled(g: Matrix, a: Matrix, me: int, d: int) {
    d != me && Reach(g, me, d) && OwnLink(g, me, d, Dist(g, me, d)) && !Fair(g, a, me, d)
  }

  lemma AgreementIsFair(g: Matrix, a: Matrix, me: int, d: int)
    requires SelfRowAgrees(g, a, me) && Reach(g, me, d)
    ensures FairPath(g, a, me, d)
    decreases Dist(g, me, d)
  {
    if d != me {
      assert Edge(g, me, d) <==> Edge(a, me, d);
      AgreementIsFair(g, a, me, LowestLastHop(g, me, d));
    }
  }

  /** A node is not the first step towards a node that is nearer. */
  lemma NotFirstStep(g: Matrix, me: int, k: int, d: int)
    requires LastHop(g, me, k, d)
    ensures !StartsShortest(g, me, d, k)
  {
    if StartsShortest(g, me, d, k) {
      DistSelf(g, d);
      FirstHopBound(g, me, d, d);
    }
  }

  lemma FirstStepStarts(g: Matrix, me: int, d: int)
    requires Reach(g, me, d) && d != me
    ensures StartsShortest(g, me, CanonicalPath(g, me, d)[0], d)
  {
    CanonicalPathIsShortest(g, me, d);
    var p := CanonicalPath(g, me, d);
    assert IsPath(g, p[0], p[1..], d);
    FirstHopBound(g, me, p[0], d);
  }

  lemma FairChoiceMade(g: Matrix, a: Matrix, me: int, d: int, k: int)
    requires Reach(g, me, d) && d != me && Choice(g, a, me, d, k)
    ensures Fair(g, a, me, d) ==> k == LowestLastHop(g, me, d)
    ensures Misled(g, a, me, d) ==> (k == me <==> LowestLastHop(g, me, d) != me)
  {
    var m := LowestLastHop(g, me, d);
    assert Lowest(LastHops(g, me, d), m);
    OwnIsLastHop(g, me, d);
    ChosenIsFair(OwnLink(g, me, d, Dist(g, me, d)), OwnLink(a, me, d, Dist(g, me, d)), me, LastHops(g, me, d),
                 DistTo(g, me), k, m);
  }

  lemma {:induction false} FirstHopStarts(g: Matrix, me: int, f: int -> int, d: int)
    requires StepsBack(g, me, f) && Reach(g, me, d) && d != me
    ensures StartsShortest(g, me, FirstHop(g, me, f, d), d)
    decreases Dist(g, me, d)
  {
    var k := f(d);
    assert LastHop(g, me, k, d);
    if k == me {
      DistSelf(g, me);
      DistSelf(g, d);
    } else {
      FirstHopStarts(g, me, f, k);
      var h := FirstHop(g, me, f, k);
      LastHopBound(g, h, k, d);
      FirstHopBound(g, me, h, d);
    }
  }

  /** The rule is either met or missed for certain: it is decided fairly, up to a node that misleads. */
  ghost predicate Decided(g: Matrix, a: Matrix, me: int, d: int)
    requires Reach(g, me, d)
    decreases Dist(g, me, d)
  {
    d == me || Misled(g, a, me, d) || (Fair(g, a, me, d) && Decided(g, a, me, LowestLastHop(g, me, d)))
  }

  /** For every decided destination the next hop is the one the rule asks for if and only if all nodes of its
      canonical path are decided fairly. */
  lemma {:induction false} FirstHopIff(g: Matrix, a: Matrix, me: int, f: int -> int, d: int)
    requires Choices(g, a, me, f) && StepsBack(g, me, f) && Reach(g, me, d) && d != me && Decided(g, a, me, d)
    ensures FirstHop(g, me, f, d) == CanonicalPath(g, me, d)[0] <==> FairPath(g, a, me, d)
    decreases Dist(g, me, d)
  {
    var k, m := f(d), LowestLastHop(g, me, d);
    assert Choice(g, a, me, d, k);
    FairChoiceMade(g, a, me, d, k);
    if Misled(g, a, me, d) {
      if k == me {
        FirstStepStarts(g, me, m);
        NotFirstStep(g, me, m, d);
      } else {
        FirstHopStarts(g, me, f, k);
        NotFirstStep(g, me, k, d);
      }
    } else if m != me {
      FirstHopIff(g, a, me, f, m);
    }
  }

  /** The same for a table that follows choices. */
  lemma RuleMetIff(g: Matrix, a: Matrix, me: int, c: Table, f: int -> int, d: int)
    requires Follows(g, a, me, c, f) && d in c && Reach(g, me, d) && Decided(g, a, me, d)
    ensures c[d] == CanonicalEntry(g, me, d) <==> FairPath(g, a, me, d)
  {
    if d != me {
      FirstHopIff(g, a, me, f, d);
    }
  }

  // ---------- What a router's table is ----------

  /** The entry for d is the one of the documented rule exactly where the rule is followed up to it. */
  ghost predicate RuleMet(g: Matrix, a: Matrix, me: int, c: Table, d: int)
    requires d in c
  {
    Reach(g, me, d) && (Decided(g, a, me, d) ==> (c[d] == CanonicalEntry(g, me, d) <==> FairPath(g, a, me, d)))
  }

  /** A table that fits the graph g: shortest distances, next hops on shortest paths, all of them by choices that
      the search can make, and by the documented rule wherever that is decided fairly. */
  ghost predicate FitsGraph(g: Matrix, a: Matrix, me: int, c: Table) {
    && SoundTable(g, me, c) && (exists f :: Follows(g, a, me, c, f))
    && (forall d {:trigger RuleMet(g, a, me, c, d)} :: d in c ==> RuleMet(g, a, me, c, d))
  }

  lemma FollowsFits(g: Matrix, a: Matrix, me: int, c: Table, f: int -> int)
    requires Follows(g, a, me, c, f)
    ensures FitsGraph(g, a, me, c)
  {
    FollowsFinished(g, a, me, c, f);
    SearchSound(g, a, me, c);
    forall d | d in c
      ensures RuleMet(g, a, me, c, d)
    {
      if Decided(g, a, me, d) {
        RuleMetIff(g, a, me, c, f, d);
      }
    }
  }

  lemma SearchResult(g: Matrix, a: Matrix, me: int, c: Table)
    requires SearchInv(g, me, c, [], a)
    ensures FitsGraph(g, a, me, c)
  {
    assert Finished(g, a, me, c);
    FinishedFollows(g, a, me, c);
    FollowsFits(g, a, me, c, SettledOn(g, a, me, c));
  }

  lemma OutcomeExists(g: Matrix, a: Matrix, me: int) returns (c: Table)
    requires 0 <= me < |g|
    ensures FitsGraph(g, a, me, c)
  {
    var f := AnyChoice(g, a, me);
    assert Choices(g, a, me, f);
    ChoicesStepBack(g, a, me, f);
    c := TableBy(g, me, f);
    assert Follows(g, a, me, c, f);
    FollowsFits(g, a, me, c, f);
  }

  /** Where it is misled, the table has another next hop than the rule says. */
  lemma MisledMisses(g: Matrix, a: Matrix, me: int, c: Table, d: int)
    requires FitsGraph(g, a, me, c) && d in c && Misled(g, a, me, d)
    ensures c[d] != CanonicalEntry(g, me, d)
  {
    var f :| Follows(g, a, me, c, f);
    RuleMetIff(g, a, me, c, f, d);
  }

  lemma {:induction false} FairIsDecided(g: Matrix, a: Matrix, me: int, d: int)
    requires Reach(g, me, d) && FairPath(g, a, me, d)
    ensures Decided(g, a, me, d)
    decreases Dist(g, me, d)
  {
    if d != me {
      FairIsDecided(g, a, me, LowestLastHop(g, me, d));
    }
  }

  lemma FairEntry(g: Matrix, a: Matrix, me: int, c: Table, d: int)
    requires FitsGraph(g, a, me, c) && SelfRowAgrees(g, a, me) && d in c
    ensures Reach(g, me, d) && c[d] == CanonicalEntry(g, me, d)
  {
    AgreementIsFair(g, a, me, d);
    assert RuleMet(g, a, me, c, d);
    FairIsDecided(g, a, me, d);
  }

  /** When the own links agree, a table that fits is the canonical one, whatever the order in which the
      nodes were confirmed. */
  lemma FitsIsCanonical(g: Matrix, a: Matrix, me: int, c: Table)
    requires FitsGraph(g, a, me, c) && SelfRowAgrees(g, a, me) && 0 <= me < |g|
    ensures c == CanonicalTable(g, me)
  {
    forall d | d in c
      ensures Reach(g, me, d) && c[d] == CanonicalEntry(g, me, d)
    {
      FairEntry(g, a, me, c, d);
    }
    assert c.Keys == CanonicalTable(g, me).Keys;
  }

  // ---------- What the graph decides ----------

  /** All choices lead to the next hop h. */
  ghost predicate Predicts(g: Matrix, a: Matrix, me: int, d: int, h: int)
    requires Reach(g, me, d) && d != me
    decreases Dist(g, me, d)
  {
    forall k :: LastHop(g, me, k, d) && Choice(g, a, me, d, k) ==>
      if k == me then h == d else Predicts(g, a, me, k, h)
  }

  lemma {:induction false} PredictedHop(g: Matrix, a: Matrix, me: int, f: int -> int, d: int, h: int)
    requires Choices(g, a, me, f) && StepsBack(g, me, f) && Reach(g, me, d) && d != me && Predicts(g, a, me, d, h)
    ensures FirstHop(g, me, f, d) == h
    decreases Dist(g, me, d)
  {
    assert Choice(g, a, me, d, f(d)) && LastHop(g, me, f(d), d);
    if f(d) != me {
      PredictedHop(g, a, me, f, f(d), h);
    }
  }

  /** f with another choice for d. */
  function Instead(f: int -> int, d: int, k: int): int -> int {
    x => if x == d then k else f(x)
  }

  /** A choice for a farther node makes no difference. */
  lemma {:induction false} FartherChoice(g: Matrix, me: int, f: int -> int, d: int, k: int, x: int)
    requires StepsBack(g, me, f) && StepsBack(g, me, Instead(f, d, k)) && Reach(g, me, d) && Reach(g, me, x) && x != me
    requires Dist(g, me, x) < Dist(g, me, d)
    ensures FirstHop(g, me, Instead(f, d, k), x) == FirstHop(g, me, f, x)
    decreases Dist(g, me, x)
  {
    assert LastHop(g, me, f(x), x);
    if f(x) != me {
      FartherChoice(g, me, f, d, k, f(x));
    }
  }

  lemma {:induction false} OtherHop(g: Matrix, a: Matrix, me: int, d: int, h: int) returns (f: int -> int)
    requires 0 <= me < |g| && Reach(g, me, d) && d != me && !Predicts(g, a, me, d, h)
    ensures Choices(g, a, me, f) && StepsBack(g, me, f) && FirstHop(g, me, f, d) != h
    decreases Dist(g, me, d)
  {
    var k :| LastHop(g, me, k, d) && Choice(g, a, me, d, k)
             && !(if k == me then h == d else Predicts(g, a, me, k, h));
    var f0: int -> int := AnyChoice(g, a, me);
    if k != me {
      f0 := OtherHop(g, a, me, k, h);
    }
    f := Instead(f0, d, k);
    assert Choices(g, a, me, f) by {
      forall x | Reach(g, me, x) && x != me
        ensures Choice(g, a, me, x, f(x))
      {
        assert x != d ==> Choice(g, a, me, x, f0(x));
      }
    }
    ChoicesStepBack(g, a, me, f);
    if k != me {
      FartherChoice(g, me, f0, d, k, k);
    }
  }

  /** What the search does with d is decided by the graph and the matrix exactly where all choices lead to the
      same next hop. In particular it is the one of the rule, whatever the order in which the nodes are
      confirmed, if and only if all choices lead to that. */
  lemma DecidedByGraphIff(g: Matrix, a: Matrix, me: int, d: int, h: int)
    requires 0 <= me < |g| && Reach(g, me, d) && d != me
    ensures (forall c: Table :: FitsGraph(g, a, me, c) ==> d in c && c[d].nexthop == h) <==> Predicts(g, a, me, d, h)
  {
    ReachInRange(g, me, d);
    if Predicts(g, a, me, d, h) {
      forall c: Table | FitsGraph(g, a, me, c)
        ensures d in c && c[d].nexthop == h
      {
        var f :| Follows(g, a, me, c, f);
        PredictedHop(g, a, me, f, d, h);
      }
    } else {
      var f := OtherHop(g, a, me, d, h);
      var c := TableBy(g, me, f);
      assert Follows(g, a, me, c, f);
      FollowsFits(g, a, me, c, f);
      assert FitsGraph(g, a, me, c) && c[d].nexthop != h;
    }
  }

  /** When only the matrix knows an own link, and no last hop is below the router, a strictly nearest last hop
      is the one found first. */
  lemma NearestIsChosen(g: Matrix, a: Matrix, me: int, d: int, k: int, j: int)
    requires Reach(g, me, d) && !OwnLink(g, me, d, Dist(g, me, d)) && OwnLink(a, me, d, Dist(g, me, d))
    requires LastHop(g, me, k, d) && forall x :: LastHop(g, me, x, d) ==> me < x
    requires forall x :: LastHop(g, me, x, d) && x != k ==> Dist(g, me, k) < Dist(g, me, x)
    ensures Choice(g, a, me, d, j) <==> j == k
  {
    var T := LastHops(g, me, d);
    assert k in T;
    if j in T {
      assert LastHop(g, me, j, d);
    }
  }

  /** Of several nearest ones any can be the one found first: for each there is an outcome with its next hop.
      So where two of them lead to different next hops, the order in which nodes are confirmed decides. */
  lemma OrderDecides(g: Matrix, a: Matrix, me: int, d: int, k: int, h: int) returns (c: Table)
    requires 0 <= me < |g| && Reach(g, me, d) && d != me
    requires !OwnLink(g, me, d, Dist(g, me, d)) && OwnLink(a, me, d, Dist(g, me, d))
    requires LastHop(g, me, k, d) && forall x :: LastHop(g, me, x, d) ==> me < x
    requires forall x :: LastHop(g, me, x, d) ==> Dist(g, me, k) <= Dist(g, me, x)
    requires Predicts(g, a, me, k, h)
    ensures FitsGraph(g, a, me, c) && d in c && c[d].nexthop == h
  {
    ReachInRange(g, me, d);
    assert Choice(g, a, me, d, k);
    var f := Instead(AnyChoice(g, a, me), d, k);
    assert Choices(g, a, me, f);
    ChoicesStepBack(g, a, me, f);
    PredictedHop(g, a, me, f, k, h);
    c := TableBy(g, me, f);
    assert Follows(g, a, me, c, f);
    FollowsFits(g, a, me, c, f);
  }

  // ---------- A router that is misled ----------

  /** Links 0-1, 0-2, 1-3 and 2-3 of cost 1 and a link 0-3 of cost 2, of which router 3 has announced the
      loss while router 0 still hears from it: in the matrix of router 0 it is gone. */
  const LOST_LINK: Matrix := [[0, 1, 1, -1], [1, 0, 0, 1], [1, 0, 0, 1], [-1, 1, 1, 0]]
  const OWN_VIEW: Matrix := [[0, 1, 1, 2], [1, 0, 0, 1], [1, 0, 0, 1], [-1, 1, 1, 0]]

  lemma TightDist(g: Matrix, s: int, t: map<int, int>, d: int, x: int)
    requires TightTable(g, s, t) && d in t && t[d] == x
    ensures Reach(g, s, d) && Dist(g, s, d) == x
  {
    TightTableIsDist(g, s, t);
  }

  lemma OwnViewDistances()
    ensures Reach(OWN_VIEW, 0, 1) && Dist(OWN_VIEW, 0, 1) == 1
    ensures Reach(OWN_VIEW, 0, 2) && Dist(OWN_VIEW, 0, 2) == 1
    ensures Reach(OWN_VIEW, 0, 3) && Dist(OWN_VIEW, 0, 3) == 2
  {
    var t := map[0 := 0, 1 := 1, 2 := 1, 3 := 2];
    assert TightTable(OWN_VIEW, 0, t) by {
      assert Edge(OWN_VIEW, 0, 1) && Edge(OWN_VIEW, 0, 2) && Edge(OWN_VIEW, 0, 3);
    }
    TightDist(OWN_VIEW, 0, t, 1, 1);
    TightDist(OWN_VIEW, 0, t, 2, 1);
    TightDist(OWN_VIEW, 0, t, 3, 2);
  }

  lemma OwnViewMany()
    ensures Many(0, LastHops(OWN_VIEW, 0, 3)) && forall k :: k in LastHops(OWN_VIEW, 0, 3) ==> 0 <= k
  {
    OwnViewDistances();
    var T := LastHops(OWN_VIEW, 0, 3);
    assert Edge(OWN_VIEW, 1, 3) && Edge(OWN_VIEW, 2, 3);
    assert 1 in T && 2 in T;
  }

  lemma OwnViewIsGraph()
    ensures GraphOf(OWN_VIEW, LOST_LINK, 0)
  {
    var a := LOST_LINK;
    var r0, r1, r2, r3 := a[0], a[1], a[2], a[3];
    assert |a| == 4 && |r0| == |r1| == |r2| == |r3| == 4;
    assert r0[1] == r1[0] && r0[2] == r2[0] && r0[3] == r3[0];
    assert r1[2] == r2[1] && r1[3] == r3[1] && r2[3] == r3[2];
    forall u, v | 0 <= u < 4 && 0 <= v < 4
      ensures a[u][v] == a[v][u]
    {
      if u == 0 {
      } else if u == 1 {
      } else if u == 2 {
      } else {
      }
    }
  }

  /** Router 0 is misled about 3: every search of its, and there is one, ends with another next hop than the
      rule asks for. */
  lemma MisledAboutOwnLink() returns (c: Table)
    ensures GraphOf(OWN_VIEW, LOST_LINK, 0) && Misled(OWN_VIEW, LOST_LINK, 0, 3)
    ensures FitsGraph(OWN_VIEW, LOST_LINK, 0, c) && 3 in c && c[3] != CanonicalEntry(OWN_VIEW, 0, 3)
  {
    OwnViewIsGraph();
    OwnViewMisled();
    c := OutcomeExists(OWN_VIEW, LOST_LINK, 0);
    MisledMisses(OWN_VIEW, LOST_LINK, 0, c, 3);
  }

  lemma OwnViewMisled()
    ensures Misled(OWN_VIEW, LOST_LINK, 0, 3)
  {
    OwnViewDistances();
    OwnViewMany();
    assert OwnLink(OWN_VIEW, 0, 3, 2) && !OwnLink(LOST_LINK, 0, 3, 2);
  }
}

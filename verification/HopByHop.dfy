/** Delivery by a network of link-state routers that all hold the same matrix: each router
    forwards by its own table only. */
module HopByHop {
  import opened Graphs
  import opened ForwardingTable
  import opened SearchOutcome
  import opened LinkStateRouter

  /** Router r's table was computed on its own graph, whose own links agree with the common matrix. */
  ghost predicate Converged(a: Matrix, tables: seq<Table>) {
    && Square(a) && |tables| == |a|
    && (forall r :: 0 <= r < |tables| ==> TableFromOwnGraph(a, r, tables[r]))
  }

  ghost predicate TableFromOwnGraph(a: Matrix, r: int, c: Table) {
    exists g :: OwnGraph(g, a, r, c)
  }

  ghost predicate OwnGraph(g: Matrix, a: Matrix, r: int, c: Table) {
    GraphOf(g, a, r) && SelfRowAgrees(g, a, r) && FitsGraph(g, a, r, c)
  }

  /** Every symmetric matrix has such tables: the canonical ones. */
  lemma CanonicalTablesConverge(a: Matrix)
    requires Square(a) && forall u, v :: 0 <= u < |a| && 0 <= v < |a| ==> a[u][v] == a[v][u]
    ensures Converged(a, seq(|a|, r requires 0 <= r < |a| => CanonicalTable(a, r)))
  {
    forall r | 0 <= r < |a|
      ensures TableFromOwnGraph(a, r, CanonicalTable(a, r))
    {
      var c := OutcomeExists(a, a, r);
      FitsIsCanonical(a, a, r, c);
      assert OwnGraph(a, a, r, c);
    }
  }

  // ---------- Graphs with the same links ----------

  ghost predicate SameLinks(g: Matrix, a: Matrix) {
    && |g| == |a|
    && (forall u, v :: Edge(g, u, v) <==> Edge(a, u, v))
    && (forall u, v :: Edge(g, u, v) && Edge(a, u, v) ==> g[u][v] == a[u][v])
  }

  lemma {:induction false} SamePaths(g: Matrix, a: Matrix, s: int, p: seq<int>, d: int)
    requires SameLinks(g, a) && IsPath(g, s, p, d)
    ensures IsPath(a, s, p, d) && PathCost(a, s, p, d) == PathCost(g, s, p, d)
    decreases |p|
  {
    if p != [] {
      SamePaths(g, a, p[0], p[1..], d);
    }
  }

  lemma SameDist(g: Matrix, a: Matrix, s: int, d: int)
    requires SameLinks(g, a) && Reach(g, s, d)
    ensures Reach(a, s, d) && Dist(a, s, d) == Dist(g, s, d)
  {
    var p :| IsPath(g, s, p, d) && PathCost(g, s, p, d) == Dist(g, s, d);
    SamePaths(g, a, s, p, d);
    var q :| IsPath(a, s, q, d) && PathCost(a, s, q, d) == Dist(a, s, d);
    SamePaths(a, g, s, q, d);
  }

  lemma SameDists(g: Matrix, a: Matrix)
    requires SameLinks(g, a)
    ensures forall s, d :: Reach(g, s, d) <==> Reach(a, s, d)
    ensures forall s, d :: Reach(g, s, d) && Reach(a, s, d) ==> Dist(a, s, d) == Dist(g, s, d)
  {
    forall s, d | Reach(g, s, d) || Reach(a, s, d)
      ensures Reach(g, s, d) && Reach(a, s, d) && Dist(a, s, d) == Dist(g, s, d)
    {
      if Reach(g, s, d) {
        SameDist(g, a, s, d);
      } else {
        SameDist(a, g, s, d);
      }
    }
  }

  lemma {:induction false} SameCanonicalPath(g: Matrix, a: Matrix, s: int, d: int)
    requires SameLinks(g, a) && Reach(g, s, d) && Reach(a, s, d)
    ensures CanonicalPath(g, s, d) == CanonicalPath(a, s, d)
    decreases Dist(g, s, d)
  {
    SameDists(g, a);
    if s != d {
      var k := LowestLastHop(g, s, d);
      var m := LowestLastHop(a, s, d);
      assert LastHop(a, s, k, d) && LastHop(g, s, m, d);
      SameCanonicalPath(g, a, s, k);
    }
  }

  /** What a router computes on its own graph holds for the common matrix: soundness ... */
  lemma SoundOnCommonMatrix(a: Matrix, r: int, c: Table)
    requires Square(a) && TableFromOwnGraph(a, r, c)
    ensures SoundTable(a, r, c)
  {
    var g :| OwnGraph(g, a, r, c);
    SameDists(g, a);
    SoundTransfers(g, a, r, c);
  }

  lemma SoundTransfers(g: Matrix, a: Matrix, r: int, c: Table)
    requires SameLinks(g, a) && SoundTable(g, r, c)
    ensures SoundTable(a, r, c)
  {
    SameDists(g, a);
    forall d | d in c && d != r
      ensures StartsShortest(a, r, c[d].nexthop, d)
    {
      assert StartsShortest(g, r, c[d].nexthop, d);
    }
  }

  /** ... and the canonical choice. */
  lemma CanonicalOnCommonMatrix(a: Matrix, r: int, c: Table, d: int)
    requires Square(a) && TableFromOwnGraph(a, r, c) && d in c && Reach(a, r, d)
    ensures c[d] == CanonicalEntry(a, r, d)
  {
    var g :| OwnGraph(g, a, r, c);
    OwnEntry(g, a, r, c, d);
    SameDist(a, g, r, d);
    SameCanonicalPath(g, a, r, d);
  }

  lemma OwnEntry(g: Matrix, a: Matrix, r: int, c: Table, d: int)
    requires OwnGraph(g, a, r, c) && d in c
    ensures SameLinks(g, a) && Reach(g, r, d) && c[d] == CanonicalEntry(g, r, d)
  {
    FairEntry(g, a, r, c, d);
  }

  lemma {:induction false} PathInRange(g: Matrix, s: int, p: seq<int>, d: int)
    requires IsPath(g, s, p, d) && 0 <= s < |g|
    ensures 0 <= d < |g|
    decreases |p|
  {
    if p != [] {
      PathInRange(g, p[0], p[1..], d);
    }
  }

  /** A sound table has an entry exactly for the nodes that can be reached. */
  lemma EntryExists(a: Matrix, r: int, c: Table, d: int)
    requires SoundTable(a, r, c) && 0 <= r < |a| && Reach(a, r, d)
    ensures 0 <= d < |a| && d in c
  {
    var p :| IsPath(a, r, p, d);
    PathInRange(a, r, p, d);
  }

  // ---------- Forwarding ----------

  /** A router hands a packet to a neighbour that is nearer to its destination. */
  lemma NextHopStarts(a: Matrix, tables: seq<Table>, r: int, d: int)
    requires Converged(a, tables) && 0 <= r < |a| && Reach(a, r, d) && r != d
    ensures var t := Decide(tables[r], r, d); t.Forward? && StartsShortest(a, r, t.nextHop, d)
  {
    SoundOnCommonMatrix(a, r, tables[r]);
    EntryExists(a, r, tables[r], d);
  }

  /** The routers a packet visits after r. Each step is the decision of the router it has reached. */
  ghost function Trace(a: Matrix, tables: seq<Table>, r: int, d: int): (p: seq<int>)
    requires Converged(a, tables) && 0 <= r < |a| && Reach(a, r, d)
    decreases Dist(a, r, d)
  {
    match Decide(tables[r], r, d)
    case Forward(h) => NextHopStarts(a, tables, r, d); [h] + Trace(a, tables, h, d)
    case _ => []
  }

  /** Hop-by-hop forwarding delivers along a shortest path, without loops; a packet for a node that
      cannot be reached is dropped where it starts. */
  lemma {:induction false} DeliversShortest(a: Matrix, tables: seq<Table>, r: int, d: int)
    requires Converged(a, tables) && 0 <= r < |a| && Reach(a, r, d)
    ensures var p := Trace(a, tables, r, d); IsPath(a, r, p, d) && PathCost(a, r, p, d) == Dist(a, r, d)
    decreases Dist(a, r, d)
  {
    if r == d {
      DistSelf(a, r);
    } else {
      NextHopStarts(a, tables, r, d);
      var h := Decide(tables[r], r, d).nextHop;
      DeliversShortest(a, tables, h, d);
      TraceForward(a, tables, r, d, h);
      var q := Trace(a, tables, h, d);
      assert ([h] + q)[1..] == q;
    }
  }

  lemma UnreachableIsDropped(a: Matrix, tables: seq<Table>, r: int, d: int)
    requires Converged(a, tables) && 0 <= r < |a| && !Reach(a, r, d)
    ensures Decide(tables[r], r, d) == Unreachable
  {
    SoundOnCommonMatrix(a, r, tables[r]);
    DistSelf(a, r);
  }

  // ---------- Agreement on which shortest path ----------

  /** Last hops seen from a later node of a shortest path are last hops seen from its start. */
  lemma LastHopFromNext(a: Matrix, r: int, h: int, j: int, d: int)
    requires StartsShortest(a, r, h, d) && LastHop(a, h, j, d)
    ensures LastHop(a, r, j, d) && StartsShortest(a, r, h, j)
  {
    FirstHopBound(a, r, h, j);
    LastHopBound(a, r, j, d);
  }

  /** After its first node the canonical path is the canonical path of that node. */
  lemma {:induction false} CanonicalSuffix(a: Matrix, r: int, d: int)
    requires Reach(a, r, d) && r != d
    ensures var p := CanonicalPath(a, r, d);
            StartsShortest(a, r, p[0], d) && p[1..] == CanonicalPath(a, p[0], d)
    decreases Dist(a, r, d)
  {
    var k := LowestLastHop(a, r, d);
    var p := CanonicalPath(a, r, d);
    FirstStepStarts(a, r, d);
    if k == r {
      assert p[1..] == [];
    } else {
      var h := p[0];
      CanonicalSuffix(a, r, k);
      assert h == CanonicalPath(a, r, k)[0];
      if h == d {
        DistSelf(a, d);
        FirstHopBound(a, r, d, d);
        assert false;
      }
      LastHopViaNext(a, r, h, k, d);
      forall j | LastHop(a, h, j, d)
        ensures k <= j
      {
        LastHopFromNext(a, r, h, j, d);
      }
      assert LowestLastHop(a, h, d) == k;
      assert p[1..] == CanonicalPath(a, r, k)[1..] + [d];
    }
  }

  lemma LastHopViaNext(a: Matrix, r: int, h: int, k: int, d: int)
    requires StartsShortest(a, r, h, k) && LastHop(a, r, k, d)
    ensures LastHop(a, h, k, d)
  {
    LastHopBound(a, h, k, d);
    FirstHopBound(a, r, h, d);
  }

  /** The path a packet takes is exactly the canonical path of the router it started from, so all
      routers on it agree with the documented tie-break. */
  lemma {:induction false} TraceIsCanonical(a: Matrix, tables: seq<Table>, r: int, d: int)
    requires Converged(a, tables) && 0 <= r < |a| && Reach(a, r, d)
    ensures Trace(a, tables, r, d) == CanonicalPath(a, r, d)
    decreases Dist(a, r, d)
  {
    if r == d {
      assert Decide(tables[r], r, d) == Deliver;
    } else {
      CanonicalSuffix(a, r, d);
      var p := CanonicalPath(a, r, d);
      TraceIsCanonical(a, tables, p[0], d);
      TraceStep(a, tables, r, d);
    }
  }

  lemma TraceStep(a: Matrix, tables: seq<Table>, r: int, d: int)
    requires Converged(a, tables) && 0 <= r < |a| && Reach(a, r, d) && r != d
    requires var h := CanonicalPath(a, r, d)[0];
             && StartsShortest(a, r, h, d) && 0 <= h < |a| && CanonicalPath(a, r, d)[1..] == CanonicalPath(a, h, d)
             && Trace(a, tables, h, d) == CanonicalPath(a, h, d)
    ensures Trace(a, tables, r, d) == CanonicalPath(a, r, d)
  {
    var p := CanonicalPath(a, r, d);
    NextHopIsCanonical(a, tables, r, d);
    TraceForward(a, tables, r, d, p[0]);
    HeadAndTail(p);
  }

  lemma HeadAndTail(p: seq<int>)
    requires p != []
    ensures p == [p[0]] + p[1..]
  {
  }

  lemma TraceForward(a: Matrix, tables: seq<Table>, r: int, d: int, h: int)
    requires Converged(a, tables) && 0 <= r < |a| && 0 <= h < |a| && Reach(a, r, d) && Reach(a, h, d)
    requires Decide(tables[r], r, d) == Forward(h)
    ensures Trace(a, tables, r, d) == [h] + Trace(a, tables, h, d)
  {
  }

  lemma NextHopIsCanonical(a: Matrix, tables: seq<Table>, r: int, d: int)
    requires Converged(a, tables) && 0 <= r < |a| && Reach(a, r, d) && r != d
    ensures Decide(tables[r], r, d) == Forward(CanonicalPath(a, r, d)[0])
  {
    SoundOnCommonMatrix(a, r, tables[r]);
    EntryExists(a, r, tables[r], d);
    CanonicalOnCommonMatrix(a, r, tables[r], d);
  }
}

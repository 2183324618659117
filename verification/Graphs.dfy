/** Weighted directed graphs given by a square cost matrix, their paths and shortest distances.

    A positive entry `g[u][v]` is the cost of the link from u to v; every other value (the
    routers use 0 and -1) means that there is no such link. */
module Graphs {

  type Matrix = seq<seq<int>>

  ghost predicate Square(g: Matrix) {
    forall u :: 0 <= u < |g| ==> |g[u]| == |g|
  }

  lemma SameMatrix(g: Matrix, h: Matrix)
    requires Square(g) && Square(h) && |g| == |h|
    requires forall u, v :: 0 <= u < |g| && 0 <= v < |g| ==> g[u][v] == h[u][v]
    ensures g == h
  {
    assert forall u :: 0 <= u < |g| ==> g[u] == h[u];
  }

  ghost function NodesBelow(n: nat): (s: set<int>)
    ensures forall u :: u in s <==> 0 <= u < n
  {
    if n == 0 then {} else NodesBelow(n - 1) + {n - 1}
  }

  predicate Edge(g: Matrix, u: int, v: int) {
    0 <= u < |g| && 0 <= v < |g| && v < |g[u]| && g[u][v] > 0
  }

  /** `p` lists the nodes visited after s; it ends in d. */
  predicate IsPath(g: Matrix, s: int, p: seq<int>, d: int)
    decreases |p|
  {
    if p == [] then s == d else Edge(g, s, p[0]) && IsPath(g, p[0], p[1..], d)
  }

  function PathCost(g: Matrix, s: int, p: seq<int>, d: int): (c: nat)
    requires IsPath(g, s, p, d)
    ensures |p| <= c
    decreases |p|
  {
    if p == [] then 0 else g[s][p[0]] + PathCost(g, p[0], p[1..], d)
  }

  ghost predicate Reach(g: Matrix, s: int, d: int) {
    exists p :: IsPath(g, s, p, d)
  }

  ghost predicate IsDist(g: Matrix, s: int, d: int, c: int) {
    && (exists p :: IsPath(g, s, p, d) && PathCost(g, s, p, d) == c)
    && (forall p :: IsPath(g, s, p, d) ==> c <= PathCost(g, s, p, d))
  }

  /** The length of a shortest path. */
  ghost function Dist(g: Matrix, s: int, d: int): (c: nat)
    requires Reach(g, s, d)
    ensures IsDist(g, s, d, c)
  {
    var p :| IsPath(g, s, p, d);
    ShortestExists(g, s, p, d);
    var c :| IsDist(g, s, d, c);
    c
  }

  lemma {:induction false} ShortestExists(g: Matrix, s: int, p: seq<int>, d: int)
    requires IsPath(g, s, p, d)
    ensures exists c :: IsDist(g, s, d, c)
    decreases PathCost(g, s, p, d)
  {
    if q :| IsPath(g, s, q, d) && PathCost(g, s, q, d) < PathCost(g, s, p, d) {
      ShortestExists(g, s, q, d);
    } else {
      assert IsDist(g, s, d, PathCost(g, s, p, d));
    }
  }

  lemma {:induction false} Append(g: Matrix, s: int, p: seq<int>, u: int, v: int)
    requires IsPath(g, s, p, u) && Edge(g, u, v)
    ensures IsPath(g, s, p + [v], v)
    ensures PathCost(g, s, p + [v], v) == PathCost(g, s, p, u) + g[u][v]
    decreases |p|
  {
    if p == [] {
      assert [v][1..] == [];
    } else {
      Append(g, p[0], p[1..], u, v);
      assert (p + [v])[1..] == p[1..] + [v];
    }
  }

  /** A node is at distance 0 from itself. */
  lemma DistSelf(g: Matrix, s: int)
    ensures Reach(g, s, s) && Dist(g, s, s) == 0
  {
    assert IsPath(g, s, [], s) && PathCost(g, s, [], s) == 0;
  }

  /** Prefixing a link never beats the distance. */
  lemma FirstHopBound(g: Matrix, s: int, h: int, d: int)
    requires Edge(g, s, h) && Reach(g, h, d)
    ensures Reach(g, s, d) && Dist(g, s, d) <= g[s][h] + Dist(g, h, d)
  {
    var p :| IsPath(g, h, p, d) && PathCost(g, h, p, d) == Dist(g, h, d);
    assert ([h] + p)[1..] == p;
    assert IsPath(g, s, [h] + p, d);
  }

  /** Appending a link never beats the distance. */
  lemma LastHopBound(g: Matrix, s: int, k: int, d: int)
    requires Reach(g, s, k) && Edge(g, k, d)
    ensures Reach(g, s, d) && Dist(g, s, d) <= Dist(g, s, k) + g[k][d]
  {
    var p :| IsPath(g, s, p, k) && PathCost(g, s, p, k) == Dist(g, s, k);
    Append(g, s, p, k, d);
  }

  /** h is a neighbour of s from which a shortest path to d continues. */
  ghost predicate StartsShortest(g: Matrix, s: int, h: int, d: int) {
    Edge(g, s, h) && Reach(g, h, d) && Reach(g, s, d) && g[s][h] + Dist(g, h, d) == Dist(g, s, d)
  }

  // ---------- Distance tables ----------

  /** A table that contains its source at 0, is closed under links and never overestimates
      across a link, and gives every other node a predecessor that accounts for its value. */
  ghost predicate TightTable(g: Matrix, s: int, t: map<int, int>) {
    && s in t && t[s] == 0
    && (forall v :: v in t ==> 0 <= t[v])
    && (forall u, v :: u in t && Edge(g, u, v) ==> v in t && t[v] <= t[u] + g[u][v])
    && (forall v :: v in t && v != s ==> exists u :: u in t && Edge(g, u, v) && t[u] + g[u][v] == t[v])
  }

  lemma {:induction false} TightTableUpper(g: Matrix, s: int, t: map<int, int>, u: int, p: seq<int>, d: int)
    requires TightTable(g, s, t) && u in t && IsPath(g, u, p, d)
    ensures d in t && t[d] <= t[u] + PathCost(g, u, p, d)
    decreases |p|
  {
    if p != [] {
      TightTableUpper(g, s, t, p[0], p[1..], d);
    }
  }

  lemma {:induction false} TightTableLower(g: Matrix, s: int, t: map<int, int>, d: int)
    returns (p: seq<int>)
    requires TightTable(g, s, t) && d in t
    ensures IsPath(g, s, p, d) && PathCost(g, s, p, d) == t[d]
    decreases t[d]
  {
    if d == s {
      p := [];
    } else {
      var u :| u in t && Edge(g, u, d) && t[u] + g[u][d] == t[d];
      var q := TightTableLower(g, s, t, u);
      Append(g, s, q, u, d);
      p := q + [d];
    }
  }

  /** A tight table lists exactly the reachable nodes, each with its shortest distance. */
  lemma TightTableIsDist(g: Matrix, s: int, t: map<int, int>)
    requires TightTable(g, s, t)
    ensures forall d :: d in t <==> Reach(g, s, d)
    ensures forall d :: d in t ==> Reach(g, s, d) && t[d] == Dist(g, s, d)
  {
    forall d | Reach(g, s, d)
      ensures d in t && t[d] == Dist(g, s, d)
    {
      var p :| IsPath(g, s, p, d) && PathCost(g, s, p, d) == Dist(g, s, d);
      TightTableUpper(g, s, t, s, p, d);
      var q := TightTableLower(g, s, t, d);
    }
    forall d | d in t
      ensures Reach(g, s, d)
    {
      var q := TightTableLower(g, s, t, d);
    }
  }
}

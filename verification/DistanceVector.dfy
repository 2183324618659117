/** Distance-vector routing as functions on values: one table update, the adverts exchanged, and
    what the tables of a whole network are when nothing changes them any more. */
module DistanceVector {
  import opened Graphs

  const LIMIT := 1000  // INFINITY_LIMIT: longer distances count as infinite

  /** -1 stands for "infinite" and for "no next hop". */
  datatype Route = Route(dist: int, nextHop: int)
  const UNREACHABLE := Route(-1, -1)
  type Table = seq<Route>

  // ---------- One update ----------

  function Capped(dist: int): int {
    if dist > LIMIT then -1 else dist
  }

  /** Is there a link to the node? */
  predicate Up(conn: seq<bool>, v: int) {
    0 <= v < |conn| && conn[v]
  }

  /** The four overlapping reasons to replace an entry by a capped distance and a next hop. */
  predicate NeedsUpdate(conn: seq<bool>, e: Route, dist: int, nextHop: int) {
    || (dist != -1 && dist < e.dist)
    || (nextHop < e.nextHop && e.dist == dist)
    || (e.nextHop != -1 && !Up(conn, e.nextHop) && nextHop == -1)
    || (e.dist != dist && (e.nextHop == nextHop || e.dist == -1))
  }

  /** Whether an update replaces the entry and is passed on. */
  predicate Fires(conn: seq<bool>, me: int, e: Route, node: int, newDist: int, newHop: int) {
    node != me && NeedsUpdate(conn, e, Capped(newDist), newHop)
  }

  /** The entry for node d after an update. A router's entry for itself never changes. */
  function Updated(conn: seq<bool>, me: int, e: Route, d: int, newDist: int, nextHop: int): Route {
    var dist := Capped(newDist);
    if Fires(conn, me, e, d, newDist, nextHop)
    then Route(dist, if dist == -1 then -1 else nextHop)
    else e
  }

  /** What is left of an entry when only some neighbours are. */
  function Kept(conn: seq<bool>, e: Route): Route {
    if e.nextHop != -1 && !Up(conn, e.nextHop) then UNREACHABLE else e
  }

  /** What a router with entry e tells neighbour r: nothing good when r is its own next hop. */
  function Advert(e: Route, r: int): int {
    if e.nextHop == r then -1 else e.dist
  }

  /** The distance a neighbour's advert amounts to across a link of the given cost. */
  function Through(advert: int, cost: int): int {
    if advert == -1 then -1 else advert + cost
  }

  /** v is infinite or at least f. */
  predicate AtLeast(v: int, f: int) {
    v == -1 || f <= v
  }

  // ---------- The network ----------

  /** Links exist in both directions; no node has a link to itself. Costs may differ by direction. */
  ghost predicate Network(g: Matrix) {
    Square(g) && forall u, v :: Edge(g, u, v) ==> Edge(g, v, u) && u != v
  }

  function Links(g: Matrix, r: int): (conn: seq<bool>)
    ensures |conn| == |g|
    ensures forall v :: Up(conn, v) <==> Edge(g, r, v)
  {
    seq(|g|, v => Edge(g, r, v))
  }

  /** What every table satisfies at all times. */
  ghost predicate TableOk(g: Matrix, r: int, t: Table) {
    && |t| == |g| && 0 <= r < |g| && t[r] == Route(0, r)
    && (forall d {:trigger RouteOk(g, r, d, t[d])} :: 0 <= d < |g| ==> RouteOk(g, r, d, t[d]))
  }

  ghost predicate RouteOk(g: Matrix, r: int, d: int, e: Route) {
    && (e.dist == -1 <==> e.nextHop == -1) && -1 <= e.dist <= LIMIT
    && (d != r && e.nextHop != -1 ==> Edge(g, r, e.nextHop))
  }

  ghost predicate TablesOk(g: Matrix, ts: seq<Table>) {
    |ts| == |g| && forall r {:trigger TableOk(g, r, ts[r])} {:trigger ts[r]} :: 0 <= r < |ts| ==> TableOk(g, r, ts[r])
  }

  /** r's entry for d is left alone by h's advert, which r only looks at while it has a route to h. */
  ghost predicate AdvertQuiet(g: Matrix, ts: seq<Table>, r: int, h: int, d: int)
    requires TablesOk(g, ts) && Edge(g, r, h) && 0 <= d < |g|
  {
    ts[r][h].dist >= 0 ==>
      Updated(Links(g, r), r, ts[r][d], d, Through(Advert(ts[h][d], r), g[r][h]), h) == ts[r][d]
  }

  /** r's entry for h is left alone by hearing from h itself. */
  ghost predicate HeartbeatQuiet(g: Matrix, ts: seq<Table>, r: int, h: int)
    requires TablesOk(g, ts) && Edge(g, r, h)
  {
    Updated(Links(g, r), r, ts[r][h], h, g[r][h], h) == ts[r][h]
  }

  /** No heartbeat and no advert, infinite and poisoned ones included, changes any table. */
  ghost predicate Quiet(g: Matrix, ts: seq<Table>)
    requires TablesOk(g, ts)
  {
    && (forall r, h {:trigger HeartbeatQuiet(g, ts, r, h)} :: Edge(g, r, h) ==> HeartbeatQuiet(g, ts, r, h))
    && (forall r, h, d {:trigger AdvertQuiet(g, ts, r, h, d)} :: Edge(g, r, h) && 0 <= d < |g| ==>
       AdvertQuiet(g, ts, r, h, d))
  }

  // ---------- The ideal tables ----------

  ghost predicate InLimit(g: Matrix, r: int, d: int) {
    Reach(g, r, d) && Dist(g, r, d) <= LIMIT
  }

  /** The shortest distance up to the limit, and the lowest neighbour on a shortest path. */
  ghost predicate Ideal(g: Matrix, r: int, d: int, e: Route) {
    if d == r then e == Route(0, r)
    else if InLimit(g, r, d) then
      && e.dist == Dist(g, r, d) && StartsShortest(g, r, e.nextHop, d)
      && (forall h :: StartsShortest(g, r, h, d) ==> e.nextHop <= h)
    else e == UNREACHABLE
  }

  ghost predicate AllIdeal(g: Matrix, ts: seq<Table>) {
    |ts| == |g| && forall r :: 0 <= r < |g| ==> TableIdeal(g, r, ts[r])
  }

  ghost predicate TableIdeal(g: Matrix, r: int, t: Table) {
    |t| == |g| && forall d :: 0 <= d < |g| ==> Ideal(g, r, d, t[d])
  }

  lemma IdealUnique(g: Matrix, r: int, d: int, e: Route, e': Route)
    requires Ideal(g, r, d, e) && Ideal(g, r, d, e')
    ensures e == e'
  {
  }

  /** Every next hop in use is itself reachable by the table that uses it. */
  ghost predicate NoOrphans(g: Matrix, ts: seq<Table>)
    requires TablesOk(g, ts)
  {
    forall r, d {:trigger HopKnown(g, ts, r, d)} ::
      0 <= r < |g| && 0 <= d < |g| && d != r && ts[r][d].nextHop != -1 ==> HopKnown(g, ts, r, d)
  }

  ghost predicate HopKnown(g: Matrix, ts: seq<Table>, r: int, d: int)
    requires TablesOk(g, ts) && 0 <= r < |g| && 0 <= d < |g| && d != r && ts[r][d].nextHop != -1
  {
    Edge(g, r, ts[r][d].nextHop) && ts[r][ts[r][d].nextHop].dist >= 0
  }

  // ---------- Quiet tables are ideal ----------

  /** What an update that changes nothing says about the entry. */
  lemma NoChange(conn: seq<bool>, me: int, e: Route, d: int, newDist: int, nextHop: int)
    requires d != me && 0 <= nextHop && (e.dist == -1 <==> e.nextHop == -1) && -1 <= e.dist && -1 <= newDist
    requires Updated(conn, me, e, d, newDist, nextHop) == e
    ensures Capped(newDist) != -1 ==>
              0 <= e.dist <= newDist && (e.dist == newDist ==> e.nextHop <= nextHop)
    ensures e.nextHop == nextHop ==> e.dist == Capped(newDist)
  {
  }

  /** A quiet route is its next hop's distance plus the link. */
  lemma RouteThroughHop(g: Matrix, ts: seq<Table>, r: int, d: int)
    requires Network(g) && TablesOk(g, ts) && Quiet(g, ts) && NoOrphans(g, ts)
    requires 0 <= r < |g| && 0 <= d < |g| && d != r && ts[r][d].dist != -1
    ensures var h := ts[r][d].nextHop;
            Edge(g, r, h) && 0 <= ts[h][d].dist == ts[r][d].dist - g[r][h] && ts[h][d].nextHop != r
  {
    var h := ts[r][d].nextHop;
    assert RouteOk(g, r, d, ts[r][d]) && HopKnown(g, ts, r, d);
    assert AdvertQuiet(g, ts, r, h, d);
    assert TableOk(g, h, ts[h]);
    assert RouteOk(g, h, d, ts[h][d]);
    NoChange(Links(g, r), r, ts[r][d], d, Through(Advert(ts[h][d], r), g[r][h]), h);
  }

  /** No quiet entry is larger than the cost of a path within the limit. */
  lemma {:induction false} QuietUpper(g: Matrix, ts: seq<Table>, r: int, p: seq<int>, d: int)
    requires Network(g) && TablesOk(g, ts) && Quiet(g, ts) && NoOrphans(g, ts)
    requires 0 <= r < |g| && 0 <= d < |g| && IsPath(g, r, p, d) && PathCost(g, r, p, d) <= LIMIT
    ensures 0 <= ts[r][d].dist <= PathCost(g, r, p, d)
    decreases |p|
  {
    assert TableOk(g, r, ts[r]);
    if r != d {
      var h := p[0];
      QuietUpper(g, ts, h, p[1..], d);
      assert HeartbeatQuiet(g, ts, r, h) && RouteOk(g, r, h, ts[r][h]);
      NoChange(Links(g, r), r, ts[r][h], h, g[r][h], h);
      if ts[h][d].nextHop == r {
        assert RouteOk(g, h, d, ts[h][d]) && ts[h][h] == Route(0, h) by { assert TableOk(g, h, ts[h]); }
        RouteThroughHop(g, ts, h, d);
      } else {
        assert AdvertQuiet(g, ts, r, h, d) && RouteOk(g, r, d, ts[r][d]);
        NoChange(Links(g, r), r, ts[r][d], d, Through(Advert(ts[h][d], r), g[r][h]), h);
      }
    }
  }

  /** Every finite quiet entry is the cost of a path. */
  lemma {:induction false} QuietLower(g: Matrix, ts: seq<Table>, r: int, d: int) returns (p: seq<int>)
    requires Network(g) && TablesOk(g, ts) && Quiet(g, ts) && NoOrphans(g, ts)
    requires 0 <= r < |g| && 0 <= d < |g| && ts[r][d].dist != -1
    ensures IsPath(g, r, p, d) && PathCost(g, r, p, d) == ts[r][d].dist
    decreases ts[r][d].dist
  {
    assert TableOk(g, r, ts[r]);
    if r == d {
      p := [];
    } else {
      RouteThroughHop(g, ts, r, d);
      var h := ts[r][d].nextHop;
      var q := QuietLower(g, ts, h, d);
      p := [h] + q;
      assert p[1..] == q;
    }
  }

  lemma QuietDistance(g: Matrix, ts: seq<Table>, r: int, d: int)
    requires Network(g) && TablesOk(g, ts) && Quiet(g, ts) && NoOrphans(g, ts) && 0 <= r < |g| && 0 <= d < |g|
    ensures InLimit(g, r, d) ==> ts[r][d].dist == Dist(g, r, d)
    ensures !InLimit(g, r, d) ==> ts[r][d].dist == -1
  {
    if InLimit(g, r, d) {
      var p :| IsPath(g, r, p, d) && PathCost(g, r, p, d) == Dist(g, r, d);
      QuietUpper(g, ts, r, p, d);
    }
    if ts[r][d].dist != -1 {
      var q := QuietLower(g, ts, r, d);
      assert RouteOk(g, r, d, ts[r][d]) by { assert TableOk(g, r, ts[r]); }
    }
  }

  /** The next hop is on a shortest path. */
  lemma QuietHopStarts(g: Matrix, ts: seq<Table>, r: int, d: int)
    requires Network(g) && TablesOk(g, ts) && Quiet(g, ts) && NoOrphans(g, ts) && 0 <= r < |g| && 0 <= d < |g|
    requires d != r && InLimit(g, r, d)
    ensures StartsShortest(g, r, ts[r][d].nextHop, d)
  {
    QuietDistance(g, ts, r, d);
    RouteThroughHop(g, ts, r, d);
    QuietDistance(g, ts, ts[r][d].nextHop, d);
  }

  /** No other neighbour on a shortest path has a lower id. */
  lemma QuietHopLowest(g: Matrix, ts: seq<Table>, r: int, d: int, h: int)
    requires Network(g) && TablesOk(g, ts) && Quiet(g, ts) && NoOrphans(g, ts) && 0 <= r < |g| && 0 <= d < |g|
    requires d != r && InLimit(g, r, d) && StartsShortest(g, r, h, d)
    ensures ts[r][d].nextHop <= h
  {
    QuietDistance(g, ts, r, d);
    QuietDistance(g, ts, h, d);
    DistSelf(g, h);
    FirstHopBound(g, r, h, h);
    QuietDistance(g, ts, r, h);
    assert AdvertQuiet(g, ts, r, h, d);
    assert RouteOk(g, r, d, ts[r][d]) by { assert TableOk(g, r, ts[r]); }
    if ts[h][d].nextHop == r {
      assert h != d by { assert TableOk(g, h, ts[h]); }
      RouteThroughHop(g, ts, h, d);
    }
    NoChange(Links(g, r), r, ts[r][d], d, Through(Advert(ts[h][d], r), g[r][h]), h);
  }

  /** Quiet tables without orphaned next hops are the ideal ones. */
  lemma QuietIsIdeal(g: Matrix, ts: seq<Table>)
    requires Network(g) && TablesOk(g, ts) && Quiet(g, ts) && NoOrphans(g, ts)
    ensures AllIdeal(g, ts)
  {
    forall r, d | 0 <= r < |g| && 0 <= d < |g|
      ensures |ts[r]| == |g| && Ideal(g, r, d, ts[r][d])
    {
      assert TableOk(g, r, ts[r]) && RouteOk(g, r, d, ts[r][d]);
      if d != r {
        QuietDistance(g, ts, r, d);
        if InLimit(g, r, d) {
          QuietHopStarts(g, ts, r, d);
          forall h | StartsShortest(g, r, h, d)
            ensures ts[r][d].nextHop <= h
          {
            QuietHopLowest(g, ts, r, d, h);
          }
        }
      }
    }
  }

  // ---------- Ideal tables are quiet ----------

  lemma IdealRouteOk(g: Matrix, r: int, d: int, e: Route)
    requires Network(g) && 0 <= r < |g| && Ideal(g, r, d, e)
    ensures RouteOk(g, r, d, e)
    ensures d != r && e.nextHop != -1 ==> InLimit(g, r, d) && Edge(g, r, e.nextHop) && InLimit(g, r, e.nextHop)
  {
    if d != r && InLimit(g, r, d) {
      DistSelf(g, e.nextHop);
      FirstHopBound(g, r, e.nextHop, e.nextHop);
    }
  }

  lemma IdealTablesOk(g: Matrix, ts: seq<Table>)
    requires Network(g) && AllIdeal(g, ts)
    ensures TablesOk(g, ts) && NoOrphans(g, ts)
  {
    forall r, d | 0 <= r < |g| && 0 <= d < |g|
      ensures |ts[r]| == |g| && RouteOk(g, r, d, ts[r][d])
    {
      assert TableIdeal(g, r, ts[r]) && Ideal(g, r, d, ts[r][d]);
      IdealRouteOk(g, r, d, ts[r][d]);
    }
    forall r | 0 <= r < |g|
      ensures TableOk(g, r, ts[r])
    {
      assert TableIdeal(g, r, ts[r]) && Ideal(g, r, r, ts[r][r]);
    }
    forall r, d | 0 <= r < |g| && 0 <= d < |g| && d != r && ts[r][d].nextHop != -1
      ensures HopKnown(g, ts, r, d)
    {
      assert TableIdeal(g, r, ts[r]) && Ideal(g, r, d, ts[r][d]);
      IdealRouteOk(g, r, d, ts[r][d]);
      var h := ts[r][d].nextHop;
      assert Ideal(g, r, h, ts[r][h]);
    }
  }

  /** What makes an offered distance through a neighbour leave an ideal entry alone. */
  lemma IdealUnmoved(g: Matrix, r: int, d: int, e: Route, dist: int, h: int)
    requires Network(g) && 0 <= r < |g| && Ideal(g, r, d, e) && d != r && Edge(g, r, h) && -1 <= dist
    requires dist == -1 ==> !(InLimit(g, r, d) && e.nextHop == h)
    requires dist != -1 ==> Reach(g, h, d) && dist == g[r][h] + Dist(g, h, d)
    ensures Updated(Links(g, r), r, e, d, dist, h) == e
  {
    if dist != -1 {
      FirstHopBound(g, r, h, d);
      assert dist == Dist(g, r, d) ==> StartsShortest(g, r, h, d);
    }
  }

  lemma IdealIsQuiet(g: Matrix, ts: seq<Table>)
    requires Network(g) && AllIdeal(g, ts)
    ensures TablesOk(g, ts) && NoOrphans(g, ts) && Quiet(g, ts)
  {
    IdealTablesOk(g, ts);
    forall r, h | Edge(g, r, h)
      ensures HeartbeatQuiet(g, ts, r, h)
    {
      assert TableIdeal(g, r, ts[r]) && Ideal(g, r, h, ts[r][h]);
      DistSelf(g, h);
      IdealUnmoved(g, r, h, ts[r][h], g[r][h], h);
    }
    forall r, h, d | Edge(g, r, h) && 0 <= d < |g|
      ensures AdvertQuiet(g, ts, r, h, d)
    {
      IdealAdvertQuiet(g, ts, r, h, d);
    }
  }

  lemma IdealAdvertQuiet(g: Matrix, ts: seq<Table>, r: int, h: int, d: int)
    requires Network(g) && AllIdeal(g, ts) && TablesOk(g, ts) && Edge(g, r, h) && 0 <= d < |g|
    ensures AdvertQuiet(g, ts, r, h, d)
  {
    if d != r {
      assert TableIdeal(g, r, ts[r]) && Ideal(g, r, d, ts[r][d]);
      assert TableIdeal(g, h, ts[h]) && Ideal(g, h, d, ts[h][d]);
      var dist := Through(Advert(ts[h][d], r), g[r][h]);
      if dist != -1 && h == d {
        DistSelf(g, h);
      }
      IdealUnmoved(g, r, d, ts[r][d], dist, h);
    }
  }

  // ---------- The fixpoint theorem, and its exact condition ----------

  /** Among tables that nothing changes any more, the ideal ones are those without an orphaned next
      hop; and the ideal tables are such tables. So there is exactly one. */
  lemma FixpointIff(g: Matrix, ts: seq<Table>)
    requires Network(g) && TablesOk(g, ts)
    ensures Quiet(g, ts) && NoOrphans(g, ts) <==> AllIdeal(g, ts)
  {
    if AllIdeal(g, ts) {
      IdealIsQuiet(g, ts);
    } else if Quiet(g, ts) && NoOrphans(g, ts) {
      QuietIsIdeal(g, ts);
    }
  }

  /** While no link costs more than the limit there are no orphans, and quiet tables are ideal. */
  lemma CheapLinksFixpoint(g: Matrix, ts: seq<Table>)
    requires Network(g) && TablesOk(g, ts) && forall u, v :: Edge(g, u, v) ==> g[u][v] <= LIMIT
    ensures Quiet(g, ts) <==> AllIdeal(g, ts)
  {
    if Quiet(g, ts) {
      forall r, d | 0 <= r < |g| && 0 <= d < |g| && d != r && ts[r][d].nextHop != -1
        ensures HopKnown(g, ts, r, d)
      {
        var h := ts[r][d].nextHop;
        assert TableOk(g, r, ts[r]);
        assert RouteOk(g, r, d, ts[r][d]) && RouteOk(g, r, h, ts[r][h]);
        assert HeartbeatQuiet(g, ts, r, h);
        NoChange(Links(g, r), r, ts[r][h], h, g[r][h], h);
      }
    }
    FixpointIff(g, ts);
  }

  /** Two nodes joined by a link dearer than the limit, and an isolated third one. */
  const DEAR_LINK: Matrix := [[0, 2000, 0], [2000, 0, 0], [0, 0, 0]]
  const PHANTOM: seq<Table> := [[Route(0, 0), UNREACHABLE, Route(5, 1)],
                                [UNREACHABLE, Route(0, 1), UNREACHABLE],
                                [UNREACHABLE, UNREACHABLE, Route(0, 2)]]

  /** The condition is needed: node 0 keeps a route to the isolated node for good, because it
      discards the adverts of a neighbour to which it has no route. */
  lemma PhantomRouteStays()
    ensures Network(DEAR_LINK) && TablesOk(DEAR_LINK, PHANTOM) && Quiet(DEAR_LINK, PHANTOM)
    ensures !AllIdeal(DEAR_LINK, PHANTOM)
  {
    var g, ts := DEAR_LINK, PHANTOM;
    forall r | 0 <= r < 3
      ensures TableOk(g, r, ts[r])
    {
    }
    forall r, h, d | Edge(g, r, h) && 0 <= d < |g|
      ensures AdvertQuiet(g, ts, r, h, d) && HeartbeatQuiet(g, ts, r, h)
    {
    }
    if AllIdeal(g, ts) {
      assert TableIdeal(g, 0, ts[0]) && Ideal(g, 0, 2, ts[0][2]);
      var p :| IsPath(g, 0, p, 2);
      NoPathInto2(0, p);
    }
  }

  lemma {:induction false} NoPathInto2(s: int, p: seq<int>)
    requires s != 2
    ensures !IsPath(DEAR_LINK, s, p, 2)
    decreases |p|
  {
    if p != [] && Edge(DEAR_LINK, s, p[0]) {
      NoPathInto2(p[0], p[1..]);
    }
  }

  /** Only the entries that are finite are advertised periodically. */
  ghost predicate PeriodicQuiet(g: Matrix, ts: seq<Table>)
    requires TablesOk(g, ts)
  {
    && (forall r, h {:trigger HeartbeatQuiet(g, ts, r, h)} :: Edge(g, r, h) ==> HeartbeatQuiet(g, ts, r, h))
    && (forall r, h, d {:trigger AdvertQuiet(g, ts, r, h, d)} ::
          Edge(g, r, h) && 0 <= d < |g| && ts[h][d].dist != -1 ==> AdvertQuiet(g, ts, r, h, d))
  }

  /** No route in use is one that its next hop has given up. */
  ghost predicate NoStale(g: Matrix, ts: seq<Table>)
    requires TablesOk(g, ts)
  {
    forall r, d {:trigger HopHasRoute(g, ts, r, d)} ::
      0 <= r < |g| && 0 <= d < |g| && d != r && ts[r][d].nextHop != -1 ==> HopHasRoute(g, ts, r, d)
  }

  ghost predicate HopHasRoute(g: Matrix, ts: seq<Table>, r: int, d: int)
    requires TablesOk(g, ts) && 0 <= r < |g| && 0 <= d < |g| && d != r && ts[r][d].nextHop != -1
  {
    Edge(g, r, ts[r][d].nextHop) && ts[ts[r][d].nextHop][d].dist != -1
  }

  /** An infinite advert only concerns a route through its sender. */
  lemma InfiniteAdvertQuiet(g: Matrix, ts: seq<Table>, r: int, h: int, d: int)
    requires TablesOk(g, ts) && NoStale(g, ts) && Edge(g, r, h) && 0 <= d < |g| && ts[h][d].dist == -1
    ensures AdvertQuiet(g, ts, r, h, d)
  {
    assert TableOk(g, r, ts[r]) && RouteOk(g, r, d, ts[r][d]);
    assert d != r && ts[r][d].nextHop != -1 ==> HopHasRoute(g, ts, r, d);
  }

  lemma IdealNoStale(g: Matrix, ts: seq<Table>)
    requires Network(g) && TablesOk(g, ts) && AllIdeal(g, ts)
    ensures NoStale(g, ts)
  {
    forall r, d | 0 <= r < |g| && 0 <= d < |g| && d != r && ts[r][d].nextHop != -1
      ensures HopHasRoute(g, ts, r, d)
    {
      var h := ts[r][d].nextHop;
      assert TableIdeal(g, r, ts[r]) && Ideal(g, r, d, ts[r][d]);
      assert StartsShortest(g, r, h, d);
      assert TableIdeal(g, h, ts[h]) && Ideal(g, h, d, ts[h][d]);
    }
  }

  /** What the periodic traffic repairs. The tables that it leaves alone are the ideal ones if and only
      if no next hop in use is orphaned and no route in use has been given up by its next hop. */
  lemma PeriodicFixpointIff(g: Matrix, ts: seq<Table>)
    requires Network(g) && TablesOk(g, ts)
    ensures PeriodicQuiet(g, ts) && NoOrphans(g, ts) && NoStale(g, ts) <==> AllIdeal(g, ts)
  {
    FixpointIff(g, ts);
    if AllIdeal(g, ts) {
      IdealNoStale(g, ts);
    } else if PeriodicQuiet(g, ts) && NoOrphans(g, ts) && NoStale(g, ts) {
      forall r, h, d | Edge(g, r, h) && 0 <= d < |g|
        ensures AdvertQuiet(g, ts, r, h, d)
      {
        if ts[h][d].dist == -1 {
          InfiniteAdvertQuiet(g, ts, r, h, d);
        }
      }
    }
  }

  const CHEAP_LINK: Matrix := [[0, 1, 0], [1, 0, 0], [0, 0, 0]]
  const STALE: seq<Table> := [[Route(0, 0), Route(1, 1), Route(5, 1)],
                              [Route(1, 0), Route(0, 1), UNREACHABLE],
                              [UNREACHABLE, UNREACHABLE, Route(0, 2)]]

  lemma StaleIsTable()
    ensures Network(CHEAP_LINK) && TablesOk(CHEAP_LINK, STALE)
  {
    forall r | 0 <= r < 3
      ensures TableOk(CHEAP_LINK, r, STALE[r])
    {
    }
  }

  lemma StaleIsQuiet(r: int, h: int, d: int)
    requires TablesOk(CHEAP_LINK, STALE) && Edge(CHEAP_LINK, r, h) && 0 <= d < 3
    ensures HeartbeatQuiet(CHEAP_LINK, STALE, r, h)
    ensures STALE[h][d].dist != -1 ==> AdvertQuiet(CHEAP_LINK, STALE, r, h, d)
  {
  }

  /** STALE routes do occur: infinite adverts are sent once, when a route is lost, and never repeated.
      If that one is lost, the periodic traffic leaves the stale route in place for good. */
  lemma LostWithdrawalIsNotRepaired()
    ensures Network(CHEAP_LINK) && TablesOk(CHEAP_LINK, STALE) && PeriodicQuiet(CHEAP_LINK, STALE)
    ensures !AdvertQuiet(CHEAP_LINK, STALE, 0, 1, 2) && !AllIdeal(CHEAP_LINK, STALE)
  {
    StaleIsTable();
    forall r, h, d | Edge(CHEAP_LINK, r, h) && 0 <= d < 3
      ensures HeartbeatQuiet(CHEAP_LINK, STALE, r, h)
      ensures STALE[h][d].dist != -1 ==> AdvertQuiet(CHEAP_LINK, STALE, r, h, d)
    {
      StaleIsQuiet(r, h, d);
    }
    assert PeriodicQuiet(CHEAP_LINK, STALE) by {
      assert 0 <= 0 < 3;
    }
    assert !AdvertQuiet(CHEAP_LINK, STALE, 0, 1, 2);
    if AllIdeal(CHEAP_LINK, STALE) {
      IdealIsQuiet(CHEAP_LINK, STALE);
    }
  }
}

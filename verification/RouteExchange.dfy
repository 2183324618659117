/** What a part of a distance-vector network does about one destination: the adverts on its links, the steps of
    its routers, and what neighbours know about each other. */
module RouteExchange {
  import opened Graphs
  import opened DistanceVector

  // ---------- The part, its links, and one destination ----------

  /** g holds the lasting links of a part of the network: none of them costs more than the limit. */
  ghost predicate Part(g: Matrix, part: set<int>) {
    && Network(g) && (forall u :: u in part ==> 0 <= u < |g|)
    && (forall u, v :: Edge(g, u, v) ==> u in part && v in part && g[u][v] <= LIMIT)
  }

  /** The entries for one destination d. `joined` has (r, x) once r has heard from its neighbour x in the part,
      and tells it about its routes. `up` are the links to nodes outside the part that have not expired yet,
      and `gone` those that the router which took the last step has expired in its present round. `log` is all
      that has been sent from h to r about d, `got` how much of it r has received. */
  datatype Sys = Sys(e: seq<Route>, joined: set<(int, int)>, up: set<(int, int)>, gone: set<(int, int)>,
                     log: (int, int) -> seq<int>, got: (int, int) -> nat)

  datatype Event =
    | LinkUp(r: int, x: int)
    | Receive(h: int, r: int, known: Route)
    | Heartbeat(r: int)
    | Refresh(r: int)
    | FromOutside(r: int, x: int, v: int)
    | Sweep(r: int, xs: set<int>)
    | Elsewhere

  ghost predicate EntryOk(g: Matrix, d: int, s: Sys, r: int, e: Route) {
    if r == d then e == Route(0, d)
    else
      && (e.dist == -1 <==> e.nextHop == -1) && -1 <= e.dist <= LIMIT
      && (e.nextHop != -1 ==> 0 <= e.nextHop && (Told(g, d, s, r, e.nextHop) || (r, e.nextHop) in s.up))
  }

  /** h is a neighbour of r in the part, and has told r something about d, or is d. */
  ghost predicate Told(g: Matrix, d: int, s: Sys, r: int, h: int) {
    Edge(g, r, h) && (h == d || (h, r) in s.joined)
  }

  ghost predicate Ok(g: Matrix, part: set<int>, d: int, s: Sys) {
    && |s.e| == |g|
    && (forall r {:trigger EntryOk(g, d, s, r, s.e[r])} {:trigger s.e[r]} ::
          0 <= r < |g| && r in part ==> EntryOk(g, d, s, r, s.e[r]))
    && (forall r, x :: (r, x) in s.up ==> r in part && 0 <= x && x !in part)
    && (forall h, r {:trigger s.got(h, r)} :: s.got(h, r) <= |s.log(h, r)|)
    && (forall h, r, i {:trigger s.log(h, r)[i]} ::
          0 <= i < |s.log(h, r)| ==> -1 <= s.log(h, r)[i] && (h == d ==> s.log(h, r)[i] == 0))
    && (forall h, r {:trigger s.log(h, r)} :: !(Edge(g, r, h) && (h, r) in s.joined) ==> s.log(h, r) == [])
  }

  // ---------- Steps ----------

  /** Router r, whose entry is e now, tells all neighbours it has heard from. */
  ghost predicate Broadcast(g: Matrix, s: Sys, s': Sys, r: int, e: Route) {
    forall h, x {:trigger s'.log(h, x)} ::
      s'.log(h, x) == if h == r && Edge(g, r, x) && (r, x) in s.joined then s.log(h, x) + [Advert(e, x)]
                      else s.log(h, x)
  }

  ghost predicate SameLog(s: Sys, s': Sys) {
    forall h, x {:trigger s'.log(h, x)} :: s'.log(h, x) == s.log(h, x)
  }

  ghost predicate SameGot(s: Sys, s': Sys) {
    forall h, x {:trigger s'.got(h, x)} :: s'.got(h, x) == s.got(h, x)
  }

  ghost predicate SameLinks(s: Sys, s': Sys) {
    s'.joined == s.joined && s'.up == s.up && s'.gone == {}
  }

  /** Router r's entry becomes e; if it tells so, its neighbours are told. */
  ghost predicate Becomes(g: Matrix, s: Sys, s': Sys, r: int, e: Route, tells: bool) {
    && 0 <= r < |s.e| && s'.e == s.e[r := e]
    && (if tells then Broadcast(g, s, s', r, e) else SameLog(s, s'))
  }

  /** Router r is offered a distance by hop. The links that r has at the moment play no part in this. */
  ghost predicate Offer(g: Matrix, d: int, s: Sys, s': Sys, r: int, dist: int, hop: int) {
    0 <= r < |s.e| &&
    Becomes(g, s, s', r, Updated(Links(g, r), r, s.e[r], d, dist, hop), Fires(Links(g, r), r, s.e[r], d, dist, hop))
  }

  lemma LinksPlayNoPart(conn: seq<bool>, conn': seq<bool>, r: int, e: Route, d: int, dist: int, hop: int)
    requires hop != -1
    ensures Fires(conn, r, e, d, dist, hop) == Fires(conn', r, e, d, dist, hop)
    ensures Updated(conn, r, e, d, dist, hop) == Updated(conn', r, e, d, dist, hop)
  {
  }

  /** What r's entry for its neighbour h is when h has just been heard from. */
  function Heard(g: Matrix, r: int, h: int, known: Route): Route
    requires Edge(g, r, h)
  {
    Updated(Links(g, r), r, known, h, g[r][h], h)
  }

  /** An advert is looked at while there is a route to its sender after the sweep. */
  predicate Looked(g: Matrix, r: int, h: int, known: Route, gone: set<(int, int)>)
    requires Edge(g, r, h)
  {
    Heard(g, r, h, known).dist >= 0 && (r, Heard(g, r, h, known).nextHop) !in gone
  }

  /** r takes the next advert from h. `known` was r's entry for h before the datagram. */
  ghost predicate Take(g: Matrix, d: int, s: Sys, s': Sys, h: int, r: int, known: Route) {
    && Edge(g, r, h) && s.got(h, r) < |s.log(h, r)| && SameLinks(s, s')
    && (known.dist == -1 <==> known.nextHop == -1) && -1 <= known.dist
    && (forall a, b {:trigger s'.got(a, b)} :: s'.got(a, b) == if (a, b) == (h, r) then s.got(h, r) + 1
       else s.got(a, b))
    && if Looked(g, r, h, known, s.gone)
       then Offer(g, d, s, s', r, Through(s.log(h, r)[s.got(h, r)], g[r][h]), h)
       else s'.e == s.e && SameLog(s, s')
  }

  /** r expires its links to the nodes xs outside the part. */
  ghost predicate Swept(g: Matrix, s: Sys, s': Sys, r: int, xs: set<int>) {
    && 0 <= r < |s.e| && (forall x :: x in xs ==> (r, x) in s.up)
    && s'.gone == (set x | x in xs :: (r, x)) && s'.up == s.up - s'.gone && s'.joined == s.joined && SameGot(s, s')
    && var lost := s.e[r].nextHop in xs;
       Becomes(g, s, s', r, if lost then UNREACHABLE else s.e[r], lost)
  }

  ghost predicate Next(g: Matrix, part: set<int>, d: int, s: Sys, s': Sys, ev: Event) {
    match ev
    case LinkUp(r, x) =>
      // r has heard from x: nothing is told about d before there is a reason to
      && Edge(g, r, x) && s'.e == s.e && SameLog(s, s') && SameGot(s, s')
      && s'.joined == s.joined + {(r, x)} && s'.up == s.up && s'.gone == {}
    case Receive(h, r, known) => Take(g, d, s, s', h, r, known)
    case Heartbeat(r) =>
      // any datagram from d itself
      Edge(g, r, d) && SameLinks(s, s') && SameGot(s, s') && Offer(g, d, s, s', r, g[r][d], d)
    case Refresh(r) =>
      // the periodic advert of a finite entry
      && r in part && 0 <= r < |s.e| && s.e[r].dist != -1 && SameLinks(s, s') && SameGot(s, s')
      && Becomes(g, s, s', r, s.e[r], true)
    case FromOutside(r, x, v) =>
      // whatever still comes in over a link that has not expired
      (r, x) in s.up && -1 <= v && SameLinks(s, s') && SameGot(s, s') && Offer(g, d, s, s', r, v, x)
    case Sweep(r, xs) => r in part && Swept(g, s, s', r, xs)
    case Elsewhere =>
      // a round ends, or something that does not concern d
      s'.e == s.e && SameLog(s, s') && SameGot(s, s') && SameLinks(s, s')
  }

  /** There is only one reason to discard an advert of a present neighbour across a link within the limit: the
      sweep of the same round has taken away the route to its sender. */
  lemma LookedIff(g: Matrix, part: set<int>, r: int, h: int, known: Route, gone: set<(int, int)>)
    requires Part(g, part) && Edge(g, r, h) && (known.dist == -1 <==> known.nextHop == -1) && -1 <= known.dist
    ensures Looked(g, r, h, known, gone) <==> (r, Heard(g, r, h, known).nextHop) !in gone
  {
  }

  // ---------- What neighbours know about each other ----------

  /** A route of r through h is h's present advert plus the link. */
  ghost predicate Agrees(g: Matrix, d: int, s: Sys, h: int, r: int)
    requires Edge(g, r, h) && |s.e| == |g|
  {
    r != d && s.e[r].nextHop == h ==> s.e[r].dist == Capped(Through(Advert(s.e[h], r), g[r][h]))
  }

  /** The last advert on its way from h to r is h's present one; when nothing is on its way, r agrees with it. */
  ghost predicate Informed(g: Matrix, d: int, s: Sys, h: int, r: int)
    requires Edge(g, r, h) && |s.e| == |g|
  {
    var q := s.log(h, r);
    if s.got(h, r) < |q| then q[|q| - 1] == Advert(s.e[h], r) else Agrees(g, d, s, h, r)
  }

  ghost predicate AllInformed(g: Matrix, d: int, s: Sys)
    requires |s.e| == |g|
  {
    forall h, r {:trigger Informed(g, d, s, h, r)} :: Edge(g, r, h) ==> Informed(g, d, s, h, r)
  }

  /** The standing invariant. */
  ghost predicate Inv(g: Matrix, part: set<int>, d: int, s: Sys) {
    Part(g, part) && Ok(g, part, d, s) && AllInformed(g, d, s)
  }

  /** What an offer makes of an entry. */
  lemma OfferedEntry(conn: seq<bool>, r: int, e: Route, d: int, dist: int, h: int)
    requires r != d && (e.dist == -1 <==> e.nextHop == -1) && -1 <= e.dist <= LIMIT && 0 <= h && -1 <= dist
    ensures var e' := Updated(conn, r, e, d, dist, h);
            && (e'.dist == -1 <==> e'.nextHop == -1) && -1 <= e'.dist <= LIMIT
            && (e'.nextHop == h ==> e'.dist == Capped(dist))
            && (e'.nextHop != h ==> e'.nextHop == -1 || e' == e)
            && (e' != e ==> Fires(conn, r, e, d, dist, h))
  {
  }

  /** An entry and its announcement may change together. */
  lemma BecomesOk(g: Matrix, part: set<int>, d: int, s: Sys, s': Sys, r: int, e: Route, tells: bool)
    requires Part(g, part) && Ok(g, part, d, s) && r in part && Becomes(g, s, s', r, e, tells)
    requires s'.up <= s.up && EntryOk(g, d, s', r, e) && (forall x :: (r, x) in s.up - s'.up ==> e.nextHop != x)
    requires s.joined <= s'.joined && forall a, x :: (a, x) in s.up - s'.up ==> a == r
    requires forall a, b {:trigger s'.got(a, b)} :: s'.got(a, b) <= |s.log(a, b)|
    ensures Ok(g, part, d, s')
  {
    forall x | 0 <= x < |g| && x in part
      ensures EntryOk(g, d, s', x, s'.e[x])
    {
      assert EntryOk(g, d, s, x, s.e[x]);
    }
  }

  lemma OfferOk(g: Matrix, part: set<int>, d: int, s: Sys, s': Sys, r: int, dist: int, hop: int)
    requires Part(g, part) && Ok(g, part, d, s) && r in part && Offer(g, d, s, s', r, dist, hop) && -1 <= dist
    requires SameLinks(s, s') && 0 <= hop && (Told(g, d, s, r, hop) || (r, hop) in s.up)
    requires forall a, b {:trigger s'.got(a, b)} :: s'.got(a, b) <= |s.log(a, b)|
    ensures Ok(g, part, d, s')
  {
    assert EntryOk(g, d, s, r, s.e[r]);
    if r != d {
      OfferedEntry(Links(g, r), r, s.e[r], d, dist, hop);
    }
    BecomesOk(g, part, d, s, s', r, Updated(Links(g, r), r, s.e[r], d, dist, hop),
              Fires(Links(g, r), r, s.e[r], d, dist, hop));
  }

  /** Steps without any effect on the entries. */
  lemma SameOk(g: Matrix, part: set<int>, d: int, s: Sys, s': Sys)
    requires Part(g, part) && Ok(g, part, d, s) && s'.e == s.e && SameLog(s, s') && s'.up == s.up
    requires s.joined <= s'.joined
    requires forall a, b {:trigger s'.got(a, b)} :: s'.got(a, b) <= |s.log(a, b)|
    ensures Ok(g, part, d, s')
  {
    forall x | 0 <= x < |g| && x in part
      ensures EntryOk(g, d, s', x, s'.e[x])
    {
      assert EntryOk(g, d, s, x, s.e[x]);
    }
  }

  lemma SweepOk(g: Matrix, part: set<int>, d: int, s: Sys, s': Sys, r: int, xs: set<int>)
    requires Part(g, part) && Ok(g, part, d, s) && r in part && Swept(g, s, s', r, xs)
    ensures Ok(g, part, d, s')
  {
    assert EntryOk(g, d, s, r, s.e[r]);
    var lost := s.e[r].nextHop in xs;
    BecomesOk(g, part, d, s, s', r, if lost then UNREACHABLE else s.e[r], lost);
  }

  lemma NextOk(g: Matrix, part: set<int>, d: int, s: Sys, s': Sys, ev: Event)
    requires Part(g, part) && Ok(g, part, d, s) && Next(g, part, d, s, s', ev)
    ensures Ok(g, part, d, s')
  {
    match ev
    case Receive(h, r, known) =>
      if Looked(g, r, h, known, s.gone) {
        OfferOk(g, part, d, s, s', r, Through(s.log(h, r)[s.got(h, r)], g[r][h]), h);
      } else {
        SameOk(g, part, d, s, s');
      }
    case Heartbeat(r) => OfferOk(g, part, d, s, s', r, g[r][d], d);
    case Refresh(r) =>
      assert EntryOk(g, d, s, r, s.e[r]);
      BecomesOk(g, part, d, s, s', r, s.e[r], true);
    case FromOutside(r, x, v) => OfferOk(g, part, d, s, s', r, v, x);
    case Sweep(r, xs) => SweepOk(g, part, d, s, s', r, xs);
    case _ => SameOk(g, part, d, s, s');
  }

  /** Whoever is told is informed, */
  lemma ToldInformed(g: Matrix, d: int, s: Sys, s': Sys, a: int, b: int)
    requires Edge(g, b, a) && |s.e| == |s'.e| == |g| && s'.got(a, b) == s.got(a, b) <= |s.log(a, b)|
    requires s'.log(a, b) == s.log(a, b) + [Advert(s'.e[a], b)]
    ensures Informed(g, d, s', a, b)
  {
  }

  /** and stays so as long as its sender's entry is the same, and its own agrees with that. */
  lemma SameInformed(g: Matrix, d: int, s: Sys, s': Sys, a: int, b: int)
    requires Edge(g, b, a) && |s.e| == |s'.e| == |g| && Informed(g, d, s, a, b)
    requires s'.log(a, b) == s.log(a, b) && s'.got(a, b) == s.got(a, b) && s'.e[a] == s.e[a]
    requires Agrees(g, d, s, a, b) ==> Agrees(g, d, s', a, b)
    ensures Informed(g, d, s', a, b)
  {
  }

  /** A link over which nothing has been told yet. */
  lemma UntoldInformed(g: Matrix, part: set<int>, d: int, s: Sys, a: int, b: int)
    requires Part(g, part) && Ok(g, part, d, s) && Edge(g, b, a) && (a, b) !in s.joined && a != d
    ensures Informed(g, d, s, a, b)
  {
    assert EntryOk(g, d, s, b, s.e[b]);
    assert s.log(a, b) == [];
  }

  /** A router that tells what its entry has become keeps everybody informed. */
  lemma BecomesInformed(g: Matrix, part: set<int>, d: int, s: Sys, s': Sys, r: int, e: Route, tells: bool, a: int,
                        b: int)
    requires Part(g, part) && Ok(g, part, d, s) && Ok(g, part, d, s') && s'.joined == s.joined && r in part
    requires Becomes(g, s, s', r, e, tells) && SameGot(s, s')
    requires Edge(g, b, a) && Informed(g, d, s, a, b) && (e != s.e[r] ==> tells && r != d)
    requires b == r && e != s.e[r] && e.nextHop == a ==> e.dist == Capped(Through(Advert(s.e[a], r), g[r][a]))
    ensures Informed(g, d, s', a, b)
  {
    assert s'.got(a, b) == s.got(a, b);
    if tells && a == r && (a, b) in s.joined {
      assert s'.log(a, b) == s.log(a, b) + [Advert(e, b)];
      ToldInformed(g, d, s, s', a, b);
    } else if a == r && e != s.e[r] {
      UntoldInformed(g, part, d, s', a, b);
    } else {
      assert s'.log(a, b) == s.log(a, b) && s'.e[a] == s.e[a];
      SameInformed(g, d, s, s', a, b);
    }
  }

  /** An offer that does not come as an advert of a neighbour, or comes from the destination itself. */
  lemma OfferInformed(g: Matrix, part: set<int>, d: int, s: Sys, s': Sys, r: int, dist: int, hop: int, a: int, b: int)
    requires Part(g, part) && Ok(g, part, d, s) && Ok(g, part, d, s') && s'.joined == s.joined && r in part
    requires Offer(g, d, s, s', r, dist, hop) && SameGot(s, s')
    requires -1 <= dist && 0 <= hop && ((Edge(g, r, hop) && hop == d && dist == g[r][d]) || (r, hop) in s.up)
    requires Edge(g, b, a) && Informed(g, d, s, a, b)
    ensures Informed(g, d, s', a, b)
  {
    assert EntryOk(g, d, s, r, s.e[r]);
    if r != d {
      OfferedEntry(Links(g, r), r, s.e[r], d, dist, hop);
    }
    if hop == d && Edge(g, r, d) {
      assert EntryOk(g, d, s, d, s.e[d]);
    }
    BecomesInformed(g, part, d, s, s', r, Updated(Links(g, r), r, s.e[r], d, dist, hop),
        Fires(Links(g, r), r, s.e[r], d, dist, hop), a, b);
  }

  /** The sender of the advert that is taken. */
  lemma TakenInformed(g: Matrix, part: set<int>, d: int, s: Sys, s': Sys, h: int, r: int, known: Route)
    requires Part(g, part) && Ok(g, part, d, s) && Take(g, d, s, s', h, r, known) && Looked(g, r, h, known, s.gone)
    requires Informed(g, d, s, h, r)
    ensures Informed(g, d, s', h, r)
  {
    var v := s.log(h, r)[s.got(h, r)];
    assert EntryOk(g, d, s, r, s.e[r]);
    assert s'.log(h, r) == s.log(h, r) && s'.e[h] == s.e[h] && s'.got(h, r) == s.got(h, r) + 1;
    if r != d {
      OfferedEntry(Links(g, r), r, s.e[r], d, Through(v, g[r][h]), h);
    }
  }

  lemma TakeInformed(g: Matrix, part: set<int>, d: int, s: Sys, s': Sys, h: int, r: int, known: Route, a: int, b: int)
    requires Part(g, part) && Ok(g, part, d, s) && Ok(g, part, d, s')
    requires Take(g, d, s, s', h, r, known) && Looked(g, r, h, known, s.gone)
    requires Edge(g, b, a) && Informed(g, d, s, a, b)
    ensures Informed(g, d, s', a, b)
  {
    if (a, b) == (h, r) {
      TakenInformed(g, part, d, s, s', h, r, known);
    } else {
      TakeOtherInformed(g, part, d, s, s', h, r, known, a, b);
    }
  }

  lemma TakeOtherInformed(g: Matrix, part: set<int>, d: int, s: Sys, s': Sys, h: int, r: int, known: Route, a: int,
                          b: int)
    requires Part(g, part) && Ok(g, part, d, s) && Ok(g, part, d, s')
    requires Take(g, d, s, s', h, r, known) && Looked(g, r, h, known, s.gone)
    requires Edge(g, b, a) && Informed(g, d, s, a, b) && (a, b) != (h, r)
    ensures Informed(g, d, s', a, b)
  {
    var dist := Through(s.log(h, r)[s.got(h, r)], g[r][h]);
    var e := Updated(Links(g, r), r, s.e[r], d, dist, h);
    assert s'.got(a, b) == s.got(a, b);
    assert EntryOk(g, d, s, r, s.e[r]);
    if r != d {
      OfferedEntry(Links(g, r), r, s.e[r], d, dist, h);
    }
    if a == r && e != s.e[r] {
      if (a, b) in s.joined {
        assert s'.log(a, b) == s.log(a, b) + [Advert(e, b)];
        ToldInformed(g, d, s, s', a, b);
      } else {
        UntoldInformed(g, part, d, s', a, b);
      }
    } else if a == r && s'.log(a, b) != s.log(a, b) {
      ToldInformed(g, d, s, s', a, b);
    } else {
      SameInformed(g, d, s, s', a, b);
    }
  }

  /** An advert that is not looked at does no harm exactly if r hears from its sender again, or if there is nothing
      to be learnt from it. */
  ghost predicate Harmless(g: Matrix, d: int, s: Sys, ev: Event)
    requires |s.e| == |g|
  {
    ev.Receive? && Edge(g, ev.r, ev.h) ==>
      || Looked(g, ev.r, ev.h, ev.known, s.gone)
      || s.got(ev.h, ev.r) + 1 < |s.log(ev.h, ev.r)|
      || Agrees(g, d, s, ev.h, ev.r)
  }

  lemma SweepInformed(g: Matrix, part: set<int>, d: int, s: Sys, s': Sys, r: int, xs: set<int>, a: int, b: int)
    requires Part(g, part) && Ok(g, part, d, s) && Ok(g, part, d, s') && r in part && Swept(g, s, s', r, xs)
    requires Edge(g, b, a) && Informed(g, d, s, a, b)
    ensures Informed(g, d, s', a, b)
  {
    assert EntryOk(g, d, s, r, s.e[r]);
    var lost := s.e[r].nextHop in xs;
    BecomesInformed(g, part, d, s, s', r, if lost then UNREACHABLE else s.e[r], lost, a, b);
  }

  /** Once informed, a neighbour stays so, except for a harmful advert. */
  lemma NextInformed(g: Matrix, part: set<int>, d: int, s: Sys, s': Sys, ev: Event, a: int, b: int)
    requires Part(g, part) && Ok(g, part, d, s) && Next(g, part, d, s, s', ev) && Edge(g, b, a) && |s'.e| == |g|
    requires Informed(g, d, s, a, b) && (ev.Receive? && (ev.h, ev.r) == (a, b) ==> Harmless(g, d, s, ev))
    ensures Informed(g, d, s', a, b)
  {
    NextOk(g, part, d, s, s', ev);
    match ev
    case Receive(h, r, known) =>
      if Looked(g, r, h, known, s.gone) {
        TakeInformed(g, part, d, s, s', h, r, known, a, b);
      }
    case Heartbeat(r) => OfferInformed(g, part, d, s, s', r, g[r][d], d, a, b);
    case Refresh(r) => BecomesInformed(g, part, d, s, s', r, s.e[r], true, a, b);
    case FromOutside(r, x, v) => OfferInformed(g, part, d, s, s', r, v, x, a, b);
    case Sweep(r, xs) => SweepInformed(g, part, d, s, s', r, xs, a, b);
    case _ =>
  }

  /** The invariant is kept, whatever expires when, if and only if no advert does harm. */
  lemma NextInvIff(g: Matrix, part: set<int>, d: int, s: Sys, s': Sys, ev: Event)
    requires Inv(g, part, d, s) && Next(g, part, d, s, s', ev)
    ensures Inv(g, part, d, s') <==> Harmless(g, d, s, ev)
  {
    NextOk(g, part, d, s, s', ev);
    if Harmless(g, d, s, ev) {
      forall a, b | Edge(g, b, a)
        ensures Informed(g, d, s', a, b)
      {
        assert Informed(g, d, s, a, b);
        NextInformed(g, part, d, s, s', ev, a, b);
      }
    } else {
      assert Informed(g, d, s, ev.h, ev.r) && !Informed(g, d, s', ev.h, ev.r);
    }
  }

  // ---------- Runs ----------

  ghost predicate Run(g: Matrix, part: set<int>, d: int, states: seq<Sys>, events: seq<Event>) {
    |states| == |events| + 1 && forall k :: 0 <= k < |events| ==> StepAt(g, part, d, states, events, k)
  }

  ghost predicate StepAt(g: Matrix, part: set<int>, d: int, states: seq<Sys>, events: seq<Event>, k: int) {
    0 <= k < |events| && k + 1 < |states| && Next(g, part, d, states[k], states[k + 1], events[k])
  }

  lemma {:induction false} RunOk(g: Matrix, part: set<int>, d: int, states: seq<Sys>, events: seq<Event>, k: nat)
    requires Part(g, part) && Run(g, part, d, states, events) && Ok(g, part, d, states[0]) && k < |states|
    ensures Ok(g, part, d, states[k])
  {
    if k > 0 {
      RunOk(g, part, d, states, events, k - 1);
      assert StepAt(g, part, d, states, events, k - 1);
      NextOk(g, part, d, states[k - 1], states[k], events[k - 1]);
    }
  }

  ghost predicate HarmlessAt(g: Matrix, d: int, states: seq<Sys>, events: seq<Event>, k: int) {
    0 <= k < |events| && k < |states| && |states[k].e| == |g| && Harmless(g, d, states[k], events[k])
  }

  /** As long as no advert does harm the invariant holds, whatever is still connected to the outside. */
  lemma {:induction false} RunInv(g: Matrix, part: set<int>, d: int, states: seq<Sys>, events: seq<Event>, k: nat)
    requires Run(g, part, d, states, events) && Inv(g, part, d, states[0]) && k < |states|
    requires forall i :: 0 <= i < k ==> HarmlessAt(g, d, states, events, i)
    ensures Inv(g, part, d, states[k])
  {
    if k > 0 {
      RunInv(g, part, d, states, events, k - 1);
      assert StepAt(g, part, d, states, events, k - 1) && HarmlessAt(g, d, states, events, k - 1);
      NextInvIff(g, part, d, states[k - 1], states[k], events[k - 1]);
    }
  }

  /** Routers that have just started know only themselves, and have heard from nobody. */
  lemma FreshStart(g: Matrix, part: set<int>, d: int, s: Sys)
    requires Part(g, part) && |s.e| == |g| && s.joined == s.up == {}
    requires forall r {:trigger s.e[r]} :: r in part && 0 <= r < |g| ==>
               s.e[r] == if r == d then Route(0, d) else UNREACHABLE
    requires forall a, b {:trigger s.log(a, b)} :: s.log(a, b) == []
    requires forall a, b {:trigger s.got(a, b)} :: s.got(a, b) == 0
    ensures Inv(g, part, d, s)
  {
    forall r | 0 <= r < |g| && r in part
      ensures EntryOk(g, d, s, r, s.e[r])
    {
    }
  }

  // ---------- An advert that does harm ----------

  /** The link 0-1 of cost 9 has been cut off from the rest of the network. Router 1 has just withdrawn its route
      to 3; router 0 has a route to 3 by way of 1, and one to 1 of distance 3 by way of 2, which is about to
      expire. */
  const CUT_LINK: Matrix := [[0, 9, 0, 0], [9, 0, 0, 0], [0, 0, 0, 0], [0, 0, 0, 0]]
  const PHANTOM_ROUTE := Route(14, 1)

  /** What the routers hold; from 1 to 0 one withdrawal has been sent. */
  ghost function CutOff(up: set<(int, int)>, gone: set<(int, int)>, taken: nat): Sys {
    Sys([PHANTOM_ROUTE, UNREACHABLE, UNREACHABLE, Route(0, 3)], {(0, 1), (1, 0)}, up, gone,
        (a, b) => if (a, b) == (1, 0) then [-1] else [], (a, b) => if (a, b) == (1, 0) then taken else 0)
  }

  lemma CutOffInv()
    ensures Inv(CUT_LINK, {0, 1}, 3, CutOff({(0, 2)}, {}, 0))
  {
    var g, s := CUT_LINK, CutOff({(0, 2)}, {}, 0);
    assert forall u, v :: Edge(g, u, v) <==> (u, v) in {(0, 1), (1, 0)};
    forall r | 0 <= r < |g| && r in {0, 1}
      ensures EntryOk(g, 3, s, r, s.e[r])
    {
    }
    assert s.log(1, 0) == [-1] && s.log(0, 1) == [];
    assert Informed(g, 3, s, 1, 0) && Informed(g, 3, s, 0, 1);
  }

  /** A round of router 0 that expires the neighbour 2 and then looks for the withdrawal: the invariant holds
      before, and router 0 does not take the withdrawal. */
  lemma WithdrawalDiscarded()
    ensures Inv(CUT_LINK, {0, 1}, 3, CutOff({(0, 2)}, {}, 0))
    ensures Next(CUT_LINK, {0, 1}, 3, CutOff({(0, 2)}, {}, 0), CutOff({}, {(0, 2)}, 0), Sweep(0, {2}))
    ensures Next(CUT_LINK, {0, 1}, 3, CutOff({}, {(0, 2)}, 0), CutOff({}, {}, 1), Receive(1, 0, Route(3, 2)))
    ensures Stuck(CutOff({}, {}, 1))
  {
    CutOffInv();
    SweptAway();
    assert CutOff({}, {(0, 2)}, 0).log(1, 0) == [-1];
    assert !Looked(CUT_LINK, 0, 1, Route(3, 2), {(0, 2)});
  }

  lemma SweptAway()
    ensures Swept(CUT_LINK, CutOff({(0, 2)}, {}, 0), CutOff({}, {(0, 2)}, 0), 0, {2})
  {
    var s, s' := CutOff({(0, 2)}, {}, 0), CutOff({}, {(0, 2)}, 0);
    assert s'.gone == set x | x in {2} :: (0, x);
    assert s'.up == s.up - s'.gone;
    assert s'.e == s.e[0 := s.e[0]];
  }

  /** Nothing is on its way to router 0, and nothing but withdrawals to router 1. */
  ghost predicate Stuck(s: Sys) {
    && |s.e| == 4 && s.e[0] == PHANTOM_ROUTE && s.e[1] == UNREACHABLE && s.up == {} && s.joined == {(0, 1), (1, 0)}
    && s.got(1, 0) == |s.log(1, 0)|
    && (forall i :: s.got(0, 1) <= i < |s.log(0, 1)| ==> s.log(0, 1)[i] == -1)
  }

  lemma StuckStep(s: Sys, s': Sys, ev: Event)
    requires Stuck(s) && Next(CUT_LINK, {0, 1}, 3, s, s', ev)
    ensures Stuck(s')
  {
    assert forall u, v :: Edge(CUT_LINK, u, v) <==> (u, v) in {(0, 1), (1, 0)};
    match ev
    case Sweep(r, xs) =>
      assert forall x :: x in xs ==> (r, x) in s.up;
      assert xs == {};
      assert s'.log(1, 0) == s.log(1, 0) && s'.log(0, 1) == s.log(0, 1) && s'.got(1, 0) == s.got(1, 0);
    case _ =>
      assert s'.log(1, 0) == s.log(1, 0);
      assert s'.log(0, 1) == s.log(0, 1) || s'.log(0, 1) == s.log(0, 1) + [-1];
      assert s'.got(1, 0) == s.got(1, 0) && s.got(0, 1) <= s'.got(0, 1);
  }

  /** From then on router 0 keeps its route to a node that cannot be reached, whatever happens. */
  lemma {:induction false} PhantomStaysForEver(states: seq<Sys>, events: seq<Event>, k: nat)
    requires Run(CUT_LINK, {0, 1}, 3, states, events) && Stuck(states[0]) && k < |states|
    ensures Stuck(states[k]) && !Ideal(CUT_LINK, 0, 3, states[k].e[0])
  {
    if k > 0 {
      PhantomStaysForEver(states, events, k - 1);
      assert StepAt(CUT_LINK, {0, 1}, 3, states, events, k - 1);
      StuckStep(states[k - 1], states[k], events[k - 1]);
    }
    if Ideal(CUT_LINK, 0, 3, PHANTOM_ROUTE) {
      FirstHopBound(CUT_LINK, 0, 1, 3);
      var p :| IsPath(CUT_LINK, 0, p, 3);
      NoPathOut(0, p);
    }
  }

  lemma {:induction false} NoPathOut(s: int, p: seq<int>)
    requires s != 3
    ensures !IsPath(CUT_LINK, s, p, 3)
    decreases |p|
  {
    if p != [] && Edge(CUT_LINK, s, p[0]) {
      NoPathOut(p[0], p[1..]);
    }
  }
}

/** A network of distance-vector routers with their whole tables. Each step is one round of one router, and for
    every destination it is five steps of the exchange about that destination. */
module VectorNetwork {
  import opened Graphs
  import opened DistanceVector
  import opened VectorRouter
  import opened RouteExchange
  import opened RoundTraffic

  // ---------- The network ----------

  /** What the routers hold, when their periodic updates are due, all that each of them has sent, and how far
      pos[r][h] router r has read what h has sent. */
  datatype Net = Net(routers: seq<State>, timers: seq<int>, sent: seq<seq<DistMsg>>, pos: seq<seq<int>>)

  /** Router r receives a request from h, and reads the clock three times. */
  datatype Datagram = Datagram(r: int, h: int, stamp: int, check: int, sweep: int, request: Request)

  /** Router r of the part has the part's links at their costs, and otherwise only links to the outside. */
  ghost predicate RouterOk(g: Matrix, part: set<int>, s: State, r: int) {
    && StateOk(s) && s.me == r && |g| == NODES
    && (forall x :: Up(s.conn, x) ==> Edge(g, r, x) || x !in part)
    && (forall x {:trigger s.costs[x]} :: Edge(g, r, x) ==> s.costs[x] == g[r][x])
  }

  ghost predicate NetOk(g: Matrix, part: set<int>, n: Net) {
    && Part(g, part) && |g| == |n.routers| == |n.timers| == |n.sent| == |n.pos| == NODES
    && (forall r {:trigger n.pos[r]} :: 0 <= r < NODES ==> |n.pos[r]| == NODES)
    && (forall r, h {:trigger n.pos[r][h]} :: 0 <= r < NODES && 0 <= h < NODES ==>
          0 <= n.pos[r][h] <= |n.sent[h]|)
    && (forall r {:trigger n.routers[r]} :: 0 <= r < NODES && r in part ==> RouterOk(g, part, n.routers[r], r))
  }

  /** Number i is the next that r gets of what h has sent: links lose and reorder nothing. */
  ghost predicate NextOnLink(n: Net, h: int, r: int, i: int)
    requires 0 <= h < |n.sent| && 0 <= r < |n.pos| && h < |n.pos[r]|
  {
    0 <= n.pos[r][h] <= i < |n.sent[h]| && n.sent[h][i].to == r && forall j :: n.pos[r][h] <= j < i ==>
        n.sent[h][j].to != r
  }

  /** What a router of the part may get: anything from the nodes outside that it still has a link to, the adverts
      of its neighbours in the part in their order, and other datagrams of theirs at any time. The costs of the
      part's links do not change, and neighbours in the part are heard from in time. */
  ghost predicate MayArrive(g: Matrix, part: set<int>, n: Net, dg: Datagram)
    requires NetOk(g, part, n)
  {
    && dg.r in part && Sender(dg.h) && dg.h != dg.r && RequestOk(dg.request) && Positive(dg.request)
    && dg.sweep - dg.stamp < TIMEOUT
    && var s := n.routers[dg.r];
       && (dg.h == -1 || Edge(g, dg.r, dg.h) || (dg.h !in part && Up(s.conn, dg.h)))
       && (dg.request.CostChange? && Edge(g, dg.r, dg.request.node) ==>
           dg.request.cost == g[dg.r][dg.request.node])
       && (forall x :: Edge(g, dg.r, x) ==> !Silent(Joined(s.conn, dg.h), Stamped(s.last, dg.h, dg.stamp), dg.sweep, x))
  }

  ghost predicate IsAdvert(g: Matrix, dg: Datagram) {
    Edge(g, dg.r, dg.h) && dg.request.Dist?
  }

  /** The advert is the next one on the link. */
  ghost predicate Reads(n: Net, n': Net, dg: Datagram, i: int)
    requires 0 <= dg.h < |n.sent| && 0 <= dg.r < |n.pos| && dg.h < |n.pos[dg.r]|
  {
    && NextOnLink(n, dg.h, dg.r, i) && n'.pos == n.pos[dg.r := n.pos[dg.r][dg.h := i + 1]]
    && dg.request == Request.Dist(n.sent[dg.h][i].node, n.sent[dg.h][i].dist)
  }

  /** One round of router dg.r. */
  ghost predicate NetNext(g: Matrix, part: set<int>, n: Net, n': Net, dg: Datagram)
    requires NetOk(g, part, n)
  {
    && MayArrive(g, part, n, dg)
    && var s, due := n.routers[dg.r], n.timers[dg.r] <= dg.check;
       && n'.routers == n.routers[dg.r := AfterRound(s, dg.h, dg.stamp, dg.sweep, dg.request)]
       && n'.timers == n.timers[dg.r := if due then dg.check + UPDATE_FREQ else n.timers[dg.r]]
       && n'.sent == n.sent[dg.r := n.sent[dg.r] + RoundSends(s, dg.h, dg.stamp, dg.sweep, due, dg.request)]
       && (if IsAdvert(g, dg) then exists i :: Reads(n, n', dg, i) else n'.pos == n.pos)
  }

  // ---------- The exchange about one destination ----------

  function EntryOf(s: State, d: int): Route {
    if 0 <= d < |s.table| then s.table[d] else UNREACHABLE
  }

  ghost function InnerLinks(g: Matrix, n: Net): set<(int, int)>
    requires |n.routers| == |g|
  {
    set r, x | 0 <= r < |g| && 0 <= x < |g| && Edge(g, r, x) && Up(n.routers[r].conn, x) :: (r, x)
  }

  ghost function OuterLinks(g: Matrix, part: set<int>, n: Net): set<(int, int)>
    requires |n.routers| == |g|
  {
    set r, x | 0 <= r < |g| && 0 <= x < |g| && r in part && x !in part && Up(n.routers[r].conn, x) :: (r, x)
  }

  /** What the network does about d. */
  ghost function Exchange(g: Matrix, part: set<int>, n: Net, d: int): Sys
    requires NetOk(g, part, n)
  {
    Sys(seq(|g|, r requires 0 <= r < |g| => EntryOf(n.routers[r], d)), InnerLinks(g, n), OuterLinks(g, part, n), {},
        (h, r) => if Edge(g, r, h) then About(n.sent[h], r, d) else [],
        (h, r) => if Edge(g, r, h) then |About(n.sent[h][..n.pos[r][h]], r, d)| else 0)
  }

  /** Router r's entry becomes e, and it sends out. */
  ghost function Announced(g: Matrix, s: Sys, r: int, e: Route, out: seq<DistMsg>, d: int): Sys
    requires 0 <= r < |s.e|
  {
    s.(e := s.e[r := e],
       log := (a, x) => if a == r && Edge(g, r, x) then s.log(a, x) + About(out, x, d) else s.log(a, x))
  }

  /** In s router r has heard from its neighbours in conn, and from no others. */
  ghost predicate Knows(g: Matrix, s: Sys, r: int, conn: seq<bool>) {
    forall x {:trigger Edge(g, r, x)} {:trigger (r, x) in s.joined} :: Edge(g, r, x) ==>
      ((r, x) in s.joined <==> Up(conn, x))
  }

  lemma AnnouncedBecomes(g: Matrix, s: Sys, r: int, e: Route, out: seq<DistMsg>, d: int, conn: seq<bool>, tells: bool)
    requires 0 <= r < |s.e| && Knows(g, s, r, conn)
    requires forall x :: Edge(g, r, x) ==> About(out, x, d) == News(conn, e, tells, x)
    ensures Becomes(g, s, Announced(g, s, r, e, out, d), r, e, tells)
  {
  }

  /** Nothing about d: its entry stays and nothing is told. */
  lemma AnnouncedNothing(g: Matrix, part: set<int>, s: Sys, r: int, e: Route, out: seq<DistMsg>, d: int)
    requires 0 <= r < |s.e| && e == s.e[r] && s.gone == {}
    requires forall x :: Edge(g, r, x) ==> About(out, x, d) == []
    ensures Next(g, part, d, s, Announced(g, s, r, e, out, d), Elsewhere)
  {
    assert s.e[r := e] == s.e;
  }

  // ---------- The first step: a link comes up ----------

  ghost function LinkEvent(g: Matrix, r: int, h: int): Event {
    if Edge(g, r, h) then LinkUp(r, h) else Elsewhere
  }

  ghost function Linked(g: Matrix, s: Sys, r: int, h: int): Sys {
    if Edge(g, r, h) then s.(joined := s.joined + {(r, h)}) else s
  }

  lemma LinkStep(g: Matrix, part: set<int>, d: int, s: Sys, r: int, h: int)
    requires s.gone == {}
    ensures Next(g, part, d, s, Linked(g, s, r, h), LinkEvent(g, r, h))
  {
  }

  // ---------- The second: the sender's link is offered ----------

  ghost function OfferEvent(g: Matrix, s: State, r: int, h: int, d: int): Event
    requires 0 <= d < |s.costs|
  {
    if h != d then Elsewhere else if Edge(g, r, d) then Heartbeat(r) else FromOutside(r, d, s.costs[d])
  }

  ghost predicate RoundOk(g: Matrix, part: set<int>, s: State, r: int, h: int, d: int) {
    Part(g, part) && RouterOk(g, part, s, r) && r in part && Sender(h) && h != r && 0 <= d < NODES
  }

  lemma OfferStep(g: Matrix, part: set<int>, d: int, x: Sys, s: State, r: int, h: int)
    requires RoundOk(g, part, s, r, h, d) && |x.e| == NODES && x.e[r] == s.table[d] && x.gone == {}
    requires Knows(g, x, r, Joined(s.conn, h)) && (h == -1 || Edge(g, r, h) || (r, h) in x.up)
    ensures var joined := Joined(s.conn, h);
            Next(g, part, d, x,
                 Announced(g, x, r, Offered(joined, s.costs, s.me, s.table, h)[d],
                           OfferSends(joined, s.costs, s.me, s.table, h), d),
                 OfferEvent(g, s, r, h, d))
  {
    var joined := Joined(s.conn, h);
    var e, out := Offered(joined, s.costs, s.me, s.table, h)[d], OfferSends(joined, s.costs, s.me, s.table, h);
    forall y | Edge(g, r, y) && h != -1
      ensures About(out, y, d) == News(joined, Updated(joined, r, s.table[h], h, s.costs[h], h),
                                       d == h && Fires(joined, r, s.table[h], h, s.costs[h], h), y)
    {
      AboutUpdate(joined, r, s.table[h], h, s.costs[h], h, y, d);
    }
    if h != d {
      AnnouncedNothing(g, part, x, r, e, out, d);
    } else {
      AnnouncedBecomes(g, x, r, e, out, d, joined, Fires(joined, r, s.table[d], d, s.costs[d], d));
      LinksPlayNoPart(joined, Links(g, r), r, s.table[d], d, s.costs[d], d);
    }
  }

  // ---------- The third: the periodic update ----------

  ghost function UpdateEvent(r: int, e: Route, due: bool): Event {
    if due && e.dist != -1 then Refresh(r) else Elsewhere
  }

  lemma UpdateStep(g: Matrix, part: set<int>, d: int, x: Sys, r: int, conn: seq<bool>, table: seq<Route>, due: bool)
    requires r in part && 0 <= r < |x.e| && 0 <= d < |table| && x.e[r] == table[d] && x.gone == {}
              && Knows(g, x, r, conn)
    ensures Next(g, part, d, x, Announced(g, x, r, table[d], if due then TellAll(conn, table, |table|) else [], d),
                 UpdateEvent(r, table[d], due))
  {
    var out := if due then TellAll(conn, table, |table|) else [];
    forall y | Edge(g, r, y)
      ensures About(out, y, d) == News(conn, table[d], due && table[d].dist != -1, y)
    {
      if due {
        AboutTellAll(conn, table, y, d);
      }
    }
    if due && table[d].dist != -1 {
      AnnouncedBecomes(g, x, r, table[d], out, d, conn, true);
    } else {
      AnnouncedNothing(g, part, x, r, table[d], out, d);
    }
  }

  // ---------- The fourth: the expiry sweep ----------

  ghost function SilentOnes(conn: seq<bool>, last: seq<int>, now: int): set<int>
    requires |conn| == |last|
  {
    set x | 0 <= x < |conn| && Silent(conn, last, now, x)
  }

  ghost function Expired(g: Matrix, x: Sys, r: int, xs: set<int>): Sys {
    var gone := set y | y in xs :: (r, y);
    x.(up := x.up - gone, gone := gone)
  }

  lemma SweepStep(g: Matrix, part: set<int>, d: int, x: Sys, r: int, conn: seq<bool>, last: seq<int>,
                  table: seq<Route>, now: int)
    requires |conn| == |last| == |table| && r in part && 0 <= r < |x.e| && 0 <= d < |table| && x.e[r] == table[d]
    requires Knows(g, x, r, conn) && (forall y :: Edge(g, r, y) ==> !Silent(conn, last, now, y))
    requires forall y :: Silent(conn, last, now, y) ==> (r, y) in x.up
    requires -1 <= table[d].nextHop < |table|
    ensures var left := Survivors(conn, last, now, |conn|);
            Next(g, part, d, x,
                 Expired(g, Announced(g, x, r, AllKept(conn, left, table)[d],
                                      ExpirySends(conn, last, table, now, |table|), d), r, SilentOnes(conn, last, now)),
                 Sweep(r, SilentOnes(conn, last, now)))
  {
    var xs, left := SilentOnes(conn, last, now), Survivors(conn, last, now, |conn|);
    var e, out, lost := AllKept(conn, left, table)[d], ExpirySends(conn, last, table, now, |table|),
        table[d].nextHop in xs;
    forall y | Edge(g, r, y)
      ensures About(out, y, d) == News(conn, UNREACHABLE, lost, y)
    {
      AboutExpiry(conn, last, table, now, y, d);
    }
    assert e == if lost then UNREACHABLE else table[d];
    AnnouncedBecomes(g, x, r, e, out, d, conn, lost);
  }

  // ---------- The last: what the datagram asks for ----------

  /** Router r's entry becomes e, it sends out, and the round ends. */
  ghost function Ended(g: Matrix, x: Sys, r: int, e: Route, out: seq<DistMsg>, d: int): Sys
    requires 0 <= r < |x.e|
  {
    Announced(g, x, r, e, out, d).(gone := {})
  }

  /** The sweep of x has dropped the silent ones. */
  ghost predicate AfterSweep(g: Matrix, x: Sys, r: int, conn: seq<bool>, left: seq<bool>, last: seq<int>, now: int) {
    && |conn| == |last| == |left| && left == Survivors(conn, last, now, |conn|)
    && Knows(g, x, r, left) && x.gone == set y | y in SilentOnes(conn, last, now) :: (r, y)
  }

  lemma NothingAnswered(g: Matrix, part: set<int>, x: Sys, r: int, e: Route, out: seq<DistMsg>, d: int)
    requires 0 <= r < |x.e| && e == x.e[r]
    requires forall y :: Edge(g, r, y) ==> About(out, y, d) == []
    ensures Next(g, part, d, x, Ended(g, x, r, e, out, d), Elsewhere)
  {
    assert x.e[r := e] == x.e;
  }

  /** An offer that is answered. */
  lemma OfferAnswered(g: Matrix, d: int, x: Sys, r: int, left: seq<bool>, dist: int, hop: int)
    requires 0 <= r < |x.e| && Knows(g, x, r, left) && hop != -1
    ensures var e := Updated(left, r, x.e[r], d, dist, hop);
            Offer(g, d, x, Announced(g, x, r, e, UpdateSends(left, r, x.e[r], d, dist, hop), d), r, dist, hop)
  {
    var e, out := Updated(left, r, x.e[r], d, dist, hop), UpdateSends(left, r, x.e[r], d, dist, hop);
    LinksPlayNoPart(left, Links(g, r), r, x.e[r], d, dist, hop);
    forall y | Edge(g, r, y)
      ensures About(out, y, d) == News(left, e, Fires(left, r, x.e[r], d, dist, hop), y)
    {
      AboutUpdate(left, r, x.e[r], d, dist, hop, y, d);
    }
    AnnouncedBecomes(g, x, r, e, out, d, left, Fires(left, r, x.e[r], d, dist, hop));
  }

  lemma OfferLike(g: Matrix, d: int, x: Sys, y: Sys, z: Sys, r: int, dist: int, hop: int)
    requires Offer(g, d, x, y, r, dist, hop) && z.e == y.e && SameLog(y, z)
    ensures Offer(g, d, x, z, r, dist, hop)
  {
    forall h, a
      ensures z.log(h, a) == y.log(h, a)
    {
    }
  }

  /** Updates of other entries say nothing about d. */
  lemma OthersUpdated(conn: seq<bool>, me: int, e: Route, node: int, dist: int, hop: int, x: int, d: int)
    requires node != d
    ensures About(UpdateSends(conn, me, e, node, dist, hop), x, d) == []
  {
    AboutUpdate(conn, me, e, node, dist, hop, x, d);
  }

  ghost function CostEvent(g: Matrix, left: seq<bool>, r: int, node: int, cost: int, d: int): Event {
    if node != d || !Up(left, node) then Elsewhere
    else if Edge(g, r, d) then Heartbeat(r) else FromOutside(r, d, cost)
  }

  lemma CostStep(g: Matrix, part: set<int>, d: int, x: Sys, s: State, left: seq<bool>, table: seq<Route>, r: int,
                 h: int,
                 node: int, cost: int)
    requires RoundOk(g, part, s, r, h, d) && |x.e| == |left| == |table| == NODES && x.e[r] == table[d]
    requires Knows(g, x, r, left) && 0 <= node < NODES && 0 < cost
    requires Up(left, node) ==> if Edge(g, r, node) then cost == g[r][node] else (r, node) in x.up
    ensures var q := CostChange(node, cost);
            Next(g, part, d, x, Ended(g, x, r, AnsweredTable(left, s.costs, r, table, h, q)[d],
                                      AnswerSends(left, s.costs, r, table, h, q), d),
                                          CostEvent(g, left, r, node, cost, d))
  {
    var q := CostChange(node, cost);
    var e, out := AnsweredTable(left, s.costs, r, table, h, q)[d], AnswerSends(left, s.costs, r, table, h, q);
    if node == d && Up(left, node) {
      OfferAnswered(g, d, x, r, left, cost, d);
      OfferLike(g, d, x, Announced(g, x, r, e, out, d), Ended(g, x, r, e, out, d), r, cost, d);
    } else {
      forall y | Edge(g, r, y)
        ensures About(out, y, d) == []
      {
        if Up(left, node) {
          OthersUpdated(left, r, table[node], node, cost, node, y, d);
        }
      }
      NothingAnswered(g, part, x, r, e, out, d);
    }
  }

  ghost function OutsideEvent(s: State, table: seq<Route>, r: int, h: int, node: int, dist: int, d: int): Event
    requires -1 <= h < |table| == |s.costs|
  {
    if h == -1 || table[h].dist < 0 || node != d then Elsewhere else FromOutside(r, h, Through(dist, s.costs[h]))
  }

  /** An advert from outside, or from nowhere. */
  lemma OutsideAdvertStep(g: Matrix, part: set<int>, d: int, x: Sys, s: State, left: seq<bool>, table: seq<Route>,
                          r: int, h: int, node: int, dist: int)
    requires RoundOk(g, part, s, r, h, d) && |x.e| == |left| == |table| == NODES && x.e[r] == table[d]
    requires Knows(g, x, r, left) && -1 <= dist && (h == -1 || (r, h) in x.up)
    ensures var q := Request.Dist(node, dist);
            Next(g, part, d, x, Ended(g, x, r, AnsweredTable(left, s.costs, r, table, h, q)[d],
                                      AnswerSends(left, s.costs, r, table, h, q), d),
                 OutsideEvent(s, table, r, h, node, dist, d))
  {
    var q := Request.Dist(node, dist);
    var e, out := AnsweredTable(left, s.costs, r, table, h, q)[d], AnswerSends(left, s.costs, r, table, h, q);
    if h != -1 && table[h].dist >= 0 && node == d {
      var v := Through(dist, s.costs[h]);
      OfferAnswered(g, d, x, r, left, v, h);
      OfferLike(g, d, x, Announced(g, x, r, e, out, d), Ended(g, x, r, e, out, d), r, v, h);
    } else {
      OtherAdvert(g, s, left, table, r, h, node, dist, d);
      NothingAnswered(g, part, x, r, e, out, d);
    }
  }

  lemma OtherAdvert(g: Matrix, s: State, left: seq<bool>, table: seq<Route>, r: int, h: int, node: int, dist: int,
                    d: int)
    requires |s.costs| == |left| == |table| && -1 <= h < |table| && 0 <= d < |table|
    requires h == -1 || table[h].dist < 0 || node != d
    ensures var q := Request.Dist(node, dist);
            && AnsweredTable(left, s.costs, r, table, h, q)[d] == table[d]
            && forall y :: About(AnswerSends(left, s.costs, r, table, h, q), y, d) == []
  {
    var q := Request.Dist(node, dist);
    forall y
      ensures About(AnswerSends(left, s.costs, r, table, h, q), y, d) == []
    {
      if h != -1 && table[h].dist >= 0 && 0 <= node < |table| {
        OthersUpdated(left, r, table[node], node, Through(dist, s.costs[h]), h, y, d);
      }
    }
  }

  /** The advert is looked at by the round exactly when it is by the exchange. */
  lemma LookedAtIff(g: Matrix, part: set<int>, x: Sys, s: State, left: seq<bool>, last: seq<int>, now: int, r: int,
                    h: int)
    requires RoundOk(g, part, s, r, h, h) && Edge(g, r, h) && |last| == NODES
    requires AfterSweep(g, x, r, Joined(s.conn, h), left, last, now)
    ensures HeardTable(s.conn, left, s.costs, r, s.table, h)[h].dist >= 0 <==> Looked(g, r, h, s.table[h], x.gone)
  {
    var joined := Joined(s.conn, h);
    var e := Offered(joined, s.costs, r, s.table, h)[h];
    LinksPlayNoPart(joined, Links(g, r), r, s.table[h], h, s.costs[h], h);
    assert e == Heard(g, r, h, s.table[h]);
    assert (r, e.nextHop) in x.gone <==> Silent(joined, last, now, e.nextHop);
  }

  function Read(x: Sys, h: int, r: int, a: int, b: int): nat {
    if (a, b) == (h, r) then x.got(a, b) + 1 else x.got(a, b)
  }

  /** x after one more message from h has been read. */
  ghost function ReadOne(x: Sys, h: int, r: int): Sys {
    x.(got := (a, b) => Read(x, h, r, a, b))
  }

  /** An advert about d from a neighbour in the part. */
  lemma AdvertStep(g: Matrix, part: set<int>, d: int, x: Sys, s: State, left: seq<bool>, last: seq<int>, now: int,
                   r: int, h: int, dist: int)
    requires RoundOk(g, part, s, r, h, d) && Edge(g, r, h) && |x.e| == |last| == NODES
    requires AfterSweep(g, x, r, Joined(s.conn, h), left, last, now)
    requires x.e[r] == HeardTable(s.conn, left, s.costs, r, s.table, h)[d]
    requires x.got(h, r) < |x.log(h, r)| && x.log(h, r)[x.got(h, r)] == dist
    ensures var table, q := HeardTable(s.conn, left, s.costs, r, s.table, h), Request.Dist(d, dist);
            Next(g, part, d, x, ReadOne(Ended(g, x, r, AnsweredTable(left, s.costs, r, table, h, q)[d],
                                              AnswerSends(left, s.costs, r, table, h, q), d), h, r),
                 Receive(h, r, s.table[h]))
  {
    var table, q := HeardTable(s.conn, left, s.costs, r, s.table, h), Request.Dist(d, dist);
    var e, out := AnsweredTable(left, s.costs, r, table, h, q)[d], AnswerSends(left, s.costs, r, table, h, q);
    LookedAtIff(g, part, x, s, left, last, now, r, h);
    assert VectorRouter.EntryOk(s.table[h]);
    if table[h].dist >= 0 {
      var v := Through(dist, g[r][h]);
      OfferAnswered(g, d, x, r, left, v, h);
      OfferLike(g, d, x, Announced(g, x, r, e, out, d), ReadOne(Ended(g, x, r, e, out, d), h, r), r, v, h);
    } else {
      assert x.e[r := e] == x.e;
      forall y
        ensures About(out, y, d) == []
      {
      }
    }
  }

  // ---------- A round is five steps ----------

  /** What a round does to its router, one part after the other. */
  ghost predicate Rounds(g: Matrix, part: set<int>, n: Net, dg: Datagram, d: int) {
    NetOk(g, part, n) && MayArrive(g, part, n, dg) && 0 <= d < NODES
  }

  ghost function View(n: Net, dg: Datagram): State
    requires 0 <= dg.r < |n.routers|
  {
    n.routers[dg.r]
  }

  ghost function Stamps(n: Net, dg: Datagram): (last: seq<int>)
    requires 0 <= dg.r < |n.routers| && -1 <= dg.h < |View(n, dg).last|
    ensures |last| == |View(n, dg).last|
  {
    Stamped(View(n, dg).last, dg.h, dg.stamp)
  }

  ghost function Neighbours(n: Net, dg: Datagram): (conn: seq<bool>)
    requires 0 <= dg.r < |n.routers| && -1 <= dg.h < |View(n, dg).conn|
    ensures |conn| == |View(n, dg).conn|
  {
    Joined(View(n, dg).conn, dg.h)
  }

  ghost function Left(n: Net, dg: Datagram): (conn: seq<bool>)
    requires 0 <= dg.r < |n.routers| && -1 <= dg.h < |View(n, dg).conn| == |View(n, dg).last|
    ensures |conn| == |View(n, dg).conn|
  {
    Survivors(Neighbours(n, dg), Stamps(n, dg), dg.sweep, |View(n, dg).conn|)
  }

  ghost function Offer1(n: Net, dg: Datagram): (table: seq<Route>)
    requires 0 <= dg.r < |n.routers| && StateOk(View(n, dg)) && Sender(dg.h)
    ensures |table| == NODES
  {
    var s := View(n, dg);
    Offered(Neighbours(n, dg), s.costs, s.me, s.table, dg.h)
  }

  ghost function AfterLink(g: Matrix, part: set<int>, n: Net, dg: Datagram, d: int): Sys
    requires Rounds(g, part, n, dg, d)
  {
    Linked(g, Exchange(g, part, n, d), dg.r, dg.h)
  }

  ghost function AfterOffer(g: Matrix, part: set<int>, n: Net, dg: Datagram, d: int): Sys
    requires Rounds(g, part, n, dg, d)
  {
    var s := View(n, dg);
    Announced(g, AfterLink(g, part, n, dg, d), dg.r, Offer1(n, dg)[d],
              OfferSends(Neighbours(n, dg), s.costs, s.me, s.table, dg.h), d)
  }

  ghost function AfterUpdate(g: Matrix, part: set<int>, n: Net, dg: Datagram, d: int): Sys
    requires Rounds(g, part, n, dg, d)
  {
    Announced(g, AfterOffer(g, part, n, dg, d), dg.r, Offer1(n, dg)[d],
              if n.timers[dg.r] <= dg.check then TellAll(Neighbours(n, dg), Offer1(n, dg), |Offer1(n, dg)|) else [], d)
  }

  ghost function AfterExpiry(g: Matrix, part: set<int>, n: Net, dg: Datagram, d: int): Sys
    requires Rounds(g, part, n, dg, d)
  {
    var conn, last, table := Neighbours(n, dg), Stamps(n, dg), Offer1(n, dg);
    Expired(g, Announced(g, AfterUpdate(g, part, n, dg, d), dg.r, AllKept(conn, Left(n, dg), table)[d],
                         ExpirySends(conn, last, table, dg.sweep, |table|), d),
            dg.r, SilentOnes(conn, last, dg.sweep))
  }

  lemma StartKnows(g: Matrix, part: set<int>, n: Net, dg: Datagram, d: int)
    requires Rounds(g, part, n, dg, d)
    ensures var x, s := AfterLink(g, part, n, dg, d), View(n, dg);
            && RoundOk(g, part, s, dg.r, dg.h, d) && x.e[dg.r] == s.table[d] && Knows(g, x, dg.r, Neighbours(n, dg))
            && (dg.h == -1 || Edge(g, dg.r, dg.h) || (dg.r, dg.h) in x.up)
  {
    var s := View(n, dg);
    assert RouterOk(g, part, s, dg.r);
    assert Exchange(g, part, n, d).e[dg.r] == EntryOf(s, d);
  }

  lemma SilentAreOutside(g: Matrix, part: set<int>, n: Net, dg: Datagram, d: int, y: int)
    requires Rounds(g, part, n, dg, d) && Silent(Neighbours(n, dg), Stamps(n, dg), dg.sweep, y)
    ensures (dg.r, y) in OuterLinks(g, part, n) && y != dg.h
  {
    var s := View(n, dg);
    assert RouterOk(g, part, s, dg.r);
    assert Up(s.conn, y);
  }

  ghost function StepEvent(g: Matrix, part: set<int>, n: Net, dg: Datagram, d: int, m: int): Event
    requires Rounds(g, part, n, dg, d)
  {
    if m == 0 then LinkEvent(g, dg.r, dg.h)
    else if m == 1 then OfferEvent(g, View(n, dg), dg.r, dg.h, d)
    else if m == 2 then UpdateEvent(dg.r, Offer1(n, dg)[d], n.timers[dg.r] <= dg.check)
    else if m == 3 then Sweep(dg.r, SilentOnes(Neighbours(n, dg), Stamps(n, dg), dg.sweep))
    else AnswerEvent(g, part, n, dg, d)
  }

  ghost function AnswerEvent(g: Matrix, part: set<int>, n: Net, dg: Datagram, d: int): Event
    requires Rounds(g, part, n, dg, d)
  {
    match dg.request
    case Hello => Elsewhere
    case CostChange(node, cost) => CostEvent(g, Left(n, dg), dg.r, node, cost, d)
    case Dist(node, dist) =>
      if !Edge(g, dg.r, dg.h) then OutsideEvent(View(n, dg), Swept(n, dg), dg.r, dg.h, node, dist, d)
      else if node == d then Receive(dg.h, dg.r, View(n, dg).table[dg.h]) else Elsewhere
  }

  /** The table after the sweep. */
  ghost function Swept(n: Net, dg: Datagram): (table: seq<Route>)
    requires 0 <= dg.r < |n.routers| && StateOk(View(n, dg)) && Sender(dg.h)
    ensures |table| == NODES
  {
    var s := View(n, dg);
    HeardTable(s.conn, Left(n, dg), s.costs, s.me, s.table, dg.h)
  }

  lemma Step1(g: Matrix, part: set<int>, n: Net, dg: Datagram, d: int)
    requires Rounds(g, part, n, dg, d)
    ensures Next(g, part, d, Exchange(g, part, n, d), AfterLink(g, part, n, dg, d), StepEvent(g, part, n, dg, d, 0))
  {
    LinkStep(g, part, d, Exchange(g, part, n, d), dg.r, dg.h);
  }

  lemma Step2(g: Matrix, part: set<int>, n: Net, dg: Datagram, d: int)
    requires Rounds(g, part, n, dg, d)
    ensures Next(g, part, d, AfterLink(g, part, n, dg, d), AfterOffer(g, part, n, dg, d),
              StepEvent(g, part, n, dg, d, 1))
  {
    StartKnows(g, part, n, dg, d);
    OfferStep(g, part, d, AfterLink(g, part, n, dg, d), View(n, dg), dg.r, dg.h);
  }

  lemma Step3(g: Matrix, part: set<int>, n: Net, dg: Datagram, d: int)
    requires Rounds(g, part, n, dg, d)
    ensures Next(g, part, d, AfterOffer(g, part, n, dg, d), AfterUpdate(g, part, n, dg, d),
              StepEvent(g, part, n, dg, d, 2))
  {
    StartKnows(g, part, n, dg, d);
    UpdateStep(g, part, d, AfterOffer(g, part, n, dg, d), dg.r, Neighbours(n, dg), Offer1(n, dg),
               n.timers[dg.r] <= dg.check);
  }

  lemma Step4(g: Matrix, part: set<int>, n: Net, dg: Datagram, d: int)
    requires Rounds(g, part, n, dg, d)
    ensures Next(g, part, d, AfterUpdate(g, part, n, dg, d), AfterExpiry(g, part, n, dg, d),
              StepEvent(g, part, n, dg, d, 3))
  {
    StartKnows(g, part, n, dg, d);
    forall y | Silent(Neighbours(n, dg), Stamps(n, dg), dg.sweep, y)
      ensures (dg.r, y) in AfterUpdate(g, part, n, dg, d).up
    {
      SilentAreOutside(g, part, n, dg, d, y);
    }
    assert VectorRouter.EntryOk(Offer1(n, dg)[d]) by {
      assert VectorRouter.EntryOk(View(n, dg).table[d]);
    }
    SweepStep(g, part, d, AfterUpdate(g, part, n, dg, d), dg.r, Neighbours(n, dg), Stamps(n, dg), Offer1(n, dg),
        dg.sweep);
  }

  /** What the request makes of the entry, and what is told about it. */
  ghost function Answer(g: Matrix, part: set<int>, n: Net, dg: Datagram, d: int): Sys
    requires Rounds(g, part, n, dg, d)
  {
    var s := View(n, dg);
    Ended(g, AfterExpiry(g, part, n, dg, d), dg.r,
          AnsweredTable(Left(n, dg), s.costs, s.me, Swept(n, dg), dg.h, dg.request)[d],
          AnswerSends(Left(n, dg), s.costs, s.me, Swept(n, dg), dg.h, dg.request), d)
  }

  lemma ExpiryKnows(g: Matrix, part: set<int>, n: Net, dg: Datagram, d: int)
    requires Rounds(g, part, n, dg, d)
    ensures var x, s := AfterExpiry(g, part, n, dg, d), View(n, dg);
            && RoundOk(g, part, s, dg.r, dg.h, d) && x.e[dg.r] == Swept(n, dg)[d]
            && AfterSweep(g, x, dg.r, Neighbours(n, dg), Left(n, dg), Stamps(n, dg), dg.sweep)
    ensures forall y :: Up(Left(n, dg), y) && !Edge(g, dg.r, y) ==> (dg.r, y) in AfterExpiry(g, part, n, dg, d).up
  {
    StartKnows(g, part, n, dg, d);
    var x, s := AfterExpiry(g, part, n, dg, d), View(n, dg);
    forall y | Up(Left(n, dg), y) && !Edge(g, dg.r, y)
      ensures (dg.r, y) in x.up
    {
      assert RouterOk(g, part, s, dg.r) && Up(s.conn, y);
      assert y !in SilentOnes(Neighbours(n, dg), Stamps(n, dg), dg.sweep);
    }
  }

  lemma Step5(g: Matrix, part: set<int>, n: Net, dg: Datagram, d: int)
    requires Rounds(g, part, n, dg, d) && !IsAdvert(g, dg)
    ensures Next(g, part, d, AfterExpiry(g, part, n, dg, d), Answer(g, part, n, dg, d), AnswerEvent(g, part, n, dg, d))
  {
    ExpiryKnows(g, part, n, dg, d);
    var x, s, r, h := AfterExpiry(g, part, n, dg, d), View(n, dg), dg.r, dg.h;
    match dg.request
    case Hello => NothingAnswered(g, part, x, r, Swept(n, dg)[d], [], d);
    case CostChange(node, cost) => CostStep(g, part, d, x, s, Left(n, dg), Swept(n, dg), r, h, node, cost);
    case Dist(node, dist) =>
      assert h != -1 ==> Up(Left(n, dg), h);
      OutsideAdvertStep(g, part, d, x, s, Left(n, dg), Swept(n, dg), r, h, node, dist);
  }

  // ---------- The network after the round ----------

  /** The exchange after an advert of a neighbour in the part. */
  ghost function Received(g: Matrix, part: set<int>, n: Net, dg: Datagram, d: int): Sys
    requires Rounds(g, part, n, dg, d)
  {
    if IsAdvert(g, dg) && dg.request.node == d then ReadOne(Answer(g, part, n, dg, d), dg.h, dg.r)
    else Answer(g, part, n, dg, d)
  }

  lemma AdvertAboutD(g: Matrix, part: set<int>, n: Net, n': Net, dg: Datagram, d: int, i: int)
    requires Rounds(g, part, n, dg, d) && IsAdvert(g, dg) && Reads(n, n', dg, i) && dg.request.node == d
    ensures Next(g, part, d, AfterExpiry(g, part, n, dg, d), Received(g, part, n, dg, d),
                 Receive(dg.h, dg.r, View(n, dg).table[dg.h]))
  {
    ExpiryKnows(g, part, n, dg, d);
    var x, s, r, h := AfterExpiry(g, part, n, dg, d), View(n, dg), dg.r, dg.h;
    ReadNext(n.sent[h], n.pos[r][h], i, r, d);
    assert x.log(h, r) == About(n.sent[h], r, d);
    assert x.got(h, r) == |About(n.sent[h][..n.pos[r][h]], r, d)|;
    AdvertStep(g, part, d, x, s, Left(n, dg), Stamps(n, dg), dg.sweep, r, h, dg.request.dist);
    assert Received(g, part, n, dg, d)
        == ReadOne(Ended(g, x, r, AnsweredTable(Left(n, dg), s.costs, r, Swept(n, dg), h, dg.request)[d],
                         AnswerSends(Left(n, dg), s.costs, r, Swept(n, dg), h, dg.request), d), h, r);
  }

  lemma AdvertAboutOther(g: Matrix, part: set<int>, n: Net, dg: Datagram, d: int)
    requires Rounds(g, part, n, dg, d) && IsAdvert(g, dg) && dg.request.node != d
    ensures Next(g, part, d, AfterExpiry(g, part, n, dg, d), Received(g, part, n, dg, d), Elsewhere)
  {
    ExpiryKnows(g, part, n, dg, d);
    var x, s, r, h := AfterExpiry(g, part, n, dg, d), View(n, dg), dg.r, dg.h;
    var e := AnsweredTable(Left(n, dg), s.costs, r, Swept(n, dg), h, dg.request)[d];
    var out := AnswerSends(Left(n, dg), s.costs, r, Swept(n, dg), h, dg.request);
    OtherAdvert(g, s, Left(n, dg), Swept(n, dg), r, h, dg.request.node, dg.request.dist, d);
    assert Received(g, part, n, dg, d) == Ended(g, x, r, e, out, d);
    NothingAnswered(g, part, x, r, e, out, d);
  }

  lemma Step5Advert(g: Matrix, part: set<int>, n: Net, n': Net, dg: Datagram, d: int, i: int)
    requires Rounds(g, part, n, dg, d) && IsAdvert(g, dg) && Reads(n, n', dg, i)
    ensures Next(g, part, d, AfterExpiry(g, part, n, dg, d), Received(g, part, n, dg, d),
              AnswerEvent(g, part, n, dg, d))
  {
    if dg.request.node == d {
      AdvertAboutD(g, part, n, n', dg, d, i);
    } else {
      AdvertAboutOther(g, part, n, dg, d);
    }
  }

  ghost predicate Like(y: Sys, z: Sys) {
    z.e == y.e && z.joined == y.joined && z.up == y.up && z.gone == y.gone && SameLog(y, z) && SameGot(y, z)
  }

  lemma BecomesLike(g: Matrix, x: Sys, y: Sys, z: Sys, r: int, e: Route, tells: bool)
    requires Becomes(g, x, y, r, e, tells) && Like(y, z)
    ensures Becomes(g, x, z, r, e, tells)
  {
    forall h, a
      ensures z.log(h, a) == y.log(h, a)
    {
    }
  }

  lemma TakeLike(g: Matrix, d: int, x: Sys, y: Sys, z: Sys, h: int, r: int, known: Route)
    requires Take(g, d, x, y, h, r, known) && Like(y, z)
    ensures Take(g, d, x, z, h, r, known)
  {
    assert forall a, b :: z.got(a, b) == y.got(a, b) && z.log(a, b) == y.log(a, b);
    if Looked(g, r, h, known, x.gone) {
      OfferLike(g, d, x, y, z, r, Through(x.log(h, r)[x.got(h, r)], g[r][h]), h);
    }
  }

  lemma NextLike(g: Matrix, part: set<int>, d: int, x: Sys, y: Sys, z: Sys, ev: Event)
    requires Next(g, part, d, x, y, ev) && Like(y, z)
    ensures Next(g, part, d, x, z, ev)
  {
    assert forall a, b :: z.got(a, b) == y.got(a, b) && z.log(a, b) == y.log(a, b);
    match ev
    case Receive(h, r, known) => TakeLike(g, d, x, y, z, h, r, known);
    case Heartbeat(r) => OfferLike(g, d, x, y, z, r, g[r][d], d);
    case Refresh(r) => BecomesLike(g, x, y, z, r, x.e[r], true);
    case FromOutside(r, h, v) => OfferLike(g, d, x, y, z, r, v, h);
    case Sweep(r, xs) =>
      var lost := x.e[r].nextHop in xs;
      BecomesLike(g, x, y, z, r, if lost then UNREACHABLE else x.e[r], lost);
    case _ =>
  }

  lemma UpdatedOk(conn: seq<bool>, me: int, e: Route, node: int, dist: int, hop: int)
    requires VectorRouter.EntryOk(e) && -1 <= dist && 0 <= hop < NODES
    ensures VectorRouter.EntryOk(Updated(conn, me, e, node, dist, hop))
    ensures node == me ==> Updated(conn, me, e, node, dist, hop) == e
  {
  }

  /** A table of a router that knows itself, without a route through itself to others. */
  ghost predicate RoutesOk(me: int, table: seq<Route>) {
    0 <= me < |table| == NODES && table[me] == Route(0, me) && forall d :: 0 <= d < NODES ==>
        VectorRouter.EntryOk(table[d])
  }

  lemma HeardOk(s: State, left: seq<bool>, h: int)
    requires StateOk(s) && Sender(h) && h != s.me && |left| == NODES
    ensures RoutesOk(s.me, HeardTable(s.conn, left, s.costs, s.me, s.table, h))
  {
    if h != -1 {
      UpdatedOk(Joined(s.conn, h), s.me, s.table[h], h, s.costs[h], h);
    }
  }

  lemma AnsweredOk(s: State, left: seq<bool>, table: seq<Route>, h: int, request: Request)
    requires StateOk(s) && RoutesOk(s.me, table) && |left| == NODES && Sender(h) && h != s.me && RequestOk(request)
    requires Positive(request)
    ensures RoutesOk(s.me, AnsweredTable(left, s.costs, s.me, table, h, request))
  {
    match request
    case Hello =>
    case CostChange(node, cost) => UpdatedOk(left, s.me, table[node], node, cost, node);
    case Dist(node, dist) =>
      if h != -1 && 0 <= node < NODES {
        UpdatedOk(left, s.me, table[node], node, Through(dist, s.costs[h]), h);
      }
  }

  lemma RoundKeepsRouter(g: Matrix, part: set<int>, n: Net, dg: Datagram)
    requires NetOk(g, part, n) && MayArrive(g, part, n, dg)
    ensures RouterOk(g, part, AfterRound(View(n, dg), dg.h, dg.stamp, dg.sweep, dg.request), dg.r)
  {
    var s := View(n, dg);
    assert RouterOk(g, part, s, dg.r);
    HeardOk(s, Left(n, dg), dg.h);
    AnsweredOk(s, Left(n, dg), Swept(n, dg), dg.h, dg.request);
  }

  lemma NetNextOk(g: Matrix, part: set<int>, n: Net, n': Net, dg: Datagram)
    requires NetOk(g, part, n) && NetNext(g, part, n, n', dg)
    ensures NetOk(g, part, n')
  {
    RoundKeepsRouter(g, part, n, dg);
    forall r | 0 <= r < NODES && r in part
      ensures RouterOk(g, part, n'.routers[r], r)
    {
      assert r != dg.r ==> n'.routers[r] == n.routers[r] && RouterOk(g, part, n.routers[r], r);
    }
    if IsAdvert(g, dg) {
      var i :| Reads(n, n', dg, i);
    }
  }

  /** All five steps together. */
  lemma ReceivedEntries(g: Matrix, part: set<int>, n: Net, dg: Datagram, d: int)
    requires Rounds(g, part, n, dg, d)
    ensures Received(g, part, n, dg, d).e == Exchange(g, part, n, d).e[dg.r := RoundEntry(n, dg, d)]
  {
  }

  /** The entry for d after the round. */
  ghost function RoundEntry(n: Net, dg: Datagram, d: int): Route
    requires 0 <= dg.r < |n.routers| && StateOk(View(n, dg)) && Sender(dg.h) && RequestOk(dg.request) && 0 <= d < NODES
  {
    var s := View(n, dg);
    AnsweredTable(Left(n, dg), s.costs, s.me, Swept(n, dg), dg.h, dg.request)[d]
  }

  lemma RoundEntryIs(g: Matrix, part: set<int>, n: Net, dg: Datagram, d: int)
    requires Rounds(g, part, n, dg, d)
    ensures RoundEntry(n, dg, d) == EntryOf(AfterRound(View(n, dg), dg.h, dg.stamp, dg.sweep, dg.request), d)
  {
    RoundKeepsRouter(g, part, n, dg);
  }

  lemma ReceivedLinks(g: Matrix, part: set<int>, n: Net, dg: Datagram, d: int)
    requires Rounds(g, part, n, dg, d)
    ensures var x, y := Exchange(g, part, n, d), Received(g, part, n, dg, d);
            && y.joined == AfterLink(g, part, n, dg, d).joined && y.gone == {} && y.up == x.up - SilentLinks(n, dg)
  {
  }

  lemma ReceivedSends(g: Matrix, part: set<int>, n: Net, dg: Datagram, d: int, h: int, a: int)
    requires Rounds(g, part, n, dg, d) && h != dg.r
    ensures Received(g, part, n, dg, d).log(h, a) == Exchange(g, part, n, d).log(h, a)
  {
  }

  lemma ReceivedReads(g: Matrix, part: set<int>, n: Net, dg: Datagram, d: int, h: int, a: int)
    requires Rounds(g, part, n, dg, d)
    ensures Received(g, part, n, dg, d).got(h, a) == Exchange(g, part, n, d).got(h, a)
            + if IsAdvert(g, dg) && dg.request.node == d && (h, a) == (dg.h, dg.r) then 1 else 0
  {
  }

  ghost function SilentLinks(n: Net, dg: Datagram): set<(int, int)>
    requires 0 <= dg.r < |n.routers| && StateOk(View(n, dg)) && Sender(dg.h)
  {
    set y | y in SilentOnes(Neighbours(n, dg), Stamps(n, dg), dg.sweep) :: (dg.r, y)
  }

  lemma SameEntries(g: Matrix, part: set<int>, n: Net, n': Net, dg: Datagram, d: int)
    requires Rounds(g, part, n, dg, d) && NetNext(g, part, n, n', dg) && NetOk(g, part, n')
    ensures Exchange(g, part, n', d).e == Received(g, part, n, dg, d).e
  {
    ReceivedEntries(g, part, n, dg, d);
    RoundEntryIs(g, part, n, dg, d);
    EntriesOf(g, part, n, n', dg.r, d);
  }

  lemma EntriesOf(g: Matrix, part: set<int>, n: Net, n': Net, r: int, d: int)
    requires NetOk(g, part, n) && NetOk(g, part, n') && 0 <= r < NODES && n'.routers == n.routers[r := n'.routers[r]]
    ensures Exchange(g, part, n', d).e == Exchange(g, part, n, d).e[r := EntryOf(n'.routers[r], d)]
  {
  }

  /** The router's neighbours after the round: those in the part stay, those outside only go. */
  lemma LeftAre(g: Matrix, part: set<int>, n: Net, dg: Datagram, x: int)
    requires NetOk(g, part, n) && MayArrive(g, part, n, dg)
    ensures Edge(g, dg.r, x) ==> (Up(Left(n, dg), x) <==> Up(View(n, dg).conn, x) || x == dg.h)
    ensures x !in part ==> (Up(Left(n, dg), x) <==> Up(View(n, dg).conn, x) && (dg.r, x) !in SilentLinks(n, dg))
  {
    assert RouterOk(g, part, View(n, dg), dg.r);
  }

  lemma SameInner(g: Matrix, part: set<int>, n: Net, n': Net, dg: Datagram, d: int)
    requires Rounds(g, part, n, dg, d) && NetNext(g, part, n, n', dg) && NetOk(g, part, n')
    ensures InnerLinks(g, n') == Received(g, part, n, dg, d).joined
  {
    ReceivedLinks(g, part, n, dg, d);
    var joined := AfterLink(g, part, n, dg, d).joined;
    assert joined == InnerLinks(g, n) + if Edge(g, dg.r, dg.h) then {(dg.r, dg.h)} else {};
    InnerAfter(g, part, n, n', dg);
  }

  lemma InnerAfter(g: Matrix, part: set<int>, n: Net, n': Net, dg: Datagram)
    requires NetOk(g, part, n) && NetNext(g, part, n, n', dg) && NetOk(g, part, n')
    ensures InnerLinks(g, n') == InnerLinks(g, n) + if Edge(g, dg.r, dg.h) then {(dg.r, dg.h)} else {}
  {
    forall r, x | Edge(g, r, x)
      ensures Up(n'.routers[r].conn, x) <==> Up(n.routers[r].conn, x) || (r, x) == (dg.r, dg.h)
    {
      LeftAre(g, part, n, dg, x);
    }
  }

  lemma SameOuter(g: Matrix, part: set<int>, n: Net, n': Net, dg: Datagram, d: int)
    requires Rounds(g, part, n, dg, d) && NetNext(g, part, n, n', dg) && NetOk(g, part, n')
    ensures OuterLinks(g, part, n') == Received(g, part, n, dg, d).up
  {
    ReceivedLinks(g, part, n, dg, d);
    OuterAfter(g, part, n, n', dg);
  }

  lemma OuterAfter(g: Matrix, part: set<int>, n: Net, n': Net, dg: Datagram)
    requires NetOk(g, part, n) && NetNext(g, part, n, n', dg) && NetOk(g, part, n')
    ensures OuterLinks(g, part, n') == OuterLinks(g, part, n) - SilentLinks(n, dg)
  {
    forall r, x | 0 <= r < NODES && x !in part
      ensures Up(n'.routers[r].conn, x) <==> Up(n.routers[r].conn, x) && (r, x) !in SilentLinks(n, dg)
    {
      LeftAre(g, part, n, dg, x);
    }
  }

  lemma SentAbout(g: Matrix, part: set<int>, n: Net, n': Net, dg: Datagram, d: int, x: int)
    requires Rounds(g, part, n, dg, d) && NetNext(g, part, n, n', dg) && Edge(g, dg.r, x)
    ensures About(n'.sent[dg.r], x, d) == Received(g, part, n, dg, d).log(dg.r, x)
  {
    var s, conn, table, due := View(n, dg), Neighbours(n, dg), Offer1(n, dg), n.timers[dg.r] <= dg.check;
    var a := OfferSends(conn, s.costs, s.me, s.table, dg.h);
    var b := if due then TellAll(conn, table, |table|) else [];
    var c := ExpirySends(conn, Stamps(n, dg), table, dg.sweep, |table|);
    var f := AnswerSends(Left(n, dg), s.costs, s.me, Swept(n, dg), dg.h, dg.request);
    assert n'.sent[dg.r] == n.sent[dg.r] + (a + b + c + f);
    AboutFive(n.sent[dg.r], a, b, c, f, x, d);
  }

  lemma SameSends(g: Matrix, part: set<int>, n: Net, n': Net, dg: Datagram, d: int)
    requires Rounds(g, part, n, dg, d) && NetNext(g, part, n, n', dg) && NetOk(g, part, n')
    ensures SameLog(Received(g, part, n, dg, d), Exchange(g, part, n', d))
  {
    var y, z := Received(g, part, n, dg, d), Exchange(g, part, n', d);
    forall h, x
      ensures z.log(h, x) == y.log(h, x)
    {
      if h != dg.r {
        ReceivedSends(g, part, n, dg, d, h, x);
      } else if Edge(g, x, h) {
        SentAbout(g, part, n, n', dg, d, x);
      }
    }
  }

  /** What r has read of what h has sent. */
  ghost function ReadOf(n: Net, h: int, r: int): seq<DistMsg>
    requires 0 <= h < |n.sent| && 0 <= r < |n.pos| && h < |n.pos[r]| && 0 <= n.pos[r][h] <= |n.sent[h]|
  {
    n.sent[h][..n.pos[r][h]]
  }

  /** What others have read, and what this router has read of others, has not changed. */
  lemma SameRead(g: Matrix, part: set<int>, n: Net, n': Net, dg: Datagram, h: int, r: int)
    requires NetOk(g, part, n) && NetNext(g, part, n, n', dg) && NetOk(g, part, n') && 0 <= h < NODES && 0 <= r < NODES
    requires IsAdvert(g, dg) ==> (h, r) != (dg.h, dg.r)
    ensures ReadOf(n', h, r) == ReadOf(n, h, r)
  {
    if IsAdvert(g, dg) {
      var i :| Reads(n, n', dg, i);
    }
    assert n'.pos[r][h] == n.pos[r][h];
  }

  lemma AdvertRead(g: Matrix, part: set<int>, n: Net, n': Net, dg: Datagram, d: int)
    requires NetOk(g, part, n) && NetNext(g, part, n, n', dg) && NetOk(g, part, n') && IsAdvert(g, dg)
    ensures About(ReadOf(n', dg.h, dg.r), dg.r, d)
            == About(ReadOf(n, dg.h, dg.r), dg.r, d) + if dg.request.node == d then [dg.request.dist] else []
  {
    var i :| Reads(n, n', dg, i);
    assert n'.sent[dg.h] == n.sent[dg.h];
    ReadNext(n.sent[dg.h], n.pos[dg.r][dg.h], i, dg.r, d);
  }

  lemma SameReads(g: Matrix, part: set<int>, n: Net, n': Net, dg: Datagram, d: int)
    requires Rounds(g, part, n, dg, d) && NetNext(g, part, n, n', dg) && NetOk(g, part, n')
    ensures SameGot(Received(g, part, n, dg, d), Exchange(g, part, n', d))
  {
    var y, z := Received(g, part, n, dg, d), Exchange(g, part, n', d);
    forall h, r
      ensures z.got(h, r) == y.got(h, r)
    {
      ReceivedReads(g, part, n, dg, d, h, r);
      ReadsAfter(g, part, n, n', dg, d, h, r);
    }
  }

  lemma ReadsAfter(g: Matrix, part: set<int>, n: Net, n': Net, dg: Datagram, d: int, h: int, r: int)
    requires Rounds(g, part, n, dg, d) && NetNext(g, part, n, n', dg) && NetOk(g, part, n')
    ensures Exchange(g, part, n', d).got(h, r) == Exchange(g, part, n, d).got(h, r)
            + if IsAdvert(g, dg) && dg.request.node == d && (h, r) == (dg.h, dg.r) then 1 else 0
  {
    if Edge(g, r, h) {
      assert Exchange(g, part, n, d).got(h, r) == |About(ReadOf(n, h, r), r, d)|;
      assert Exchange(g, part, n', d).got(h, r) == |About(ReadOf(n', h, r), r, d)|;
      if IsAdvert(g, dg) && (h, r) == (dg.h, dg.r) {
        AdvertRead(g, part, n, n', dg, d);
      } else {
        SameRead(g, part, n, n', dg, h, r);
      }
    }
  }

  lemma ReceivedLike(g: Matrix, part: set<int>, n: Net, n': Net, dg: Datagram, d: int)
    requires Rounds(g, part, n, dg, d) && NetNext(g, part, n, n', dg) && NetOk(g, part, n')
    ensures Like(Received(g, part, n, dg, d), Exchange(g, part, n', d))
  {
    ReceivedLinks(g, part, n, dg, d);
    SameEntries(g, part, n, n', dg, d);
    SameInner(g, part, n, n', dg, d);
    SameOuter(g, part, n, n', dg, d);
    SameSends(g, part, n, n', dg, d);
    SameReads(g, part, n, n', dg, d);
  }

  /** What the exchange about d is after m of the five steps of the round. */
  ghost function Between(g: Matrix, part: set<int>, n: Net, dg: Datagram, d: int, m: int): Sys
    requires Rounds(g, part, n, dg, d)
  {
    if m == 0 then Exchange(g, part, n, d)
    else if m == 1 then AfterLink(g, part, n, dg, d)
    else if m == 2 then AfterOffer(g, part, n, dg, d)
    else if m == 3 then AfterUpdate(g, part, n, dg, d)
    else AfterExpiry(g, part, n, dg, d)
  }

  /** One round of a router, with its whole table, is five steps of the exchange about each destination: the link
      to the sender may come up and is offered, an update may be due, silent neighbours expire, and the request is
      looked at. r's entry for the sender of an advert is the one in the same table. */
  lemma RoundIsSteps(g: Matrix, part: set<int>, n: Net, n': Net, dg: Datagram, d: int, m: nat)
    requires NetOk(g, part, n) && NetNext(g, part, n, n', dg) && 0 <= d < NODES && m < 5
    ensures NetOk(g, part, n')
    ensures Next(g, part, d, Between(g, part, n, dg, d, m),
                 if m == 4 then Exchange(g, part, n', d) else Between(g, part, n, dg, d, m + 1),
                 StepEvent(g, part, n, dg, d, m))
  {
    NetNextOk(g, part, n, n', dg);
    if m == 0 {
      Step1(g, part, n, dg, d);
    } else if m == 1 {
      Step2(g, part, n, dg, d);
    } else if m == 2 {
      Step3(g, part, n, dg, d);
    } else if m == 3 {
      Step4(g, part, n, dg, d);
    } else {
      LastStep(g, part, n, n', dg, d);
    }
  }

  lemma AnswerStep(g: Matrix, part: set<int>, n: Net, n': Net, dg: Datagram, d: int)
    requires Rounds(g, part, n, dg, d) && NetNext(g, part, n, n', dg)
    ensures Next(g, part, d, AfterExpiry(g, part, n, dg, d), Received(g, part, n, dg, d),
              AnswerEvent(g, part, n, dg, d))
  {
    if IsAdvert(g, dg) {
      var i :| Reads(n, n', dg, i);
      Step5Advert(g, part, n, n', dg, d, i);
    } else {
      Step5(g, part, n, dg, d);
      assert Received(g, part, n, dg, d) == Answer(g, part, n, dg, d);
    }
  }

  lemma LastStep(g: Matrix, part: set<int>, n: Net, n': Net, dg: Datagram, d: int)
    requires Rounds(g, part, n, dg, d) && NetNext(g, part, n, n', dg) && NetOk(g, part, n')
    ensures Next(g, part, d, AfterExpiry(g, part, n, dg, d), Exchange(g, part, n', d), AnswerEvent(g, part, n, dg, d))
  {
    AnswerStep(g, part, n, n', dg, d);
    ReceivedLike(g, part, n, n', dg, d);
    NextLike(g, part, d, AfterExpiry(g, part, n, dg, d), Received(g, part, n, dg, d), Exchange(g, part, n', d),
             AnswerEvent(g, part, n, dg, d));
  }
}

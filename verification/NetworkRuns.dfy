/** Runs of a network of distance-vector routers: all its tables become ideal, and when they do not. */
module NetworkRuns {
  import opened Graphs
  import opened DistanceVector
  import opened VectorRouter
  import opened RouteExchange
  import opened Convergence
  import opened RoundTraffic
  import opened VectorNetwork

  // ---------- Runs of the network ----------

  ghost predicate NetRun(g: Matrix, part: set<int>, ns: seq<Net>, dgs: seq<Datagram>) {
    && |ns| == |dgs| + 1 && NetOk(g, part, ns[0])
    && (forall k :: 0 <= k < |dgs| ==> RoundAt(g, part, ns, dgs, k))
  }

  ghost predicate RoundAt(g: Matrix, part: set<int>, ns: seq<Net>, dgs: seq<Datagram>, k: int) {
    0 <= k < |dgs| && k + 1 < |ns| && NetOk(g, part, ns[k]) && NetNext(g, part, ns[k], ns[k + 1], dgs[k])
  }

  lemma RunNetOk(g: Matrix, part: set<int>, ns: seq<Net>, dgs: seq<Datagram>, k: nat)
    requires NetRun(g, part, ns, dgs) && k < |ns|
    ensures NetOk(g, part, ns[k])
  {
    if k > 0 {
      assert RoundAt(g, part, ns, dgs, k - 1);
      NetNextOk(g, part, ns[k - 1], ns[k], dgs[k - 1]);
    }
  }

  /** State number k of the exchange about d. */
  ghost function StateAt(g: Matrix, part: set<int>, ns: seq<Net>, dgs: seq<Datagram>, d: int, k: int): Sys
    requires NetRun(g, part, ns, dgs) && 0 <= d < NODES && 0 <= k <= 5 * |dgs|
  {
    RunNetOk(g, part, ns, dgs, k / 5);
    if k % 5 == 0 then Exchange(g, part, ns[k / 5], d)
    else assert RoundAt(g, part, ns, dgs, k / 5); Between(g, part, ns[k / 5], dgs[k / 5], d, k % 5)
  }

  ghost function EventAt(g: Matrix, part: set<int>, ns: seq<Net>, dgs: seq<Datagram>, d: int, k: int): Event
    requires NetRun(g, part, ns, dgs) && 0 <= d < NODES && 0 <= k < 5 * |dgs|
  {
    assert RoundAt(g, part, ns, dgs, k / 5);
    StepEvent(g, part, ns[k / 5], dgs[k / 5], d, k % 5)
  }

  ghost function States(g: Matrix, part: set<int>, ns: seq<Net>, dgs: seq<Datagram>, d: int): (s: seq<Sys>)
    requires NetRun(g, part, ns, dgs) && 0 <= d < NODES
    ensures |s| == 5 * |dgs| + 1 && forall k :: 0 <= k < |s| ==> s[k] == StateAt(g, part, ns, dgs, d, k)
  {
    seq(5 * |dgs| + 1, k requires 0 <= k <= 5 * |dgs| => StateAt(g, part, ns, dgs, d, k))
  }

  ghost function Events(g: Matrix, part: set<int>, ns: seq<Net>, dgs: seq<Datagram>, d: int): (s: seq<Event>)
    requires NetRun(g, part, ns, dgs) && 0 <= d < NODES
    ensures |s| == 5 * |dgs| && forall k :: 0 <= k < |s| ==> s[k] == EventAt(g, part, ns, dgs, d, k)
  {
    seq(5 * |dgs|, k requires 0 <= k < 5 * |dgs| => EventAt(g, part, ns, dgs, d, k))
  }

  lemma StepOfRun(g: Matrix, part: set<int>, ns: seq<Net>, dgs: seq<Datagram>, d: int, k: int)
    requires NetRun(g, part, ns, dgs) && 0 <= d < NODES && 0 <= k < 5 * |dgs|
    ensures Next(g, part, d, StateAt(g, part, ns, dgs, d, k), StateAt(g, part, ns, dgs, d, k + 1),
                 EventAt(g, part, ns, dgs, d, k))
  {
    var i, m := k / 5, k % 5;
    assert RoundAt(g, part, ns, dgs, i);
    RoundIsSteps(g, part, ns[i], ns[i + 1], dgs[i], d, m);
    if m == 4 {
      assert (k + 1) / 5 == i + 1 && (k + 1) % 5 == 0;
    } else {
      assert (k + 1) / 5 == i && (k + 1) % 5 == m + 1;
    }
  }

  /** A run of the network is a run of the exchange about every destination. */
  lemma RunIsRun(g: Matrix, part: set<int>, ns: seq<Net>, dgs: seq<Datagram>, d: int)
    requires NetRun(g, part, ns, dgs) && 0 <= d < NODES
    ensures Run(g, part, d, States(g, part, ns, dgs, d), Events(g, part, ns, dgs, d))
    ensures forall k :: 0 <= k < |ns| ==>
              NetOk(g, part, ns[k]) && States(g, part, ns, dgs, d)[5 * k] == Exchange(g, part, ns[k], d)
  {
    var states, events := States(g, part, ns, dgs, d), Events(g, part, ns, dgs, d);
    forall k | 0 <= k < |events|
      ensures StepAt(g, part, d, states, events, k)
    {
      StepOfRun(g, part, ns, dgs, d, k);
    }
    forall k | 0 <= k < |ns|
      ensures NetOk(g, part, ns[k]) && states[5 * k] == Exchange(g, part, ns[k], d)
    {
      RunNetOk(g, part, ns, dgs, k);
      assert (5 * k) / 5 == k && (5 * k) % 5 == 0;
    }
  }

  // ---------- Cycles of the network ----------

  ghost predicate LinksUp(g: Matrix, n: Net) {
    |n.routers| == |g| && forall h, r :: Edge(g, r, h) ==> Up(n.routers[h].conn, r)
  }

  /** In n everything has been read that had been sent in n0. */
  ghost predicate Emptied(g: Matrix, n0: Net, n: Net) {
    && |n0.sent| == |n.pos| == |g| && (forall r {:trigger n.pos[r]} :: 0 <= r < |g| ==> |n.pos[r]| == |g|)
    && (forall h, r {:trigger Edge(g, r, h)} :: Edge(g, r, h) ==>
          0 <= n.pos[r][h] && NothingLeft(n0.sent[h], n.pos[r][h], r))
  }

  ghost predicate NothingLeft(ms: seq<DistMsg>, p: int, r: int)
    requires 0 <= p
  {
    forall i :: p <= i < |ms| ==> ms[i].to != r
  }

  ghost predicate UpdateAt(ns: seq<Net>, dgs: seq<Datagram>, r: int, t: int) {
    0 <= t < |dgs| && t < |ns| && dgs[t].r == r && 0 <= r < |ns[t].timers| && ns[t].timers[r] <= dgs[t].check
  }

  ghost predicate UpdateDue(ns: seq<Net>, dgs: seq<Datagram>, r: int, i: int, k: int) {
    exists t :: i <= t < k && UpdateAt(ns, dgs, r, t)
  }

  /** All links of the part are up, then every router's periodic update is due, and then everything that is on
      the links is read. */
  ghost predicate NetCycle(g: Matrix, part: set<int>, ns: seq<Net>, dgs: seq<Datagram>, i: int, j: int) {
    exists k :: NetCycleBy(g, part, ns, dgs, i, k, j)
  }

  ghost predicate NetCycleBy(g: Matrix, part: set<int>, ns: seq<Net>, dgs: seq<Datagram>, i: int, k: int, j: int) {
    && 0 <= i <= k <= j < |ns| && LinksUp(g, ns[i]) && Emptied(g, ns[k], ns[j])
    && (forall r :: r in part ==> UpdateDue(ns, dgs, r, i, k))
  }

  lemma {:induction false} SentGrows(g: Matrix, part: set<int>, ns: seq<Net>, dgs: seq<Datagram>, i: nat, j: nat,
                                     h: int)
    requires NetRun(g, part, ns, dgs) && i <= j < |ns| && 0 <= h < NODES
    ensures NetOk(g, part, ns[i]) && NetOk(g, part, ns[j]) && ns[i].sent[h] <= ns[j].sent[h]
    decreases j
  {
    RunNetOk(g, part, ns, dgs, j);
    if i < j {
      SentGrows(g, part, ns, dgs, i, j - 1, h);
      assert RoundAt(g, part, ns, dgs, j - 1);
      assert ns[j - 1].sent[h] <= ns[j].sent[h];
    }
  }

  /** With nothing left for r, all that was said about d has been read. */
  lemma AllAboutRead(ms: seq<DistMsg>, now: seq<DistMsg>, p: int, r: int, d: int)
    requires ms <= now && 0 <= p <= |now| && NothingLeft(ms, p, r)
    ensures |About(ms, r, d)| <= |About(now[..p], r, d)|
  {
    if p <= |ms| {
      AboutNothingIff(ms[p..], r, d);
      AboutBoth(ms[..p], ms[p..], r, d);
      assert ms == ms[..p] + ms[p..] && now[..p] == ms[..p];
    } else {
      AboutBoth(ms, now[|ms|..p], r, d);
      assert now[..p] == ms + now[|ms|..p];
    }
  }

  lemma LinkFlushed(g: Matrix, part: set<int>, ns: seq<Net>, dgs: seq<Datagram>, d: int, k: nat, j: nat, h: int, r: int)
    requires NetRun(g, part, ns, dgs) && 0 <= d < NODES && k <= j < |ns| && Emptied(g, ns[k], ns[j]) && Edge(g, r, h)
    ensures NetOk(g, part, ns[k]) && NetOk(g, part, ns[j])
    ensures |Exchange(g, part, ns[k], d).log(h, r)| <= Exchange(g, part, ns[j], d).got(h, r)
  {
    SentGrows(g, part, ns, dgs, k, j, h);
    AllAboutRead(ns[k].sent[h], ns[j].sent[h], ns[j].pos[r][h], r, d);
  }

  lemma UpdateIsDue(g: Matrix, part: set<int>, ns: seq<Net>, dgs: seq<Datagram>, d: int, r: int, t: nat)
    requires NetRun(g, part, ns, dgs) && 0 <= d < NODES && UpdateAt(ns, dgs, r, t)
    ensures DueAt(States(g, part, ns, dgs, d), Events(g, part, ns, dgs, d), r, 5 * t + 2)
  {
    assert RoundAt(g, part, ns, dgs, t);
    var states, events := States(g, part, ns, dgs, d), Events(g, part, ns, dgs, d);
    assert (5 * t + 2) / 5 == t && (5 * t + 2) % 5 == 2;
    assert states[5 * t + 2] == AfterOffer(g, part, ns[t], dgs[t], d);
    assert events[5 * t + 2] == UpdateEvent(r, Offer1(ns[t], dgs[t])[d], true);
  }

  lemma UpdatesAreDue(g: Matrix, part: set<int>, ns: seq<Net>, dgs: seq<Datagram>, d: int, r: int, i: nat, k: nat)
    requires NetRun(g, part, ns, dgs) && 0 <= d < NODES && UpdateDue(ns, dgs, r, i, k)
    ensures Due(States(g, part, ns, dgs, d), Events(g, part, ns, dgs, d), r, 5 * i, 5 * k)
  {
    var t :| i <= t < k && UpdateAt(ns, dgs, r, t);
    UpdateIsDue(g, part, ns, dgs, d, r, t);
    assert 5 * i <= 5 * t + 2 < 5 * k;
  }

  lemma LinksFlushed(g: Matrix, part: set<int>, ns: seq<Net>, dgs: seq<Datagram>, d: int, k: nat, j: nat)
    requires NetRun(g, part, ns, dgs) && 0 <= d < NODES && k <= j < |ns| && Emptied(g, ns[k], ns[j])
    ensures NetOk(g, part, ns[k]) && NetOk(g, part, ns[j])
    ensures Flushed(g, Exchange(g, part, ns[k], d), Exchange(g, part, ns[j], d))
  {
    RunNetOk(g, part, ns, dgs, k);
    RunNetOk(g, part, ns, dgs, j);
    forall h, r | Edge(g, r, h)
      ensures |Exchange(g, part, ns[k], d).log(h, r)| <= Exchange(g, part, ns[j], d).got(h, r)
    {
      LinkFlushed(g, part, ns, dgs, d, k, j, h, r);
    }
  }

  lemma LinksAreJoined(g: Matrix, part: set<int>, n: Net, d: int)
    requires NetOk(g, part, n) && LinksUp(g, n)
    ensures AllJoined(g, Exchange(g, part, n, d))
  {
  }

  lemma CycleParts(g: Matrix, part: set<int>, ns: seq<Net>, dgs: seq<Datagram>, d: int, i: nat, k: nat, j: nat)
    requires NetRun(g, part, ns, dgs) && 0 <= d < NODES && NetCycleBy(g, part, ns, dgs, i, k, j)
    ensures CycleBy(g, part, States(g, part, ns, dgs, d), Events(g, part, ns, dgs, d), 5 * i, 5 * k, 5 * j)
  {
    var states, events := States(g, part, ns, dgs, d), Events(g, part, ns, dgs, d);
    RunIsRun(g, part, ns, dgs, d);
    assert Flushed(g, states[5 * k], states[5 * j]) by {
      LinksFlushed(g, part, ns, dgs, d, k, j);
    }
    assert AllJoined(g, states[5 * i]) by {
      LinksAreJoined(g, part, ns[i], d);
    }
    forall r | r in part
      ensures Due(states, events, r, 5 * i, 5 * k)
    {
      UpdatesAreDue(g, part, ns, dgs, d, r, i, k);
    }
  }

  /** A cycle of the network is a cycle of every exchange. */
  lemma CycleIsCycle(g: Matrix, part: set<int>, ns: seq<Net>, dgs: seq<Datagram>, d: int, i: nat, j: nat)
    requires NetRun(g, part, ns, dgs) && 0 <= d < NODES && NetCycle(g, part, ns, dgs, i, j)
    ensures Cycle(g, part, States(g, part, ns, dgs, d), Events(g, part, ns, dgs, d), 5 * i, 5 * j)
  {
    var k :| NetCycleBy(g, part, ns, dgs, i, k, j);
    CycleParts(g, part, ns, dgs, d, i, k, j);
  }

  /** Points of a run of the network with a cycle between any two neighbouring ones. */
  ghost predicate NetCheckpoints(g: Matrix, part: set<int>, ns: seq<Net>, dgs: seq<Datagram>, at: seq<nat>) {
    && (forall i :: 0 <= i < |at| ==> at[i] < |ns|)
    && (forall i :: 0 <= i < |at| - 1 ==> NetCycleAt(g, part, ns, dgs, at, i))
  }

  ghost predicate NetCycleAt(g: Matrix, part: set<int>, ns: seq<Net>, dgs: seq<Datagram>, at: seq<nat>, i: int) {
    0 <= i < |at| - 1 && NetCycle(g, part, ns, dgs, at[i], at[i + 1])
  }

  ghost function Times5(at: seq<nat>): (r: seq<nat>)
    ensures |r| == |at| && forall i :: 0 <= i < |at| ==> r[i] == 5 * at[i]
  {
    seq(|at|, i requires 0 <= i < |at| => 5 * at[i])
  }

  lemma CheckpointsOf(g: Matrix, part: set<int>, ns: seq<Net>, dgs: seq<Datagram>, d: int, at: seq<nat>)
    requires NetRun(g, part, ns, dgs) && 0 <= d < NODES && NetCheckpoints(g, part, ns, dgs, at)
    ensures Checkpoints(g, part, States(g, part, ns, dgs, d), Events(g, part, ns, dgs, d), Times5(at))
  {
    forall i | 0 <= i < |at| - 1
      ensures CycleAt(g, part, States(g, part, ns, dgs, d), Events(g, part, ns, dgs, d), Times5(at), i)
    {
      assert NetCycleAt(g, part, ns, dgs, at, i);
      CycleIsCycle(g, part, ns, dgs, d, at[i], at[i + 1]);
    }
  }

  // ---------- Convergence of the network ----------

  /** Every exchange is in order: all routes lead to neighbours that have told something or to links to the outside,
      and nothing impossible is on the links. */
  ghost predicate NetInOrder(g: Matrix, part: set<int>, n: Net) {
    NetOk(g, part, n) && forall d :: 0 <= d < NODES ==> Ok(g, part, d, Exchange(g, part, n, d))
  }

  /** The invariant holds for every destination. */
  ghost predicate NetInv(g: Matrix, part: set<int>, n: Net) {
    NetOk(g, part, n) && forall d :: 0 <= d < NODES ==> Inv(g, part, d, Exchange(g, part, n, d))
  }

  /** No router of the part has a link to the outside any more. */
  ghost predicate CutOffNet(g: Matrix, part: set<int>, n: Net) {
    |n.routers| == |g| && OuterLinks(g, part, n) == {}
  }

  /** All tables of the part are ideal. */
  ghost predicate NetIdeal(g: Matrix, part: set<int>, n: Net) {
    && |n.routers| == |g|
    && (forall r, d {:trigger EntryOf(n.routers[r], d)} :: r in part && 0 <= r < |g| && 0 <= d < NODES ==>
          Ideal(g, r, d, EntryOf(n.routers[r], d)))
  }

  /** r uses a route to d through h, which has none, and nothing about d is on its way from h to r. */
  ghost predicate StaleRoute(g: Matrix, part: set<int>, n: Net, h: int, r: int, d: int)
    requires NetOk(g, part, n) && Edge(g, r, h)
  {
    && r != d && EntryOf(n.routers[r], d).nextHop == h && EntryOf(n.routers[h], d).dist == -1
    && forall i :: n.pos[r][h] <= i < |n.sent[h]| ==> !(n.sent[h][i].to == r && n.sent[h][i].node == d)
  }

  ghost predicate NoStaleRoutes(g: Matrix, part: set<int>, n: Net)
    requires NetOk(g, part, n)
  {
    forall h, r, d {:trigger StaleRoute(g, part, n, h, r, d)} :: Edge(g, r, h) && 0 <= d < NODES ==>
      !StaleRoute(g, part, n, h, r, d)
  }

  lemma StaleRouteIff(g: Matrix, part: set<int>, n: Net, h: int, r: int, d: int)
    requires NetOk(g, part, n) && Edge(g, r, h)
    ensures StaleRoute(g, part, n, h, r, d) <==> Stale(g, d, Exchange(g, part, n, d), h, r)
  {
    var ms, p := n.sent[h], n.pos[r][h];
    AboutBoth(ms[..p], ms[p..], r, d);
    AboutNothingIff(ms[p..], r, d);
    assert ms == ms[..p] + ms[p..];
    assert forall i :: p <= i < |ms| ==> ms[i] == ms[p..][i - p];
  }

  lemma IdealIff(g: Matrix, part: set<int>, n: Net)
    requires NetOk(g, part, n)
    ensures NetIdeal(g, part, n) <==>
            forall d, r :: 0 <= d < NODES && r in part ==> Ideal(g, r, d, Exchange(g, part, n, d).e[r])
  {
    forall r, d | r in part && 0 <= d < NODES
      ensures Exchange(g, part, n, d).e[r] == EntryOf(n.routers[r], d)
    {
    }
    if forall d, r :: 0 <= d < NODES && r in part ==> Ideal(g, r, d, Exchange(g, part, n, d).e[r]) {
      forall r, d | r in part && 0 <= d < NODES
        ensures Ideal(g, r, d, EntryOf(n.routers[r], d))
      {
        assert Ideal(g, r, d, Exchange(g, part, n, d).e[r]);
      }
    }
  }

  /** One run of the network with the invariant at its start: after 4 * LIMIT + 4 cycles all tables of the part are
      ideal, and they stay so. */
  lemma NetworkConverges(g: Matrix, part: set<int>, ns: seq<Net>, dgs: seq<Datagram>, at: seq<nat>, t: nat)
    requires NetRun(g, part, ns, dgs) && NetInv(g, part, ns[0]) && CutOffNet(g, part, ns[0])
    requires NetCheckpoints(g, part, ns, dgs, at) && |at| == 4 * LIMIT + 5 && at[4 * LIMIT + 4] <= t < |ns|
    ensures NetIdeal(g, part, ns[t])
  {
    RunNetOk(g, part, ns, dgs, t);
    forall d, r | 0 <= d < NODES && r in part
      ensures Ideal(g, r, d, Exchange(g, part, ns[t], d).e[r])
    {
      RunIsRun(g, part, ns, dgs, d);
      CheckpointsOf(g, part, ns, dgs, d, at);
      assert States(g, part, ns, dgs, d)[5 * t] == Exchange(g, part, ns[t], d);
      Converges(g, part, d, States(g, part, ns, dgs, d), Events(g, part, ns, dgs, d), Times5(at), 5 * t, r);
    }
    IdealIff(g, part, ns[t]);
  }

  lemma FreshForOne(g: Matrix, part: set<int>, ns: seq<Net>, dgs: seq<Datagram>, at: seq<nat>, n: nat, t: nat, d: int,
                    r: int)
    requires NetRun(g, part, ns, dgs) && NetInOrder(g, part, ns[0]) && CutOffNet(g, part, ns[0])
    requires NetCheckpoints(g, part, ns, dgs, at) && 1 <= n && n + 4 * LIMIT + 4 < |at|
    requires at[n + 4 * LIMIT + 4] <= t < |ns| && 0 <= d < NODES && r in part
    requires NetOk(g, part, ns[at[n]]) && NoStaleRoutes(g, part, ns[at[n]]) && NetOk(g, part, ns[t])
    ensures Ideal(g, r, d, Exchange(g, part, ns[t], d).e[r])
  {
    RunIsRun(g, part, ns, dgs, d);
    CheckpointsOf(g, part, ns, dgs, d, at);
    var states, now := States(g, part, ns, dgs, d), Exchange(g, part, ns[at[n]], d);
    assert states[5 * t] == Exchange(g, part, ns[t], d) && states[5 * at[n]] == now;
    forall h, x | Edge(g, x, h)
      ensures !Stale(g, d, now, h, x)
    {
      StaleRouteIff(g, part, ns[at[n]], h, x, d);
    }
    ConvergesOnceFresh(g, part, d, states, Events(g, part, ns, dgs, d), Times5(at), n, 5 * t, r);
  }

  /** From whatever tables the part starts with, and whatever is on its links: once a cycle ends
      without stale routes, all tables are ideal 4 * LIMIT + 4 cycles later, and stay so. */
  lemma NetworkConvergesOnceFresh(g: Matrix, part: set<int>, ns: seq<Net>, dgs: seq<Datagram>, at: seq<nat>, n: nat,
                                  t: nat)
    requires NetRun(g, part, ns, dgs) && NetInOrder(g, part, ns[0]) && CutOffNet(g, part, ns[0])
    requires NetCheckpoints(g, part, ns, dgs, at) && 1 <= n && n + 4 * LIMIT + 4 < |at|
    requires at[n + 4 * LIMIT + 4] <= t < |ns|
    requires NetOk(g, part, ns[at[n]]) && NoStaleRoutes(g, part, ns[at[n]])
    ensures NetIdeal(g, part, ns[t])
  {
    RunNetOk(g, part, ns, dgs, t);
    forall d, r | 0 <= d < NODES && r in part
      ensures Ideal(g, r, d, Exchange(g, part, ns[t], d).e[r])
    {
      FreshForOne(g, part, ns, dgs, at, n, t, d, r);
    }
    IdealIff(g, part, ns[t]);
  }

  /** And that is necessary: among ideal tables no route is stale. */
  lemma IdealNotStaleRoutes(g: Matrix, part: set<int>, n: Net)
    requires NetOk(g, part, n) && NetIdeal(g, part, n)
    ensures NoStaleRoutes(g, part, n)
  {
    IdealIff(g, part, n);
    forall h, r, d | Edge(g, r, h) && 0 <= d < NODES
      ensures !StaleRoute(g, part, n, h, r, d)
    {
      IdealNotStale(g, part, d, Exchange(g, part, n, d));
      StaleRouteIff(g, part, n, h, r, d);
    }
  }

  // ---------- Runs without an end ----------

  /** A run that never ends, with the ends of its cycles. */
  ghost predicate Endless(g: Matrix, part: set<int>, ns: nat -> Net, dgs: nat -> Datagram, at: nat -> nat) {
    && (forall n: nat {:trigger FirstNets(ns, n)} :: NetRun(g, part, FirstNets(ns, n), FirstDatagrams(dgs, n)))
    && (forall i: nat, n: nat {:trigger CycleEnds(g, part, ns, dgs, at, i, n)} :: CycleEnds(g, part, ns, dgs, at, i, n))
  }

  /** Between at(i) and at(i + 1) there is a cycle, of which one knows once n rounds are known. */
  ghost predicate CycleEnds(g: Matrix, part: set<int>, ns: nat -> Net, dgs: nat -> Datagram, at: nat -> nat, i: nat,
                            n: nat) {
    at(i + 1) <= n ==> NetCycle(g, part, FirstNets(ns, n), FirstDatagrams(dgs, n), at(i), at(i + 1))
  }

  ghost function FirstNets(ns: nat -> Net, n: nat): (r: seq<Net>)
    ensures |r| == n + 1 && forall i :: 0 <= i <= n ==> r[i] == ns(i)
  {
    seq(n + 1, i requires 0 <= i => ns(i))
  }

  ghost function FirstDatagrams(dgs: nat -> Datagram, n: nat): (r: seq<Datagram>)
    ensures |r| == n && forall i :: 0 <= i < n ==> r[i] == dgs(i)
  {
    seq(n, i requires 0 <= i => dgs(i))
  }

  ghost predicate FreshAt(g: Matrix, part: set<int>, ns: nat -> Net, at: nat -> nat, n: nat) {
    NetOk(g, part, ns(at(n))) && NoStaleRoutes(g, part, ns(at(n)))
  }

  ghost predicate IdealFrom(g: Matrix, part: set<int>, ns: nat -> Net, t: nat) {
    forall t': nat {:trigger ns(t')} :: t <= t' ==> NetIdeal(g, part, ns(t'))
  }

  /** Its first cycles, and as many rounds as one likes. */
  lemma FirstCycles(g: Matrix, part: set<int>, ns: nat -> Net, dgs: nat -> Datagram, at: nat -> nat, last: nat, t: nat)
    returns (ends: seq<nat>)
    requires Endless(g, part, ns, dgs, at) && at(last) <= t
    ensures |ends| == last + 1 && forall i :: 0 <= i <= last ==> ends[i] == at(i)
    ensures NetCheckpoints(g, part, FirstNets(ns, t), FirstDatagrams(dgs, t), ends)
  {
    forall i: nat | i <= last
      ensures at(i) <= at(last)
    {
      EndsRise(g, part, ns, dgs, at, i, last);
    }
    ends := seq(last + 1, i requires 0 <= i => at(i));
    forall i | 0 <= i < last
      ensures NetCycleAt(g, part, FirstNets(ns, t), FirstDatagrams(dgs, t), ends, i)
    {
      EndsRise(g, part, ns, dgs, at, i + 1, last);
      assert CycleEnds(g, part, ns, dgs, at, i, t);
    }
  }

  lemma {:induction false} EndsRise(g: Matrix, part: set<int>, ns: nat -> Net, dgs: nat -> Datagram, at: nat -> nat,
                                    m: nat, n: nat)
    requires Endless(g, part, ns, dgs, at) && m <= n
    ensures at(m) <= at(n) && forall r :: r in part ==> at(m) + n - m <= at(n)
    decreases n
  {
    if m < n {
      EndsRise(g, part, ns, dgs, at, m, n - 1);
      assert CycleEnds(g, part, ns, dgs, at, n - 1, at(n));
      CycleTakesRounds(g, part, FirstNets(ns, at(n)), FirstDatagrams(dgs, at(n)), at(n - 1), at(n));
    }
  }

  lemma CycleTakesRounds(g: Matrix, part: set<int>, ns: seq<Net>, dgs: seq<Datagram>, i: nat, j: nat)
    requires NetCycle(g, part, ns, dgs, i, j)
    ensures i <= j && forall r :: r in part ==> i < j
  {
    var k :| NetCycleBy(g, part, ns, dgs, i, k, j);
    if r :| r in part {
      assert UpdateDue(ns, dgs, r, i, k);
      var t :| i <= t < k && UpdateAt(ns, dgs, r, t);
    }
  }

  lemma EndlessIdeal(g: Matrix, part: set<int>, ns: nat -> Net, dgs: nat -> Datagram, at: nat -> nat, n: nat, t: nat)
    requires Endless(g, part, ns, dgs, at) && NetInOrder(g, part, ns(0)) && CutOffNet(g, part, ns(0))
    requires 1 <= n && FreshAt(g, part, ns, at, n) && at(n + 4 * LIMIT + 5) <= t
    ensures NetIdeal(g, part, ns(t))
  {
    var last := n + 4 * LIMIT + 5;
    var ns', dgs' := FirstNets(ns, t), FirstDatagrams(dgs, t);
    var ends := FirstCycles(g, part, ns, dgs, at, last, t);
    EndsRise(g, part, ns, dgs, at, n, last);
    EndsRise(g, part, ns, dgs, at, last - 1, last);
    assert ns'[ends[n]] == ns(at(n)) && ns'[t] == ns(t);
    NetworkConvergesOnceFresh(g, part, ns', dgs', ends, n, t);
  }

  lemma EndlessOk(g: Matrix, part: set<int>, ns: nat -> Net, dgs: nat -> Datagram, at: nat -> nat, t: nat)
    requires Endless(g, part, ns, dgs, at)
    ensures NetOk(g, part, ns(t))
  {
    assert FirstNets(ns, t)[t] == ns(t);
    RunNetOk(g, part, FirstNets(ns, t), FirstDatagrams(dgs, t), t);
  }

  /** The exact condition. From whatever tables a part without links to the outside starts, a run in which the cycles
      never cease makes all its tables ideal, and keeps them so, if and only if one of its cycles ends without a
      stale route. */
  lemma NetworkConvergesIff(g: Matrix, part: set<int>, ns: nat -> Net, dgs: nat -> Datagram, at: nat -> nat)
    requires Endless(g, part, ns, dgs, at) && NetInOrder(g, part, ns(0)) && CutOffNet(g, part, ns(0))
    ensures (exists n: nat :: 1 <= n && FreshAt(g, part, ns, at, n)) <==> (exists t: nat :: IdealFrom(g, part, ns, t))
  {
    if n: nat :| 1 <= n && FreshAt(g, part, ns, at, n) {
      forall t: nat | at(n + 4 * LIMIT + 5) <= t
        ensures NetIdeal(g, part, ns(t))
      {
        EndlessIdeal(g, part, ns, dgs, at, n, t);
      }
      assert IdealFrom(g, part, ns, at(n + 4 * LIMIT + 5));
    }
    if t: nat :| IdealFrom(g, part, ns, t) {
      EndsRise(g, part, ns, dgs, at, 0, t + 1);
      var now := ns(at(t + 1));
      EndlessOk(g, part, ns, dgs, at, at(t + 1));
      assert forall r :: r in part ==> NetIdeal(g, part, now);
      IdealNotStaleRoutes(g, part, now);
      assert FreshAt(g, part, ns, at, t + 1);
    }
  }

  /** The tables of a whole network. */
  ghost function Tables(n: Net): (ts: seq<Table>)
    ensures |ts| == |n.routers| && forall r :: 0 <= r < |ts| ==> ts[r] == n.routers[r].table
  {
    seq(|n.routers|, r requires 0 <= r < |n.routers| => n.routers[r].table)
  }

  lemma WholeNetworkIdeal(g: Matrix, part: set<int>, n: Net)
    requires NetOk(g, part, n) && NetIdeal(g, part, n) && forall r :: 0 <= r < NODES ==> r in part
    ensures AllIdeal(g, Tables(n))
  {
    forall r, d | 0 <= r < |g| && 0 <= d < |g|
      ensures |n.routers[r].table| == |g| && Ideal(g, r, d, n.routers[r].table[d])
    {
      assert RouterOk(g, part, n.routers[r], r);
      assert EntryOf(n.routers[r], d) == n.routers[r].table[d];
    }
  }

  // ---------- How such runs start ----------

  /** Routers that have just started, as the constructor leaves them. */
  ghost predicate JustStarted(g: Matrix, part: set<int>, n: Net) {
    && NetOk(g, part, n) && (forall h :: 0 <= h < NODES ==> n.sent[h] == [])
    && (forall r {:trigger n.routers[r]} :: 0 <= r < NODES && r in part ==> StartedRouter(n.routers[r]))
  }

  ghost predicate StartedRouter(s: State) {
    && (forall x :: !Up(s.conn, x))
    && (forall d :: 0 <= d < |s.table| ==> s.table[d] == if d == s.me then Route(0, s.me) else UNREACHABLE)
  }

  lemma StartInv(g: Matrix, part: set<int>, n: Net)
    requires JustStarted(g, part, n)
    ensures NetInv(g, part, n) && CutOffNet(g, part, n)
  {
    forall d | 0 <= d < NODES
      ensures Inv(g, part, d, Exchange(g, part, n, d))
    {
      StartInvFor(g, part, n, d);
    }
    assert OuterLinks(g, part, n) == {} by {
      assert forall r :: 0 <= r < NODES && r in part ==> StartedRouter(n.routers[r]);
    }
  }

  lemma StartInvFor(g: Matrix, part: set<int>, n: Net, d: int)
    requires JustStarted(g, part, n) && 0 <= d < NODES
    ensures Inv(g, part, d, Exchange(g, part, n, d))
  {
    var s := Exchange(g, part, n, d);
    forall r, x
      ensures (r, x) !in s.joined && (r, x) !in s.up
    {
      if 0 <= r < NODES && r in part {
        assert StartedRouter(n.routers[r]);
      }
    }
    forall r | r in part && 0 <= r < |g|
      ensures s.e[r] == if r == d then Route(0, d) else UNREACHABLE
    {
      assert StartedRouter(n.routers[r]) && RouterOk(g, part, n.routers[r], r);
      assert s.e[r] == EntryOf(n.routers[r], d);
    }
    forall a, b
      ensures s.log(a, b) == [] && s.got(a, b) == 0
    {
    }
    FreshStart(g, part, d, s);
  }

  /** A network whose routers have all just started: in any run of it, 4 * LIMIT + 4 cycles after all links have come
      up, all tables are ideal, and they stay so. */
  lemma StartedNetworkConverges(g: Matrix, part: set<int>, ns: seq<Net>, dgs: seq<Datagram>, at: seq<nat>, t: nat)
    requires NetRun(g, part, ns, dgs) && JustStarted(g, part, ns[0]) && forall r :: 0 <= r < NODES ==> r in part
    requires NetCheckpoints(g, part, ns, dgs, at) && |at| == 4 * LIMIT + 5 && at[4 * LIMIT + 4] <= t < |ns|
    ensures AllIdeal(g, Tables(ns[t]))
  {
    StartInv(g, part, ns[0]);
    NetworkConverges(g, part, ns, dgs, at, t);
    RunNetOk(g, part, ns, dgs, t);
    WholeNetworkIdeal(g, part, ns[t]);
  }

  /** Tables and links one could find in any network whose links are up: every route leads to a present neighbour,
      nothing negative but -1 is on the links, and nobody has said anything but 0 about itself. */
  ghost predicate Plausible(g: Matrix, part: set<int>, n: Net) {
    && NetOk(g, part, n) && LinksUp(g, n)
    && (forall r {:trigger n.routers[r]} :: 0 <= r < NODES && r in part ==>
          HopsUp(r, n.routers[r].conn, n.routers[r].table))
    && (forall h, i {:trigger n.sent[h][i]} :: 0 <= h < NODES && h in part && 0 <= i < |n.sent[h]| ==>
          -1 <= n.sent[h][i].dist && (n.sent[h][i].node == h ==> n.sent[h][i].dist == 0))
  }

  lemma PlausibleInOrder(g: Matrix, part: set<int>, n: Net)
    requires Plausible(g, part, n)
    ensures NetInOrder(g, part, n)
  {
    forall d | 0 <= d < NODES
      ensures Ok(g, part, d, Exchange(g, part, n, d))
    {
      PlausibleOk(g, part, n, d);
    }
  }

  lemma PlausibleEntry(g: Matrix, part: set<int>, n: Net, d: int, r: int)
    requires Plausible(g, part, n) && 0 <= d < NODES && 0 <= r < NODES && r in part
    ensures var s := Exchange(g, part, n, d); RouteExchange.EntryOk(g, d, s, r, s.e[r])
  {
    var s, st := Exchange(g, part, n, d), n.routers[r];
    assert RouterOk(g, part, st, r) && HopsUp(r, st.conn, st.table);
    assert s.e[r] == st.table[d];
    if r != d {
      assert VectorRouter.EntryOk(st.table[d]) && HopUp(st.table[d], st.conn);
    }
  }

  lemma PlausibleOk(g: Matrix, part: set<int>, n: Net, d: int)
    requires Plausible(g, part, n) && 0 <= d < NODES
    ensures Ok(g, part, d, Exchange(g, part, n, d))
  {
    var s := Exchange(g, part, n, d);
    forall r | 0 <= r < |g| && r in part
      ensures RouteExchange.EntryOk(g, d, s, r, s.e[r])
    {
      PlausibleEntry(g, part, n, d, r);
    }
    forall h, r
      ensures s.got(h, r) <= |s.log(h, r)|
    {
      if Edge(g, r, h) {
        FrontOfAbout(n.sent[h], n.pos[r][h], r, d);
      }
    }
    forall h, r, k | 0 <= k < |s.log(h, r)|
      ensures -1 <= s.log(h, r)[k] && (h == d ==> s.log(h, r)[k] == 0)
    {
      var i := AboutIsAmong(n.sent[h], |n.sent[h]|, r, d, k);
    }
  }

  /** Order is kept by every round, and so the rest of a run from any point on is a run as well. In particular from
      the point on at which the last link to the outside has expired. */
  lemma RestInOrder(g: Matrix, part: set<int>, ns: seq<Net>, dgs: seq<Datagram>, k: nat)
    requires NetRun(g, part, ns, dgs) && NetInOrder(g, part, ns[0]) && k < |ns|
    ensures NetRun(g, part, ns[k..], dgs[k..]) && NetInOrder(g, part, ns[k..][0])
  {
    RunNetOk(g, part, ns, dgs, k);
    forall d | 0 <= d < NODES
      ensures Ok(g, part, d, Exchange(g, part, ns[k], d))
    {
      RunIsRun(g, part, ns, dgs, d);
      assert States(g, part, ns, dgs, d)[0] == Exchange(g, part, ns[0], d);
      RunOk(g, part, d, States(g, part, ns, dgs, d), Events(g, part, ns, dgs, d), 5 * k);
    }
    forall i | 0 <= i < |dgs[k..]|
      ensures RoundAt(g, part, ns[k..], dgs[k..], i)
    {
      assert RoundAt(g, part, ns, dgs, k + i);
    }
  }
}

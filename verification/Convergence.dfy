/** What the tables of a part of the network become once its links do not change any more: all routes that
    lead nowhere die out, and every other entry becomes the ideal one. */
module Convergence {
  import opened Graphs
  import opened DistanceVector
  import opened RouteExchange

  // ---------- Steps once all links to the outside have expired ----------

  ghost predicate Static(s: Sys) {
    s.up == {} && s.gone == {}
  }

  /** Everything that has been sent stays, and everything new is the sender's present advert. */
  ghost predicate Grown(g: Matrix, s: Sys, s': Sys)
    requires |s'.e| == |g|
  {
    && s.joined <= s'.joined
    && (forall a, b {:trigger s'.log(a, b)} :: s.log(a, b) <= s'.log(a, b))
    && (forall a, b, i {:trigger s'.log(a, b)[i]} ::
          |s.log(a, b)| <= i < |s'.log(a, b)| ==> Edge(g, b, a) && s'.log(a, b)[i] == Advert(s'.e[a], b))
  }

  /** v is what r is offered by its neighbour h: the next advert from h, or 0 from the destination. */
  ghost predicate Offerable(d: int, s: Sys, h: int, r: int, v: int) {
    (h == d && v == 0) || (s.got(h, r) < |s.log(h, r)| && v == s.log(h, r)[s.got(h, r)])
  }

  /** What a step does: router r may take an offer v of its neighbour h, nobody else's entry changes, and
      nothing but that offer is taken off a link. */
  ghost predicate Moved(g: Matrix, d: int, s: Sys, s': Sys, r: int, h: int, v: int)
    requires |s.e| == |s'.e| == |g|
  {
    && Edge(g, r, h) && -1 <= v && Offerable(d, s, h, r, v)
    && s'.e == s.e[r := Updated(Links(g, r), r, s.e[r], d, Through(v, g[r][h]), h)]
    && (forall a, b {:trigger s'.got(a, b)} ::
          s'.got(a, b) == s.got(a, b)
          || ((a, b) == (h, r) && s'.got(a, b) == s.got(a, b) + 1 && s.got(a, b) < |s.log(a, b)|
              && v == s.log(a, b)[s.got(a, b)]))
  }

  ghost predicate Idle(s: Sys, s': Sys) {
    s'.e == s.e && SameGot(s, s')
  }

  ghost predicate Stepped(g: Matrix, part: set<int>, d: int, s: Sys, s': Sys) {
    && Inv(g, part, d, s) && Static(s) && Inv(g, part, d, s') && Static(s') && Grown(g, s, s')
    && (Idle(s, s') || exists r, h, v :: Moved(g, d, s, s', r, h, v))
  }

  lemma BecomesGrown(g: Matrix, s: Sys, s': Sys, r: int, e: Route, tells: bool)
    requires |s.e| == |g| && Network(g) && Becomes(g, s, s', r, e, tells) && s.joined <= s'.joined
    ensures |s'.e| == |g| && Grown(g, s, s')
  {
    forall a, b, i | |s.log(a, b)| <= i < |s'.log(a, b)|
      ensures Edge(g, b, a) && s'.log(a, b)[i] == Advert(s'.e[a], b)
    {
      assert a == r && Edge(g, r, b);
    }
  }

  lemma OfferGrown(g: Matrix, d: int, s: Sys, s': Sys, r: int, dist: int, hop: int)
    requires |s.e| == |g| && Network(g) && Offer(g, d, s, s', r, dist, hop) && s.joined <= s'.joined
    ensures |s'.e| == |g| && Grown(g, s, s')
  {
    BecomesGrown(g, s, s', r, Updated(Links(g, r), r, s.e[r], d, dist, hop),
        Fires(Links(g, r), r, s.e[r], d, dist, hop));
  }

  lemma TakeMoves(g: Matrix, part: set<int>, d: int, s: Sys, s': Sys, h: int, r: int, known: Route)
    requires Part(g, part) && Ok(g, part, d, s) && Static(s) && Take(g, d, s, s', h, r, known)
    ensures |s'.e| == |g| && Grown(g, s, s') && Static(s')
    ensures Moved(g, d, s, s', r, h, s.log(h, r)[s.got(h, r)])
  {
    LookedIff(g, part, r, h, known, s.gone);
    OfferGrown(g, d, s, s', r, Through(s.log(h, r)[s.got(h, r)], g[r][h]), h);
  }

  lemma HeartbeatMoves(g: Matrix, part: set<int>, d: int, s: Sys, s': Sys, r: int)
    requires Part(g, part) && Ok(g, part, d, s) && Static(s) && Next(g, part, d, s, s', Heartbeat(r))
    ensures |s'.e| == |g| && Grown(g, s, s') && Static(s') && Moved(g, d, s, s', r, d, 0)
  {
    OfferGrown(g, d, s, s', r, g[r][d], d);
  }

  lemma OthersIdle(g: Matrix, part: set<int>, d: int, s: Sys, s': Sys, ev: Event)
    requires Part(g, part) && Ok(g, part, d, s) && Static(s) && Next(g, part, d, s, s', ev) && !ev.Receive?
              && !ev.Heartbeat?
    ensures |s'.e| == |g| && Grown(g, s, s') && Static(s') && Idle(s, s')
  {
    match ev {
      case Sweep(r, xs) =>
        assert forall x :: x in xs ==> (r, x) in s.up;
        BecomesGrown(g, s, s', r, s.e[r], false);
      case Refresh(r) => BecomesGrown(g, s, s', r, s.e[r], true);
      case _ =>
    }
    assert s'.e == s.e;
  }

  /** When nothing can expire any more, every advert is looked at. */
  lemma StaticHarmless(g: Matrix, part: set<int>, d: int, s: Sys, s': Sys, ev: Event)
    requires Part(g, part) && Ok(g, part, d, s) && Static(s) && Next(g, part, d, s, s', ev)
    ensures Harmless(g, d, s, ev)
  {
    if ev.Receive? {
      LookedIff(g, part, ev.r, ev.h, ev.known, s.gone);
    }
  }

  lemma StaticMoves(g: Matrix, part: set<int>, d: int, s: Sys, s': Sys, ev: Event)
    requires Part(g, part) && Ok(g, part, d, s) && Static(s) && Next(g, part, d, s, s', ev)
    ensures |s'.e| == |g| && Static(s') && Grown(g, s, s')
    ensures Idle(s, s') || exists r, h, v :: Moved(g, d, s, s', r, h, v)
  {
    match ev
    case Receive(h, r, known) => TakeMoves(g, part, d, s, s', h, r, known);
    case Heartbeat(r) => HeartbeatMoves(g, part, d, s, s', r);
    case _ => OthersIdle(g, part, d, s, s', ev);
  }

  lemma StaticStep(g: Matrix, part: set<int>, d: int, s: Sys, s': Sys, ev: Event)
    requires Inv(g, part, d, s) && Static(s) && Next(g, part, d, s, s', ev)
    ensures Stepped(g, part, d, s, s')
  {
    StaticHarmless(g, part, d, s, s', ev);
    NextInvIff(g, part, d, s, s', ev);
    StaticMoves(g, part, d, s, s', ev);
  }

  // ---------- How low entries and adverts can be ----------

  /** The true distance, but no more than f. */
  ghost function Low(g: Matrix, d: int, r: int, f: int): int {
    if Reach(g, r, d) && Dist(g, r, d) < f then Dist(g, r, d) else f
  }

  lemma LowStep(g: Matrix, d: int, r: int, h: int, f: int)
    requires Edge(g, r, h)
    ensures Low(g, d, r, f + 1) <= Low(g, d, h, f) + g[r][h] && Low(g, d, r, f) <= Low(g, d, r, f + 1)
  {
    if Reach(g, h, d) {
      FirstHopBound(g, r, h, d);
    }
  }

  lemma LowSelf(g: Matrix, d: int, f: nat)
    ensures Low(g, d, d, f) == 0
  {
    DistSelf(g, d);
  }

  /** The route of r is no better than its next hop and the link allow. */
  ghost predicate EntryVia(g: Matrix, d: int, r: int, e: Route, f: int) {
    r != d && e.nextHop != -1 && Edge(g, r, e.nextHop) ==> Low(g, d, e.nextHop, f) + g[r][e.nextHop] <= e.dist
  }

  ghost predicate EntriesVia(g: Matrix, part: set<int>, d: int, s: Sys, f: int)
    requires |s.e| == |g|
  {
    forall r {:trigger s.e[r]} :: 0 <= r < |g| && r in part ==> EntryVia(g, d, r, s.e[r], f)
  }

  ghost predicate EntriesFrom(g: Matrix, part: set<int>, d: int, s: Sys, f: int)
    requires |s.e| == |g|
  {
    forall r {:trigger s.e[r]} :: 0 <= r < |g| && r in part ==> AtLeast(s.e[r].dist, Low(g, d, r, f))
  }

  /** The adverts from message number `from` on. */
  ghost predicate SentFrom(g: Matrix, d: int, s: Sys, from: (int, int) -> int, f: int) {
    forall h, r, i {:trigger s.log(h, r)[i]} ::
      0 <= i && from(h, r) <= i < |s.log(h, r)| ==> AtLeast(s.log(h, r)[i], Low(g, d, h, f))
  }

  ghost predicate PendingFrom(g: Matrix, d: int, s: Sys, f: int) {
    SentFrom(g, d, s, (h, r) => s.got(h, r), f)
  }

  ghost predicate Floor(g: Matrix, part: set<int>, d: int, s: Sys, f: int)
    requires |s.e| == |g|
  {
    EntriesFrom(g, part, d, s, f) && PendingFrom(g, d, s, f)
  }

  /** What an offer from above the floor makes of an entry. */
  lemma OfferFloor(g: Matrix, part: set<int>, d: int, s: Sys, s': Sys, r: int, h: int, v: int, f: nat)
    requires Inv(g, part, d, s) && Static(s) && |s'.e| == |g| && Moved(g, d, s, s', r, h, v) && PendingFrom(g, d, s, f)
    ensures s'.e[r] == s.e[r] || s'.e[r] == UNREACHABLE || s'.e[r].nextHop == h
    ensures r != d && s'.e[r].nextHop == h ==> EntryVia(g, d, r, s'.e[r], f)
  {
    assert EntryOk(g, d, s, r, s.e[r]);
    LowSelf(g, d, f);
    assert AtLeast(v, Low(g, d, h, f));
    if r != d {
      OfferedEntry(Links(g, r), r, s.e[r], d, Through(v, g[r][h]), h);
    }
  }

  /** A route through its next hop is above the next floor. */
  lemma ViaFrom(g: Matrix, part: set<int>, d: int, s: Sys, r: int, f: nat)
    requires Inv(g, part, d, s) && Static(s) && r in part && EntryVia(g, d, r, s.e[r], f)
    ensures AtLeast(s.e[r].dist, Low(g, d, r, f + 1))
  {
    assert EntryOk(g, d, s, r, s.e[r]);
    LowSelf(g, d, f + 1);
    if r != d && s.e[r].nextHop != -1 {
      LowStep(g, d, r, s.e[r].nextHop, f);
    }
  }

  lemma StepFloor(g: Matrix, part: set<int>, d: int, s: Sys, s': Sys, f: nat)
    requires Stepped(g, part, d, s, s') && Floor(g, part, d, s, f)
    ensures Floor(g, part, d, s', f)
  {
    forall r | 0 <= r < |g| && r in part
      ensures AtLeast(s'.e[r].dist, Low(g, d, r, f))
    {
      assert AtLeast(s.e[r].dist, Low(g, d, r, f));
      if !Idle(s, s') {
        var x, h, v :| Moved(g, d, s, s', x, h, v);
        if x == r && s'.e[r] != s.e[r] {
          OfferFloor(g, part, d, s, s', r, h, v, f);
          assert EntryOk(g, d, s', r, s'.e[r]);
          ViaFrom(g, part, d, s', r, f);
          LowStep(g, d, r, h, f);
        }
      }
    }
    StepSent(g, part, d, s, s', (h, r) => s.got(h, r), f);
    assert forall h, r {:trigger s'.got(h, r)} :: s.got(h, r) <= s'.got(h, r);
    forall h, r, i | s'.got(h, r) <= i < |s'.log(h, r)|
      ensures AtLeast(s'.log(h, r)[i], Low(g, d, h, f))
    {
    }
  }

  /** While the entries are above the floor, so is everything that is sent. */
  lemma StepSent(g: Matrix, part: set<int>, d: int, s: Sys, s': Sys, from: (int, int) -> int, f: nat)
    requires Stepped(g, part, d, s, s') && EntriesFrom(g, part, d, s', f) && SentFrom(g, d, s, from, f)
    ensures SentFrom(g, d, s', from, f)
  {
    forall a, b, i | 0 <= i && from(a, b) <= i < |s'.log(a, b)|
      ensures AtLeast(s'.log(a, b)[i], Low(g, d, a, f))
    {
      if i < |s.log(a, b)| {
        assert s'.log(a, b)[i] == s.log(a, b)[i];
      } else {
        assert Edge(g, b, a);
        assert AtLeast(s'.e[a].dist, Low(g, d, a, f));
      }
    }
  }

  // ---------- Runs and cycles ----------

  /** A run from a state in which all links to the outside have expired. */
  ghost predicate StaticRun(g: Matrix, part: set<int>, d: int, states: seq<Sys>, events: seq<Event>) {
    Run(g, part, d, states, events) && Inv(g, part, d, states[0]) && Static(states[0])
  }

  lemma {:induction false} RunStatic(g: Matrix, part: set<int>, d: int, states: seq<Sys>, events: seq<Event>, k: nat)
    requires StaticRun(g, part, d, states, events) && k < |states|
    ensures Inv(g, part, d, states[k]) && Static(states[k])
  {
    if k > 0 {
      RunStatic(g, part, d, states, events, k - 1);
      assert StepAt(g, part, d, states, events, k - 1);
      StaticStep(g, part, d, states[k - 1], states[k], events[k - 1]);
    }
  }

  lemma RunStepped(g: Matrix, part: set<int>, d: int, states: seq<Sys>, events: seq<Event>, k: nat)
    requires StaticRun(g, part, d, states, events) && k < |events|
    ensures Stepped(g, part, d, states[k], states[k + 1])
  {
    RunStatic(g, part, d, states, events, k);
    assert StepAt(g, part, d, states, events, k);
    StaticStep(g, part, d, states[k], states[k + 1], events[k]);
  }

  ghost predicate StepKeeps(g: Matrix, part: set<int>, d: int, keep: Sys -> bool) {
    forall s, s' {:trigger Stepped(g, part, d, s, s')} :: Stepped(g, part, d, s, s') && keep(s) ==> keep(s')
  }

  /** What every step keeps holds from then on. */
  lemma {:induction false} RunKeeps(g: Matrix, part: set<int>, d: int, states: seq<Sys>, events: seq<Event>,
                                    i: nat, j: nat, keep: Sys -> bool)
    requires StaticRun(g, part, d, states, events) && i <= j < |states|
    requires StepKeeps(g, part, d, keep) && keep(states[i])
    ensures keep(states[j])
    decreases j
  {
    if i < j {
      RunKeeps(g, part, d, states, events, i, j - 1, keep);
      KeptByStep(g, part, d, states, events, j - 1, keep);
    }
  }

  lemma KeptByStep(g: Matrix, part: set<int>, d: int, states: seq<Sys>, events: seq<Event>, k: nat, keep: Sys -> bool)
    requires StaticRun(g, part, d, states, events) && k < |events|
    requires StepKeeps(g, part, d, keep) && keep(states[k])
    ensures keep(states[k + 1])
  {
    RunStepped(g, part, d, states, events, k);
  }

  /** Nothing that has been sent or received is taken back. */
  ghost predicate Later(s: Sys, s': Sys) {
    && s.joined <= s'.joined
    && (forall a, b {:trigger s'.log(a, b)} :: s.log(a, b) <= s'.log(a, b))
    && (forall a, b {:trigger s'.got(a, b)} :: s.got(a, b) <= s'.got(a, b))
  }

  lemma StepLater(g: Matrix, part: set<int>, d: int, s0: Sys, s: Sys, s': Sys)
    requires Later(s0, s) && Stepped(g, part, d, s, s')
    ensures Later(s0, s')
  {
    forall a, b
      ensures s0.log(a, b) <= s'.log(a, b) && s0.got(a, b) <= s'.got(a, b)
    {
      assert s0.log(a, b) <= s.log(a, b) <= s'.log(a, b);
      assert s0.got(a, b) <= s.got(a, b) <= s'.got(a, b);
    }
  }

  lemma RunLater(g: Matrix, part: set<int>, d: int, states: seq<Sys>, events: seq<Event>, i: nat, j: nat)
    requires StaticRun(g, part, d, states, events) && i <= j < |states|
    ensures Later(states[i], states[j])
  {
    var keep := (s: Sys) => Later(states[i], s);
    forall s, s' | Stepped(g, part, d, s, s') && keep(s)
      ensures keep(s')
    {
      StepLater(g, part, d, states[i], s, s');
    }
    RunKeeps(g, part, d, states, events, i, j, keep);
  }

  /** Everything that had been sent in s0 has arrived in s. */
  ghost predicate Flushed(g: Matrix, s0: Sys, s: Sys) {
    forall h, r {:trigger s.got(h, r)} :: Edge(g, r, h) ==> |s0.log(h, r)| <= s.got(h, r)
  }

  /** r's periodic update has been due between i and k: its entry was advertised, or there was none. */
  ghost predicate Due(states: seq<Sys>, events: seq<Event>, r: int, i: int, k: int) {
    exists t :: i <= t < k && DueAt(states, events, r, t)
  }

  ghost predicate DueAt(states: seq<Sys>, events: seq<Event>, r: int, t: int) {
    0 <= t < |events| && t < |states| && 0 <= r < |states[t].e|
        && (events[t] == Refresh(r) || states[t].e[r].dist == -1)
  }

  /** All links of the part have come up. */
  ghost predicate AllJoined(g: Matrix, s: Sys) {
    forall h, r :: Edge(g, r, h) ==> (h, r) in s.joined
  }

  /** All links have come up by i, and between i and j every router's periodic update has been due, and then
      all links have been emptied of what was on them. */
  ghost predicate Cycle(g: Matrix, part: set<int>, states: seq<Sys>, events: seq<Event>, i: int, j: int) {
    exists k :: CycleBy(g, part, states, events, i, k, j)
  }

  ghost predicate CycleBy(g: Matrix, part: set<int>, states: seq<Sys>, events: seq<Event>, i: int, k: int, j: int) {
    && 0 <= i <= k <= j < |states| && AllJoined(g, states[i]) && Flushed(g, states[k], states[j])
    && (forall r :: r in part ==> Due(states, events, r, i, k))
  }

  lemma CycleFlushes(g: Matrix, part: set<int>, d: int, states: seq<Sys>, events: seq<Event>, i: nat, j: nat)
    requires StaticRun(g, part, d, states, events) && Cycle(g, part, states, events, i, j)
    ensures i <= j < |states| && Flushed(g, states[i], states[j])
  {
    var k :| CycleBy(g, part, states, events, i, k, j);
    RunLater(g, part, d, states, events, i, k);
    forall h, r | Edge(g, r, h)
      ensures |states[i].log(h, r)| <= states[j].got(h, r)
    {
      assert states[i].log(h, r) <= states[k].log(h, r);
    }
  }

  // ---------- The floor rises ----------

  /** Every route is no better than its next hop allows, or an advert that was on its way from its next hop
      in s0 has not arrived yet. */
  ghost predicate Rising(g: Matrix, part: set<int>, d: int, s0: Sys, s: Sys, f: int)
    requires |s.e| == |g|
  {
    forall r {:trigger s.e[r]} :: 0 <= r < |g| && r in part ==>
      EntryVia(g, d, r, s.e[r], f) || s.got(s.e[r].nextHop, r) < |s0.log(s.e[r].nextHop, r)|
  }

  lemma RisingStarts(g: Matrix, part: set<int>, d: int, s: Sys, f: nat)
    requires Inv(g, part, d, s) && Static(s) && Floor(g, part, d, s, f)
    ensures Rising(g, part, d, s, s, f)
  {
    forall r | 0 <= r < |g| && r in part
      ensures EntryVia(g, d, r, s.e[r], f) || s.got(s.e[r].nextHop, r) < |s.log(s.e[r].nextHop, r)|
    {
      assert EntryOk(g, d, s, r, s.e[r]);
      var h := s.e[r].nextHop;
      if r != d && h != -1 {
        assert Informed(g, d, s, h, r);
        assert AtLeast(s.e[h].dist, Low(g, d, h, f));
      }
    }
  }

  lemma StepRising(g: Matrix, part: set<int>, d: int, s0: Sys, s: Sys, s': Sys, f: nat)
    requires Stepped(g, part, d, s, s') && Floor(g, part, d, s, f) && Rising(g, part, d, s0, s, f)
    ensures Rising(g, part, d, s0, s', f)
  {
    forall r | 0 <= r < |g| && r in part
      ensures EntryVia(g, d, r, s'.e[r], f) || s'.got(s'.e[r].nextHop, r) < |s0.log(s'.e[r].nextHop, r)|
    {
      assert EntryVia(g, d, r, s.e[r], f) || s.got(s.e[r].nextHop, r) < |s0.log(s.e[r].nextHop, r)|;
      if !Idle(s, s') {
        var x, h, v :| Moved(g, d, s, s', x, h, v);
        if x == r {
          OfferFloor(g, part, d, s, s', r, h, v, f);
        }
      }
    }
  }

  lemma RunRising(g: Matrix, part: set<int>, d: int, states: seq<Sys>, events: seq<Event>, i: nat, j: nat, f: nat)
    requires StaticRun(g, part, d, states, events) && i <= j < |states|
    requires |states[i].e| == |g| && Floor(g, part, d, states[i], f)
    ensures |states[j].e| == |g| && Floor(g, part, d, states[j], f) && Rising(g, part, d, states[i], states[j], f)
  {
    var keep := (s: Sys) => |s.e| == |g| && Floor(g, part, d, s, f) && Rising(g, part, d, states[i], s, f);
    RunStatic(g, part, d, states, events, i);
    RisingStarts(g, part, d, states[i], f);
    forall s, s' | Stepped(g, part, d, s, s') && keep(s)
      ensures keep(s')
    {
      StepFloor(g, part, d, s, s', f);
      StepRising(g, part, d, states[i], s, s', f);
    }
    RunKeeps(g, part, d, states, events, i, j, keep);
  }

  /** One cycle makes every route as high as its next hop. */
  lemma OneCycle(g: Matrix, part: set<int>, d: int, states: seq<Sys>, events: seq<Event>, i: nat, j: nat, f: nat)
    requires StaticRun(g, part, d, states, events) && Cycle(g, part, states, events, i, j)
    requires i < |states| && |states[i].e| == |g| && Floor(g, part, d, states[i], f)
    ensures j < |states| && |states[j].e| == |g| && Floor(g, part, d, states[j], f)
              && EntriesVia(g, part, d, states[j], f)
  {
    CycleFlushes(g, part, d, states, events, i, j);
    RunRising(g, part, d, states, events, i, j, f);
    RunStatic(g, part, d, states, events, j);
    var s := states[j];
    forall r | 0 <= r < |g| && r in part
      ensures EntryVia(g, d, r, s.e[r], f)
    {
      assert EntryOk(g, d, s, r, s.e[r]);
    }
  }

  /** Routes above the floor stay so, and with them everything that is sent. */
  ghost predicate Risen(g: Matrix, part: set<int>, d: int, s1: Sys, s: Sys, f: int)
    requires |s.e| == |g|
  {
    EntriesVia(g, part, d, s, f) && SentFrom(g, d, s, (h, r) => |s1.log(h, r)|, f + 1)
  }

  lemma StepVia(g: Matrix, part: set<int>, d: int, s: Sys, s': Sys, f: nat)
    requires Stepped(g, part, d, s, s') && PendingFrom(g, d, s, f) && EntriesVia(g, part, d, s, f)
    ensures EntriesVia(g, part, d, s', f) && EntriesFrom(g, part, d, s', f + 1)
  {
    forall r | 0 <= r < |g| && r in part
      ensures EntryVia(g, d, r, s'.e[r], f) && AtLeast(s'.e[r].dist, Low(g, d, r, f + 1))
    {
      assert EntryVia(g, d, r, s.e[r], f);
      if !Idle(s, s') {
        var x, h, v :| Moved(g, d, s, s', x, h, v);
        if x == r {
          OfferFloor(g, part, d, s, s', r, h, v, f);
        }
      }
      ViaFrom(g, part, d, s', r, f);
    }
  }

  lemma RunRisen(g: Matrix, part: set<int>, d: int, states: seq<Sys>, events: seq<Event>, i: nat, j: nat, f: nat)
    requires StaticRun(g, part, d, states, events) && i <= j < |states|
    requires |states[i].e| == |g| && Floor(g, part, d, states[i], f) && EntriesVia(g, part, d, states[i], f)
    ensures |states[j].e| == |g| && Floor(g, part, d, states[j], f) && Risen(g, part, d, states[i], states[j], f)
  {
    var from := (h, r) => |states[i].log(h, r)|;
    var keep := (s: Sys) => && |s.e| == |g| && Floor(g, part, d, s, f) && EntriesVia(g, part, d, s, f)
                     && SentFrom(g, d, s, from, f + 1);
    forall s, s' | Stepped(g, part, d, s, s') && keep(s)
      ensures keep(s')
    {
      StepFloor(g, part, d, s, s', f);
      StepVia(g, part, d, s, s', f);
      StepSent(g, part, d, s, s', from, f + 1);
    }
    RunKeeps(g, part, d, states, events, i, j, keep);
    SameSent(g, d, states[j], from, (h, r) => |states[i].log(h, r)|, f + 1);
  }

  lemma SameSent(g: Matrix, d: int, s: Sys, from: (int, int) -> int, from': (int, int) -> int, f: int)
    requires SentFrom(g, d, s, from, f) && forall h, r :: from(h, r) == from'(h, r)
    ensures SentFrom(g, d, s, from', f)
  {
  }

  /** Two cycles raise the floor by one. */
  lemma FloorRises(g: Matrix, part: set<int>, d: int, states: seq<Sys>, events: seq<Event>,
                   i: nat, j: nat, k: nat, f: nat)
    requires StaticRun(g, part, d, states, events) && i < |states| && |states[i].e| == |g|
    requires Cycle(g, part, states, events, i, j) && Cycle(g, part, states, events, j, k)
    requires Floor(g, part, d, states[i], f)
    ensures k < |states| && |states[k].e| == |g| && Floor(g, part, d, states[k], f + 1)
  {
    OneCycle(g, part, d, states, events, i, j, f);
    CycleFlushes(g, part, d, states, events, j, k);
    RunRisen(g, part, d, states, events, j, k, f);
    RunStatic(g, part, d, states, events, k);
    var s := states[k];
    forall r | 0 <= r < |g| && r in part
      ensures AtLeast(s.e[r].dist, Low(g, d, r, f + 1))
    {
      ViaFrom(g, part, d, s, r, f);
    }
    forall h, r, i | s.got(h, r) <= i < |s.log(h, r)|
      ensures AtLeast(s.log(h, r)[i], Low(g, d, h, f + 1))
    {
      assert Edge(g, r, h);
    }
  }

  /** Points of a run with a cycle between any two neighbouring ones. */
  ghost predicate Checkpoints(g: Matrix, part: set<int>, states: seq<Sys>, events: seq<Event>, at: seq<nat>) {
    && (forall i :: 0 <= i < |at| ==> at[i] < |states|)
    && (forall i :: 0 <= i < |at| - 1 ==> CycleAt(g, part, states, events, at, i))
  }

  ghost predicate CycleAt(g: Matrix, part: set<int>, states: seq<Sys>, events: seq<Event>, at: seq<nat>, i: int) {
    0 <= i < |at| - 1 && Cycle(g, part, states, events, at[i], at[i + 1])
  }

  /** After 2f cycles the floor is at least f. */
  lemma {:induction false} FloorAfter(g: Matrix, part: set<int>, d: int, states: seq<Sys>, events: seq<Event>,
                                      at: seq<nat>, f: nat)
    requires StaticRun(g, part, d, states, events) && Checkpoints(g, part, states, events, at) && 2 * f < |at|
    ensures |states[at[2 * f]].e| == |g| && Floor(g, part, d, states[at[2 * f]], f)
    decreases f
  {
    if f == 0 {
      RunStatic(g, part, d, states, events, at[0]);
      ZeroFloor(g, part, d, states[at[0]]);
    } else {
      FloorAfter(g, part, d, states, events, at, f - 1);
      FloorTwoFurther(g, part, d, states, events, at, 2 * (f - 1), f - 1);
    }
  }

  lemma FloorTwoFurther(g: Matrix, part: set<int>, d: int, states: seq<Sys>, events: seq<Event>, at: seq<nat>, i: nat,
                        f: nat)
    requires StaticRun(g, part, d, states, events) && Checkpoints(g, part, states, events, at) && i + 2 < |at|
    requires |states[at[i]].e| == |g| && Floor(g, part, d, states[at[i]], f)
    ensures |states[at[i + 2]].e| == |g| && Floor(g, part, d, states[at[i + 2]], f + 1)
  {
    assert CycleAt(g, part, states, events, at, i) && CycleAt(g, part, states, events, at, i + 1);
    FloorRises(g, part, d, states, events, at[i], at[i + 1], at[i + 2], f);
  }

  lemma ZeroFloor(g: Matrix, part: set<int>, d: int, s: Sys)
    requires Inv(g, part, d, s)
    ensures Floor(g, part, d, s, 0)
  {
    forall r | 0 <= r < |g| && r in part
      ensures AtLeast(s.e[r].dist, Low(g, d, r, 0))
    {
      assert EntryOk(g, d, s, r, s.e[r]);
    }
  }

  /** Counting to infinity ends: after 2 * (LIMIT + 1) cycles no router of the part has a route to a node
      that cannot be reached from it, however the steps were interleaved. */
  lemma PhantomRoutesDie(g: Matrix, part: set<int>, d: int, states: seq<Sys>, events: seq<Event>, at: seq<nat>, r: int)
    requires StaticRun(g, part, d, states, events) && Checkpoints(g, part, states, events, at)
    requires |at| == 2 * (LIMIT + 1) + 1 && r in part && !Reach(g, r, d)
    ensures var s := states[at[2 * (LIMIT + 1)]]; 0 <= r < |s.e| && s.e[r] == UNREACHABLE
  {
    var f: nat := LIMIT + 1;
    FloorAfter(g, part, d, states, events, at, f);
    RunStatic(g, part, d, states, events, at[2 * f]);
    var s := states[at[2 * f]];
    DistSelf(g, d);
    assert EntryOk(g, d, s, r, s.e[r]) && AtLeast(s.e[r].dist, Low(g, d, r, f));
  }

  // ---------- From the destination outwards the entries become right ----------

  /** d can be reached from r over a distance of at most m. */
  ghost predicate Near(g: Matrix, d: int, r: int, m: int) {
    Reach(g, r, d) && Dist(g, r, d) <= m
  }

  /** No entry and no advert is too low any more. */
  ghost predicate Exact(g: Matrix, part: set<int>, d: int, s: Sys)
    requires |s.e| == |g|
  {
    Floor(g, part, d, s, LIMIT + 1) && EntriesVia(g, part, d, s, LIMIT + 1)
  }

  /** An advert of h to b is the true distance, or poisoned because b is nearer. */
  ghost predicate GoodAdvert(g: Matrix, d: int, h: int, b: int, v: int) {
    Reach(g, h, d) && (v == Dist(g, h, d) || (v == -1 && Reach(g, b, d) && Dist(g, b, d) < Dist(g, h, d)))
  }

  /** The adverts of the routers within m from message number `from` on are good. */
  ghost predicate SentGood(g: Matrix, d: int, s: Sys, from: (int, int) -> int, m: int) {
    forall h, b, i {:trigger s.log(h, b)[i]} ::
      0 <= i && from(h, b) <= i < |s.log(h, b)| && Near(g, d, h, m) ==> GoodAdvert(g, d, h, b, s.log(h, b)[i])
  }

  ghost predicate PendingGood(g: Matrix, d: int, s: Sys, m: int) {
    SentGood(g, d, s, (h, b) => s.got(h, b), m)
  }

  ghost predicate EntriesRight(g: Matrix, part: set<int>, d: int, s: Sys, m: int)
    requires |s.e| == |g|
  {
    forall r {:trigger s.e[r]} :: 0 <= r < |g| && r in part && Near(g, d, r, m) ==> s.e[r].dist == Dist(g, r, d)
  }

  /** The routers within m have the right distances, and those within n have announced nothing else. */
  ghost predicate Good(g: Matrix, part: set<int>, d: int, s: Sys, m: int, n: int)
    requires |s.e| == |g|
  {
    0 <= n <= m <= n + 1 && m <= LIMIT && Exact(g, part, d, s) && EntriesRight(g, part, d, s, m)
        && PendingGood(g, d, s, n)
  }

  /** A right entry has a right next hop. */
  lemma HopStarts(g: Matrix, part: set<int>, d: int, s: Sys, r: int)
    requires Inv(g, part, d, s) && Static(s) && Exact(g, part, d, s) && r in part && r != d && Near(g, d, r, LIMIT)
    requires s.e[r].dist == Dist(g, r, d)
    ensures StartsShortest(g, r, s.e[r].nextHop, d)
  {
    var h := s.e[r].nextHop;
    assert EntryOk(g, d, s, r, s.e[r]) && EntryVia(g, d, r, s.e[r], LIMIT + 1);
    FirstHopBound(g, r, h, d);
  }

  /** What an offer does to a right entry: it stays right, and its next hop can only get lower. An offer of
      the true distance of a router on a shortest path makes an entry right, with no higher next hop. */
  lemma OfferRight(g: Matrix, part: set<int>, d: int, s: Sys, s': Sys, r: int, h: int, v: int, n: int)
    requires Inv(g, part, d, s) && Static(s) && |s'.e| == |g| && Moved(g, d, s, s', r, h, v)
    requires Exact(g, part, d, s) && r in part && r != d && Near(g, d, r, LIMIT)
    requires s.e[r].dist == Dist(g, r, d) && Near(g, d, r, n + 1) && PendingGood(g, d, s, n)
    ensures s'.e[r].dist == Dist(g, r, d) && s'.e[r].nextHop <= s.e[r].nextHop
    ensures StartsShortest(g, r, h, d) && v == Dist(g, h, d) ==> s'.e[r].nextHop <= h
  {
    var e, c := s.e[r], g[r][h];
    HopStarts(g, part, d, s, r);
    LowSelf(g, d, LIMIT + 1);
    DistSelf(g, d);
    assert AtLeast(v, Low(g, d, h, LIMIT + 1));
    LowStep(g, d, r, h, LIMIT + 1);
    if e.nextHop == h {
      assert Near(g, d, h, n);
      assert GoodAdvert(g, d, h, r, v);
    }
  }

  /** An offer of the true distance of a router on a shortest path makes an entry right. */
  lemma OfferSettles(g: Matrix, part: set<int>, d: int, s: Sys, s': Sys, r: int, h: int, v: int)
    requires Inv(g, part, d, s) && Static(s) && |s'.e| == |g| && Moved(g, d, s, s', r, h, v)
    requires Exact(g, part, d, s) && r in part && r != d && Near(g, d, r, LIMIT)
    requires StartsShortest(g, r, h, d) && v == Dist(g, h, d)
    ensures s'.e[r].dist == Dist(g, r, d)
  {
    assert EntryOk(g, d, s, r, s.e[r]);
    assert AtLeast(s.e[r].dist, Low(g, d, r, LIMIT + 1));
  }

  lemma StepExact(g: Matrix, part: set<int>, d: int, s: Sys, s': Sys)
    requires Stepped(g, part, d, s, s') && Exact(g, part, d, s)
    ensures Exact(g, part, d, s')
  {
    StepFloor(g, part, d, s, s', LIMIT + 1);
    StepVia(g, part, d, s, s', LIMIT + 1);
  }

  /** A right entry of a router within n + 1 stays right, and its next hop never gets higher. */
  lemma StepRight(g: Matrix, part: set<int>, d: int, s: Sys, s': Sys, r: int, n: int)
    requires Stepped(g, part, d, s, s') && Exact(g, part, d, s) && PendingGood(g, d, s, n)
    requires r in part && Near(g, d, r, n + 1) && Near(g, d, r, LIMIT) && s.e[r].dist == Dist(g, r, d)
    ensures s'.e[r].dist == Dist(g, r, d) && s'.e[r].nextHop <= s.e[r].nextHop
  {
    assert EntryOk(g, d, s, r, s.e[r]) && EntryOk(g, d, s', r, s'.e[r]);
    if !Idle(s, s') && r != d {
      var x, h, v :| Moved(g, d, s, s', x, h, v);
      if x == r {
        OfferRight(g, part, d, s, s', r, h, v, n);
      }
    }
  }

  /** Right entries announce nothing but good adverts. */
  lemma StepSentGood(g: Matrix, part: set<int>, d: int, s: Sys, s': Sys, from: (int, int) -> int, m: int)
    requires Stepped(g, part, d, s, s') && Exact(g, part, d, s') && EntriesRight(g, part, d, s', m) && m <= LIMIT
    requires SentGood(g, d, s, from, m)
    ensures SentGood(g, d, s', from, m)
  {
    forall a, b, i | 0 <= i && from(a, b) <= i < |s'.log(a, b)| && Near(g, d, a, m)
      ensures GoodAdvert(g, d, a, b, s'.log(a, b)[i])
    {
      if i < |s.log(a, b)| {
        assert s'.log(a, b)[i] == s.log(a, b)[i];
      } else {
        assert Edge(g, b, a) && s'.log(a, b)[i] == Advert(s'.e[a], b);
        assert EntryOk(g, d, s', a, s'.e[a]);
        if a != d && s'.e[a].nextHop == b {
          HopStarts(g, part, d, s', a);
        }
      }
    }
  }

  lemma StepGood(g: Matrix, part: set<int>, d: int, s: Sys, s': Sys, m: int, n: int)
    requires Stepped(g, part, d, s, s') && Good(g, part, d, s, m, n)
    ensures Good(g, part, d, s', m, n)
  {
    StepExact(g, part, d, s, s');
    forall r | 0 <= r < |g| && r in part && Near(g, d, r, m)
      ensures s'.e[r].dist == Dist(g, r, d)
    {
      assert s.e[r].dist == Dist(g, r, d);
      StepRight(g, part, d, s, s', r, n);
    }
    StepSentGood(g, part, d, s, s', (h, b) => s.got(h, b), n);
    assert forall h, b {:trigger s'.got(h, b)} :: s.got(h, b) <= s'.got(h, b);
    forall h, b, i | s'.got(h, b) <= i < |s'.log(h, b)| && Near(g, d, h, n)
      ensures GoodAdvert(g, d, h, b, s'.log(h, b)[i])
    {
    }
  }

  lemma RunGood(g: Matrix, part: set<int>, d: int, states: seq<Sys>, events: seq<Event>, i: nat, j: nat, m: int, n: int)
    requires StaticRun(g, part, d, states, events) && i <= j < |states|
    requires |states[i].e| == |g| && Good(g, part, d, states[i], m, n)
    ensures |states[j].e| == |g| && Good(g, part, d, states[j], m, n)
  {
    var keep := (s: Sys) => |s.e| == |g| && Good(g, part, d, s, m, n);
    forall s, s' | Stepped(g, part, d, s, s') && keep(s)
      ensures keep(s')
    {
      StepGood(g, part, d, s, s', m, n);
    }
    RunKeeps(g, part, d, states, events, i, j, keep);
  }

  /** The destination itself is right from the start. */
  lemma GoodStarts(g: Matrix, part: set<int>, d: int, s: Sys)
    requires Inv(g, part, d, s) && Static(s) && Exact(g, part, d, s)
    ensures Good(g, part, d, s, 0, 0)
  {
    forall r | Near(g, d, r, 0)
      ensures r == d
    {
      var p :| IsPath(g, r, p, d) && PathCost(g, r, p, d) == Dist(g, r, d);
    }
    DistSelf(g, d);
    forall r | 0 <= r < |g| && r in part && Near(g, d, r, 0)
      ensures s.e[r].dist == Dist(g, r, d)
    {
      assert EntryOk(g, d, s, r, s.e[r]);
    }
  }

  // ---------- One more step outwards ----------

  /** Message number i from h, which offers r its true distance, has not arrived yet, or r is right. */
  ghost predicate OnItsWay(g: Matrix, d: int, s: Sys, h: int, r: int, i: nat, bound: bool)
    requires Reach(g, h, d) && Reach(g, r, d)
  {
    && 0 <= r < |s.e|
    && ((s.e[r].dist == Dist(g, r, d) && (bound ==> s.e[r].nextHop <= h))
        || (s.got(h, r) <= i < |s.log(h, r)| && s.log(h, r)[i] == Dist(g, h, d)))
  }

  /** The message stays on its way until it makes r right. */
  lemma StepOnItsWay(g: Matrix, part: set<int>, d: int, s: Sys, s': Sys, h: int, r: int, i: nat, n: int, bound: bool)
    requires Stepped(g, part, d, s, s') && Exact(g, part, d, s) && PendingGood(g, d, s, n)
    requires r in part && r != d && Near(g, d, r, n + 1) && Near(g, d, r, LIMIT) && StartsShortest(g, r, h, d)
    requires bound ==> s.e[r].dist == Dist(g, r, d)
    requires OnItsWay(g, d, s, h, r, i, bound)
    ensures OnItsWay(g, d, s', h, r, i, bound)
  {
    if s.e[r].dist == Dist(g, r, d) && (bound ==> s.e[r].nextHop <= h) {
      StepRight(g, part, d, s, s', r, n);
    } else {
      assert s.log(h, r) <= s'.log(h, r);
      assert s.got(h, r) <= s'.got(h, r);
      if s'.got(h, r) > i {
        var x, y, v :| Moved(g, d, s, s', x, y, v);
        assert (x, y) == (r, h) && v == Dist(g, h, d);
        OfferSettles(g, part, d, s, s', r, h, v);
        if bound {
          OfferRight(g, part, d, s, s', r, h, v, n);
        }
      }
    }
  }

  lemma RunOnItsWay(g: Matrix, part: set<int>, d: int, states: seq<Sys>, events: seq<Event>, t: nat, j: nat,
                    h: int, r: int, i: nat, m: int, n: int, bound: bool)
    requires StaticRun(g, part, d, states, events) && t <= j < |states|
    requires |states[t].e| == |g| && Good(g, part, d, states[t], m, n)
    requires r in part && r != d && Near(g, d, r, n + 1) && Near(g, d, r, LIMIT) && StartsShortest(g, r, h, d)
    requires bound ==> Near(g, d, r, m)
    requires OnItsWay(g, d, states[t], h, r, i, bound)
    ensures OnItsWay(g, d, states[j], h, r, i, bound)
  {
    var keep := (s: Sys) => |s.e| == |g| && Good(g, part, d, s, m, n) && OnItsWay(g, d, s, h, r, i, bound);
    forall s, s' | Stepped(g, part, d, s, s') && keep(s)
      ensures keep(s')
    {
      StepGood(g, part, d, s, s', m, n);
      StepOnItsWay(g, part, d, s, s', h, r, i, n, bound);
    }
    RunKeeps(g, part, d, states, events, t, j, keep);
  }

  /** When its update is due, a right router tells r its distance. */
  lemma AdvertSent(g: Matrix, part: set<int>, d: int, states: seq<Sys>, events: seq<Event>, t: nat, h: int, r: int,
                   m: int, n: int)
    requires StaticRun(g, part, d, states, events) && t < |events| && DueAt(states, events, h, t)
    requires |states[t].e| == |g| && Good(g, part, d, states[t], m, n) && h in part && r in part
    requires StartsShortest(g, r, h, d) && Near(g, d, h, n) && (h, r) in states[t].joined
    ensures states[t + 1].got(h, r) <= |states[t].log(h, r)| < |states[t + 1].log(h, r)|
    ensures states[t + 1].log(h, r)[|states[t].log(h, r)|] == Dist(g, h, d)
  {
    RunStatic(g, part, d, states, events, t);
    assert StepAt(g, part, d, states, events, t);
    var s, s' := states[t], states[t + 1];
    assert EntryOk(g, d, s, h, s.e[h]);
    assert s.e[h].dist == Dist(g, h, d);
    if h != d {
      HopStarts(g, part, d, s, h);
    }
    assert s'.log(h, r) == s.log(h, r) + [Advert(s.e[h], r)];
    assert s'.got(h, r) == s.got(h, r) <= |s.log(h, r)|;
  }

  /** A message that was on its way before the links were emptied has made r right. */
  lemma Arrived(g: Matrix, part: set<int>, d: int, states: seq<Sys>, events: seq<Event>, t: nat, k: nat, j: nat,
                h: int, r: int, m: int, n: int, bound: bool)
    requires StaticRun(g, part, d, states, events) && t < k <= j < |states| && Flushed(g, states[k], states[j])
    requires |states[t].e| == |g| && Good(g, part, d, states[t], m, n) && DueAt(states, events, h, t)
    requires r in part && r != d && Near(g, d, r, n + 1) && Near(g, d, r, LIMIT) && StartsShortest(g, r, h, d)
    requires (bound ==> Near(g, d, r, m)) && (h, r) in states[t].joined
    ensures 0 <= r < |states[j].e|
    ensures states[j].e[r].dist == Dist(g, r, d) && (bound ==> states[j].e[r].nextHop <= h)
  {
    var i := |states[t].log(h, r)|;
    AdvertSent(g, part, d, states, events, t, h, r, m, n);
    RunGood(g, part, d, states, events, t, t + 1, m, n);
    RunLater(g, part, d, states, events, t + 1, k);
    assert states[t + 1].log(h, r) <= states[k].log(h, r);
    assert i < states[j].got(h, r);
    RunOnItsWay(g, part, d, states, events, t + 1, j, h, r, i, m, n, bound);
  }

  /** In one cycle a router learns from a neighbour on a shortest path that is right already. */
  lemma CycleTeaches(g: Matrix, part: set<int>, d: int, states: seq<Sys>, events: seq<Event>,
                     i: nat, j: nat, h: int, r: int, m: int, n: int, bound: bool)
    requires StaticRun(g, part, d, states, events) && Cycle(g, part, states, events, i, j)
    requires i < |states| && |states[i].e| == |g| && Good(g, part, d, states[i], m, n)
    requires r in part && r != d && Near(g, d, r, n + 1) && Near(g, d, r, LIMIT) && StartsShortest(g, r, h, d)
    requires bound ==> Near(g, d, r, m)
    ensures i <= j < |states| && 0 <= r < |states[j].e|
    ensures states[j].e[r].dist == Dist(g, r, d) && (bound ==> states[j].e[r].nextHop <= h)
  {
    var k :| CycleBy(g, part, states, events, i, k, j);
    assert h in part by {
      RunStatic(g, part, d, states, events, i);
    }
    assert Due(states, events, h, i, k);
    var t :| i <= t < k && DueAt(states, events, h, t);
    RunGood(g, part, d, states, events, i, t, m, n);
    RunLater(g, part, d, states, events, i, t);
    Arrived(g, part, d, states, events, t, k, j, h, r, m, n, bound);
  }

  lemma NextHopExists(g: Matrix, d: int, r: int) returns (h: int)
    requires Reach(g, r, d) && r != d
    ensures StartsShortest(g, r, h, d)
  {
    var p :| IsPath(g, r, p, d) && PathCost(g, r, p, d) == Dist(g, r, d);
    h := p[0];
    assert IsPath(g, h, p[1..], d);
    FirstHopBound(g, r, h, d);
  }

  /** Two cycles reach one further. */
  lemma OneFurther(g: Matrix, part: set<int>, d: int, states: seq<Sys>, events: seq<Event>, i: nat, j: nat, k: nat,
                   m: nat)
    requires StaticRun(g, part, d, states, events) && i < |states| && |states[i].e| == |g| && m < LIMIT
    requires Cycle(g, part, states, events, i, j) && Cycle(g, part, states, events, j, k)
    requires Good(g, part, d, states[i], m, m)
    ensures k < |states| && |states[k].e| == |g| && Good(g, part, d, states[k], m + 1, m + 1)
  {
    CycleFlushes(g, part, d, states, events, i, j);
    RunGood(g, part, d, states, events, i, j, m, m);
    forall r | 0 <= r < |g| && r in part && Near(g, d, r, m + 1)
      ensures states[j].e[r].dist == Dist(g, r, d)
    {
      if !Near(g, d, r, m) {
        DistSelf(g, d);
        var h := NextHopExists(g, d, r);
        CycleTeaches(g, part, d, states, events, i, j, h, r, m, m, false);
      }
    }
    CycleFlushes(g, part, d, states, events, j, k);
    RunGoodSent(g, part, d, states, events, j, k, m);
    var s := states[k];
    RunStatic(g, part, d, states, events, k);
    forall h, b, i | s.got(h, b) <= i < |s.log(h, b)| && Near(g, d, h, m + 1)
      ensures GoodAdvert(g, d, h, b, s.log(h, b)[i])
    {
      assert Edge(g, b, h);
    }
  }

  lemma RunGoodSent(g: Matrix, part: set<int>, d: int, states: seq<Sys>, events: seq<Event>, i: nat, j: nat, m: nat)
    requires StaticRun(g, part, d, states, events) && i <= j < |states|
    requires |states[i].e| == |g| && Good(g, part, d, states[i], m + 1, m)
    ensures |states[j].e| == |g| && Good(g, part, d, states[j], m + 1, m)
    ensures forall h, b, k :: |states[i].log(h, b)| <= k < |states[j].log(h, b)| && Near(g, d, h, m + 1) ==>
              GoodAdvert(g, d, h, b, states[j].log(h, b)[k])
  {
    var from := (h, b) => |states[i].log(h, b)|;
    var keep := (s: Sys) => |s.e| == |g| && Good(g, part, d, s, m + 1, m) && SentGood(g, d, s, from, m + 1);
    forall s, s' | Stepped(g, part, d, s, s') && keep(s)
      ensures keep(s')
    {
      StepGood(g, part, d, s, s', m + 1, m);
      StepSentGood(g, part, d, s, s', from, m + 1);
    }
    RunKeeps(g, part, d, states, events, i, j, keep);
  }

  // ---------- Convergence ----------

  /** All distances are right, and no next hop can get any lower. */
  ghost predicate Settled(g: Matrix, part: set<int>, d: int, s: Sys)
    requires |s.e| == |g|
  {
    && Good(g, part, d, s, LIMIT, LIMIT)
    && (forall r, h {:trigger StartsShortest(g, r, h, d)} ::
          r in part && 0 <= r < |g| && r != d && Near(g, d, r, LIMIT) && StartsShortest(g, r, h, d) ==>
            s.e[r].nextHop <= h)
  }

  lemma StepSettled(g: Matrix, part: set<int>, d: int, s: Sys, s': Sys)
    requires Stepped(g, part, d, s, s') && Settled(g, part, d, s)
    ensures Settled(g, part, d, s')
  {
    StepGood(g, part, d, s, s', LIMIT, LIMIT);
    forall r, h | r in part && 0 <= r < |g| && r != d && Near(g, d, r, LIMIT) && StartsShortest(g, r, h, d)
      ensures s'.e[r].nextHop <= h
    {
      assert s.e[r].dist == Dist(g, r, d);
      StepRight(g, part, d, s, s', r, LIMIT);
    }
  }

  lemma SettledIsIdeal(g: Matrix, part: set<int>, d: int, s: Sys, r: int)
    requires Inv(g, part, d, s) && Static(s) && Settled(g, part, d, s) && r in part
    ensures Ideal(g, r, d, s.e[r])
  {
    assert EntryOk(g, d, s, r, s.e[r]);
    if r != d {
      if InLimit(g, r, d) {
        assert s.e[r].dist == Dist(g, r, d);
        HopStarts(g, part, d, s, r);
      } else {
        assert AtLeast(s.e[r].dist, Low(g, d, r, LIMIT + 1));
      }
    }
  }

  /** The last cycle settles the next hops. */
  lemma LastCycle(g: Matrix, part: set<int>, d: int, states: seq<Sys>, events: seq<Event>, i: nat, j: nat)
    requires StaticRun(g, part, d, states, events) && Cycle(g, part, states, events, i, j)
    requires i < |states| && |states[i].e| == |g| && Good(g, part, d, states[i], LIMIT, LIMIT)
    ensures i <= j < |states| && |states[j].e| == |g| && Settled(g, part, d, states[j])
  {
    CycleFlushes(g, part, d, states, events, i, j);
    RunGood(g, part, d, states, events, i, j, LIMIT, LIMIT);
    forall r, h | r in part && 0 <= r < |g| && r != d && Near(g, d, r, LIMIT) && StartsShortest(g, r, h, d)
      ensures states[j].e[r].nextHop <= h
    {
      CycleTeaches(g, part, d, states, events, i, j, h, r, LIMIT, LIMIT, true);
    }
  }

  lemma TwoCycles(g: Matrix, part: set<int>, d: int, states: seq<Sys>, events: seq<Event>, at: seq<nat>, i: nat, m: nat)
    requires StaticRun(g, part, d, states, events) && Checkpoints(g, part, states, events, at)
    requires i + 2 < |at| && m < LIMIT && |states[at[i]].e| == |g| && Good(g, part, d, states[at[i]], m, m)
    ensures |states[at[i + 2]].e| == |g| && Good(g, part, d, states[at[i + 2]], m + 1, m + 1)
  {
    assert CycleAt(g, part, states, events, at, i) && CycleAt(g, part, states, events, at, i + 1);
    OneFurther(g, part, d, states, events, at[i], at[i + 1], at[i + 2], m);
  }

  /** After 2m further cycles everything within m is right. */
  lemma {:induction false} GoodAfter(g: Matrix, part: set<int>, d: int, states: seq<Sys>, events: seq<Event>,
                                     at: seq<nat>, start: nat, m: nat)
    requires StaticRun(g, part, d, states, events) && Checkpoints(g, part, states, events, at)
    requires start + 2 * m < |at| && m <= LIMIT
    requires |states[at[start]].e| == |g| && Exact(g, part, d, states[at[start]])
    ensures |states[at[start + 2 * m]].e| == |g| && Good(g, part, d, states[at[start + 2 * m]], m, m)
    decreases m
  {
    if m == 0 {
      RunStatic(g, part, d, states, events, at[start]);
      GoodStarts(g, part, d, states[at[start]]);
    } else {
      GoodAfter(g, part, d, states, events, at, start, m - 1);
      TwoCycles(g, part, d, states, events, at, start + 2 * (m - 1), m - 1);
    }
  }

  lemma ExactAfter(g: Matrix, part: set<int>, d: int, states: seq<Sys>, events: seq<Event>, at: seq<nat>, f: nat)
    requires StaticRun(g, part, d, states, events) && Checkpoints(g, part, states, events, at)
    requires f == LIMIT + 1 && 2 * f + 1 < |at|
    ensures |states[at[2 * f + 1]].e| == |g| && Exact(g, part, d, states[at[2 * f + 1]])
  {
    FloorAfter(g, part, d, states, events, at, f);
    assert CycleAt(g, part, states, events, at, 2 * f);
    OneCycle(g, part, d, states, events, at[2 * f], at[2 * f + 1], f);
  }

  /** From a state with the invariant on, after 4 * LIMIT + 4 cycles all entries of the part are the ideal
      ones, and they stay so: the shortest distance up to the limit by the lowest neighbour on a shortest
      path, and nothing beyond the limit or for a node that cannot be reached. */
  lemma Converges(g: Matrix, part: set<int>, d: int, states: seq<Sys>, events: seq<Event>, at: seq<nat>, t: nat, r: int)
    requires StaticRun(g, part, d, states, events) && Checkpoints(g, part, states, events, at)
    requires |at| == 4 * LIMIT + 5 && at[4 * LIMIT + 4] <= t < |states| && r in part
    ensures 0 <= r < |states[t].e| && Ideal(g, r, d, states[t].e[r])
  {
    var f: nat, m: nat := LIMIT + 1, LIMIT;
    ExactAfter(g, part, d, states, events, at, f);
    var start := 2 * f + 1;
    GoodAfter(g, part, d, states, events, at, start, m);
    var i := start + 2 * m;
    assert CycleAt(g, part, states, events, at, i);
    LastCycle(g, part, d, states, events, at[i], at[i + 1]);
    StaysSettled(g, part, d, states, events, at[i + 1], t);
    RunStatic(g, part, d, states, events, t);
    SettledIsIdeal(g, part, d, states[t], r);
  }

  lemma StaysSettled(g: Matrix, part: set<int>, d: int, states: seq<Sys>, events: seq<Event>, i: nat, j: nat)
    requires StaticRun(g, part, d, states, events) && i <= j < |states|
    requires |states[i].e| == |g| && Settled(g, part, d, states[i])
    ensures |states[j].e| == |g| && Settled(g, part, d, states[j])
  {
    var keep := (s: Sys) => |s.e| == |g| && Settled(g, part, d, s);
    forall s, s' | Stepped(g, part, d, s, s') && keep(s)
      ensures keep(s')
    {
      StepSettled(g, part, d, s, s');
    }
    RunKeeps(g, part, d, states, events, i, j, keep);
  }

  // ---------- From whatever tables ----------

  /** A run from any tables at all, with anything on the links, once all links to the outside have expired. */
  ghost predicate AnyRun(g: Matrix, part: set<int>, d: int, states: seq<Sys>, events: seq<Event>) {
    Run(g, part, d, states, events) && Part(g, part) && Ok(g, part, d, states[0]) && Static(states[0])
  }

  lemma {:induction false} AnyStatic(g: Matrix, part: set<int>, d: int, states: seq<Sys>, events: seq<Event>, k: nat)
    requires AnyRun(g, part, d, states, events) && k < |states|
    ensures Ok(g, part, d, states[k]) && Static(states[k])
  {
    RunOk(g, part, d, states, events, k);
    if k > 0 {
      AnyStatic(g, part, d, states, events, k - 1);
      assert StepAt(g, part, d, states, events, k - 1);
      StaticMoves(g, part, d, states[k - 1], states[k], events[k - 1]);
    }
  }

  /** r uses a route through h, which has none; and there is nothing on its way to r that would say so. */
  ghost predicate Stale(g: Matrix, d: int, s: Sys, h: int, r: int)
    requires Edge(g, r, h) && |s.e| == |g|
  {
    r != d && s.e[r].nextHop == h && s.e[h].dist == -1 && s.got(h, r) == |s.log(h, r)|
  }

  ghost predicate NoStale(g: Matrix, d: int, s: Sys)
    requires |s.e| == |g|
  {
    forall h, r {:trigger Stale(g, d, s, h, r)} :: Edge(g, r, h) ==> !Stale(g, d, s, h, r)
  }

  /** r is informed by h, or h has had no route and has told r nothing since s0. */
  ghost predicate InformedSince(g: Matrix, d: int, s0: Sys, s: Sys, h: int, r: int) {
    && |s.e| == |g| && Edge(g, r, h) && (h, r) in s.joined
    && (Informed(g, d, s, h, r) || (s.e[h] == UNREACHABLE && s.log(h, r) == s0.log(h, r)))
  }

  lemma SinceStep(g: Matrix, part: set<int>, d: int, s0: Sys, s: Sys, s': Sys, ev: Event, h: int, r: int)
    requires Part(g, part) && Ok(g, part, d, s) && Static(s) && Next(g, part, d, s, s', ev)
    requires InformedSince(g, d, s0, s, h, r)
    ensures InformedSince(g, d, s0, s', h, r)
  {
    StaticMoves(g, part, d, s, s', ev);
    NextOk(g, part, d, s, s', ev);
    if Informed(g, d, s, h, r) {
      StaticHarmless(g, part, d, s, s', ev);
      NextInformed(g, part, d, s, s', ev, h, r);
    } else {
      SpeaksOrStays(g, part, d, s, s', ev, h, r);
      if s'.log(h, r) != s.log(h, r) {
        assert s'.log(h, r)[|s'.log(h, r)| - 1] == Advert(s'.e[h], r);
        assert s'.got(h, r) <= |s.log(h, r)|;
      }
    }
  }

  /** A router that tells r nothing has not changed its entry. */
  lemma SpeaksOrStays(g: Matrix, part: set<int>, d: int, s: Sys, s': Sys, ev: Event, h: int, r: int)
    requires Part(g, part) && Ok(g, part, d, s) && Static(s) && Next(g, part, d, s, s', ev)
    requires Edge(g, r, h) && (h, r) in s.joined && |s'.e| == |g|
    ensures s'.log(h, r) == s.log(h, r) ==> s'.e[h] == s.e[h]
    ensures s'.log(h, r) != s.log(h, r) ==> |s.log(h, r)| < |s'.log(h, r)| && s'.got(h, r) == s.got(h, r)
  {
    assert !ev.FromOutside?;
  }

  /** When h's update is due, r is told its advert, or h has no route. */
  lemma DueSince(g: Matrix, part: set<int>, d: int, states: seq<Sys>, events: seq<Event>, t: nat, h: int, r: int)
    requires AnyRun(g, part, d, states, events) && DueAt(states, events, h, t) && t + 1 < |states|
    requires Edge(g, r, h) && (h, r) in states[t].joined
    ensures InformedSince(g, d, states[t], states[t + 1], h, r)
  {
    AnyStatic(g, part, d, states, events, t);
    assert StepAt(g, part, d, states, events, t);
    var s, s', ev := states[t], states[t + 1], events[t];
    assert EntryOk(g, d, s, h, s.e[h]);
    if ev == Refresh(h) {
      assert s'.log(h, r) == s.log(h, r) + [Advert(s'.e[h], r)];
      assert s'.got(h, r) == s.got(h, r) <= |s.log(h, r)|;
    } else {
      assert InformedSince(g, d, s, s, h, r);
      SinceStep(g, part, d, s, s, s', ev, h, r);
    }
  }

  lemma {:induction false} RunSince(g: Matrix, part: set<int>, d: int, states: seq<Sys>, events: seq<Event>, t: nat,
                                    j: nat, s0: Sys, h: int, r: int)
    requires AnyRun(g, part, d, states, events) && t <= j < |states|
    requires InformedSince(g, d, s0, states[t], h, r)
    ensures InformedSince(g, d, s0, states[j], h, r)
    decreases j
  {
    if t < j {
      RunSince(g, part, d, states, events, t, j - 1, s0, h, r);
      AnyStatic(g, part, d, states, events, j - 1);
      assert StepAt(g, part, d, states, events, j - 1);
      SinceStep(g, part, d, s0, states[j - 1], states[j], events[j - 1], h, r);
    }
  }

  lemma {:induction false} AnyLater(g: Matrix, part: set<int>, d: int, states: seq<Sys>, events: seq<Event>, i: nat,
                                    j: nat)
    requires AnyRun(g, part, d, states, events) && i <= j < |states|
    ensures Later(states[i], states[j])
    decreases j
  {
    if i < j {
      AnyLater(g, part, d, states, events, i, j - 1);
      AnyStatic(g, part, d, states, events, j - 1);
      assert StepAt(g, part, d, states, events, j - 1);
      NextLater(g, part, d, states[i], states[j - 1], states[j], events[j - 1]);
    }
  }

  lemma NextLater(g: Matrix, part: set<int>, d: int, s0: Sys, s: Sys, s': Sys, ev: Event)
    requires Later(s0, s) && Part(g, part) && Ok(g, part, d, s) && Static(s) && Next(g, part, d, s, s', ev)
    ensures Later(s0, s')
  {
    StaticMoves(g, part, d, s, s', ev);
    forall a, b
      ensures s0.log(a, b) <= s'.log(a, b) && s0.got(a, b) <= s'.got(a, b)
    {
      assert s0.log(a, b) <= s.log(a, b) <= s'.log(a, b);
      assert s0.got(a, b) <= s.got(a, b) <= s'.got(a, b);
    }
  }

  /** After one cycle every router is informed by a neighbour, or uses a stale route through it. */
  lemma CycleInforms(g: Matrix, part: set<int>, d: int, states: seq<Sys>, events: seq<Event>, i: nat, j: nat, h: int,
                     r: int)
    requires AnyRun(g, part, d, states, events) && Cycle(g, part, states, events, i, j) && Edge(g, r, h)
    ensures j < |states| && |states[j].e| == |g|
    ensures Informed(g, d, states[j], h, r) <==> !Stale(g, d, states[j], h, r)
  {
    var k :| CycleBy(g, part, states, events, i, k, j);
    assert h in part && r in part && Due(states, events, h, i, k);
    var t :| i <= t < k && DueAt(states, events, h, t);
    AnyLater(g, part, d, states, events, i, t);
    DueSince(g, part, d, states, events, t, h, r);
    RunSince(g, part, d, states, events, t + 1, j, states[t], h, r);
    AnyLater(g, part, d, states, events, t, k);
    AnyStatic(g, part, d, states, events, j);
    InformedOrStale(g, part, d, states[t], states[k], states[j], h, r);
  }

  lemma InformedOrStale(g: Matrix, part: set<int>, d: int, s0: Sys, s1: Sys, s: Sys, h: int, r: int)
    requires Part(g, part) && Ok(g, part, d, s) && InformedSince(g, d, s0, s, h, r)
    requires s0.log(h, r) <= s1.log(h, r) && Flushed(g, s1, s)
    ensures Informed(g, d, s, h, r) <==> !Stale(g, d, s, h, r)
  {
    assert EntryOk(g, d, s, r, s.e[r]) && EntryOk(g, d, s, h, s.e[h]);
    assert |s1.log(h, r)| <= s.got(h, r) <= |s.log(h, r)|;
  }

  /** From the first cycle on the invariant holds exactly in the states without a stale route. */
  lemma NoStaleIff(g: Matrix, part: set<int>, d: int, states: seq<Sys>, events: seq<Event>, i: nat, j: nat)
    requires AnyRun(g, part, d, states, events) && Cycle(g, part, states, events, i, j)
    ensures j < |states| && |states[j].e| == |g|
    ensures Inv(g, part, d, states[j]) <==> NoStale(g, d, states[j])
  {
    var k :| CycleBy(g, part, states, events, i, k, j);
    AnyStatic(g, part, d, states, events, j);
    forall h, r | Edge(g, r, h)
      ensures Informed(g, d, states[j], h, r) <==> !Stale(g, d, states[j], h, r)
    {
      CycleInforms(g, part, d, states, events, i, j, h, r);
    }
  }

  /** In ideal tables no route is stale. */
  lemma IdealNotStale(g: Matrix, part: set<int>, d: int, s: Sys)
    requires Part(g, part) && |s.e| == |g| && forall r :: r in part ==> Ideal(g, r, d, s.e[r])
    ensures NoStale(g, d, s)
  {
    forall h, r | Edge(g, r, h)
      ensures !Stale(g, d, s, h, r)
    {
      assert Ideal(g, r, d, s.e[r]) && Ideal(g, h, d, s.e[h]);
      if r != d && InLimit(g, r, d) && s.e[r].nextHop == h {
        assert StartsShortest(g, r, h, d);
      }
    }
  }

  // ---------- The rest of a run ----------

  lemma RunRest(g: Matrix, part: set<int>, d: int, states: seq<Sys>, events: seq<Event>, k: nat)
    requires Run(g, part, d, states, events) && k < |states|
    ensures Run(g, part, d, states[k..], events[k..])
  {
    forall i | 0 <= i < |events[k..]|
      ensures StepAt(g, part, d, states[k..], events[k..], i)
    {
      assert StepAt(g, part, d, states, events, k + i);
    }
  }

  lemma CycleRest(g: Matrix, part: set<int>, states: seq<Sys>, events: seq<Event>, k: nat, i: nat, j: nat)
    requires Cycle(g, part, states, events, i, j) && k <= i && |states| == |events| + 1
    ensures i <= j && k <= |events| && Cycle(g, part, states[k..], events[k..], i - k, j - k)
  {
    var m :| CycleBy(g, part, states, events, i, m, j);
    var states', events' := states[k..], events[k..];
    assert states'[i - k] == states[i] && states'[m - k] == states[m] && states'[j - k] == states[j];
    forall r | r in part
      ensures Due(states', events', r, i - k, m - k)
    {
      assert Due(states, events, r, i, m);
      var t :| i <= t < m && DueAt(states, events, r, t);
      assert DueAt(states', events', r, t - k);
    }
    assert CycleBy(g, part, states', events', i - k, m - k, j - k);
  }

  lemma {:induction false} CheckpointsRise(g: Matrix, part: set<int>, states: seq<Sys>, events: seq<Event>,
                                           at: seq<nat>, m: nat, n: nat)
    requires Checkpoints(g, part, states, events, at) && m <= n < |at|
    ensures at[m] <= at[n]
    decreases n
  {
    if m < n {
      CheckpointsRise(g, part, states, events, at, m, n - 1);
      assert CycleAt(g, part, states, events, at, n - 1);
    }
  }

  lemma CheckpointsRest(g: Matrix, part: set<int>, states: seq<Sys>, events: seq<Event>, at: seq<nat>, n: nat)
    returns (at': seq<nat>)
    requires Checkpoints(g, part, states, events, at) && n < |at| && |states| == |events| + 1
    ensures |at'| == |at| - n && forall i :: 0 <= i < |at'| ==> at'[i] == Since(at, n, i)
    ensures forall i :: n <= i < |at| ==> at[n] <= at[i]
    ensures Checkpoints(g, part, states[at[n]..], events[at[n]..], at')
  {
    forall i | n <= i < |at|
      ensures at[n] <= at[i]
    {
      CheckpointsRise(g, part, states, events, at, n, i);
    }
    at' := seq(|at| - n, i requires 0 <= i < |at| - n => Since(at, n, i));
    forall i | 0 <= i < |at'| - 1
      ensures CycleAt(g, part, states[at[n]..], events[at[n]..], at', i)
    {
      assert CycleAt(g, part, states, events, at, n + i);
      CycleRest(g, part, states, events, at[n], at[n + i], at[n + i + 1]);
    }
  }

  /** Checkpoint n + i, counted from checkpoint n on. */
  function Since(at: seq<nat>, n: nat, i: nat): nat
    requires n + i < |at|
  {
    if at[n] <= at[n + i] then at[n + i] - at[n] else 0
  }

  /** From whatever tables the part starts with: once a cycle ends without stale routes, all
      entries are ideal 4 * LIMIT + 4 cycles later, and stay so. */
  lemma ConvergesOnceFresh(g: Matrix, part: set<int>, d: int, states: seq<Sys>, events: seq<Event>, at: seq<nat>,
                           n: nat, t: nat, r: int)
    requires AnyRun(g, part, d, states, events) && Checkpoints(g, part, states, events, at)
    requires 1 <= n && n + 4 * LIMIT + 4 < |at| && at[n + 4 * LIMIT + 4] <= t < |states| && r in part
    requires |states[at[n]].e| == |g| && NoStale(g, d, states[at[n]])
    ensures 0 <= r < |states[t].e| && Ideal(g, r, d, states[t].e[r])
  {
    assert CycleAt(g, part, states, events, at, n - 1);
    NoStaleIff(g, part, d, states, events, at[n - 1], at[n]);
    AnyStatic(g, part, d, states, events, at[n]);
    RunRest(g, part, d, states, events, at[n]);
    var at' := CheckpointsRest(g, part, states, events, at, n);
    CheckpointsRise(g, part, states, events, at, n, n + 4 * LIMIT + 4);
    var states', events', first := states[at[n]..], events[at[n]..], at'[..4 * LIMIT + 5];
    forall i | 0 <= i < |first| - 1
      ensures CycleAt(g, part, states', events', first, i)
    {
      assert CycleAt(g, part, states', events', at', i);
    }
    Converges(g, part, d, states', events', first, t - at[n], r);
  }

  // ---------- How such runs come about ----------

  /** The rest of a run from the point on at which the last link to the outside has expired. */
  lemma RestIsStatic(g: Matrix, part: set<int>, d: int, states: seq<Sys>, events: seq<Event>, k: nat)
    requires Run(g, part, d, states, events) && Inv(g, part, d, states[0]) && k < |states|
    requires forall i :: 0 <= i < k ==> HarmlessAt(g, d, states, events, i)
    requires Static(states[k])
    ensures StaticRun(g, part, d, states[k..], events[k..])
  {
    RunInv(g, part, d, states, events, k);
    RunRest(g, part, d, states, events, k);
  }

  /** The links inside a part of a network. */
  ghost function Within(g: Matrix, part: set<int>): (h: Matrix)
    requires Square(g)
    ensures Square(h) && |h| == |g|
    ensures forall u, v :: Edge(h, u, v) <==> Edge(g, u, v) && u in part && v in part
    ensures forall u, v :: Edge(h, u, v) ==> h[u][v] == g[u][v]
  {
    seq(|g|, u requires 0 <= u < |g| =>
      seq(|g|, v requires 0 <= v < |g| => if u in part && v in part then g[u][v] else 0))
  }

  /** The state in which a part of a network at rest is cut off: nothing is on its way, and the routers have
      not noticed yet. */
  ghost predicate JustCut(g: Matrix, part: set<int>, d: int, ts: seq<Table>, s: Sys)
    requires Network(g) && TablesOk(g, ts) && 0 <= d < |g|
  {
    && |s.e| == |g| && s.gone == {}
    && (forall r {:trigger s.e[r]} :: 0 <= r < |g| ==> s.e[r] == ts[r][d])
    && (forall r, x :: (r, x) in s.joined <==> Edge(g, r, x) && r in part && x in part)
    && (forall r, x :: (r, x) in s.up <==> Edge(g, r, x) && r in part && x !in part)
    && (forall a, b {:trigger s.got(a, b)} :: s.got(a, b) == 0)
    && (forall a, b {:trigger s.log(a, b)} :: s.log(a, b) == [])
  }

  /** Cutting any part off a network at rest establishes the invariant, whatever destination one looks at.
      Its links to the rest expire later, one by one and in any order. */
  lemma CutFromRest(g: Matrix, part: set<int>, d: int, ts: seq<Table>, s: Sys)
    requires Network(g) && TablesOk(g, ts) && Quiet(g, ts) && NoOrphans(g, ts) && 0 <= d < |g|
    requires Part(Within(g, part), part) && JustCut(g, part, d, ts, s)
    ensures Inv(Within(g, part), part, d, s)
  {
    var h := Within(g, part);
    forall r | 0 <= r < |h| && r in part
      ensures EntryOk(h, d, s, r, s.e[r])
    {
      assert TableOk(g, r, ts[r]) && RouteOk(g, r, d, ts[r][d]);
    }
    forall a, b | Edge(h, b, a)
      ensures Informed(h, d, s, a, b)
    {
      CutInformed(g, part, d, ts, s, a, b);
    }
  }

  lemma CutInformed(g: Matrix, part: set<int>, d: int, ts: seq<Table>, s: Sys, a: int, b: int)
    requires Network(g) && TablesOk(g, ts) && Quiet(g, ts) && NoOrphans(g, ts) && 0 <= d < |g|
    requires JustCut(g, part, d, ts, s) && Edge(Within(g, part), b, a)
    ensures Informed(Within(g, part), d, s, a, b)
  {
    assert TableOk(g, a, ts[a]) && TableOk(g, b, ts[b]);
    assert RouteOk(g, b, d, ts[b][d]) && RouteOk(g, a, d, ts[a][d]);
    if b != d && s.e[b].nextHop == a {
      assert HopKnown(g, ts, b, d);
      assert AdvertQuiet(g, ts, b, a, d);
      NoChange(Links(g, b), b, ts[b][d], d, Through(Advert(ts[a][d], b), g[b][a]), a);
    }
  }
}

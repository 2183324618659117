/** What one pass over the window comes to, place by place: whose timer decides, how far the pass
    reaches, and what becomes of the congestion window. */
module PassOutcome {
  import opened Modular
  import opened Reassembly
  import opened Sending
  import opened Alignment

  /** The timer of the frame at place k has run out when the pass looks at it. */
  ghost predicate RanOut(st: State, k: int, clock: int -> int) {
    0 <= k < |st.window| && clock(2 * k) - st.window[k].sendTime >= st.rtt.timeout
  }

  ghost predicate RanOutBetween(st: State, a: int, b: int, clock: int -> int) {
    exists k :: a <= k < b && RanOut(st, k, clock)
  }

  /** The size of the congestion window when a pass from place a on comes to place k: half of what it
      was when a timer before k has run out. */
  ghost function SizeAt(st: State, a: int, mayHalve: bool, k: int, clock: int -> int): int {
    if mayHalve && RanOutBetween(st, a, k, clock) then st.cwnd / 2 else st.cwnd
  }

  /** The old frame at place k is sent again. */
  ghost predicate SentAgain(st: State, a: int, mayHalve: bool, k: int, clock: int -> int) {
    a <= k && RanOut(st, k, clock) && k < SizeAt(st, a, mayHalve, k, clock)
  }

  ghost function SizeAfter(st: State, a: int, mayHalve: bool, clock: int -> int): int {
    if mayHalve && st.cwnd > 1 && RanOutBetween(st, a, st.cwnd, clock) then st.cwnd / 2 else st.cwnd
  }

  /** The packets of the given places from a up to b, in order. */
  ghost function PacketsAt(c: Job, n: int, base: int, places: set<int>, a: int, b: int): (ps: seq<Packet>)
    requires ValidJob(c)
    decreases b - a
  {
    if a >= b then []
    else (if a in places then [PacketOf(c, n, base + a)] else []) + PacketsAt(c, n, base, places, a + 1, b)
  }

  /** The places whose frames a pass over an aligned window sends: the new ones, and old ones whose timer
      has run out. */
  ghost predicate ArePlaces(st: State, a: int, mayHalve: bool, clock: int -> int, places: set<int>, b: int) {
    forall k :: a <= k < b ==> (k in places <==> |st.window| <= k || SentAgain(st, a, mayHalve, k, clock))
  }

  /** The frame at place k after the pass, f before it. */
  ghost predicate Stamped(st: State, w: seq<Frame>, a: int, mayHalve: bool, clock: int -> int) {
    && |st.window| <= |w|
    && (forall k :: 0 <= k < |st.window| ==>
          w[k] == if SentAgain(st, a, mayHalve, k, clock) then st.window[k].(sendTime := clock(2 * k + 1))
                  else st.window[k])
    && (forall k :: |st.window| <= k < |w| ==> w[k].sendTime == clock(2 * k + 1))
  }

  ghost function Max(a: int, b: int): int {
    if a < b then b else a
  }

  ghost function Min(a: int, b: int): int {
    if a < b then a else b
  }

  /** What a pass from place a on makes of state and output. */
  ghost predicate Outcome(c: Job, n: int, base: int, st: State, a: int, mayHalve: bool, clock: int -> int,
                          places: set<int>, st': State, ps: seq<Packet>)
    requires ValidJob(c)
  {
    && st'.cwnd == SizeAfter(st, a, mayHalve, clock)
    && |st'.window| == Max(|st.window|, Min(st'.cwnd, n - base))
    && Stamped(st, st'.window, a, mayHalve, clock)
    && ps == PacketsAt(c, n, base, places, a, |st'.window|)
  }

  // ---------- One round ----------

  /** Frames before place a play no part. */
  lemma StepOver(st: State, a: int, clock: int -> int, b: int)
    requires a < b
    ensures RanOutBetween(st, a, b, clock) <==> RanOut(st, a, clock) || RanOutBetween(st, a + 1, b, clock)
  {
    if RanOutBetween(st, a, b, clock) && !RanOut(st, a, clock) {
      var k :| a <= k < b && RanOut(st, k, clock);
      assert a + 1 <= k < b;
    }
    if RanOutBetween(st, a + 1, b, clock) {
      var k :| a + 1 <= k < b && RanOut(st, k, clock);
      assert a <= k < b;
    }
  }

  /** From place a + 1 on, the rounds decide as they do seen from place a. */
  ghost predicate SameDecisions(st: State, a: int, mayHalve: bool, st1: State, mayHalve1: bool, clock: int -> int) {
    forall k :: a < k ==> (SentAgain(st, a, mayHalve, k, clock) <==> SentAgain(st1, a + 1, mayHalve1, k, clock))
  }

  /** What one round does to the window. */
  ghost predicate WindowStep(st: State, a: int, mayHalve: bool, st1: State, clock: int -> int) {
    && |st.window| <= |st1.window| && (|st.window| < |st1.window| ==> |st.window| == a && |st1.window| == a + 1)
    && (forall k :: 0 <= k < |st.window| ==>
          st1.window[k] == if k == a && SentAgain(st, a, mayHalve, a, clock)
                           then st.window[k].(sendTime := clock(2 * a + 1)) else st.window[k])
    && (|st.window| < |st1.window| ==> st1.window[a].sendTime == clock(2 * a + 1))
  }

  lemma FirstDecision(st: State, a: int, mayHalve: bool, clock: int -> int)
    requires a < st.cwnd
    ensures SentAgain(st, a, mayHalve, a, clock) <==> RanOut(st, a, clock)
  {
  }

  /** A frame whose timer is still running. */
  lemma SkipStep(st: State, a: nat, mayHalve: bool, clock: int -> int)
    requires a < |st.window| && a < st.cwnd && !RanOut(st, a, clock)
    ensures SameDecisions(st, a, mayHalve, st, mayHalve, clock)
    ensures SizeAfter(st, a + 1, mayHalve, clock) == SizeAfter(st, a, mayHalve, clock)
  {
    StepOver(st, a, clock, st.cwnd);
    forall k | a < k
      ensures SentAgain(st, a, mayHalve, k, clock) <==> SentAgain(st, a + 1, mayHalve, k, clock)
    {
      StepOver(st, a, clock, k);
    }
  }

  /** A frame whose timer has run out. */
  lemma ResendStep(st: State, a: nat, mayHalve: bool, clock: int -> int)
    requires a < |st.window| && a < st.cwnd && RanOut(st, a, clock)
    ensures var halve := mayHalve && st.cwnd > 1;
            var st1 := Resend(st, a, halve, clock(2 * a + 1));
            && SameDecisions(st, a, mayHalve, st1, mayHalve && !halve, clock)
            && SizeAfter(st1, a + 1, mayHalve && !halve, clock) == SizeAfter(st, a, mayHalve, clock)
            && WindowStep(st, a, mayHalve, st1, clock)
  {
    var halve := mayHalve && st.cwnd > 1;
    var st1 := Resend(st, a, halve, clock(2 * a + 1));
    FirstDecision(st, a, mayHalve, clock);
    StepOver(st, a, clock, st.cwnd);
    forall k | a < k
      ensures SentAgain(st, a, mayHalve, k, clock) <==> SentAgain(st1, a + 1, mayHalve && !halve, k, clock)
    {
      StepOver(st, a, clock, k);
      assert RanOut(st1, k, clock) <==> RanOut(st, k, clock);
    }
  }

  /** A new frame. */
  lemma PushStep(c: Job, st: State, mayHalve: bool, clock: int -> int, f: Frame)
    requires |st.window| < st.cwnd && f.sendTime == clock(2 * |st.window| + 1)
    ensures var a := |st.window|;
            var st1 := Push(c, st, f);
            && SameDecisions(st, a, mayHalve, st1, mayHalve, clock)
            && SizeAfter(st, a, mayHalve, clock) == SizeAfter(st1, a + 1, mayHalve, clock) == st.cwnd
            && WindowStep(st, a, mayHalve, st1, clock)
  {
  }

  // ---------- The whole pass ----------

  lemma {:induction false} NoPackets(c: Job, n: int, base: int, places: set<int>, a: int, b: int)
    requires ValidJob(c) && forall k :: a <= k < b ==> k !in places
    ensures PacketsAt(c, n, base, places, a, b) == []
    decreases b - a
  {
    if a < b {
      NoPackets(c, n, base, places, a + 1, b);
    }
  }

  /** Beyond the congestion window, or after the last frame of the file, nothing happens. */
  lemma PassEnds(c: Job, n: int, base: int, st: State, a: nat, mayHalve: bool, clock: int -> int, places: set<int>)
    requires Aligned(c, n, st, base) && a <= |st.window| && ArePlaces(st, a, mayHalve, clock, places, n - base)
    requires st.cwnd <= a || (a == |st.window| && base + a == n)
    ensures Outcome(c, n, base, st, a, mayHalve, clock, places, st, [])
  {
    NoPackets(c, n, base, places, a, |st.window|);
  }

  /** The stamps of one round and those of the rest of the pass. */
  lemma StampsGoOn(st: State, w: seq<Frame>, a: nat, mayHalve: bool, st1: State, mayHalve1: bool, clock: int -> int)
    requires SameDecisions(st, a, mayHalve, st1, mayHalve1, clock) && WindowStep(st, a, mayHalve, st1, clock)
    requires Stamped(st1, w, a + 1, mayHalve1, clock)
    ensures Stamped(st, w, a, mayHalve, clock)
  {
    forall k | 0 <= k < |st.window|
      ensures w[k] == if SentAgain(st, a, mayHalve, k, clock) then st.window[k].(sendTime := clock(2 * k + 1))
                      else st.window[k]
    {
      assert !SentAgain(st1, a + 1, mayHalve1, a, clock);
    }
  }

  /** The places decided on are the same seen from the next place. */
  lemma PlacesGoOn(st: State, a: nat, mayHalve: bool, st1: State, mayHalve1: bool, clock: int -> int,
                   places: set<int>, b: int)
    requires ArePlaces(st, a, mayHalve, clock, places, b)
    requires SameDecisions(st, a, mayHalve, st1, mayHalve1, clock) && WindowStep(st, a, mayHalve, st1, clock)
    requires a < |st1.window|
    ensures ArePlaces(st1, a + 1, mayHalve1, clock, places, b)
  {
  }

  /** What one round decides, and that the file goes on after it unless the round ends the pass. */
  ghost predicate RoundOutcome(c: Job, n: int, base: int, st: State, a: nat, mayHalve: bool, clock: int -> int,
                               places: set<int>, r: Round)
    requires ValidJob(c)
  {
    && SameDecisions(st, a, mayHalve, r.st, r.mayHalve, clock) && WindowStep(st, a, mayHalve, r.st, clock)
    && SizeAfter(r.st, a + 1, r.mayHalve, clock) == SizeAfter(st, a, mayHalve, clock)
    && (|st.window| < |r.st.window| ==> SizeAfter(st, a, mayHalve, clock) == st.cwnd && base + a < n)
    && a < |r.st.window|
    && r.ps == (if a in places then [PacketOf(c, n, base + a)] else [])
    && (r.stop ==> a + 1 == |r.st.window| && base + a + 1 == n)
  }

  /** One round and the rest of the pass. */
  lemma PassContinues(c: Job, n: int, base: int, st: State, a: nat, mayHalve: bool, clock: int -> int,
                      places: set<int>, r: Round, st': State, ps: seq<Packet>)
    requires Aligned(c, n, st, base) && a < st.cwnd
    requires RoundOutcome(c, n, base, st, a, mayHalve, clock, places, r)
    requires Outcome(c, n, base, r.st, a + 1, r.mayHalve, clock, places, st', ps)
    ensures Outcome(c, n, base, st, a, mayHalve, clock, places, st', r.ps + ps)
  {
    StampsGoOn(st, st'.window, a, mayHalve, r.st, r.mayHalve, clock);
  }

  lemma RoundIs(c: Job, n: int, base: int, st: State, a: nat, mayHalve: bool, clock: int -> int, places: set<int>)
    requires Aligned(c, n, st, base) && Sane(c, st) && a <= |st.window| && a < st.cwnd && base + a < n
    requires ArePlaces(st, a, mayHalve, clock, places, n - base)
    ensures RoundOutcome(c, n, base, st, a, mayHalve, clock, places, SendPlace(c, st, a, mayHalve, clock))
  {
    SeqNoOfPlace(c, n, st, base, a);
    ReadUpIff(c, n, st, base);
    if a == |st.window| {
      PushAligned(c, n, st, base, clock(2 * a + 1));
      PushStep(c, st, mayHalve, clock, NewFrame(c, st, (base + a) % c.M, clock(2 * a + 1)));
    } else {
      assert FrameOk(c, n, st.window[a], base + a);
      FirstDecision(st, a, mayHalve, clock);
      if RanOut(st, a, clock) {
        ResendStep(st, a, mayHalve, clock);
      } else {
        SkipStep(st, a, mayHalve, clock);
      }
    }
  }

  lemma {:induction false} PassFromOutcome(c: Job, n: int, base: int, st: State, a: nat, mayHalve: bool,
                                           clock: int -> int, places: set<int>)
    requires Aligned(c, n, st, base) && Sane(c, st) && a <= |st.window|
    requires ArePlaces(st, a, mayHalve, clock, places, n - base)
    ensures var (st', ps) := PassFrom(c, st, a, mayHalve, clock);
            Outcome(c, n, base, st, a, mayHalve, clock, places, st', ps)
    decreases st.cwnd - a
  {
    ReadUpIff(c, n, st, base);
    if st.cwnd <= a || base + a == n {
      PassEnds(c, n, base, st, a, mayHalve, clock, places);
    } else {
      RoundIs(c, n, base, st, a, mayHalve, clock, places);
      PlaceOk(c, n, st, base, a, mayHalve, clock);
      var r := SendPlace(c, st, a, mayHalve, clock);
      PlacesGoOn(st, a, mayHalve, r.st, r.mayHalve, clock, places, n - base);
      var rest := (r.st, []);
      if r.stop {
        PassEnds(c, n, base, r.st, a + 1, r.mayHalve, clock, places);
      } else {
        PassFromOutcome(c, n, base, r.st, a + 1, r.mayHalve, clock, places);
        rest := PassFrom(c, r.st, a + 1, r.mayHalve, clock);
      }
      PassContinues(c, n, base, st, a, mayHalve, clock, places, r, rest.0, rest.1);
    }
  }

  ghost function Places(st: State, clock: int -> int, b: int): (places: set<int>)
    ensures ArePlaces(st, 0, true, clock, places, b)
  {
    set k | 0 <= k < b && (|st.window| <= k || SentAgain(st, 0, true, k, clock))
  }

  lemma PacketsDiffer(c: Job, n: int, i: int, j: int)
    requires ValidJob(c) && (0 < i - j < c.M || 0 < j - i < c.M)
    ensures PacketOf(c, n, i) != PacketOf(c, n, j)
  {
    ModDistinct(if i < j then i else j, if i < j then j else i, c.M);
  }

  /** A packet is among those sent exactly when its place is. */
  lemma {:induction false} SentIff(c: Job, n: int, base: int, places: set<int>, a: int, b: int, k: int)
    requires ValidJob(c) && 0 <= base && 0 <= a && b <= c.S && 0 <= k < b
    ensures PacketOf(c, n, base + k) in PacketsAt(c, n, base, places, a, b) <==> a <= k && k in places
    decreases b - a
  {
    if a < b {
      SentIff(c, n, base, places, a + 1, b, k);
      if a != k {
        PacketsDiffer(c, n, base + a, base + k);
      }
    }
  }

  /** The whole effect of a pass over an aligned window. A frame that is there already is sent if and only
      if its timer has run out at the reading for its place and the place is inside the congestion
      window, which is halved from the first such place on. Everything sent gets the later reading, all
      other frames keep theirs. The window is then filled up with new frames. */
  lemma PassTimers(c: Job, n: int, base: int, st: State, clock: int -> int)
    requires Aligned(c, n, st, base) && Sane(c, st)
    ensures var (st', ps) := Pass(c, st, clock);
            && st'.cwnd == (if st.cwnd > 1 && RanOutBetween(st, 0, st.cwnd, clock) then st.cwnd / 2 else st.cwnd)
            && |st'.window| == Max(|st.window|, Min(st'.cwnd, n - base))
            && Stamped(st, st'.window, 0, true, clock)
            && ps == PacketsAt(c, n, base, Places(st, clock, n - base), 0, |st'.window|)
            && (forall k :: 0 <= k < |st'.window| ==>
                  (PacketOf(c, n, base + k) in ps <==> |st.window| <= k || SentAgain(st, 0, true, k, clock)))
  {
    var places := Places(st, clock, n - base);
    PassFromOutcome(c, n, base, st, 0, true, clock, places);
    PassSpec(c, n, st, base, 0, true, clock);
    var (st', ps) := Pass(c, st, clock);
    forall k | 0 <= k < |st'.window|
      ensures PacketOf(c, n, base + k) in ps <==> |st.window| <= k || SentAgain(st, 0, true, k, clock)
    {
      SentIff(c, n, base, places, 0, |st'.window|, k);
    }
  }

  lemma {:induction false} SkipOld(c: Job, n: int, base: int, places: set<int>, a: int, l: int, b: int)
    requires ValidJob(c) && a <= l <= b && forall k :: a <= k < l ==> k !in places
    ensures PacketsAt(c, n, base, places, a, b) == PacketsAt(c, n, base, places, l, b)
    decreases l - a
  {
    if a < l {
      SkipOld(c, n, base, places, a + 1, l, b);
    }
  }

  /** The packet of place k, in a sequence that starts with that of place a. */
  ghost predicate Has(c: Job, n: int, base: int, ps: seq<Packet>, a: int, k: int)
    requires ValidJob(c)
  {
    0 <= k - a < |ps| && ps[k - a] == PacketOf(c, n, base + k)
  }

  lemma HasMore(c: Job, n: int, base: int, ps: seq<Packet>, a: int, k: int)
    requires ValidJob(c) && a < k && Has(c, n, base, ps, a + 1, k)
    ensures Has(c, n, base, [PacketOf(c, n, base + a)] + ps, a, k)
  {
  }

  lemma {:induction false} AllNew(c: Job, n: int, base: int, places: set<int>, a: int, b: int)
    requires ValidJob(c) && a <= b && forall k :: a <= k < b ==> k in places
    ensures var ps := PacketsAt(c, n, base, places, a, b);
            |ps| == b - a && forall k :: a <= k < b ==> Has(c, n, base, ps, a, k)
    decreases b - a
  {
    if a < b {
      AllNew(c, n, base, places, a + 1, b);
      var ps, rest := PacketsAt(c, n, base, places, a, b), PacketsAt(c, n, base, places, a + 1, b);
      assert ps == [PacketOf(c, n, base + a)] + rest;
      forall k | a < k < b
        ensures Has(c, n, base, ps, a, k)
      {
        HasMore(c, n, base, rest, a, k);
      }
    }
  }

  lemma NothingDue(st: State, clock: int -> int)
    requires 1 <= st.cwnd && !RanOutBetween(st, 0, st.cwnd, clock)
    ensures forall k :: !SentAgain(st, 0, true, k, clock)
  {
  }

  /** A pass that finds no timer run out sends exactly the new frames, in order, and leaves the congestion
      window and all old frames alone. */
  lemma QuietPass(c: Job, n: int, base: int, st: State, clock: int -> int)
    requires Aligned(c, n, st, base) && Sane(c, st) && !RanOutBetween(st, 0, st.cwnd, clock)
    ensures var (st', ps) := Pass(c, st, clock);
            && st'.cwnd == st.cwnd && |st'.window| == Max(|st.window|, Min(st.cwnd, n - base))
            && st'.window[..|st.window|] == st.window
            && |ps| == |st'.window| - |st.window|
            && forall k :: |st.window| <= k < |st'.window| ==> Has(c, n, base, ps, |st.window|, k)
  {
    PassTimers(c, n, base, st, clock);
    var (st', ps) := Pass(c, st, clock);
    NothingDue(st, clock);
    SkipOld(c, n, base, Places(st, clock, n - base), 0, |st.window|, |st'.window|);
    AllNew(c, n, base, Places(st, clock, n - base), |st.window|, |st'.window|);
  }

  // ---------- The congestion window ----------

  /** Every number that is handled, new, repeated or out of the window, opens the congestion window by
      one up to its limit. */
  lemma EveryAckOpens(c: Job, st: State, ack: int, time: int)
    requires ValidJob(c)
    ensures HandleAck(c, st, ack, time).0.cwnd == if st.cwnd < c.S then st.cwnd + 1 else st.cwnd
    ensures HandleTimeout(c, st, time).0.cwnd == if st.cwnd < c.S then st.cwnd + 1 else st.cwnd
  {
  }

  /** No pass of the run finds a timer run out. */
  ghost predicate QuietRun(c: Job, st: State, acts: seq<Action>)
    requires ValidJob(c)
    decreases |acts|
  {
    acts == [] ||
    (&& Sane(c, st) && (acts[0].SendAll? ==> !RanOutBetween(st, 0, st.cwnd, acts[0].clock))
     && QuietRun(c, Act(c, st, acts[0]).0, acts[1..]))
  }

  /** How often the sender has waited for an acknowledgement, in vain or not. */
  function Waits(acts: seq<Action>): nat {
    if acts == [] then 0 else (if acts[0].SendAll? then 0 else 1) + Waits(acts[1..])
  }

  lemma ActOpens(c: Job, n: int, st: State, base: int, a: Action)
    requires Aligned(c, n, st, base) && Sane(c, st)
    requires a.SendAll? ==> !RanOutBetween(st, 0, st.cwnd, a.clock)
    ensures Act(c, st, a).0.cwnd == if a.SendAll? then st.cwnd else Min(c.S, st.cwnd + 1)
  {
    if a.SendAll? {
      QuietPass(c, n, base, st, a.clock);
    } else {
      EveryAckOpens(c, st, if a.TakeAck? then a.ack else st.ack, a.time);
    }
  }

  /** Over every run in which no timer runs out, the congestion window grows by one with every wait, up to
      its limit. */
  lemma {:induction false} GrowsWithWaits(c: Job, n: int, st: State, base: int, acts: seq<Action>, end: State)
    requires Aligned(c, n, st, base) && 0 <= st.ack < c.M
    requires ActsTo(c, st, acts, end) && QuietRun(c, st, acts)
    ensures end.cwnd == Min(c.S, st.cwnd + Waits(acts))
    decreases |acts|
  {
    if acts != [] {
      ReadUpIff(c, n, st, base);
      var next := ActAligned(c, n, st, base, acts[0]);
      var (st', done) := Act(c, st, acts[0]);
      ActOpens(c, n, st, base, acts[0]);
      if !done {
        GrowsWithWaits(c, n, st', next, acts[1..], end);
      }
    }
  }

  /** In particular it is S / 2 + k after k waits of a transfer, and full after S - S / 2 of them. */
  lemma OpensFromStart(c: Job, n: int, ack: int, acts: seq<Action>, end: State)
    requires ValidJob(c) && FrameCount(c, n) && 0 <= ack < c.M
    requires ActsTo(c, Start(c, ack), acts, end) && QuietRun(c, Start(c, ack), acts)
    ensures Waits(acts) <= c.S - c.S / 2 ==> end.cwnd == c.S / 2 + Waits(acts)
    ensures Waits(acts) >= c.S - c.S / 2 ==> end.cwnd == c.S
  {
    StartAligned(c, n, ack);
    GrowsWithWaits(c, n, Start(c, ack), 0, acts, end);
  }

  // ---------- Before and after the first acknowledgement ----------

  /** The estimate is that of the frame that is acknowledged: its round trip is the sample. */
  lemma AckTimesItsFrame(c: Job, n: int, st: State, base: int, ack: int, time: int, k: int)
    requires Aligned(c, n, st, base) && 0 <= ack < c.M && InWindow(c, st, ack)
    requires 0 <= k < |st.window| && st.window[k].seqNum == ack
    ensures var (st', done) := HandleAck(c, st, ack, time);
            && (done <==> st.window[k].isEnd)
            && (!done ==> && st'.rtt == Sample(st.rtt, time - st.window[k].sendTime)
                          && st'.window == st.window[k + 1..] && st'.lar == ack
                          && st'.pos == st.pos && st'.lastFrame == st.lastFrame)
  {
    AckNamesFrame(c, n, st, base, ack);
    var j := AckIndex(c, st, ack);
    assert FrameOk(c, n, st.window[k], base + k);
    if j != k {
      ModDistinct(if j < k then base + j else base + k, if j < k then base + k else base + j, c.M);
    }
  }

  /** A number that is in no window leaves everything but the congestion window and the buffer alone. */
  lemma AckOutside(c: Job, st: State, ack: int, time: int)
    requires ValidJob(c) && !InWindow(c, st, ack)
    ensures var (st', done) := HandleAck(c, st, ack, time);
            !done && st' == st.(cwnd := st'.cwnd, ack := ack)
  {
  }

  lemma {:induction false} NoSampleYet(c: Job, n: int, st: State, base: int, acts: seq<Action>, end: State)
    requires Aligned(c, n, st, base) && 0 <= st.ack < c.M && ActsTo(c, st, acts, end)
    requires st.lar == -1 ==> st.rtt == FIRST_RTT
    ensures end.lar == -1 ==> end.rtt == FIRST_RTT
    decreases |acts|
  {
    if acts != [] {
      ReadUpIff(c, n, st, base);
      var next := ActAligned(c, n, st, base, acts[0]);
      var (st', done) := Act(c, st, acts[0]);
      if acts[0].SendAll? {
        PassSpec(c, n, st, base, 0, true, acts[0].clock);
      }
      if !done {
        NoSampleYet(c, n, st', next, acts[1..], end);
      }
    }
  }

  /** In every run from the start, until an acknowledgement has been taken, a timer has run out exactly when
      its frame was sent two seconds ago or more. */
  lemma FirstTimeout(c: Job, n: int, ack: int, acts: seq<Action>, end: State, k: int, clock: int -> int)
    requires ValidJob(c) && FrameCount(c, n) && 0 <= ack < c.M && ActsTo(c, Start(c, ack), acts, end)
    requires end.lar == -1 && 0 <= k < |end.window|
    ensures RanOut(end, k, clock) <==> clock(2 * k) >= end.window[k].sendTime + 2_000_000
  {
    StartAligned(c, n, ack);
    NoSampleYet(c, n, Start(c, ack), 0, acts, end);
  }
}

/** Sender and receiver over a network that loses, duplicates and reorders frames and
    acknowledgements. What has been sent stays available for delivery, any number of times, in any
    order; what is never delivered is lost. */
module Transfer {
  import opened Modular
  import opened Reassembly
  import opened Sending
  import opened Alignment
  import Codec

  /** Both parties' constants, and the number n of frames the transfer takes. */
  datatype Setup = Setup(job: Job, ring: Config, n: int)

  /** The sender's window fits the receiver's, frames fit the slots, and no sequence number is used twice; one is
      left over for "nothing yet". */
  ghost predicate ValidSetup(x: Setup) {
    && ValidJob(x.job) && ValidConfig(x.ring) && FrameCount(x.job, x.n)
    && x.job.M == x.ring.M && x.job.S <= x.ring.W && x.job.D <= x.ring.frameSize
    && x.n < x.ring.M
  }

  /** The frame whose slot a late duplicate of frame 0 takes: the largest multiple of W up to M. */
  function Alias(c: Config): int
    requires ValidConfig(c)
  {
    c.M / c.W * c.W
  }

  /** With fewer frames than this, no late duplicate is ever taken for a frame of the transfer. */
  function Bound(c: Config): int
    requires ValidConfig(c)
  {
    if Alias(c) == c.M - c.W + 1 then c.M - c.W + 2 else Alias(c)
  }

  ghost predicate InBound(x: Setup)
    requires ValidSetup(x)
  {
    x.n < Bound(x.ring)
  }

  lemma AliasRange(c: Config)
    requires ValidConfig(c)
    ensures c.M - c.W < Alias(c) <= c.M && Alias(c) <= Bound(c)
  {
    assert c.M == c.M / c.W * c.W + c.M % c.W;
  }

  /** `awaiting` says that the sender has made its pass and waits for an acknowledgement. */
  datatype System = System(snd: State, rcv: Ring, frames: set<Packet>, acks: set<int>, awaiting: bool,
                           sndDone: bool, rcvDone: bool)

  datatype Event =
    | SendPass(clock: int -> int)
    | RecvAck(ack: int, ackTime: int)
    | RecvTimeout(time: int)
    | RecvFrame(p: Packet)
    | LastAcks

  ghost predicate Next(x: Setup, s: System, s': System, e: Event)
    requires ValidSetup(x)
  {
    match e
    case SendPass(clock) =>
      && !s.sndDone && !s.awaiting && Sane(x.job, s.snd)
      && var (snd, ps) := Pass(x.job, s.snd, clock);
         s' == s.(snd := snd, frames := s.frames + (set p | p in ps), awaiting := true)
    case RecvAck(ack, time) =>
      && !s.sndDone && s.awaiting && ack in s.acks
      && var (snd, done) := HandleAck(x.job, s.snd, ack, time);
         s' == s.(snd := snd, awaiting := false, sndDone := done)
    case RecvTimeout(time) =>
      && !s.sndDone && s.awaiting
      && var (snd, done) := HandleTimeout(x.job, s.snd, time);
         s' == s.(snd := snd, awaiting := false, sndDone := done)
    case RecvFrame(p) =>
      && !s.rcvDone && p in s.frames && 0 <= p.seqNum && |p.data| <= x.ring.frameSize && Shape(x.ring, s.rcv)
      && var r := Receive(x.ring, s.rcv, p.data, p.seqNum, if p.end then 1 else 0);
         s' == s.(rcv := r.st, acks := s.acks + {r.ack}, rcvDone := r.reachedEnd)
    case LastAcks =>
      s.rcvDone && s' == s.(acks := s.acks + {(s.rcv.nfe + x.ring.M - 1) % x.ring.M})
  }

  /** v would be taken for an acknowledgement of a frame when b frames have been acknowledged and all
      others are in the window. */
  ghost predicate Hits(x: Setup, v: int, b: int)
    requires ValidSetup(x)
  {
    0 <= TruncMod(v - b, x.job.M) < x.n - b
  }

  /** No window of this transfer, wherever it starts and however long it is, contains v. */
  ghost predicate NeverInWindow(x: Setup, v: int)
    requires ValidSetup(x)
  {
    forall b :: 0 <= b < x.n ==> !Hits(x, v, b)
  }

  /** Both start fresh. The receive buffer of the sender holds some number that is in no window. */
  ghost predicate Init(x: Setup, s: System)
    requires ValidSetup(x)
  {
    s == System(Start(x.job, s.snd.ack), Fresh(x.ring), {}, {}, false, false, false) && NeverInWindow(x, s.snd.ack)
  }

  /** The number that acknowledges nothing is in no window. */
  lemma NothingYet(x: Setup)
    requires ValidSetup(x)
    ensures NeverInWindow(x, x.job.M - 1)
  {
    var v := x.job.M - 1;
    forall b | 0 <= b < x.n
      ensures !Hits(x, v, b)
    {
      ModSmall(x.job.M - 1 - b, x.job.M);
    }
  }

  /** As shipped, every file transfer of up to 4929 full frames is covered, and it can start. */
  lemma ShippedTransfers(file: seq<Byte>, total: nat)
    requires 0 < total <= |file| && total <= 4929 * 1463
    ensures Bound(SHIPPED) == 4930
    ensures exists x: Setup, s: System ::
              && x.job == Job(170, 5000, 1463, file, total) && x.ring == SHIPPED
              && ValidSetup(x) && InBound(x) && Init(x, s)
  {
    var job := Job(170, 5000, 1463, file, total);
    var x := Setup(job, SHIPPED, (total + 1462) / 1463);
    assert ValidSetup(x) && InBound(x);
    NothingYet(x);
    assert Init(x, System(Start(job, x.job.M - 1), Fresh(SHIPPED), {}, {}, false, false, false));
  }

  // ---------- The invariant ----------

  ghost function TopOfWindow(s: System): int {
    s.snd.lar + 1 + |s.snd.window|
  }

  /** The receiver has delivered exactly the pieces below its window. What it holds are pieces that have been sent,
      or late duplicates in slots of frames beyond the end. */
  ghost predicate ReceiverInv(x: Setup, s: System)
    requires ValidSetup(x)
  {
    AtRest(x.ring, s.rcv, s.rcv.nfe) && HoldsUpTo(x, s.rcv, TopOfWindow(s))
  }

  ghost predicate HoldsUpTo(x: Setup, rcv: Ring, top: int)
    requires ValidSetup(x) && Shape(x.ring, rcv)
  {
    && 0 <= rcv.nfe <= top && FaithfulBelow(Abstract(x.ring, rcv, rcv.nfe), Chunks(x.job), x.n)
    && (forall k :: k in Held(x.ring, rcv, rcv.nfe) ==> k < top || x.n < k)
    && (rcv.endSeq == -1 || rcv.endSeq == x.n - 1)
    && (x.n - 1 in Held(x.ring, rcv, rcv.nfe) || rcv.nfe == x.n ==> rcv.endSeq == x.n - 1)
  }

  ghost predicate FramesInv(x: Setup, s: System)
    requires ValidSetup(x)
  {
    && (forall p :: p in s.frames ==> Genuine(x.job, x.n, p, 0, TopOfWindow(s)))
    && (forall k :: 0 <= k < TopOfWindow(s) ==> PacketOf(x.job, x.n, k) in s.frames)
  }

  ghost predicate Inv(x: Setup, s: System)
    requires ValidSetup(x)
  {
    && Aligned(x.job, x.n, s.snd, s.snd.lar + 1)
    && ReceiverInv(x, s) && FramesInv(x, s)
    && s.snd.lar + 1 <= s.rcv.nfe <= TopOfWindow(s)
    && (forall a :: a in s.acks ==> a == x.ring.M - 1 || 0 <= a < s.rcv.nfe)
    && (NeverInWindow(x, s.snd.ack) || 0 <= s.snd.ack <= s.snd.lar || s.sndDone)
    && (s.rcvDone <==> s.rcv.nfe == x.n) && (s.sndDone ==> s.rcvDone)
  }

  lemma InitInv(x: Setup, s: System)
    requires ValidSetup(x) && Init(x, s)
    ensures Inv(x, s)
  {
    StartAligned(x.job, x.n, s.snd.ack);
    assert Pieces(Chunks(x.job), 0) == [];
  }

  lemma SendPassInv(x: Setup, s: System, s': System, clock: int -> int)
    requires ValidSetup(x) && Inv(x, s) && Next(x, s, s', SendPass(clock))
    ensures Inv(x, s')
  {
    PassSpec(x.job, x.n, s.snd, s.snd.lar + 1, 0, true, clock);
    SentFrames(x, s, s', clock);
    WindowGrows(x, s, s');
  }

  /** A longer window of the sender. */
  lemma WindowGrows(x: Setup, s: System, s': System)
    requires ValidSetup(x) && Inv(x, s) && FramesInv(x, s') && Aligned(x.job, x.n, s'.snd, s'.snd.lar + 1)
    requires s' == s.(snd := s'.snd, frames := s'.frames, awaiting := true)
    requires s'.snd.lar == s.snd.lar && s'.snd.ack == s.snd.ack && TopOfWindow(s) <= TopOfWindow(s')
    ensures Inv(x, s')
  {
    assert HoldsUpTo(x, s'.rcv, TopOfWindow(s'));
  }

  lemma SentFrames(x: Setup, s: System, s': System, clock: int -> int)
    requires ValidSetup(x) && Inv(x, s) && Next(x, s, s', SendPass(clock))
    ensures FramesInv(x, s')
  {
    var base := s.snd.lar + 1;
    PassSpec(x.job, x.n, s.snd, base, 0, true, clock);
    var (snd, ps) := Pass(x.job, s.snd, clock);
    forall p | p in s'.frames
      ensures Genuine(x.job, x.n, p, 0, TopOfWindow(s'))
    {
      if p in s.frames {
        assert Genuine(x.job, x.n, p, 0, TopOfWindow(s));
      } else {
        var i :| 0 <= i < |ps| && ps[i] == p;
        assert Genuine(x.job, x.n, ps[i], base, base + |snd.window|);
      }
    }
  }

  /** A number below the window is not in it. */
  lemma OldAckOutside(x: Setup, snd: State, a: int)
    requires ValidSetup(x) && Aligned(x.job, x.n, snd, snd.lar + 1) && 0 <= a <= snd.lar
    ensures !InWindow(x.job, snd, a)
  {
    ModSmall(snd.lar + 1 - a, x.job.M);
  }

  lemma NeverOutside(x: Setup, snd: State, a: int)
    requires ValidSetup(x) && Aligned(x.job, x.n, snd, snd.lar + 1) && NeverInWindow(x, a)
    ensures !InWindow(x.job, snd, a)
  {
    var b := snd.lar + 1;
    assert !Hits(x, a, b);
  }

  /** A number of the window is found at its distance. */
  lemma FreshAckInside(x: Setup, snd: State, a: int)
    requires ValidSetup(x) && Aligned(x.job, x.n, snd, snd.lar + 1) && snd.lar < a < snd.lar + 1 + |snd.window|
    ensures InWindow(x.job, snd, a) && AckIndex(x.job, snd, a) == a - (snd.lar + 1)
  {
    ModSmall(a - (snd.lar + 1), x.job.M);
  }

  /** An acknowledgement of a frame of the window. */
  lemma FreshAckEffect(x: Setup, snd: State, ack: int, time: int)
    requires ValidSetup(x) && Aligned(x.job, x.n, snd, snd.lar + 1) && snd.lar < ack < snd.lar + 1 + |snd.window|
    ensures var (snd', done) := HandleAck(x.job, snd, ack, time);
            && Aligned(x.job, x.n, snd', snd'.lar + 1) && snd'.ack == ack
            && snd'.lar + |snd'.window| == snd.lar + |snd.window|
            && (done <==> ack == x.n - 1) && snd'.lar == if done then snd.lar else ack
  {
    AckAligned(x.job, x.n, snd, snd.lar + 1, ack, time);
    FreshAckInside(x, snd, ack);
  }

  /** What an acknowledgement of a delivered frame, or of nothing, does to the sender. */
  lemma AckEffect(x: Setup, snd: State, ack: int, time: int)
    requires ValidSetup(x) && Aligned(x.job, x.n, snd, snd.lar + 1)
    requires ack == x.ring.M - 1 || 0 <= ack < snd.lar + 1 + |snd.window|
    ensures var (snd', done) := HandleAck(x.job, snd, ack, time);
            && Aligned(x.job, x.n, snd', snd'.lar + 1) && snd'.ack == ack
            && snd'.lar + |snd'.window| == snd.lar + |snd.window|
            && (done <==> snd.lar < ack == x.n - 1)
            && snd'.lar == if snd.lar < ack < x.n - 1 then ack else snd.lar
  {
    if snd.lar < ack < snd.lar + 1 + |snd.window| {
      FreshAckEffect(x, snd, ack, time);
    } else {
      AckAligned(x.job, x.n, snd, snd.lar + 1, ack, time);
      assert !InWindow(x.job, snd, ack) by {
        if ack == x.ring.M - 1 {
          NothingYet(x);
          NeverOutside(x, snd, ack);
        } else {
          OldAckOutside(x, snd, ack);
        }
      }
    }
  }

  lemma RecvAckInv(x: Setup, s: System, s': System, ack: int, time: int)
    requires ValidSetup(x) && Inv(x, s) && Next(x, s, s', RecvAck(ack, time))
    ensures Inv(x, s')
    ensures s'.sndDone || s'.snd.lar == (if s.snd.lar < ack < s.rcv.nfe then ack else s.snd.lar)
    ensures s'.sndDone <==> ack == x.n - 1 && s.snd.lar < ack < s.rcv.nfe
  {
    AckEffect(x, s.snd, ack, time);
    NothingYet(x);
    assert ReceiverInv(x, s') && FramesInv(x, s');
  }

  /** Handling the old acknowledgement again after a timeout changes neither the last acknowledged
      frame nor the window; it only lets the congestion window grow. */
  lemma TimeoutHarmless(x: Setup, s: System, time: int)
    requires ValidSetup(x) && Inv(x, s) && !s.sndDone
    ensures HandleTimeout(x.job, s.snd, time) ==
            (s.snd.(cwnd := if s.snd.cwnd < x.job.S then s.snd.cwnd + 1 else s.snd.cwnd), false)
  {
    if NeverInWindow(x, s.snd.ack) {
      NeverOutside(x, s.snd, s.snd.ack);
    } else {
      OldAckOutside(x, s.snd, s.snd.ack);
    }
  }

  lemma RecvTimeoutInv(x: Setup, s: System, s': System, time: int)
    requires ValidSetup(x) && Inv(x, s) && Next(x, s, s', RecvTimeout(time))
    ensures Inv(x, s') && !s'.sndDone
  {
    TimeoutHarmless(x, s, time);
  }

  // ---------- A frame reaches the receiver ----------

  /** The receiver's reaction to frame k. */
  ghost function Reacts(x: Setup, rcv: Ring, k: int): Reaction
    requires ValidConfig(x.ring) && ValidJob(x.job) && Shape(x.ring, rcv) && 0 <= k
    requires |Chunk(x.job, k)| <= x.ring.frameSize
  {
    Receive(x.ring, rcv, Chunk(x.job, k), k, if k == x.n - 1 then 1 else 0)
  }

  lemma FrameFits(x: Setup, k: int)
    requires ValidSetup(x) && 0 <= k < x.n
    ensures |Chunk(x.job, k)| <= x.ring.frameSize && k % x.ring.M == k && PacketOf(x.job, x.n, k).seqNum == k
  {
    OffsetStep(x.job, x.n, k);
    ModSmall(k, x.ring.M);
  }

  /** The number before m, modulo M. */
  lemma Predecessor(x: Setup, m: int)
    requires ValidSetup(x) && 0 <= m <= x.n
    ensures (m + x.ring.M - 1) % x.ring.M == if m == 0 then x.ring.M - 1 else m - 1
  {
    if m == 0 {
      ModSmall(x.ring.M - 1, x.ring.M);
    } else {
      ModShift(m - 1, 1, x.ring.M);
      ModSmall(m - 1, x.ring.M);
    }
  }

  /** What the receiver makes of one frame: it stays in order, it acknowledges a delivered frame or nothing, and
      it reports the end when everything has been delivered. */
  ghost predicate WellReceived(x: Setup, rcv: Ring, k: int, top: int, r: Reaction)
    requires ValidSetup(x)
  {
    StaysInOrder(x, rcv, k, top, r.st) && WellAnswered(x, rcv, k, r)
  }

  ghost predicate StaysInOrder(x: Setup, rcv: Ring, k: int, top: int, st: Ring)
    requires ValidSetup(x)
  {
    AtRest(x.ring, st, st.nfe) && HoldsUpTo(x, st, top) && rcv.nfe <= st.nfe && (k == rcv.nfe ==> k < st.nfe)
  }

  ghost predicate WellAnswered(x: Setup, rcv: Ring, k: int, r: Reaction)
    requires ValidSetup(x)
  {
    && (k < rcv.nfe ==> r.ack == k || r.ack == rcv.nfe - 1)
    && (rcv.nfe <= k ==> r.ack == if r.st.nfe == 0 then x.ring.M - 1 else r.st.nfe - 1)
    && (r.reachedEnd <==> r.st.nfe == x.n)
  }

  ghost predicate BeforeFrame(x: Setup, rcv: Ring, k: int, top: int) {
    && ValidSetup(x) && AtRest(x.ring, rcv, rcv.nfe) && HoldsUpTo(x, rcv, top) && rcv.nfe < x.n
    && 0 <= k < top <= x.n && top <= rcv.nfe + x.ring.W
  }

  /** What the reassembler makes of frame k. */
  ghost predicate Reassembled(x: Setup, rcv: Ring, k: int, a: Reassembler)
    requires ValidSetup(x) && Shape(x.ring, rcv)
  {
    && FaithfulBelow(a, Chunks(x.job), x.n) && rcv.nfe <= a.nfe && (k == rcv.nfe ==> k < a.nfe)
    && (forall i :: i in a.got ==> i == k || i in Held(x.ring, rcv, rcv.nfe))
    && (rcv.nfe < a.nfe ==> a.nfe - 1 == k || a.nfe - 1 in Held(x.ring, rcv, rcv.nfe))
  }

  /** Frame k is not behind the window: the receiver does what the reassembler does. */
  lemma AheadReassembled(x: Setup, rcv: Ring, k: int, top: int, r: Reaction) returns (a: Reassembler)
    requires BeforeFrame(x, rcv, k, top) && rcv.nfe <= k && |Chunk(x.job, k)| <= x.ring.frameSize
    requires r == Reacts(x, rcv, k)
    ensures Reassembled(x, rcv, k, a) && r.st.nfe == a.nfe && AtRest(x.ring, r.st, a.nfe)
    ensures Abstract(x.ring, r.st, a.nfe) == a && r.ack == (a.nfe - 1) % x.ring.M
  {
    var ack;
    a, ack := Reassembles(x, rcv, k, top);
    AheadRefined(x, rcv, k, top, r);
    RefinedIs(x.ring, rcv, rcv.nfe, k, Chunk(x.job, k), r, a, ack);
    ModSmall(a.nfe, x.ring.M);
  }

  lemma AheadRefined(x: Setup, rcv: Ring, k: int, top: int, r: Reaction)
    requires BeforeFrame(x, rcv, k, top) && rcv.nfe <= k && |Chunk(x.job, k)| <= x.ring.frameSize
    requires r == Reacts(x, rcv, k)
    ensures Refined(x.ring, rcv, rcv.nfe, k, Chunk(x.job, k), r)
  {
    ModSmall(k, x.ring.M);
    RefinesAhead(x.ring, rcv, rcv.nfe, k, Chunk(x.job, k), if k == x.n - 1 then 1 else 0);
  }

  lemma Reassembles(x: Setup, rcv: Ring, k: int, top: int) returns (a: Reassembler, ack: int)
    requires BeforeFrame(x, rcv, k, top) && rcv.nfe <= k
    ensures (a, ack) == Reassemble(Abstract(x.ring, rcv, rcv.nfe), k, Chunk(x.job, k))
    ensures Reassembled(x, rcv, k, a) && ack == a.nfe - 1
  {
    ReassembleBelow(Abstract(x.ring, rcv, rcv.nfe), k, Chunks(x.job), x.n);
    var result := Reassemble(Abstract(x.ring, rcv, rcv.nfe), k, Chunk(x.job, k));
    a, ack := result.0, result.1;
  }

  /** What is held afterwards, and that the end is known when it has been reached. */
  lemma AheadHolds(x: Setup, rcv: Ring, k: int, top: int, r: Ring, a: Reassembler)
    requires BeforeFrame(x, rcv, k, top) && rcv.nfe <= k && Reassembled(x, rcv, k, a)
    requires Shape(x.ring, r) && r.nfe == a.nfe && Abstract(x.ring, r, a.nfe) == a
    requires r.endSeq == if k == x.n - 1 then k else rcv.endSeq
    ensures HoldsUpTo(x, r, top)
  {
    if rcv.nfe < a.nfe && a.nfe - 1 != k {
      assert a.nfe - 1 in Held(x.ring, rcv, rcv.nfe);
    }
    assert Held(x.ring, r, a.nfe) == a.got;
  }

  /** The end flag, the end test and the acknowledgement. */
  lemma ReactionEnd(x: Setup, rcv: Ring, k: int, r: Reaction)
    requires ValidSetup(x) && Shape(x.ring, rcv) && 0 <= k && |Chunk(x.job, k)| <= x.ring.frameSize
    requires r == Reacts(x, rcv, k)
    ensures r.st.endSeq == if k == x.n - 1 then k else rcv.endSeq
    ensures r.reachedEnd <==> !Outside(x.ring, rcv, k) && r.st.endSeq >= 0 && r.ack == r.st.endSeq
    ensures r.ack == if Outside(x.ring, rcv, k) then k else (r.st.nfe + x.ring.M - 1) % x.ring.M
  {
    EndTest(x.ring, rcv, Chunk(x.job, k), k, if k == x.n - 1 then 1 else 0);
  }

  /** The end is known when it has been reached. */
  lemma KnownEnd(x: Setup, st: Ring, top: int)
    requires ValidSetup(x) && Shape(x.ring, st) && HoldsUpTo(x, st, top)
    ensures st.endSeq == -1 || st.endSeq == x.n - 1
    ensures st.nfe == x.n ==> st.endSeq == x.n - 1
  {
  }

  /** The end is reported when the last frame is acknowledged from within the window. */
  lemma AnswerWell(x: Setup, rcv: Ring, k: int, r: Reaction)
    requires ValidSetup(x) && 0 <= rcv.nfe <= r.st.nfe <= x.n && 0 <= k
    requires (r.st.endSeq == -1 || r.st.endSeq == x.n - 1) && (r.st.nfe == x.n ==> r.st.endSeq == x.n - 1)
    requires r.reachedEnd <==> r.st.endSeq >= 0 && r.ack == r.st.endSeq
    requires r.ack == if r.st.nfe == 0 then x.ring.M - 1 else r.st.nfe - 1
    requires k < rcv.nfe ==> r.st.nfe == rcv.nfe
    ensures WellAnswered(x, rcv, k, r)
  {
  }

  lemma InsideTest(x: Setup, rcv: Ring, k: int)
    requires ValidSetup(x) && 0 <= rcv.nfe < x.n && 0 <= k < x.n && rcv.nfe <= k < rcv.nfe + x.ring.W
    ensures !Outside(x.ring, rcv, k)
  {
    WindowPlace(x, rcv.nfe, k);
  }

  lemma AheadReaction(x: Setup, rcv: Ring, k: int, top: int, r: Reaction)
    requires BeforeFrame(x, rcv, k, top) && rcv.nfe <= k && |Chunk(x.job, k)| <= x.ring.frameSize
    requires r == Reacts(x, rcv, k)
    ensures StaysInOrder(x, rcv, k, top, r.st)
    ensures r.ack == if r.st.nfe == 0 then x.ring.M - 1 else r.st.nfe - 1
  {
    var a := AheadReassembled(x, rcv, k, top, r);
    ReactionEnd(x, rcv, k, r);
    AheadHolds(x, rcv, k, top, r.st, a);
    PredecessorOf(x, a.nfe);
  }

  lemma AheadAnswer(x: Setup, rcv: Ring, k: int, top: int, r: Reaction)
    requires BeforeFrame(x, rcv, k, top) && rcv.nfe <= k && |Chunk(x.job, k)| <= x.ring.frameSize
    requires r == Reacts(x, rcv, k)
    ensures WellReceived(x, rcv, k, top, r)
  {
    AheadReaction(x, rcv, k, top, r);
    ReactionEnd(x, rcv, k, r);
    InsideTest(x, rcv, k);
    KnownEnd(x, r.st, top);
    AnswerWell(x, rcv, k, r);
  }

  /** Where the window test sees frame k. */
  lemma WindowPlace(x: Setup, m: int, k: int)
    requires ValidSetup(x) && 0 <= m < x.n && 0 <= k < x.n && k < m + x.ring.W
    ensures (k + (x.ring.M - m)) % x.ring.M == if m <= k then k - m else k - m + x.ring.M
  {
    if m <= k {
      ModShift(k - m, 1, x.ring.M);
      ModSmall(k - m, x.ring.M);
    } else {
      ModSmall(k - m + x.ring.M, x.ring.M);
    }
  }

  lemma PredecessorOf(x: Setup, m: int)
    requires ValidSetup(x) && 0 <= m <= x.n
    ensures (m - 1) % x.ring.M == if m == 0 then x.ring.M - 1 else m - 1
  {
    if m == 0 {
      ModShift(-1, 1, x.ring.M);
      ModSmall(x.ring.M - 1, x.ring.M);
    } else {
      ModSmall(m - 1, x.ring.M);
    }
  }

  /** A frame behind the window that is seen to be so. */
  lemma BehindReaction(x: Setup, rcv: Ring, k: int, top: int)
    requires BeforeFrame(x, rcv, k, top) && k < rcv.nfe && |Chunk(x.job, k)| <= x.ring.frameSize
    requires Outside(x.ring, rcv, k)
    ensures WellReceived(x, rcv, k, top, Reacts(x, rcv, k))
  {
    var r := Reacts(x, rcv, k);
    EndTest(x.ring, rcv, Chunk(x.job, k), k, if k == x.n - 1 then 1 else 0);
    SameSlots(x.ring, rcv, r.st, rcv.nfe);
  }

  /** A late duplicate that is taken for a frame of the window: it lands in the slot of a frame beyond the end. */
  lemma LandsBeyond(x: Setup, m: int, k: int) returns (j: int)
    requires ValidSetup(x) && InBound(x) && 0 <= k < m < x.n && k - m + x.ring.M < x.ring.W
    ensures x.n < j && m < j < m + x.ring.W && j % x.ring.W == k % x.ring.W
  {
    AliasRange(x.ring);
    j := k + Alias(x.ring);
    ModShift(k, x.ring.M / x.ring.W, x.ring.W);
  }

  lemma LateReaction(x: Setup, rcv: Ring, k: int, top: int, r: Reaction)
    requires BeforeFrame(x, rcv, k, top) && k < rcv.nfe && |Chunk(x.job, k)| <= x.ring.frameSize
    requires InBound(x) && !Outside(x.ring, rcv, k) && r == Reacts(x, rcv, k)
    ensures StaysInOrder(x, rcv, k, top, r.st) && r.st.nfe == rcv.nfe
  {
    WindowPlace(x, rcv.nfe, k);
    var j := LandsBeyond(x, rcv.nfe, k);
    LateStored(x, rcv, k, j);
    LateAnswer(x, rcv, Store(x.ring, rcv, k % x.ring.W, Chunk(x.job, k)), j, Chunk(x.job, k), top, r);
  }

  lemma LateAnswered(x: Setup, rcv: Ring, k: int, top: int, r: Reaction)
    requires BeforeFrame(x, rcv, k, top) && k < rcv.nfe && |Chunk(x.job, k)| <= x.ring.frameSize
    requires InBound(x) && !Outside(x.ring, rcv, k) && r == Reacts(x, rcv, k)
    ensures WellReceived(x, rcv, k, top, r)
  {
    LateReaction(x, rcv, k, top, r);
    ReactionEnd(x, rcv, k, r);
    Predecessor(x, rcv.nfe);
    KnownEnd(x, r.st, top);
    AnswerWell(x, rcv, k, r);
  }

  /** It is stored, and nothing is drained. */
  lemma LateStored(x: Setup, rcv: Ring, k: int, j: int)
    requires ValidSetup(x) && 0 <= k < rcv.nfe < x.n && AtRest(x.ring, rcv, rcv.nfe) && !Outside(x.ring, rcv, k)
    requires |Chunk(x.job, k)| <= x.ring.frameSize
    requires rcv.nfe < j < rcv.nfe + x.ring.W && j % x.ring.W == k % x.ring.W
    ensures var st1 := Store(x.ring, rcv, k % x.ring.W, Chunk(x.job, k));
            && Held(x.ring, st1, rcv.nfe) == Kept(Held(x.ring, rcv, rcv.nfe), j, Chunk(x.job, k))
            && !Has(x.ring, st1, rcv.nfe) && Reacts(x, rcv, k) == Answer(x.ring, st1, 0)
  {
    var c, m, data := x.ring, rcv.nfe, Chunk(x.job, k);
    var st1 := Store(c, rcv, k % c.W, data);
    StoreHeld(c, rcv, m, j, data);
    assert !Has(c, st1, m) by {
      ModDistinct(m, j, c.W);
    }
    ModSmall(m, c.M);
    DrainNone(c, st1, 0);
    ReceiveIn(c, rcv, data, k, 0, st1, 0);
  }

  lemma LateAnswer(x: Setup, rcv: Ring, st1: Ring, j: int, data: seq<Byte>, top: int, r: Reaction)
    requires ValidSetup(x) && Shape(x.ring, rcv) && Shape(x.ring, st1) && HoldsUpTo(x, rcv, top)
              && 0 <= rcv.nfe < x.n < j
    requires Held(x.ring, st1, rcv.nfe) == Kept(Held(x.ring, rcv, rcv.nfe), j, data) && st1.out == rcv.out
    requires r == Answer(x.ring, st1, 0) && st1.nfe == rcv.nfe && st1.endSeq == rcv.endSeq && !Has(x.ring, st1, rcv.nfe)
    ensures AtRest(x.ring, r.st, rcv.nfe) && HoldsUpTo(x, r.st, top) && r.st.nfe == rcv.nfe
  {
    ModSmall(rcv.nfe, x.ring.M);
    SameSlots(x.ring, st1, r.st, rcv.nfe);
  }

  lemma FrameReaction(x: Setup, s: System, k: int)
    requires ValidSetup(x) && Inv(x, s) && 0 <= k < TopOfWindow(s) && !s.rcvDone && (InBound(x) || s.rcv.nfe <= k)
    ensures |Chunk(x.job, k)| <= x.ring.frameSize
    ensures WellReceived(x, s.rcv, k, TopOfWindow(s), Reacts(x, s.rcv, k))
  {
    FrameFits(x, k);
    if s.rcv.nfe <= k {
      AheadAnswer(x, s.rcv, k, TopOfWindow(s), Reacts(x, s.rcv, k));
    } else if Outside(x.ring, s.rcv, k) {
      BehindReaction(x, s.rcv, k, TopOfWindow(s));
    } else {
      LateAnswered(x, s.rcv, k, TopOfWindow(s), Reacts(x, s.rcv, k));
    }
  }

  /** A delivered packet is frame k of the window or an older one. */
  lemma RecvFrameEffect(x: Setup, s: System, s': System, p: Packet) returns (k: int)
    requires ValidSetup(x) && FramesInv(x, s) && TopOfWindow(s) <= x.n && Next(x, s, s', RecvFrame(p))
    ensures 0 <= k < TopOfWindow(s) && k == p.seqNum && Shape(x.ring, s.rcv) && |Chunk(x.job, k)| <= x.ring.frameSize
    ensures var r := Reacts(x, s.rcv, k); s' == s.(rcv := r.st, acks := s.acks + {r.ack}, rcvDone := r.reachedEnd)
  {
    assert Genuine(x.job, x.n, p, 0, TopOfWindow(s));
    k :| 0 <= k < TopOfWindow(s) && p == PacketOf(x.job, x.n, k);
    FrameFits(x, k);
  }

  lemma RecvFrameInv(x: Setup, s: System, s': System, p: Packet)
    requires ValidSetup(x) && Inv(x, s) && Next(x, s, s', RecvFrame(p)) && (InBound(x) || s.rcv.nfe <= p.seqNum)
    ensures Inv(x, s')
  {
    var k := RecvFrameEffect(x, s, s', p);
    FrameReaction(x, s, k);
    WellReceivedInv(x, s, s', k, Reacts(x, s.rcv, k));
  }

  lemma WellReceivedInv(x: Setup, s: System, s': System, k: int, r: Reaction)
    requires ValidSetup(x) && Inv(x, s) && 0 <= k && !s.rcvDone && WellReceived(x, s.rcv, k, TopOfWindow(s), r)
    requires s' == s.(rcv := r.st, acks := s.acks + {r.ack}, rcvDone := r.reachedEnd)
    ensures Inv(x, s')
  {
    assert FramesInv(x, s') && ReceiverInv(x, s');
  }

  lemma LastAcksInv(x: Setup, s: System, s': System)
    requires ValidSetup(x) && Inv(x, s) && Next(x, s, s', LastAcks)
    ensures Inv(x, s')
  {
    Predecessor(x, s.rcv.nfe);
  }

  lemma NextInv(x: Setup, s: System, s': System, e: Event)
    requires ValidSetup(x) && InBound(x) && Inv(x, s) && Next(x, s, s', e)
    ensures Inv(x, s')
  {
    match e
    case SendPass(clock) => SendPassInv(x, s, s', clock);
    case RecvAck(ack, time) => RecvAckInv(x, s, s', ack, time);
    case RecvTimeout(time) => RecvTimeoutInv(x, s, s', time);
    case RecvFrame(p) => RecvFrameInv(x, s, s', p);
    case LastAcks => LastAcksInv(x, s, s');
  }

  // ---------- Whole runs ----------

  /** Events that lead from the first state to the last. */
  ghost predicate Path(x: Setup, states: seq<System>, events: seq<Event>)
    requires ValidSetup(x)
  {
    |states| == |events| + 1 && forall i :: 0 <= i < |events| ==> StepAt(x, states, events, i)
  }

  ghost predicate Run(x: Setup, states: seq<System>, events: seq<Event>)
    requires ValidSetup(x)
  {
    Path(x, states, events) && Init(x, states[0])
  }

  ghost predicate StepAt(x: Setup, states: seq<System>, events: seq<Event>, i: int)
    requires ValidSetup(x)
  {
    0 <= i < |events| && i + 1 < |states| && Next(x, states[i], states[i + 1], events[i])
  }

  lemma {:induction false} RunInv(x: Setup, states: seq<System>, events: seq<Event>, i: nat)
    requires ValidSetup(x) && InBound(x) && Run(x, states, events) && i < |states|
    ensures Inv(x, states[i])
  {
    if i == 0 {
      InitInv(x, states[0]);
    } else {
      RunInv(x, states, events, i - 1);
      assert StepAt(x, states, events, i - 1);
      NextInv(x, states[i - 1], states[i], events[i - 1]);
    }
  }

  lemma OutputIsPrefix(x: Setup, s: System)
    requires ValidSetup(x) && Inv(x, s)
    ensures s.rcv.out <= x.job.file[..x.job.total]
    ensures s.rcvDone || s.sndDone ==> s.rcv.out == x.job.file[..x.job.total]
  {
    PiecesAreFile(x.job, x.n, s.rcv.nfe);
    OffsetStep(x.job, x.n, x.n - 1);
  }

  /** In every state of every run the receiver's output is a prefix of the bytes to transfer, and it
      is all of them once the receiver has reported the end or the sender has left its loop. */
  lemma EndToEndSafety(x: Setup, states: seq<System>, events: seq<Event>, i: nat)
    requires ValidSetup(x) && InBound(x) && Run(x, states, events) && i < |states|
    ensures states[i].rcv.out <= x.job.file[..x.job.total]
    ensures states[i].rcvDone || states[i].sndDone ==> states[i].rcv.out == x.job.file[..x.job.total]
  {
    RunInv(x, states, events, i);
    OutputIsPrefix(x, states[i]);
  }

  /** How the two windows lie to each other in every state of every run: the receiver is between the
      two ends of the sender's window, every acknowledgement names a delivered frame or nothing, and
      no frame on the network lies beyond the receiver's window. */
  lemma CrossPartyOrder(x: Setup, states: seq<System>, events: seq<Event>, i: nat)
    requires ValidSetup(x) && InBound(x) && Run(x, states, events) && i < |states|
    ensures var s := states[i];
            && s.snd.lar + 1 <= s.rcv.nfe <= s.snd.lar + 1 + |s.snd.window|
            && (forall a :: a in s.acks ==> a == x.ring.M - 1 || 0 <= a < s.rcv.nfe)
            && (forall p :: p in s.frames ==> 0 <= p.seqNum < s.rcv.nfe + x.ring.W)
  {
    RunInv(x, states, events, i);
    var s := states[i];
    forall p | p in s.frames
      ensures 0 <= p.seqNum < s.rcv.nfe + x.ring.W
    {
      assert Genuine(x.job, x.n, p, 0, TopOfWindow(s));
      var k :| 0 <= k < TopOfWindow(s) && p == PacketOf(x.job, x.n, k);
      ModSmall(k, x.job.M);
    }
  }

  /** A timeout in any state of any run moves nothing. */
  lemma ReplayHarmless(x: Setup, states: seq<System>, events: seq<Event>, i: nat)
    requires ValidSetup(x) && InBound(x) && Run(x, states, events) && i < |events| && events[i].RecvTimeout?
    ensures states[i + 1] == states[i].(snd := states[i + 1].snd, awaiting := false)
    ensures states[i + 1].snd == states[i].snd.(cwnd := states[i + 1].snd.cwnd)
  {
    RunInv(x, states, events, i);
    assert StepAt(x, states, events, i);
    TimeoutHarmless(x, states[i], events[i].time);
  }

  /** Every frame of every run fits its datagram and survives being written to one and read from it,
      whatever else the reader's buffer holds. */
  lemma FramesSurviveTheWire(x: Setup, states: seq<System>, events: seq<Event>, i: nat, p: Packet, rest: seq<Byte>)
    requires ValidSetup(x) && InBound(x) && Run(x, states, events) && i < |states| && p in states[i].frames
    requires x.ring.M <= Codec.TWO_TO_31 && Codec.HEADER + x.job.D <= x.ring.frameSize < Codec.TWO_TO_31
    ensures var flag := if p.end then 1 else 0;
            var f := Codec.EncodeFrame(p.seqNum, p.data, flag);
            && |f| <= x.ring.frameSize && Codec.Readable(f + rest)
            && Codec.DecodeFrame(f + rest) == Codec.Contents(p.seqNum, |p.data|, p.data, flag)
  {
    RunInv(x, states, events, i);
    assert Genuine(x.job, x.n, p, 0, TopOfWindow(states[i]));
    var k :| 0 <= k < TopOfWindow(states[i]) && p == PacketOf(x.job, x.n, k);
    OffsetStep(x.job, x.n, k);
    Codec.FrameRoundTrip(p.seqNum, p.data, if p.end then 1 else 0, rest);
  }

  // ---------- Progress ----------

  /** The oldest frame of the window is delivered, and then the acknowledgement it provokes. */
  ghost predicate Exchange(x: Setup, s: System, s1: System, ack: int, s2: System, time: int)
    requires ValidSetup(x)
  {
    && Next(x, s, s1, RecvFrame(PacketOf(x.job, x.n, s.snd.lar + 1))) && s1.acks == s.acks + {ack}
    && Next(x, s1, s2, RecvAck(ack, time))
  }

  /** Late duplicates can do no harm, or there are none. */
  ghost predicate Steady(x: Setup, s: System)
    requires ValidSetup(x)
  {
    InBound(x) || s.rcv.nfe == s.snd.lar + 1
  }

  /** The receiver's answer to the oldest frame of the window. */
  lemma OldestAnswered(x: Setup, s: System, k: int)
    requires ValidSetup(x) && Inv(x, s) && Steady(x, s) && !s.rcvDone && k == s.snd.lar + 1 && s.snd.window != []
    ensures PacketOf(x.job, x.n, k) == Packet(k, Chunk(x.job, k), k == x.n - 1)
    ensures PacketOf(x.job, x.n, k) in s.frames && |Chunk(x.job, k)| <= x.ring.frameSize
    ensures k <= Reacts(x, s.rcv, k).ack < Reacts(x, s.rcv, k).st.nfe
  {
    FrameFits(x, k);
    FrameReaction(x, s, k);
  }

  /** Any frame that has been sent can be delivered, also again. */
  lemma CanDeliver(x: Setup, s: System, k: int) returns (s1: System)
    requires ValidSetup(x) && FramesInv(x, s) && 0 <= k < TopOfWindow(s) <= x.n && !s.rcvDone && Shape(x.ring, s.rcv)
    ensures |Chunk(x.job, k)| <= x.ring.frameSize && Next(x, s, s1, RecvFrame(PacketOf(x.job, x.n, k)))
    ensures var r := Reacts(x, s.rcv, k); s1 == s.(rcv := r.st, acks := s.acks + {r.ack}, rcvDone := r.reachedEnd)
  {
    FrameFits(x, k);
    var r := Reacts(x, s.rcv, k);
    s1 := s.(rcv := r.st, acks := s.acks + {r.ack}, rcvDone := r.reachedEnd);
  }

  /** A frame that has been sent is delivered and acknowledged. */
  lemma DeliverAcked(x: Setup, s: System, k: int) returns (s1: System, ack: int)
    requires ValidSetup(x) && FramesInv(x, s) && 0 <= k < TopOfWindow(s) <= x.n && !s.rcvDone && Shape(x.ring, s.rcv)
    requires |Chunk(x.job, k)| <= x.ring.frameSize && k <= Reacts(x, s.rcv, k).ack < Reacts(x, s.rcv, k).st.nfe
    ensures Next(x, s, s1, RecvFrame(PacketOf(x.job, x.n, k))) && s1.acks == s.acks + {ack}
    ensures s1.snd == s.snd && s1.sndDone == s.sndDone && s1.awaiting == s.awaiting && k <= ack < s1.rcv.nfe
  {
    s1 := CanDeliver(x, s, k);
    ack := Reacts(x, s.rcv, k).ack;
  }

  /** Delivering the oldest frame of the window. */
  lemma OldestFrame(x: Setup, s: System) returns (s1: System, ack: int)
    requires ValidSetup(x) && Inv(x, s) && Steady(x, s) && !s.sndDone && !s.rcvDone && s.snd.window != []
    ensures Next(x, s, s1, RecvFrame(PacketOf(x.job, x.n, s.snd.lar + 1))) && s1.acks == s.acks + {ack}
    ensures s1.snd == s.snd && !s1.sndDone && s1.awaiting == s.awaiting && s.snd.lar < ack < s1.rcv.nfe
  {
    OldestAnswered(x, s, s.snd.lar + 1);
    s1, ack := DeliverAcked(x, s, s.snd.lar + 1);
  }

  /** Delivering an acknowledgement of a frame of the window. */
  lemma FreshAck(x: Setup, s: System, ack: int, time: int) returns (s': System)
    requires ValidSetup(x) && Inv(x, s) && !s.sndDone && s.awaiting && ack in s.acks && s.snd.lar < ack < s.rcv.nfe
    ensures Next(x, s, s', RecvAck(ack, time)) && Inv(x, s') && s'.rcv == s.rcv
    ensures s'.sndDone || s.snd.lar < s'.snd.lar
    ensures ack == x.n - 1 ==> s'.sndDone
  {
    var (snd, done) := HandleAck(x.job, s.snd, ack, time);
    s' := s.(snd := snd, awaiting := false, sndDone := done);
    assert Next(x, s, s', RecvAck(ack, time));
    RecvAckInv(x, s, s', ack, time);
  }

  /** The exchange is always possible and advances the sender or ends the transfer, also when the
      receiver is ahead and answers from outside its window. */
  lemma Progress(x: Setup, s: System, time: int)
    requires ValidSetup(x) && Inv(x, s) && Steady(x, s) && !s.sndDone && !s.rcvDone && s.awaiting && s.snd.window != []
    ensures exists s1, ack, s2 :: Exchange(x, s, s1, ack, s2, time) && (s2.sndDone || s.snd.lar < s2.snd.lar)
  {
    var s1, ack := OldestFrame(x, s);
    FrameFits(x, s.snd.lar + 1);
    RecvFrameInv(x, s, s1, PacketOf(x.job, x.n, s.snd.lar + 1));
    var s2 := FreshAck(x, s1, ack, time);
    assert Exchange(x, s, s1, ack, s2, time);
  }

  /** After a pass there always is an oldest frame to deliver. */
  lemma PassFillsWindow(x: Setup, s: System, clock: int -> int)
    requires ValidSetup(x) && Inv(x, s) && Sane(x.job, s.snd)
    ensures Pass(x.job, s.snd, clock).0.window != []
  {
    var c, st, base := x.job, s.snd, s.snd.lar + 1;
    PassSpec(c, x.n, st, base, 0, true, clock);
    if st.window == [] {
      ReadUpIff(c, x.n, st, base);
      PlaceOk(c, x.n, st, base, 0, true, clock);
      var round := SendPlace(c, st, 0, true, clock);
      if !round.stop {
        PassSpec(c, x.n, round.st, base, 1, round.mayHalve, clock);
      }
    }
  }

  /** A frame that was lost is not lost for good: once its timer has run out, a pass sends the oldest
      frame of the window again. */
  lemma LateClockResends(x: Setup, s: System, clock: int -> int)
    requires ValidSetup(x) && Inv(x, s) && Sane(x.job, s.snd) && s.snd.window != []
    requires clock(0) - s.snd.window[0].sendTime >= s.snd.rtt.timeout
    ensures PacketOf(x.job, x.n, s.snd.lar + 1) in Pass(x.job, s.snd, clock).1
  {
    var round := SendPlace(x.job, s.snd, 0, true, clock);
    SeqNoOfPlace(x.job, x.n, s.snd, s.snd.lar + 1, 0);
    assert FrameOk(x.job, x.n, s.snd.window[0], s.snd.lar + 1);
    assert round.ps[0] == PacketOf(x.job, x.n, s.snd.lar + 1);
  }

  // ---------- No run is ever stuck ----------

  /** The event reads this clock, if it reads one. */
  ghost predicate OnClock(e: Event, clock: int -> int) {
    match e
    case SendPass(c) => c == clock
    case RecvAck(_, time) => time == clock(0)
    case RecvTimeout(time) => time == clock(0)
    case _ => true
  }

  /** s' can be reached from s by the events from number i up to number j, the k-th of which reads the
      clock tick(k). */
  ghost predicate Reaches(x: Setup, tick: int -> int -> int, s: System, i: int, s': System, j: int)
    requires ValidSetup(x)
  {
    exists states: seq<System>, events: seq<Event> :: Leads(x, tick, states, events, s, i, s', j)
  }

  ghost predicate Leads(x: Setup, tick: int -> int -> int, states: seq<System>, events: seq<Event>,
                        s: System, i: int, s': System, j: int)
    requires ValidSetup(x)
  {
    && Path(x, states, events) && states[0] == s && states[|events|] == s' && j == i + |events|
    && Timed(tick, events, i)
  }

  ghost predicate Timed(tick: int -> int -> int, events: seq<Event>, i: int) {
    forall k :: 0 <= k < |events| ==> OnClock(events[k], tick(i + k))
  }

  lemma ReachesStep(x: Setup, tick: int -> int -> int, s: System, i: int, s': System, e: Event)
    requires ValidSetup(x) && Next(x, s, s', e) && OnClock(e, tick(i))
    ensures Reaches(x, tick, s, i, s', i + 1)
  {
    var states, events := [s, s'], [e];
    assert StepAt(x, states, events, 0);
    assert Leads(x, tick, states, events, s, i, s', i + 1);
  }

  lemma ReachesSelf(x: Setup, tick: int -> int -> int, s: System, i: int)
    requires ValidSetup(x)
    ensures Reaches(x, tick, s, i, s, i)
  {
    var states: seq<System>, events: seq<Event> := [s], [];
    assert Leads(x, tick, states, events, s, i, s, i);
  }

  lemma ReachesOn(x: Setup, tick: int -> int -> int, s: System, i: int, s': System, j: int, s'': System, k: int)
    requires ValidSetup(x) && Reaches(x, tick, s, i, s', j) && Reaches(x, tick, s', j, s'', k)
    ensures Reaches(x, tick, s, i, s'', k)
  {
    var p1, e1 :| Leads(x, tick, p1, e1, s, i, s', j);
    var p2, e2 :| Leads(x, tick, p2, e2, s', j, s'', k);
    JoinedPath(x, p1, e1, p2, e2);
    JoinedTimes(tick, e1, i, e2);
    assert Leads(x, tick, p1 + p2[1..], e1 + e2, s, i, s'', k);
  }

  lemma JoinedPath(x: Setup, p1: seq<System>, e1: seq<Event>, p2: seq<System>, e2: seq<Event>)
    requires ValidSetup(x) && Path(x, p1, e1) && Path(x, p2, e2) && p1[|e1|] == p2[0]
    ensures Path(x, p1 + p2[1..], e1 + e2)
  {
    var p, e := p1 + p2[1..], e1 + e2;
    forall n | 0 <= n < |e|
      ensures StepAt(x, p, e, n)
    {
      if n < |e1| {
        assert StepAt(x, p1, e1, n);
      } else {
        assert StepAt(x, p2, e2, n - |e1|);
      }
    }
  }

  lemma JoinedTimes(tick: int -> int -> int, e1: seq<Event>, i: int, e2: seq<Event>)
    requires Timed(tick, e1, i) && Timed(tick, e2, i + |e1|)
    ensures Timed(tick, e1 + e2, i)
  {
    forall n | |e1| <= n < |e1 + e2|
      ensures OnClock((e1 + e2)[n], tick(i + n))
    {
      assert OnClock(e2[n - |e1|], tick(i + |e1| + (n - |e1|)));
    }
  }

  /** When the sender waits, a timeout brings it back to its pass. */
  lemma BackToPass(x: Setup, tick: int -> int -> int, s: System, i: int) returns (s': System, j: int)
    requires ValidSetup(x) && Inv(x, s) && !s.sndDone
    ensures Reaches(x, tick, s, i, s', j) && Inv(x, s') && !s'.sndDone && !s'.awaiting
    ensures s'.snd.lar == s.snd.lar && s'.rcv == s.rcv
  {
    if s.awaiting {
      var e := RecvTimeout(tick(i)(0));
      var (snd, done) := HandleTimeout(x.job, s.snd, e.time);
      s', j := s.(snd := snd, awaiting := false, sndDone := done), i + 1;
      assert Next(x, s, s', e);
      TimeoutHarmless(x, s, e.time);
      RecvTimeoutInv(x, s, s', e.time);
      ReachesStep(x, tick, s, i, s', e);
    } else {
      s', j := s, i;
      ReachesSelf(x, tick, s, i);
    }
  }

  /** A pass leaves a frame in the window. */
  lemma PassReaches(x: Setup, tick: int -> int -> int, s: System, i: int) returns (s': System)
    requires ValidSetup(x) && Inv(x, s) && !s.sndDone && !s.awaiting
    ensures Reaches(x, tick, s, i, s', i + 1) && Inv(x, s') && s'.snd.window != []
    ensures s'.snd.lar == s.snd.lar && s'.rcv == s.rcv && !s'.sndDone && s'.awaiting
  {
    var clock := tick(i);
    ReadUpIff(x.job, x.n, s.snd, s.snd.lar + 1);
    var (snd, ps) := Pass(x.job, s.snd, clock);
    s' := s.(snd := snd, frames := s.frames + (set p | p in ps), awaiting := true);
    assert Next(x, s, s', SendPass(clock));
    SendPassInv(x, s, s', clock);
    PassSpec(x.job, x.n, s.snd, s.snd.lar + 1, 0, true, clock);
    PassFillsWindow(x, s, clock);
    ReachesStep(x, tick, s, i, s', SendPass(clock));
  }

  /** Once the receiver is done, one of its last acknowledgements ends the sender. */
  lemma LastAckEnds(x: Setup, tick: int -> int -> int, s: System, i: int) returns (s': System)
    requires ValidSetup(x) && Inv(x, s) && !s.sndDone && s.awaiting && s.rcvDone
    ensures Reaches(x, tick, s, i, s', i + 2) && Inv(x, s') && s'.sndDone
  {
    var ack := (s.rcv.nfe + x.ring.M - 1) % x.ring.M;
    Predecessor(x, s.rcv.nfe);
    var s1 := s.(acks := s.acks + {ack});
    assert Next(x, s, s1, LastAcks);
    LastAcksInv(x, s, s1);
    var e := RecvAck(ack, tick(i + 1)(0));
    s' := FreshAck(x, s1, ack, e.ackTime);
    ReachesStep(x, tick, s, i, s1, LastAcks);
    ReachesStep(x, tick, s1, i + 1, s', e);
    ReachesOn(x, tick, s, i, s1, i + 1, s', i + 2);
  }

  lemma ExchangeReaches(x: Setup, tick: int -> int -> int, s: System, i: int) returns (s': System)
    requires ValidSetup(x) && Inv(x, s) && Steady(x, s) && !s.sndDone && !s.rcvDone && s.awaiting && s.snd.window != []
    ensures Reaches(x, tick, s, i, s', i + 2) && Inv(x, s') && (s'.sndDone || s.snd.lar < s'.snd.lar)
  {
    var time := tick(i + 1)(0);
    Progress(x, s, time);
    var s1, ack, s2 :| Exchange(x, s, s1, ack, s2, time) && (s2.sndDone || s.snd.lar < s2.snd.lar);
    s' := s2;
    ExchangeSteps(x, s, s1, ack, s2, time);
    ReachesStep(x, tick, s, i, s1, RecvFrame(PacketOf(x.job, x.n, s.snd.lar + 1)));
    ReachesStep(x, tick, s1, i + 1, s2, RecvAck(ack, time));
    ReachesOn(x, tick, s, i, s1, i + 1, s2, i + 2);
  }

  lemma ExchangeSteps(x: Setup, s: System, s1: System, ack: int, s2: System, time: int)
    requires ValidSetup(x) && Inv(x, s) && Steady(x, s) && s.snd.window != [] && Exchange(x, s, s1, ack, s2, time)
    ensures Next(x, s, s1, RecvFrame(PacketOf(x.job, x.n, s.snd.lar + 1))) && Next(x, s1, s2, RecvAck(ack, time))
    ensures Inv(x, s2)
  {
    FrameFits(x, s.snd.lar + 1);
    RecvFrameInv(x, s, s1, PacketOf(x.job, x.n, s.snd.lar + 1));
    RecvAckInv(x, s1, s2, ack, time);
  }

  /** The sender can always be brought one frame further, or to its end. */
  lemma Advance(x: Setup, tick: int -> int -> int, s: System, i: int) returns (s': System, j: int)
    requires ValidSetup(x) && InBound(x) && Inv(x, s) && !s.sndDone
    ensures Reaches(x, tick, s, i, s', j) && Inv(x, s') && (s'.sndDone || s.snd.lar < s'.snd.lar)
  {
    var s1, k := BackToPass(x, tick, s, i);
    var s2 := PassReaches(x, tick, s1, k);
    if s2.rcvDone {
      s' := LastAckEnds(x, tick, s2, k + 1);
    } else {
      s' := ExchangeReaches(x, tick, s2, k + 1);
    }
    j := k + 3;
    ReachesOn(x, tick, s1, k, s2, k + 1, s', j);
    ReachesOn(x, tick, s, i, s1, k, s', j);
  }

  lemma {:induction false} CanFinishFrom(x: Setup, tick: int -> int -> int, s: System, i: int)
    requires ValidSetup(x) && InBound(x) && Inv(x, s)
    ensures exists s', j :: Reaches(x, tick, s, i, s', j) && s'.sndDone && s'.rcv.out == x.job.file[..x.job.total]
    decreases !s.sndDone, x.n - s.snd.lar
  {
    if s.sndDone {
      ReachesSelf(x, tick, s, i);
      OutputIsPrefix(x, s);
    } else {
      var s1, k := Advance(x, tick, s, i);
      CanFinishFrom(x, tick, s1, k);
      var s2, j :| Reaches(x, tick, s1, k, s2, j) && s2.sndDone && s2.rcv.out == x.job.file[..x.job.total];
      ReachesOn(x, tick, s, i, s1, k, s2, j);
    }
  }

  /** No run gets stuck: from each of its states, whatever the clock shows from then on, alternating passes
      and waits and deliveries of what has been sent complete the transfer. */
  lemma CanAlwaysFinish(x: Setup, states: seq<System>, events: seq<Event>, i: nat, tick: int -> int -> int)
    requires ValidSetup(x) && InBound(x) && Run(x, states, events) && i < |states|
    ensures exists s', j ::
              Reaches(x, tick, states[i], i, s', j) && s'.sndDone && s'.rcv.out == x.job.file[..x.job.total]
  {
    RunInv(x, states, events, i);
    CanFinishFrom(x, tick, states[i], i);
  }
}

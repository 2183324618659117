/** How many frames a transfer may take: with one more, a late duplicate can spoil the output. */
module TransferBound {
  import opened Modular
  import opened Reassembly
  import opened Sending
  import opened Alignment
  import opened Transfer

  // ---------- A run in which everything arrives in order ----------

  /** The receiver has what the sender has been told it has, and nothing else. */
  ghost predicate InOrder(x: Setup, s: System)
    requires ValidSetup(x)
  {
    && Inv(x, s) && !s.sndDone && s.rcv.nfe == s.snd.lar + 1 && Held(x.ring, s.rcv, s.rcv.nfe) == map[]
  }

  /** The next frame alone. */
  lemma NextDelivered(x: Setup, s: System, r: Reaction)
    requires ValidSetup(x) && InOrder(x, s) && s.rcv.nfe < TopOfWindow(s)
    requires |Chunk(x.job, s.rcv.nfe)| <= x.ring.frameSize && r == Reacts(x, s.rcv, s.rcv.nfe)
    ensures r.st.nfe == s.rcv.nfe + 1 == r.ack + 1 && Held(x.ring, r.st, r.st.nfe) == map[]
    ensures r.reachedEnd <==> r.st.nfe == x.n
  {
    var m := s.rcv.nfe;
    var a := AheadReassembled(x, s.rcv, m, TopOfWindow(s), r);
    assert a.nfe - 1 == m;
    assert Held(x.ring, r.st, a.nfe) == map[];
    FrameReaction(x, s, m);
  }

  /** The sender has made a pass and waits, and the receiver is as it was. */
  lemma PassOnce(x: Setup, tick: int -> int -> int, s: System, i: int) returns (s': System, j: int)
    requires ValidSetup(x) && InOrder(x, s)
    ensures Reaches(x, tick, s, i, s', j) && InOrder(x, s') && s'.rcv == s.rcv && s'.snd.window != [] && s'.awaiting
  {
    var s1, k := BackToPass(x, tick, s, i);
    s' := PassReaches(x, tick, s1, k);
    j := k + 1;
    ReachesOn(x, tick, s, i, s1, k, s', j);
  }

  /** The next frame arrives. */
  lemma DeliverNext(x: Setup, s: System) returns (s': System)
    requires ValidSetup(x) && InOrder(x, s) && s.rcv.nfe < TopOfWindow(s) && s.rcv.nfe + 1 < x.n
    ensures Next(x, s, s', RecvFrame(PacketOf(x.job, x.n, s.rcv.nfe))) && Inv(x, s') && s'.snd == s.snd
    ensures s'.awaiting == s.awaiting && !s'.sndDone && s.rcv.nfe in s'.acks
    ensures s'.rcv.nfe == s.rcv.nfe + 1 && Held(x.ring, s'.rcv, s'.rcv.nfe) == map[]
  {
    s' := CanDeliver(x, s, s.rcv.nfe);
    NextDelivered(x, s, Reacts(x, s.rcv, s.rcv.nfe));
    DeliveredInv(x, s, s', s.rcv.nfe);
  }

  lemma DeliveredInv(x: Setup, s: System, s': System, k: int)
    requires ValidSetup(x) && Inv(x, s) && s.rcv.nfe <= k < x.n && Next(x, s, s', RecvFrame(PacketOf(x.job, x.n, k)))
    ensures Inv(x, s')
  {
    FrameFits(x, k);
    RecvFrameInv(x, s, s', PacketOf(x.job, x.n, k));
  }

  /** Its acknowledgement arrives. */
  lemma AckNext(x: Setup, s: System, time: int) returns (s': System)
    requires ValidSetup(x) && Inv(x, s) && !s.sndDone && s.awaiting && Held(x.ring, s.rcv, s.rcv.nfe) == map[]
    requires s.snd.lar + 2 == s.rcv.nfe < x.n && s.rcv.nfe - 1 in s.acks
    ensures Next(x, s, s', RecvAck(s.rcv.nfe - 1, time)) && InOrder(x, s') && s'.rcv == s.rcv
  {
    s' := FreshAck(x, s, s.rcv.nfe - 1, time);
    RecvAckInv(x, s, s', s.rcv.nfe - 1, time);
  }

  lemma TwoSteps(x: Setup, tick: int -> int -> int, s: System, i: int, s1: System, e1: Event, s2: System, e2: Event)
    requires ValidSetup(x) && Next(x, s, s1, e1) && OnClock(e1, tick(i)) && Next(x, s1, s2, e2)
              && OnClock(e2, tick(i + 1))
    ensures Reaches(x, tick, s, i, s2, i + 2)
  {
    ReachesStep(x, tick, s, i, s1, e1);
    ReachesStep(x, tick, s1, i + 1, s2, e2);
    ReachesOn(x, tick, s, i, s1, i + 1, s2, i + 2);
  }

  lemma ExchangeOnce(x: Setup, tick: int -> int -> int, s: System, i: int) returns (s': System)
    requires ValidSetup(x) && InOrder(x, s) && s.awaiting && s.rcv.nfe < TopOfWindow(s) && s.rcv.nfe + 1 < x.n
    ensures Reaches(x, tick, s, i, s', i + 2) && InOrder(x, s') && s'.rcv.nfe == s.rcv.nfe + 1
  {
    var m, time := s.rcv.nfe, tick(i + 1)(0);
    var s1 := DeliverNext(x, s);
    s' := AckNext(x, s1, time);
    TwoSteps(x, tick, s, i, s1, RecvFrame(PacketOf(x.job, x.n, m)), s', RecvAck(m, time));
  }

  /** One more frame is delivered and acknowledged. */
  lemma OneMore(x: Setup, tick: int -> int -> int, s: System, i: int) returns (s': System, j: int)
    requires ValidSetup(x) && InOrder(x, s) && s.rcv.nfe + 1 < x.n
    ensures Reaches(x, tick, s, i, s', j) && InOrder(x, s') && s'.rcv.nfe == s.rcv.nfe + 1
  {
    var s1, k := PassOnce(x, tick, s, i);
    s' := ExchangeOnce(x, tick, s1, k);
    j := k + 2;
    ReachesOn(x, tick, s, i, s1, k, s', j);
  }

  lemma {:induction false} ReachInOrder(x: Setup, tick: int -> int -> int, s0: System, m: nat)
    returns (s: System, j: int)
    requires ValidSetup(x) && Init(x, s0) && m < x.n
    ensures Reaches(x, tick, s0, 0, s, j) && InOrder(x, s) && s.rcv.nfe == m
  {
    if m == 0 {
      InitInv(x, s0);
      ReachesSelf(x, tick, s0, 0);
      s, j := s0, 0;
    } else {
      var s1, k := ReachInOrder(x, tick, s0, m - 1);
      s, j := OneMore(x, tick, s1, k);
      ReachesOn(x, tick, s0, 0, s1, k, s, j);
    }
  }

  // ---------- Frame 0 once more ----------

  /** Where the window is when the duplicate arrives: at the frame whose slot it takes, or one before. */
  function Place(c: Config): int
    requires ValidConfig(c)
  {
    if Alias(c) == c.M - c.W + 1 then Alias(c) else Alias(c) - 1
  }

  lemma PlaceRange(c: Config)
    requires ValidConfig(c) && 2 <= c.W
    ensures c.M - c.W < Place(c) < c.M && Place(c) + 1 == Bound(c) && Alias(c) % c.W == 0
  {
    AliasRange(c);
    ModShift(0, c.M / c.W, c.W);
    ModSmall(0, c.W);
  }

  /** It is taken for a frame of the window. */
  lemma DuplicateInside(x: Setup, st: Ring)
    requires ValidSetup(x) && st.nfe == Place(x.ring)
    ensures !Outside(x.ring, st, 0)
  {
    PlaceRange(x.ring);
    ModSmall(x.ring.M - st.nfe, x.ring.M);
  }

  /** The duplicate alone is delivered as frame Alias. */
  lemma DeliveredAsAlias(x: Setup, st: Ring)
    requires ValidSetup(x) && 2 <= x.n && AtRest(x.ring, st, st.nfe) && Held(x.ring, st, st.nfe) == map[]
    requires st.nfe == Place(x.ring) == Alias(x.ring) && |Chunk(x.job, 0)| <= x.ring.frameSize
    ensures Reacts(x, st, 0).st.out == st.out + Chunk(x.job, 0)
  {
    var c, m, data := x.ring, st.nfe, Chunk(x.job, 0);
    PlaceRange(c);
    DuplicateInside(x, st);
    var st1, j := Settle(c, st, m, m, data, 0, 0);
    var got := Kept(map[], m, data);
    assert got.Keys == {m} && FirstMissing(got.Keys, m) == m + 1;
    assert Collect(got, m, m + 1) == data;
    ModSmall(0, c.W);
    ReceiveIn(c, st, data, 0, 0, st1, j);
  }

  /** A frame next but one is kept, and nothing is drained. */
  lemma KeptNextButOne(c: Config, st: Ring, m: int, data: seq<Byte>) returns (st1: Ring)
    requires Ordered(c, m) && 2 <= c.W && AtRest(c, st, m) && Held(c, st, m) == map[] && |data| <= c.frameSize
    ensures (st1, 0) == Drain(c, Store(c, Noted(st, 0, 0), (m + 1) % c.W, data), 0)
    ensures st1.out == st.out && Held(c, st1, m) == map[m + 1 := data] && !Has(c, st1, m)
  {
    var j;
    st1, j := Settle(c, st, m, m + 1, data, 0, 0);
    var got := Kept(map[], m + 1, data);
    assert got.Keys == {m + 1} && FirstMissing(got.Keys, m) == m;
    assert From(got, m) == got;
  }

  /** The duplicate waits in the slot of frame Alias, which is next but one. */
  lemma StoredAsAlias(x: Setup, st: Ring, r: Reaction)
    requires ValidSetup(x) && 2 <= x.n && AtRest(x.ring, st, st.nfe) && Held(x.ring, st, st.nfe) == map[]
    requires st.nfe == Place(x.ring) == Alias(x.ring) - 1 && |Chunk(x.job, 0)| <= x.ring.frameSize
    requires r == Reacts(x, st, 0)
    ensures AtRest(x.ring, r.st, st.nfe) && r.st.nfe == st.nfe && r.st.out == st.out
    ensures Held(x.ring, r.st, st.nfe) == map[st.nfe + 1 := Chunk(x.job, 0)]
  {
    var c, m, data := x.ring, st.nfe, Chunk(x.job, 0);
    PlaceRange(c);
    DuplicateInside(x, st);
    var st1 := KeptNextButOne(c, st, m, data);
    ModSmall(0, c.W);
    ReceiveIn(c, st, data, 0, 0, st1, 0);
    ModSmall(m, c.M);
    SameSlots(c, st1, r.st, m);
  }

  /** The duplicate does not look like the end. */
  lemma NotTheEnd(x: Setup, st: Ring, r: Reaction)
    requires ValidSetup(x) && 2 <= x.n && Shape(x.ring, st) && 0 < st.nfe == r.st.nfe < x.n && r == Reacts(x, st, 0)
    requires |Chunk(x.job, 0)| <= x.ring.frameSize && (st.endSeq == -1 || st.endSeq == x.n - 1)
    requires !Outside(x.ring, st, 0)
    ensures !r.reachedEnd
  {
    ReactionEnd(x, st, 0, r);
    Predecessor(x, st.nfe);
  }

  /** The frame before it brings it out. */
  lemma BothDelivered(x: Setup, st: Ring, m: int, r: Reaction)
    requires ValidSetup(x) && AtRest(x.ring, st, m) && 0 <= m == st.nfe < x.n && r == Reacts(x, st, m)
    requires Held(x.ring, st, m) == map[m + 1 := Chunk(x.job, 0)] && |Chunk(x.job, m)| <= x.ring.frameSize
    ensures r.st.out == st.out + Chunk(x.job, m) + Chunk(x.job, 0)
  {
    var c, data := x.ring, Chunk(x.job, m);
    ModSmall(m, c.M);
    RefinesAhead(c, st, m, m, data, if m == x.n - 1 then 1 else 0);
    var both := Reassemble(Abstract(c, st, m), m, data);
    RefinedIs(c, st, m, m, data, r, both.0, both.1);
    TwoDelivered(Abstract(c, st, m), m, data, Chunk(x.job, 0));
  }

  lemma TwoDelivered(r: Reassembler, m: int, first: seq<Byte>, second: seq<Byte>)
    requires r.nfe == m && r.got == map[m + 1 := second]
    ensures Reassemble(r, m, first).0.out == r.out + first + second
  {
    var got := Kept(r.got, m, first);
    var g := FirstMissing(got.Keys, m);
    assert got.Keys == {m, m + 1};
    assert g == m + 2 by {
      assert m + 2 < g ==> m + 2 in got.Keys;
    }
    assert Collect(got, m + 1, m + 2) == second;
    assert Collect(got, m, m + 2) == first + second;
  }

  // ---------- The spoilt output ----------

  /** Frame 0 arrives once more, in the place of frame Alias. */
  lemma SpoiltAtOnce(x: Setup, s: System) returns (s': System)
    requires ValidSetup(x) && 2 <= x.n && InOrder(x, s) && s.rcv.nfe == Place(x.ring) == Alias(x.ring)
    requires 0 < TopOfWindow(s)
    ensures Next(x, s, s', RecvFrame(PacketOf(x.job, x.n, 0))) && s'.rcv.out == s.rcv.out + Chunk(x.job, 0)
  {
    s' := CanDeliver(x, s, 0);
    DeliveredAsAlias(x, s.rcv);
  }

  /** Frame 0 arrives once more, ... */
  lemma SpoiltFirst(x: Setup, s: System) returns (s': System)
    requires ValidSetup(x) && 2 <= x.n && InOrder(x, s) && 0 < s.rcv.nfe == Place(x.ring) == Alias(x.ring) - 1
    requires 0 < TopOfWindow(s)
    ensures Next(x, s, s', RecvFrame(PacketOf(x.job, x.n, 0))) && s'.rcv.out == s.rcv.out && !s'.rcvDone
    ensures s'.rcv.nfe == s.rcv.nfe && AtRest(x.ring, s'.rcv, s.rcv.nfe) && s'.snd == s.snd && s'.frames == s.frames
    ensures Held(x.ring, s'.rcv, s.rcv.nfe) == map[s.rcv.nfe + 1 := Chunk(x.job, 0)]
  {
    s' := CanDeliver(x, s, 0);
    StoredAsAlias(x, s.rcv, Reacts(x, s.rcv, 0));
    DuplicateInside(x, s.rcv);
    KnownEnd(x, s.rcv, TopOfWindow(s));
    NotTheEnd(x, s.rcv, Reacts(x, s.rcv, 0));
  }

  /** ... and then the frame of the window. */
  lemma SpoiltThen(x: Setup, s: System, m: int) returns (s': System)
    requires ValidSetup(x) && FramesInv(x, s) && !s.rcvDone && 0 <= m == s.rcv.nfe < TopOfWindow(s) <= x.n
    requires AtRest(x.ring, s.rcv, m) && Held(x.ring, s.rcv, m) == map[m + 1 := Chunk(x.job, 0)]
    ensures Next(x, s, s', RecvFrame(PacketOf(x.job, x.n, m)))
    ensures s'.rcv.out == s.rcv.out + Chunk(x.job, m) + Chunk(x.job, 0)
  {
    s' := CanDeliver(x, s, m);
    BothDelivered(x, s.rcv, m, Reacts(x, s.rcv, m));
  }

  lemma OutputInOrder(x: Setup, s: System)
    requires ValidSetup(x) && InOrder(x, s)
    ensures s.rcv.out == Pieces(Chunks(x.job), s.rcv.nfe)
  {
  }

  lemma SpoilsAtOnce(x: Setup, tick: int -> int -> int, s: System, i: int) returns (s': System)
    requires ValidSetup(x) && 2 <= x.n && InOrder(x, s) && 0 < s.rcv.nfe == Place(x.ring) == Alias(x.ring)
    ensures Reaches(x, tick, s, i, s', i + 1) && s'.rcv.out == Pieces(Chunks(x.job), s.rcv.nfe) + Chunk(x.job, 0)
  {
    OutputInOrder(x, s);
    s' := SpoiltAtOnce(x, s);
    ReachesStep(x, tick, s, i, s', RecvFrame(PacketOf(x.job, x.n, 0)));
  }

  lemma SpoilsThen(x: Setup, tick: int -> int -> int, s: System, i: int) returns (s': System)
    requires ValidSetup(x) && 2 <= x.n && InOrder(x, s) && 0 < s.rcv.nfe == Place(x.ring) == Alias(x.ring) - 1
    requires s.rcv.nfe < TopOfWindow(s)
    ensures Reaches(x, tick, s, i, s', i + 2)
    ensures s'.rcv.out == Pieces(Chunks(x.job), s.rcv.nfe + 1) + Chunk(x.job, 0)
  {
    var m := s.rcv.nfe;
    OutputInOrder(x, s);
    var s1 := SpoiltFirst(x, s);
    s' := SpoiltThen(x, s1, m);
    TwoSteps(x, tick, s, i, s1, RecvFrame(PacketOf(x.job, x.n, 0)), s', RecvFrame(PacketOf(x.job, x.n, m)));
    assert Pieces(Chunks(x.job), m + 1) == Pieces(Chunks(x.job), m) + Chunk(x.job, m);
  }

  /** With the window at Place and nothing held, frame 0 is written in the place of frame Alias. */
  lemma Spoilt(x: Setup, tick: int -> int -> int, s: System, i: int) returns (s': System, j: int)
    requires ValidSetup(x) && InOrder(x, s) && s.rcv.nfe == Place(x.ring) && 2 <= x.n && 0 < Place(x.ring)
    requires Place(x.ring) == Alias(x.ring) || Place(x.ring) == Alias(x.ring) - 1
    ensures Reaches(x, tick, s, i, s', j) && s'.rcv.out == Pieces(Chunks(x.job), Alias(x.ring)) + Chunk(x.job, 0)
  {
    var s1, k := PassOnce(x, tick, s, i);
    if Place(x.ring) == Alias(x.ring) {
      s' := SpoilsAtOnce(x, tick, s1, k);
      j := k + 1;
    } else {
      s' := SpoilsThen(x, tick, s1, k);
      j := k + 2;
    }
    ReachesOn(x, tick, s, i, s1, k, s', j);
  }

  /** A file whose first byte differs from all others. */
  ghost function Marked(n: nat): (f: seq<Byte>)
    ensures |f| == n && forall i :: 0 <= i < n ==> f[i] == if i == 0 then 1 else 0
  {
    seq(n, i => if i == 0 then 1 else 0)
  }

  /** Frame 0 in the place of a later one shows. */
  lemma WrongPlace(x: Setup, k: int)
    requires ValidSetup(x) && x.job.file == Marked(x.job.total) && 0 < k <= x.n
    ensures !(Pieces(Chunks(x.job), k) + Chunk(x.job, 0) <= x.job.file[..x.job.total])
  {
    var file, p := x.job.file[..x.job.total], Offset(x.job, k);
    PiecesAreFile(x.job, x.n, k);
    OffsetStep(x.job, x.n, 0);
    OffsetStep(x.job, x.n, k - 1);
    ChunkIs(x.job, x.n, 0);
    var out := Pieces(Chunks(x.job), k) + Chunk(x.job, 0);
    assert 0 < p && out[p] == 1;
  }

  // ---------- The exact bound ----------

  /** A transfer with these constants and this number of frames. */
  ghost predicate Sized(x: Setup, c: Config, S: nat, D: nat, n: int) {
    ValidSetup(x) && x.ring == c && x.job.S == S && x.job.D == D && x.n == n
  }

  /** In every state of every run the output is a prefix of the bytes to transfer. */
  ghost predicate AlwaysPrefix(x: Setup)
    requires ValidSetup(x)
  {
    forall states, events, i {:trigger OutputAt(x, states, events, i)} ::
      Run(x, states, events) && 0 <= i < |states| ==> OutputAt(x, states, events, i)
  }

  ghost predicate OutputAt(x: Setup, states: seq<System>, events: seq<Event>, i: int)
    requires ValidSetup(x)
  {
    0 <= i < |states| && states[i].rcv.out <= x.job.file[..x.job.total]
  }

  /** A transfer with too many frames, and a run that spoils it. */
  lemma TooMany(c: Config, S: nat, D: nat, n: int) returns (x: Setup)
    requires ValidConfig(c) && 2 <= S <= c.W && 0 < D <= c.frameSize && 1 <= n < c.M && Bound(c) <= n
    ensures Sized(x, c, S, D, n) && !AlwaysPrefix(x)
  {
    MulNonNegative(n, D);
    assert (n - 1) * D == n * D - D;
    x := Setup(Job(S, c.M, D, Marked(n * D), n * D), c, n);
    assert ValidSetup(x);
    NothingYet(x);
    PlaceRange(c);
    var tick: int -> int -> int := _ => _ => 0;
    var s0 := System(Start(x.job, x.job.M - 1), Fresh(c), {}, {}, false, false, false);
    var s, i := ReachInOrder(x, tick, s0, Place(c));
    var s', j := Spoilt(x, tick, s, i);
    ReachesOn(x, tick, s0, 0, s, i, s', j);
    AliasRange(c);
    WrongPlace(x, Alias(c));
    var states, events :| Leads(x, tick, states, events, s0, 0, s', j);
    assert Run(x, states, events) && !OutputAt(x, states, events, |events|);
  }

  /** The exact bound: with given constants, every transfer of n frames is safe in every run if and only if n is
      below Bound. */
  lemma BoundIff(c: Config, S: nat, D: nat, n: int)
    requires ValidConfig(c) && 2 <= S <= c.W && 0 < D <= c.frameSize && 1 <= n < c.M
    ensures (forall x :: Sized(x, c, S, D, n) ==> AlwaysPrefix(x)) <==> n < Bound(c)
  {
    if n < Bound(c) {
      forall x | Sized(x, c, S, D, n)
        ensures AlwaysPrefix(x)
      {
        forall states, events, i | Run(x, states, events) && 0 <= i < |states|
          ensures OutputAt(x, states, events, i)
        {
          EndToEndSafety(x, states, events, i);
        }
      }
    } else {
      var x := TooMany(c, S, D, n);
    }
  }
}

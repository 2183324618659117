/** How the sender's variables line up with the file over a whole transfer, wraps of the sequence
    numbers included. */
module Alignment {
  import opened Modular
  import opened Reassembly
  import opened Sending

  // ---------- The file as a sequence of frames ----------

  /** Where piece k starts. */
  function Offset(c: Job, k: int): (o: nat)
    requires 0 <= k
    ensures o <= c.total
  {
    if k * c.D <= c.total then MulNonNegative(k, c.D); k * c.D else c.total
  }

  lemma MulNonNegative(k: int, d: nat)
    requires 0 <= k
    ensures 0 <= k * d
  {
  }

  ghost function Chunk(c: Job, k: int): seq<Byte>
    requires ValidJob(c)
  {
    if 0 <= k && Offset(c, k) <= Offset(c, k + 1) then c.file[Offset(c, k)..Offset(c, k + 1)] else []
  }

  /** The pieces as one function, for the reassembler to be measured against. */
  ghost function Chunks(c: Job): int -> seq<Byte>
    requires ValidJob(c)
  {
    k => Chunk(c, k)
  }

  /** The transfer takes n frames. */
  ghost predicate FrameCount(c: Job, n: int) {
    1 <= n && (n - 1) * c.D < c.total <= n * c.D
  }

  lemma OffsetStep(c: Job, n: int, k: int)
    requires ValidJob(c) && FrameCount(c, n) && 0 <= k < n
    ensures Offset(c, k) == k * c.D < c.total
    ensures c.total - Offset(c, k) <= c.D <==> k == n - 1
    ensures Offset(c, k + 1) == if k == n - 1 then c.total else Offset(c, k) + c.D
    ensures |Chunk(c, k)| <= c.D
  {
    assert (k + 1) * c.D == k * c.D + c.D;
    MulMonotone(k, n - 1, c.D);
    if k < n - 1 {
      MulMonotone(k + 1, n - 1, c.D);
    }
  }

  lemma MulMonotone(a: int, b: int, d: nat)
    requires 0 <= a <= b
    ensures 0 <= a * d <= b * d
  {
    assert b * d == a * d + (b - a) * d;
    assert 0 <= (b - a) * d && 0 <= a * d;
  }

  lemma ChunkIs(c: Job, n: int, k: int)
    requires ValidJob(c) && FrameCount(c, n) && 0 <= k < n
    ensures Offset(c, 0) == 0 && Offset(c, k) <= Offset(c, k + 1)
              && Chunk(c, k) == c.file[Offset(c, k)..Offset(c, k + 1)]
  {
    OffsetStep(c, n, k);
  }

  /** The pieces, put together in order, are the file up to where the next one starts. */
  lemma {:induction false} PiecesAreFile(c: Job, n: int, k: int)
    requires ValidJob(c) && FrameCount(c, n) && 0 <= k <= n
    ensures Pieces(Chunks(c), k) == c.file[..Offset(c, k)]
    decreases k
  {
    if k == 0 {
      ChunkIs(c, n, 0);
    } else {
      var j := k - 1;
      PiecesAreFile(c, n, j);
      ChunkIs(c, n, j);
      SliceJoin(c.file, Offset(c, j), Offset(c, j + 1));
      assert Pieces(Chunks(c), k) == Pieces(Chunks(c), j) + Chunk(c, j);
    }
  }

  lemma SliceJoin(s: seq<Byte>, a: int, b: int)
    requires 0 <= a <= b <= |s|
    ensures s[..a] + s[a..b] == s[..b]
  {
  }

  // ---------- The invariant ----------

  /** Frame k as it goes over the wire. */
  ghost function PacketOf(c: Job, n: int, k: int): Packet
    requires ValidJob(c)
  {
    Packet(k % c.M, Chunk(c, k), k == n - 1)
  }

  ghost predicate FrameOk(c: Job, n: int, f: Frame, k: int)
    requires ValidJob(c)
  {
    Packet(f.seqNum, f.data, f.isEnd) == PacketOf(c, n, k)
  }

  /** `base` frames have been acknowledged: the window holds the next ones in order under their
      numbers modulo M, the file has been read up to the end of the window, and the window sizes are
      within their limits. */
  ghost predicate Aligned(c: Job, n: int, st: State, base: int) {
    && ValidJob(c) && FrameCount(c, n) && 0 <= base < n && base + |st.window| <= n
    && |st.window| <= c.S && 1 <= st.cwnd <= c.S
    && -1 <= st.lar < c.M && (st.lar + 1) % c.M == base % c.M
    && st.pos == Offset(c, base + |st.window|)
    && st.lastFrame == (if base + |st.window| == n then (n - 1) % c.M else -1)
    && FramesOk(c, n, st.window, base)
  }

  ghost predicate FramesOk(c: Job, n: int, w: seq<Frame>, base: int)
    requires ValidJob(c)
  {
    forall i :: 0 <= i < |w| ==> FrameOk(c, n, w[i], base + i)
  }

  /** Before anything has been sent. */
  function Start(c: Job, ack: int): State
    requires ValidJob(c)
  {
    State([], c.S / 2, -1, -1, 0, FIRST_RTT, ack)
  }

  lemma StartAligned(c: Job, n: int, ack: int)
    requires ValidJob(c) && FrameCount(c, n)
    ensures Aligned(c, n, Start(c, ack), 0)
  {
    OffsetStep(c, n, 0);
  }

  /** The number computed for place i of the window. */
  lemma SeqNoOfPlace(c: Job, n: int, st: State, base: int, i: nat)
    requires Aligned(c, n, st, base)
    ensures TruncMod(st.lar + i + 1, c.M) == (base + i) % c.M
  {
    ModAdd(st.lar + 1, i, c.M);
    ModAdd(base, i, c.M);
  }

  /** The file is read up exactly when the window reaches its last frame. */
  lemma ReadUpIff(c: Job, n: int, st: State, base: int)
    requires Aligned(c, n, st, base)
    ensures Sane(c, st)
    ensures st.pos == c.total <==> base + |st.window| == n
  {
    var k := base + |st.window|;
    if k < n {
      OffsetStep(c, n, k);
    } else {
      OffsetStep(c, n, n - 1);
    }
  }

  lemma PushAligned(c: Job, n: int, st: State, base: int, time: int)
    requires Aligned(c, n, st, base) && |st.window| < st.cwnd && st.pos != c.total && Sane(c, st)
    ensures var f := NewFrame(c, st, (base + |st.window|) % c.M, time);
            FrameOk(c, n, f, base + |st.window|) && Aligned(c, n, Push(c, st, f), base)
  {
    ReadUpIff(c, n, st, base);
    var k := base + |st.window|;
    OffsetStep(c, n, k);
    var f := NewFrame(c, st, k % c.M, time);
    assert f.data == Chunk(c, k);
    var w := Push(c, st, f).window;
    assert forall i :: 0 <= i < |w| ==> w[i] == if i < |st.window| then st.window[i] else f;
  }

  lemma ResendAligned(c: Job, n: int, st: State, base: int, i: nat, halve: bool, time: int)
    requires Aligned(c, n, st, base) && i < |st.window| && (halve ==> st.cwnd > 1)
    ensures Aligned(c, n, Resend(st, i, halve, time), base)
  {
    var w := Resend(st, i, halve, time).window;
    assert forall j :: 0 <= j < |w| ==>
      FrameOk(c, n, st.window[j], base + j) &&
      w[j] == if j == i then st.window[i].(sendTime := time) else st.window[j];
  }

  /** p is one of the frames from a up to b. */
  ghost predicate Genuine(c: Job, n: int, p: Packet, a: int, b: int)
    requires ValidJob(c)
  {
    exists k :: a <= k < b && p == PacketOf(c, n, k)
  }

  ghost predicate AllGenuine(c: Job, n: int, ps: seq<Packet>, a: int, b: int)
    requires ValidJob(c)
  {
    forall i :: 0 <= i < |ps| ==> Genuine(c, n, ps[i], a, b)
  }

  ghost predicate AllSent(c: Job, n: int, ps: seq<Packet>, a: int, b: int)
    requires ValidJob(c)
  {
    forall k :: a <= k < b ==> PacketOf(c, n, k) in ps
  }

  /** What a pass does: the window only grows, everything sent is a frame of the window, and every
      frame that is new in the window has been sent. */
  ghost predicate PassOk(c: Job, n: int, base: int, st: State, st': State, ps: seq<Packet>)
    requires ValidJob(c)
  {
    && Aligned(c, n, st', base) && |st.window| <= |st'.window|
    && st'.lar == st.lar && st'.rtt == st.rtt && st'.ack == st.ack
    && AllGenuine(c, n, ps, base, base + |st'.window|)
    && AllSent(c, n, ps, base + |st.window|, base + |st'.window|)
  }

  /** One round after another. */
  lemma PassChain(c: Job, n: int, base: int, st: State, st1: State, ps1: seq<Packet>, st2: State, ps2: seq<Packet>)
    requires ValidJob(c) && PassOk(c, n, base, st, st1, ps1) && PassOk(c, n, base, st1, st2, ps2)
    ensures PassOk(c, n, base, st, st2, ps1 + ps2)
  {
    var ps := ps1 + ps2;
    var b := base + |st2.window|;
    assert AllGenuine(c, n, ps, base, b) by {
      forall i | 0 <= i < |ps|
        ensures Genuine(c, n, ps[i], base, b)
      {
        assert ps[i] == if i < |ps1| then ps1[i] else ps2[i - |ps1|];
        if i < |ps1| {
          assert Genuine(c, n, ps1[i], base, base + |st1.window|);
        }
      }
    }
    assert AllSent(c, n, ps, base + |st.window|, b) by {
      assert forall p :: p in ps1 || p in ps2 ==> p in ps;
    }
  }

  lemma SendOne(c: Job, n: int, base: int, st: State, st1: State, k: int)
    requires Aligned(c, n, st1, base) && base <= k < base + |st1.window|
    requires |st.window| <= |st1.window| <= |st.window| + 1
    requires |st1.window| == |st.window| + 1 ==> k == base + |st.window|
    requires st1.lar == st.lar && st1.rtt == st.rtt && st1.ack == st.ack
    ensures PassOk(c, n, base, st, st1, [PacketOf(c, n, k)])
  {
    assert Genuine(c, n, PacketOf(c, n, k), base, base + |st1.window|);
  }

  /** One round keeps everything in line. */
  lemma PlaceOk(c: Job, n: int, st: State, base: int, i: nat, mayHalve: bool, clock: int -> int)
    requires Aligned(c, n, st, base) && Sane(c, st) && i <= |st.window| && i < st.cwnd
    ensures var r := SendPlace(c, st, i, mayHalve, clock); PassOk(c, n, base, st, r.st, r.ps)
  {
    SeqNoOfPlace(c, n, st, base, i);
    var k := base + i;
    var r := SendPlace(c, st, i, mayHalve, clock);
    if r.ps == [] {
    } else if i == |st.window| {
      PushAligned(c, n, st, base, clock(2 * i + 1));
      SendOne(c, n, base, st, r.st, k);
    } else {
      assert FrameOk(c, n, st.window[i], k);
      ResendAligned(c, n, st, base, i, mayHalve && st.cwnd > 1, clock(2 * i + 1));
      SendOne(c, n, base, st, r.st, k);
    }
  }

  lemma {:induction false} PassSpec(c: Job, n: int, st: State, base: int, i: nat, mayHalve: bool, clock: int -> int)
    requires Aligned(c, n, st, base) && Sane(c, st) && i <= |st.window|
    ensures PassOk(c, n, base, st, PassFrom(c, st, i, mayHalve, clock).0, PassFrom(c, st, i, mayHalve, clock).1)
    decreases st.cwnd - i
  {
    if i < st.cwnd {
      PlaceOk(c, n, st, base, i, mayHalve, clock);
      var round := SendPlace(c, st, i, mayHalve, clock);
      if !round.stop {
        PassSpec(c, n, round.st, base, i + 1, round.mayHalve, clock);
        var (r, ps) := PassFrom(c, round.st, i + 1, round.mayHalve, clock);
        PassChain(c, n, base, st, round.st, round.ps, r, ps);
      }
    }
  }

  // ---------- Acknowledgements ----------

  /** An accepted acknowledgement names the frame at its distance in the window, wraps included, and
      it ends the transfer exactly when that frame is the last one. */
  lemma AckNamesFrame(c: Job, n: int, st: State, base: int, ack: int)
    requires Aligned(c, n, st, base) && 0 <= ack < c.M && InWindow(c, st, ack)
    ensures var k := AckIndex(c, st, ack);
            && k == (ack - (st.lar + 1)) % c.M && (base + k) % c.M == ack
            && (st.lastFrame == ack <==> base + k == n - 1)
  {
    var k := AckIndex(c, st, ack);
    var x := ack - (st.lar + 1);
    TruncModNonNegative(x, c.M);
    ModAdd(st.lar + 1, k, c.M);
    ModAdd(base, k, c.M);
    ModAdd(x, st.lar + 1, c.M);
    ModSmall(ack, c.M);
    if base + |st.window| == n && base + k != n - 1 {
      ModDistinct(base + k, n - 1, c.M);
    }
  }

  lemma AckAligned(c: Job, n: int, st: State, base: int, ack: int, time: int)
    requires Aligned(c, n, st, base) && 0 <= ack < c.M
    ensures var (st', done) := HandleAck(c, st, ack, time);
            && (!InWindow(c, st, ack) ==> !done && Aligned(c, n, st', base))
            && (InWindow(c, st, ack) ==>
                  var k := AckIndex(c, st, ack);
                  (done <==> base + k == n - 1) && Aligned(c, n, st', if done then base else base + k + 1))
  {
    if InWindow(c, st, ack) {
      AckNamesFrame(c, n, st, base, ack);
      var k := AckIndex(c, st, ack);
      if base + k != n - 1 {
        AckShift(c, n, st, base, ack, time);
      }
    }
  }

  lemma AckShift(c: Job, n: int, st: State, base: int, ack: int, time: int)
    requires Aligned(c, n, st, base) && 0 <= ack < c.M && InWindow(c, st, ack) && st.lastFrame != ack
    requires base + AckIndex(c, st, ack) < n - 1 && (base + AckIndex(c, st, ack)) % c.M == ack
    ensures Aligned(c, n, HandleAck(c, st, ack, time).0, base + AckIndex(c, st, ack) + 1)
  {
    var k := AckIndex(c, st, ack);
    ModAdd(base + k, 1, c.M);
    WindowShift(c, n, st.window, base, k);
    var st' := HandleAck(c, st, ack, time).0;
    assert st'.window == st.window[k + 1..] && |st'.window| == |st.window| - (k + 1);
  }

  lemma WindowShift(c: Job, n: int, w: seq<Frame>, base: int, k: int)
    requires ValidJob(c) && 0 <= k < |w| && FramesOk(c, n, w, base)
    ensures FramesOk(c, n, w[k + 1..], base + k + 1)
  {
    var v := w[k + 1..];
    forall i | 0 <= i < |v|
      ensures FrameOk(c, n, v[i], base + k + 1 + i)
    {
      assert FrameOk(c, n, w[k + 1 + i], base + (k + 1 + i));
    }
  }

  // ---------- Whole runs of the sender ----------

  datatype Action = SendAll(clock: int -> int) | TakeAck(ack: int, time: int) | TimeOut(time: int)

  ghost function Act(c: Job, st: State, a: Action): (State, bool)
    requires ValidJob(c) && st.pos <= c.total && -1 <= st.lar
  {
    match a
    case SendAll(clock) => (Pass(c, st, clock).0, false)
    case TakeAck(ack, time) => HandleAck(c, st, ack, time)
    case TimeOut(time) => HandleTimeout(c, st, time)
  }

  /** The states of a run in which every acknowledgement is a sequence number; it stops when the
      sender is done. */
  ghost predicate ActsTo(c: Job, st: State, acts: seq<Action>, end: State)
    requires ValidJob(c)
    decreases |acts|
  {
    if acts == [] then st == end
    else
      && st.pos <= c.total && -1 <= st.lar && (acts[0].TakeAck? ==> 0 <= acts[0].ack < c.M)
      && var (st', done) := Act(c, st, acts[0]);
         if done then acts[1..] == [] && st' == end else ActsTo(c, st', acts[1..], end)
  }

  lemma ActAligned(c: Job, n: int, st: State, base: int, a: Action) returns (base': int)
    requires Aligned(c, n, st, base) && Sane(c, st) && 0 <= st.ack < c.M && (a.TakeAck? ==> 0 <= a.ack < c.M)
    ensures Aligned(c, n, Act(c, st, a).0, base') && 0 <= Act(c, st, a).0.ack < c.M && base <= base'
  {
    match a
    case SendAll(clock) =>
      base' := base;
      PassSpec(c, n, st, base, 0, true, clock);
    case TakeAck(ack, time) =>
      AckAligned(c, n, st, base, ack, time);
      base' := if InWindow(c, st, ack) && !HandleAck(c, st, ack, time).1 then base + AckIndex(c, st, ack) + 1 else base;
    case TimeOut(time) =>
      AckAligned(c, n, st, base, st.ack, time);
      base' := if InWindow(c, st, st.ack) && !HandleAck(c, st, st.ack, time).1
               then base + AckIndex(c, st, st.ack) + 1 else base;
  }

  /** Over every run of the sender, however long and however often the numbers wrap, the window, the
      file position and the window sizes stay aligned. */
  lemma {:induction false} RunAligned(c: Job, n: int, st: State, base: int, acts: seq<Action>,
                                      end: State) returns (base': int)
    requires Aligned(c, n, st, base) && 0 <= st.ack < c.M && ActsTo(c, st, acts, end)
    ensures Aligned(c, n, end, base') && base <= base'
    decreases |acts|
  {
    if acts == [] {
      base' := base;
    } else {
      ReadUpIff(c, n, st, base);
      var next := ActAligned(c, n, st, base, acts[0]);
      var (st', done) := Act(c, st, acts[0]);
      if done {
        base' := next;
      } else {
        base' := RunAligned(c, n, st', next, acts[1..], end);
      }
    }
  }
}

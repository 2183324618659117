/** The receiver's side of the sliding window, as functions on values: what one frame does to the
    ring buffer, and the unbounded reassembler that this is meant to be. */
module Reassembly {
  import opened Modular

  type Byte = b: int | 0 <= b < 0x100

  /** The constants of the receiver: W ring slots (RWS), M sequence numbers (MAX_SEQ_NO) and the
      size of a slot (FRAME_SIZE). */
  datatype Config = Config(W: nat, M: nat, frameSize: nat)

  const SHIPPED := Config(170, 5000, 1472)

  ghost predicate ValidConfig(c: Config) {
    0 < c.W && 2 * c.W <= c.M
  }

  // ---------- The ring buffer ----------

  datatype Ring = Ring(buf: seq<seq<Byte>>, size: seq<int>, present: seq<bool>, nfe: int, endSeq: int, out: seq<Byte>)

  ghost predicate Shape(c: Config, st: Ring) {
    && |st.buf| == |st.size| == |st.present| == c.W && 0 <= st.nfe
    && (forall k :: 0 <= k < c.W ==> |st.buf[k]| == c.frameSize && 0 <= st.size[k] <= c.frameSize)
  }

  function Zeros(n: nat): (z: seq<Byte>)
    ensures |z| == n
  {
    seq(n, _ => 0)
  }

  /** The bytes held in slot k. */
  function Read(c: Config, st: Ring, k: int): seq<Byte>
    requires Shape(c, st) && 0 <= k < c.W
  {
    st.buf[k][..st.size[k]]
  }

  /** memcpy of the payload to the front of a free slot. */
  function Store(c: Config, st: Ring, k: int, data: seq<Byte>): (r: Ring)
    requires Shape(c, st) && 0 <= k < c.W && |data| <= c.frameSize
    ensures Shape(c, r) && (!st.present[k] ==> Read(c, r, k) == data)
    ensures forall j :: 0 <= j < c.W && j != k ==> Read(c, r, j) == Read(c, st, j) && r.present[j] == st.present[j]
  {
    if st.present[k] then st
    else st.(present := st.present[k := true], buf := st.buf[k := data + st.buf[k][|data|..]],
       size := st.size[k := |data|])
  }

  /** Writes slot k out and clears it. */
  function Flush(c: Config, st: Ring, k: int): (r: Ring)
    requires Shape(c, st) && 0 <= k < c.W
    ensures Shape(c, r) && r.out == st.out + Read(c, st, k) && !r.present[k]
    ensures forall j :: 0 <= j < c.W && j != k ==> Read(c, r, j) == Read(c, st, j) && r.present[j] == st.present[j]
  {
    st.(out := st.out + Read(c, st, k), present := st.present[k := false], size := st.size[k := 0],
        buf := st.buf[k := Zeros(c.frameSize)])
  }

  /** Drains from the i-th slot of the window on, up to the first that is empty. */
  function Drain(c: Config, st: Ring, i: nat): (r: (Ring, nat))
    requires ValidConfig(c) && Shape(c, st) && i <= c.W
    ensures Shape(c, r.0) && r.0.nfe == st.nfe && r.0.endSeq == st.endSeq && i <= r.1 <= c.W
    decreases c.W - i
  {
    if i == c.W || !st.present[(i + st.nfe) % c.W] then (st, i)
    else Drain(c, Flush(c, st, (i + st.nfe) % c.W), i + 1)
  }

  lemma DrainOne(c: Config, st: Ring, i: nat, idx: int)
    requires ValidConfig(c) && Shape(c, st) && i < c.W && idx == (i + st.nfe) % c.W && st.present[idx]
    ensures Drain(c, st, i) == Drain(c, Flush(c, st, idx), i + 1)
  {
  }

  lemma DrainNone(c: Config, st: Ring, i: nat)
    requires ValidConfig(c) && Shape(c, st) && i <= c.W && (i < c.W ==> !st.present[(i + st.nfe) % c.W])
    ensures Drain(c, st, i) == (st, i)
  {
  }

  /** The receiver's reaction: its new state, the number it acknowledges, and whether it is done. */
  datatype Reaction = Reaction(st: Ring, ack: int, reachedEnd: bool)

  /** The end flag is noted before anything else. */
  function Noted(st: Ring, seqNo: int, end: int): Ring {
    if end == 1 then st.(endSeq := seqNo) else st
  }

  /** The window test: the frame's distance from the first missing one, modulo M, is W or more. */
  predicate Outside(c: Config, st: Ring, seqNo: int)
    requires ValidConfig(c)
  {
    (seqNo + (c.M - st.nfe)) % c.M >= c.W
  }

  /** The window moves on by the i frames drained; their last is acknowledged. */
  function Answer(c: Config, st: Ring, i: nat): Reaction
    requires ValidConfig(c)
  {
    var nfe := (st.nfe + i) % c.M;
    var ack := (nfe + c.M - 1) % c.M;
    Reaction(st.(nfe := nfe), ack, st.endSeq >= 0 && ack == st.endSeq)
  }

  function Receive(c: Config, st: Ring, data: seq<Byte>, seqNo: int, end: int): Reaction
    requires ValidConfig(c) && Shape(c, st) && 0 <= seqNo && |data| <= c.frameSize
  {
    var st0 := Noted(st, seqNo, end);
    if Outside(c, st, seqNo) then Reaction(st0, seqNo, false)
    else
      var (st1, i) := Drain(c, Store(c, st0, seqNo % c.W, data), 0);
      Answer(c, st1, i)
  }

  lemma ReceiveIn(c: Config, st: Ring, data: seq<Byte>, seqNo: int, end: int, st1: Ring, i: nat)
    requires ValidConfig(c) && Shape(c, st) && 0 <= seqNo && |data| <= c.frameSize && !Outside(c, st, seqNo)
    requires (st1, i) == Drain(c, Store(c, Noted(st, seqNo, end), seqNo % c.W, data), 0)
    ensures Receive(c, st, data, seqNo, end) == Answer(c, st1, i)
  {
  }

  /** The end flag, the end test and the acknowledgement of a reaction. */
  lemma EndTest(c: Config, st: Ring, data: seq<Byte>, seqNo: int, end: int)
    requires ValidConfig(c) && Shape(c, st) && 0 <= seqNo && |data| <= c.frameSize
    ensures var r := Receive(c, st, data, seqNo, end);
            && r.st.endSeq == (if end == 1 then seqNo else st.endSeq)
            && (r.reachedEnd <==> !Outside(c, st, seqNo) && r.st.endSeq >= 0 && r.ack == r.st.endSeq)
            && r.ack == if Outside(c, st, seqNo) then seqNo else (r.st.nfe + c.M - 1) % c.M
  {
  }

  // ---------- The unbounded reassembler ----------

  /** Frames under their absolute index, the first index not yet delivered, and the output. */
  datatype Reassembler = Reassembler(got: map<int, seq<Byte>>, nfe: int, out: seq<Byte>)

  /** The first index from n on that is missing. */
  ghost function FirstMissing(keys: set<int>, n: int): (g: int)
    ensures n <= g && g !in keys && forall k :: n <= k < g ==> k in keys
    decreases keys
  {
    if n !in keys then n else FirstMissing(keys - {n}, n + 1)
  }

  ghost function Collect(got: map<int, seq<Byte>>, a: int, b: int): seq<Byte>
    decreases b - a
  {
    if a >= b then [] else (if a in got then got[a] else []) + Collect(got, a + 1, b)
  }

  /** The first copy of a frame is kept. */
  ghost function Kept(got: map<int, seq<Byte>>, a: int, data: seq<Byte>): map<int, seq<Byte>> {
    if a in got then got else got[a := data]
  }

  ghost function From(got: map<int, seq<Byte>>, g: int): map<int, seq<Byte>> {
    map k | k in got && g <= k :: got[k]
  }

  /** A frame below the first missing one is only acknowledged. Any other is kept unless it is there
      already; then everything up to the first missing frame is delivered. */
  ghost function Reassemble(r: Reassembler, a: int, data: seq<Byte>): (Reassembler, int) {
    if a < r.nfe then (r, a)
    else
      var got := Kept(r.got, a, data);
      var g := FirstMissing(got.Keys, r.nfe);
      (Reassembler(From(got, g), g, r.out + Collect(got, r.nfe, g)), g - 1)
  }

  // ---------- Refinement ----------

  /** Whether the slot a frame is stored in is the slot it is drained from, for a frame i places
      into the window that starts at absolute index n. */
  predicate SlotsAgree(c: Config, n: int, i: int)
    requires ValidConfig(c)
  {
    ((n + i) % c.M) % c.W == (i + n % c.M) % c.W
  }

  /** Either W divides M or the window does not reach the point where sequence numbers wrap. */
  ghost predicate Regime(c: Config, n: int)
    requires ValidConfig(c)
  {
    c.M % c.W == 0 || n % c.M + c.W <= c.M
  }

  lemma SlotOfDividing(c: Config, n: int, i: int)
    requires ValidConfig(c) && c.M % c.W == 0
    ensures SlotsAgree(c, n, i)
  {
    ModMod(n + i, c.M, c.W);
    ModMod(n, c.M, c.W);
    ModAdd(n % c.M, i, c.W);
    ModAdd(n, i, c.W);
  }

  lemma SlotBelowWrap(c: Config, n: int, i: int)
    requires ValidConfig(c) && 0 <= i && n % c.M + i < c.M
    ensures (n + i) % c.M == n % c.M + i && SlotsAgree(c, n, i)
  {
    ModAdd(n, i, c.M);
    ModSmall(n % c.M + i, c.M);
  }

  lemma SlotBeyondWrap(c: Config, n: int, i: int)
    requires ValidConfig(c) && 0 <= i < c.W && c.M <= n % c.M + i
    ensures (n + i) % c.M == n % c.M + i - c.M
    ensures SlotsAgree(c, n, i) ==> c.M % c.W == 0
  {
    ModAdd(n, i, c.M);
    ModShift(n % c.M + i - c.M, 1, c.M);
    ModSmall(n % c.M + i - c.M, c.M);
    var y := n % c.M + i;
    if (y - c.M) % c.W == y % c.W {
      assert y - c.M == (y - c.M) / c.W * c.W + (y - c.M) % c.W;
      assert y == y / c.W * c.W + y % c.W;
      DivModUnique(c.M, y / c.W - (y - c.M) / c.W, 0, c.W);
    }
  }

  /** The exact condition: in the window that starts at n all slots agree if and only if W divides M
      or the window ends before the sequence numbers wrap. */
  lemma SlotsAgreeIff(c: Config, n: int)
    requires ValidConfig(c)
    ensures (forall i :: 0 <= i < c.W ==> SlotsAgree(c, n, i)) <==> Regime(c, n)
  {
    if Regime(c, n) {
      forall i | 0 <= i < c.W
        ensures SlotsAgree(c, n, i)
      {
        if c.M % c.W == 0 {
          SlotOfDividing(c, n, i);
        } else {
          SlotBelowWrap(c, n, i);
        }
      }
    } else {
      SlotBeyondWrap(c, n, c.W - 1);
    }
  }

  /** With W dividing M, and only then, the slots agree at every position. */
  lemma SlotsAlwaysAgreeIff(c: Config)
    requires ValidConfig(c)
    ensures (forall n, i :: 0 <= n && 0 <= i < c.W ==> SlotsAgree(c, n, i)) <==> c.M % c.W == 0
  {
    if c.M % c.W == 0 {
      forall n, i | 0 <= n && 0 <= i < c.W
        ensures SlotsAgree(c, n, i)
      {
        SlotOfDividing(c, n, i);
      }
    } else {
      ModSmall(c.M - 1, c.M);
      SlotsAgreeIff(c, c.M - 1);
    }
  }

  /** The shipped constants: the slots disagree as soon as the window reaches sequence number 0 again. */
  lemma ShippedSlotsDisagree()
    ensures ValidConfig(SHIPPED) && !SlotsAgree(SHIPPED, 4999, 1)
    ensures forall n :: 0 <= n < 5000 ==> (Regime(SHIPPED, n) <==> n <= 4830)
  {
  }

  /** Whether a frame is in its slot, and its bytes. */
  predicate Has(c: Config, st: Ring, k: int)
    requires ValidConfig(c) && Shape(c, st)
  {
    st.present[k % c.W]
  }

  function At(c: Config, st: Ring, k: int): seq<Byte>
    requires ValidConfig(c) && Shape(c, st)
  {
    Read(c, st, k % c.W)
  }

  /** The frames a ring buffer holds when the window starts at absolute index n. */
  ghost function Held(c: Config, st: Ring, n: int): (got: map<int, seq<Byte>>)
    requires ValidConfig(c) && Shape(c, st)
    ensures forall k :: k in got <==> n <= k < n + c.W && Has(c, st, k)
    ensures forall k :: k in got ==> got[k] == At(c, st, k)
  {
    map k | n <= k < n + c.W && Has(c, st, k) :: At(c, st, k)
  }

  /** The reassembler a ring buffer stands for. */
  ghost function Abstract(c: Config, st: Ring, n: int): Reassembler
    requires ValidConfig(c) && Shape(c, st)
  {
    Reassembler(Held(c, st, n), n, st.out)
  }

  /** The ring buffer is at rest with its window at n: the first frame of the window is missing. */
  ghost predicate AtRest(c: Config, st: Ring, n: int) {
    ValidConfig(c) && Shape(c, st) && st.nfe == n % c.M && !Has(c, st, n)
  }

  /** Where the refinement holds: W divides M, or no sequence number wraps up to the window's end. */
  ghost predicate InReach(c: Config, n: int) {
    ValidConfig(c) && 0 <= n && (c.M % c.W == 0 || n + c.W <= c.M)
  }

  /** Where draining looks at the frames of the window in order: W divides M, or the window starts before the wrap. */
  ghost predicate Ordered(c: Config, n: int) {
    ValidConfig(c) && 0 <= n && (c.M % c.W == 0 || n < c.M)
  }

  lemma DrainSlot(c: Config, n: int, i: int)
    requires Ordered(c, n) && 0 <= i < c.W
    ensures (i + n % c.M) % c.W == (n + i) % c.W
  {
    if c.M % c.W == 0 {
      ModMod(n, c.M, c.W);
      ModAdd(n % c.M, i, c.W);
      ModAdd(n, i, c.W);
    } else {
      ModSmall(n, c.M);
    }
  }

  /** In reach, a frame of the window is stored where draining looks for it. */
  lemma StoreSlot(c: Config, n: int, a: int)
    requires InReach(c, n) && n <= a < n + c.W
    ensures a % c.M % c.W == a % c.W
  {
    if c.M % c.W == 0 {
      ModMod(a, c.M, c.W);
    } else {
      ModSmall(a, c.M);
    }
  }

  lemma FlushWindow(c: Config, st: Ring, n: int, i: nat)
    requires Ordered(c, n) && Shape(c, st) && i < c.W
    ensures var r := Flush(c, st, (n + i) % c.W);
            forall k :: n <= k < n + c.W ==> Has(c, r, k) == (k != n + i && Has(c, st, k))
                                             && (k != n + i ==> At(c, r, k) == At(c, st, k))
  {
    forall k | n <= k < n + c.W && k != n + i
      ensures k % c.W != (n + i) % c.W
    {
      if k < n + i { ModDistinct(k, n + i, c.W); } else { ModDistinct(n + i, k, c.W); }
    }
  }

  /** Two buffers agree on the frames from a up to b. */
  ghost predicate Agree(c: Config, st: Ring, r: Ring, a: int, b: int)
    requires ValidConfig(c) && Shape(c, st) && Shape(c, r)
  {
    forall k :: a <= k < b ==> Has(c, r, k) == Has(c, st, k) && At(c, r, k) == At(c, st, k)
  }

  ghost predicate AllHeld(c: Config, st: Ring, a: int, b: int, held: bool)
    requires ValidConfig(c) && Shape(c, st)
  {
    forall k :: a <= k < b ==> Has(c, st, k) == held
  }

  /** What draining has done when it stops at place j: everything from place i on is written in
      order, and the places from j on are as they were. */
  ghost predicate Drained(c: Config, st: Ring, r: Ring, n: int, i: nat, j: nat)
    requires ValidConfig(c) && Shape(c, st) && Shape(c, r)
  {
    && AllHeld(c, st, n + i, n + j, true)
    && (j < c.W ==> !Has(c, st, n + j))
    && AllHeld(c, r, n, n + j, false)
    && Agree(c, st, r, n + j, n + c.W)
    && r.out == st.out + Collect(Held(c, st, n), n + i, n + j)
  }

  lemma {:induction false} DrainSpec(c: Config, st: Ring, n: int, i: nat)
    requires Ordered(c, n) && Shape(c, st) && st.nfe == n % c.M && i <= c.W
    requires AllHeld(c, st, n, n + i, false)
    ensures Drained(c, st, Drain(c, st, i).0, n, i, Drain(c, st, i).1)
    decreases c.W - i
  {
    if i < c.W && Has(c, st, n + i) {
      var st1 := DrainPresent(c, st, n, i);
      DrainSpec(c, st1, n, i + 1);
      DrainMore(c, st, st1, Drain(c, st1, i + 1).0, n, i, Drain(c, st1, i + 1).1);
    } else {
      DrainEmpty(c, st, n, i);
    }
  }

  /** The frame at place i is there: it is written and its slot cleared. */
  lemma DrainPresent(c: Config, st: Ring, n: int, i: nat) returns (st1: Ring)
    requires Ordered(c, n) && Shape(c, st) && st.nfe == n % c.M && i < c.W && Has(c, st, n + i)
    requires AllHeld(c, st, n, n + i, false)
    ensures Shape(c, st1) && st1.nfe == st.nfe && st1.out == st.out + At(c, st, n + i)
    ensures Drain(c, st, i) == Drain(c, st1, i + 1)
    ensures AllHeld(c, st1, n, n + i + 1, false) && Agree(c, st, st1, n + i + 1, n + c.W)
  {
    st1 := Flush(c, st, (n + i) % c.W);
    assert (n + i) % c.W == (i + st.nfe) % c.W by {
      DrainSlot(c, n, i);
    }
    DrainOne(c, st, i, (n + i) % c.W);
    FlushWindow(c, st, n, i);
  }

  /** The frame at place i is missing, or the whole window has been drained. */
  lemma DrainEmpty(c: Config, st: Ring, n: int, i: nat)
    requires Ordered(c, n) && Shape(c, st) && st.nfe == n % c.M && i <= c.W && (i < c.W ==> !Has(c, st, n + i))
    requires AllHeld(c, st, n, n + i, false)
    ensures Drained(c, st, Drain(c, st, i).0, n, i, Drain(c, st, i).1)
  {
    if i < c.W {
      DrainSlot(c, n, i);
    }
    DrainNone(c, st, i);
  }

  lemma DrainMore(c: Config, st: Ring, st1: Ring, r: Ring, n: int, i: nat, j: nat)
    requires Ordered(c, n) && Shape(c, st) && Shape(c, r) && Shape(c, st1) && i < j <= c.W
    requires Has(c, st, n + i) && st1.out == st.out + At(c, st, n + i) && Agree(c, st, st1, n + i + 1, n + c.W)
    requires Drained(c, st1, r, n, i + 1, j)
    ensures Drained(c, st, r, n, i, j)
  {
    DrainMoreSlots(c, st, st1, r, n, i, j);
    CollectHeld(c, st, st1, n, i, j);
  }

  lemma DrainMoreSlots(c: Config, st: Ring, st1: Ring, r: Ring, n: int, i: nat, j: nat)
    requires ValidConfig(c) && Shape(c, st) && Shape(c, r) && Shape(c, st1) && i < j <= c.W
    requires Has(c, st, n + i) && Agree(c, st, st1, n + i + 1, n + c.W) && Drained(c, st1, r, n, i + 1, j)
    ensures AllHeld(c, st, n + i, n + j, true) && (j < c.W ==> !Has(c, st, n + j)) && Agree(c, st, r, n + j, n + c.W)
  {
  }

  lemma CollectHeld(c: Config, st: Ring, st1: Ring, n: int, i: nat, j: nat)
    requires ValidConfig(c) && Shape(c, st) && Shape(c, st1) && i < j <= c.W
    requires Has(c, st, n + i) && Agree(c, st, st1, n + i + 1, n + c.W)
    ensures Collect(Held(c, st, n), n + i, n + j) == At(c, st, n + i) + Collect(Held(c, st1, n), n + i + 1, n + j)
  {
    CollectSame(Held(c, st, n), Held(c, st1, n), n + i + 1, n + j);
  }

  lemma {:induction false} CollectSame(g: map<int, seq<Byte>>, h: map<int, seq<Byte>>, a: int, b: int)
    requires forall k :: a <= k < b ==> (k in g <==> k in h) && (k in g && k in h ==> g[k] == h[k])
    ensures Collect(g, a, b) == Collect(h, a, b)
    decreases b - a
  {
    if a < b {
      CollectSame(g, h, a + 1, b);
    }
  }

  /** The window test sees the distance of the frame from the first missing one, modulo M. */
  lemma WindowTest(c: Config, n: int, a: int)
    requires ValidConfig(c) && n - (c.M - c.W) <= a < n + c.W
    ensures (a % c.M + (c.M - n % c.M)) % c.M == if n <= a then a - n else a - n + c.M
  {
    assert n == n / c.M * c.M + n % c.M;
    ModAdd(a, c.M - n % c.M, c.M);
    assert a + (c.M - n % c.M) == a - n + (n / c.M + 1) * c.M;
    ModShift(a - n, n / c.M + 1, c.M);
    ModShift(a - n, 1, c.M);
    ModSmall(if n <= a then a - n else a - n + c.M, c.M);
  }

  /** Storing a frame of the window. */
  lemma StoreHeld(c: Config, st: Ring, n: int, a: int, data: seq<Byte>)
    requires ValidConfig(c) && Shape(c, st) && n <= a < n + c.W && |data| <= c.frameSize
    ensures Held(c, Store(c, st, a % c.W, data), n) == Kept(Held(c, st, n), a, data)
  {
    var st1 := Store(c, st, a % c.W, data);
    forall k | n <= k < n + c.W && k != a
      ensures k % c.W != a % c.W
    {
      if k < a { ModDistinct(k, a, c.W); } else { ModDistinct(a, k, c.W); }
    }
    assert forall k :: n <= k < n + c.W && k != a ==> Has(c, st1, k) == Has(c, st, k) && At(c, st1, k) == At(c, st, k);
  }

  /** Buffer r is what is left after the first j frames of `got`, all there are, have been written. */
  ghost predicate Delivers(c: Config, got: map<int, seq<Byte>>, out: seq<Byte>, n: int, r: Ring, j: nat)
    requires ValidConfig(c) && Shape(c, r)
  {
    && FirstMissing(got.Keys, n) == n + j
    && Held(c, r, n + j) == From(got, n + j) && !Has(c, r, n + j)
    && r.out == out + Collect(got, n, n + j)
  }

  /** Draining has stopped at the first missing frame ... */
  lemma DrainedUpTo(c: Config, st: Ring, r: Ring, n: int, j: nat)
    requires ValidConfig(c) && Shape(c, st) && Shape(c, r) && j <= c.W && Drained(c, st, r, n, 0, j)
    ensures FirstMissing(Held(c, st, n).Keys, n) == n + j
  {
    var got := Held(c, st, n);
    assert n + j !in got;
    assert forall k :: n <= k < n + j ==> Has(c, st, k) && k in got;
  }

  /** ... and the window, moved there, holds nothing new. */
  lemma DrainedAhead(c: Config, st: Ring, r: Ring, n: int, j: nat)
    requires ValidConfig(c) && Shape(c, st) && Shape(c, r) && j <= c.W && Drained(c, st, r, n, 0, j)
    ensures forall k :: n + c.W <= k < n + j + c.W ==> !Has(c, r, k)
  {
    forall k | n + c.W <= k < n + j + c.W
      ensures !Has(c, r, k)
    {
      ModShift(k - c.W, 1, c.W);
      assert !Has(c, r, k - c.W);
    }
  }

  /** A drained buffer stands for the undelivered rest. */
  lemma DrainedHeld(c: Config, st: Ring, r: Ring, n: int, j: nat)
    requires ValidConfig(c) && Shape(c, st) && Shape(c, r) && j <= c.W && Drained(c, st, r, n, 0, j)
    ensures Delivers(c, Held(c, st, n), st.out, n, r, j)
  {
    DrainedUpTo(c, st, r, n, j);
    DrainedAhead(c, st, r, n, j);
    var left, rest := Held(c, r, n + j), From(Held(c, st, n), n + j);
    assert forall k :: k in left <==> k in rest;
    assert !Has(c, r, n + j) by {
      assert j == c.W ==> n + c.W < n + j + c.W;
    }
  }

  /** The numbers computed after draining j frames. */
  lemma Advanced(c: Config, n: int, j: int)
    requires ValidConfig(c)
    ensures (n % c.M + j) % c.M == (n + j) % c.M
    ensures ((n + j) % c.M + c.M - 1) % c.M == (n + j - 1) % c.M
  {
    ModAdd(n, j, c.M);
    var x := n + j;
    ModAdd(x, c.M - 1, c.M);
    assert x + (c.M - 1) == x - 1 + 1 * c.M;
    ModShift(x - 1, 1, c.M);
  }

  /** The concrete reaction to a frame of the window. */
  lemma ReceiveInside(c: Config, st: Ring, n: int, a: int, data: seq<Byte>, end: int, st1: Ring, j: nat)
    requires Ordered(c, n) && AtRest(c, st, n) && n <= a < n + c.W && a % c.M % c.W == a % c.W
    requires |data| <= c.frameSize
    requires (st1, j) == Drain(c, Store(c, Noted(st, a % c.M, end), a % c.W, data), 0)
    ensures var reaction := Receive(c, st, data, a % c.M, end);
            reaction.st == st1.(nfe := (n + j) % c.M) && reaction.ack == (n + j - 1) % c.M
  {
    assert !Outside(c, st, a % c.M) by {
      WindowTest(c, n, a);
    }
    ReceiveIn(c, st, data, a % c.M, end, st1, j);
    Advanced(c, n, j);
  }

  /** Only the slots matter for what is held. */
  lemma SameSlots(c: Config, st: Ring, r: Ring, n: int)
    requires ValidConfig(c) && Shape(c, st) && Shape(c, r)
    requires r.buf == st.buf && r.size == st.size && r.present == st.present
    ensures Held(c, r, n) == Held(c, st, n) && Has(c, r, n) == Has(c, st, n)
  {
    assert forall k :: Has(c, r, k) == Has(c, st, k) && At(c, r, k) == At(c, st, k);
  }

  lemma DrainAll(c: Config, st: Ring, n: int)
    requires Ordered(c, n) && Shape(c, st) && st.nfe == n % c.M
    ensures Delivers(c, Held(c, st, n), st.out, n, Drain(c, st, 0).0, Drain(c, st, 0).1)
  {
    assert AllHeld(c, st, n, n + 0, false);
    DrainSpec(c, st, n, 0);
    DrainedHeld(c, st, Drain(c, st, 0).0, n, Drain(c, st, 0).1);
  }

  /** Store, drain, and move the window. */
  lemma StoreAndDrain(c: Config, st: Ring, n: int, a: int, data: seq<Byte>, h: map<int, seq<Byte>>)
    requires Ordered(c, n) && AtRest(c, st, n) && n <= a < n + c.W && |data| <= c.frameSize && h == Held(c, st, n)
    ensures var (r, j) := Drain(c, Store(c, st, a % c.W, data), 0);
            Delivers(c, Kept(h, a, data), st.out, n, r, j)
  {
    StoreHeld(c, st, n, a, data);
    DrainAll(c, Store(c, st, a % c.W, data), n);
  }

  /** What is left in the ring after a frame of the window, and how many frames were written. */
  lemma Settle(c: Config, st: Ring, n: int, a: int, data: seq<Byte>, seqNo: int, end: int) returns (st1: Ring, j: nat)
    requires Ordered(c, n) && AtRest(c, st, n) && n <= a < n + c.W && |data| <= c.frameSize
    ensures (st1, j) == Drain(c, Store(c, Noted(st, seqNo, end), a % c.W, data), 0)
    ensures Delivers(c, Kept(Held(c, st, n), a, data), st.out, n, st1, j)
  {
    var st0 := Noted(st, seqNo, end);
    SameSlots(c, st, st0, n);
    StoreAndDrain(c, st0, n, a, data, Held(c, st, n));
    var drained := Drain(c, Store(c, st0, a % c.W, data), 0);
    st1, j := drained.0, drained.1;
  }

  lemma RefinesWith(c: Config, st: Ring, n: int, a: int, data: seq<Byte>, st1: Ring, j: nat, reaction: Reaction)
    requires ValidConfig(c) && Shape(c, st) && Shape(c, st1) && n <= a
    requires Delivers(c, Kept(Held(c, st, n), a, data), st.out, n, st1, j)
    requires reaction.st == st1.(nfe := (n + j) % c.M) && reaction.ack == (n + j - 1) % c.M
    ensures Refined(c, st, n, a, data, reaction)
  {
    Moved(c, reaction, st1, n, j, st.out, Kept(Held(c, st, n), a, data));
    Reassembled(Abstract(c, st, n), a, data, j);
  }

  /** The drained buffer with its window moved. */
  lemma Moved(c: Config, reaction: Reaction, st1: Ring, n: int, j: nat, out: seq<Byte>, got: map<int, seq<Byte>>)
    requires ValidConfig(c) && Shape(c, st1) && Delivers(c, got, out, n, st1, j)
    requires reaction.st == st1.(nfe := (n + j) % c.M) && reaction.ack == (n + j - 1) % c.M
    ensures StandsFor(c, reaction, Reassembler(From(got, n + j), n + j, out + Collect(got, n, n + j)), n + j - 1)
  {
    SameSlots(c, st1, reaction.st, n + j);
  }

  /** A frame that is not behind the window, when it is known how many frames can be delivered then. */
  lemma Reassembled(r: Reassembler, a: int, data: seq<Byte>, j: nat)
    requires r.nfe <= a && FirstMissing(Kept(r.got, a, data).Keys, r.nfe) == r.nfe + j
    ensures var got := Kept(r.got, a, data);
            Reassemble(r, a, data) ==
            (Reassembler(From(got, r.nfe + j), r.nfe + j, r.out + Collect(got, r.nfe, r.nfe + j)), r.nfe + j - 1)
  {
  }

  /** The reaction is the one of the reassembler: same window position, frames kept, output and
      acknowledgement. */
  ghost predicate Refined(c: Config, st: Ring, n: int, a: int, data: seq<Byte>, reaction: Reaction)
    requires ValidConfig(c) && Shape(c, st)
  {
    var (r, ack) := Reassemble(Abstract(c, st, n), a, data);
    n <= r.nfe && StandsFor(c, reaction, r, ack)
  }

  ghost predicate StandsFor(c: Config, reaction: Reaction, r: Reassembler, ack: int) {
    AtRest(c, reaction.st, r.nfe) && Abstract(c, reaction.st, r.nfe) == r && reaction.ack == ack % c.M
  }

  lemma RefinedIs(c: Config, st: Ring, n: int, a: int, data: seq<Byte>, reaction: Reaction, r: Reassembler, ack: int)
    requires ValidConfig(c) && Shape(c, st) && Refined(c, st, n, a, data, reaction)
    requires (r, ack) == Reassemble(Abstract(c, st, n), a, data)
    ensures n <= r.nfe && AtRest(c, reaction.st, r.nfe) && Abstract(c, reaction.st, r.nfe) == r
    ensures reaction.ack == ack % c.M
  {
  }

  lemma RefinesBehind(c: Config, st: Ring, n: int, a: int, data: seq<Byte>, end: int)
    requires InReach(c, n) && AtRest(c, st, n) && n - (c.M - c.W) <= a < n && |data| <= c.frameSize
    ensures Refined(c, st, n, a, data, Receive(c, st, data, a % c.M, end))
  {
    var st0 := Noted(st, a % c.M, end);
    WindowTest(c, n, a);
    SameSlots(c, st, st0, n);
    assert Receive(c, st, data, a % c.M, end) == Reaction(st0, a % c.M, false);
  }

  /** A frame of the window that is stored where draining looks for it. */
  lemma RefinesAhead(c: Config, st: Ring, n: int, a: int, data: seq<Byte>, end: int)
    requires Ordered(c, n) && AtRest(c, st, n) && n <= a < n + c.W && a % c.M % c.W == a % c.W
    requires |data| <= c.frameSize
    ensures Refined(c, st, n, a, data, Receive(c, st, data, a % c.M, end))
  {
    var st1, j := Settle(c, st, n, a, data, a % c.M, end);
    ReceiveInside(c, st, n, a, data, end, st1, j);
    RefinesWith(c, st, n, a, data, st1, j, Receive(c, st, data, a % c.M, end));
  }

  /** The ring buffer refines the unbounded reassembler, across any number of wraps when W divides M:
      for every frame whose absolute index a lies less than M - W behind and less than W ahead of the
      first missing one, the output, the window position and the acknowledgement are the same. */
  lemma ReceiveRefines(c: Config, st: Ring, n: int, a: int, data: seq<Byte>, end: int)
    requires InReach(c, n) && AtRest(c, st, n) && n - (c.M - c.W) <= a < n + c.W && |data| <= c.frameSize
    ensures Refined(c, st, n, a, data, Receive(c, st, data, a % c.M, end))
  {
    if a < n {
      RefinesBehind(c, st, n, a, data, end);
    } else {
      StoreSlot(c, n, a);
      RefinesAhead(c, st, n, a, data, end);
    }
  }

  // ---------- Where the refinement ends ----------

  /** Draining fills no slot. */
  lemma {:induction false} DrainKeepsEmpty(c: Config, st: Ring, i: nat, k: int)
    requires ValidConfig(c) && Shape(c, st) && i <= c.W && 0 <= k < c.W && !st.present[k]
    ensures !Drain(c, st, i).0.present[k]
    decreases c.W - i
  {
    if i < c.W && st.present[(i + st.nfe) % c.W] {
      var st1 := Flush(c, st, (i + st.nfe) % c.W);
      assert !st1.present[k];
      DrainKeepsEmpty(c, st1, i + 1, k);
      assert Drain(c, st, i) == Drain(c, st1, i + 1);
    } else {
      assert Drain(c, st, i) == (st, i);
    }
  }

  /** A ring buffer with nothing in it, its window at n. */
  function Empty(c: Config, n: int): (st: Ring)
    requires ValidConfig(c) && 0 <= n
    ensures Shape(c, st) && st.out == [] && st.nfe == n && forall k :: 0 <= k < c.W ==> !st.present[k]
  {
    Ring(seq(c.W, _ => Zeros(c.frameSize)), seq(c.W, _ => 0), seq(c.W, _ => false), n, -1, [])
  }

  ghost predicate RefinesAt(c: Config, st: Ring, n: int, a: int, data: seq<Byte>, end: int)
    requires ValidConfig(c) && 0 <= n
  {
    AtRest(c, st, n) && n - (c.M - c.W) <= a < n + c.W && |data| <= c.frameSize ==>
      Refined(c, st, n, a, data, Receive(c, st, data, a % c.M, end))
  }

  /** Beyond the wrap the last frame of an empty window is lost: it is not in the slot it is looked for
      in. */
  lemma LastFrameMislaid(c: Config, n: int, data: seq<Byte>)
    requires ValidConfig(c) && 0 <= n < c.M && !Regime(c, n) && |data| <= c.frameSize
    ensures !RefinesAt(c, Empty(c, n), n, n + c.W - 1, data, 0)
  {
    var st, a := Empty(c, n), n + c.W - 1;
    ModSmall(n, c.M);
    Mislaid(c, st, n, data);
    NotKept(c, st, n, a, data, Receive(c, st, data, a % c.M, 0));
  }

  lemma Mislaid(c: Config, st: Ring, n: int, data: seq<Byte>)
    requires ValidConfig(c) && Shape(c, st) && st.nfe == n && 0 <= n < c.M && !Regime(c, n) && |data| <= c.frameSize
    requires forall k :: 0 <= k < c.W ==> !st.present[k]
    ensures var a := n + c.W - 1; !Has(c, Receive(c, st, data, a % c.M, 0).st, a)
  {
    var a := n + c.W - 1;
    assert n % c.M == n && a % c.M % c.W != a % c.W by {
      ModSmall(n, c.M);
      SlotBeyondWrap(c, n, c.W - 1);
    }
    assert !Outside(c, st, a % c.M) by {
      WindowTest(c, n, a);
    }
    var st0 := Store(c, st, a % c.M % c.W, data);
    var drained := Drain(c, st0, 0);
    assert !drained.0.present[a % c.W] by {
      DrainKeepsEmpty(c, st0, 0, a % c.W);
    }
    ReceiveIn(c, st, data, a % c.M, 0, drained.0, drained.1);
  }

  /** The reassembler keeps the last frame of an empty window. */
  lemma NotKept(c: Config, st: Ring, n: int, a: int, data: seq<Byte>, reaction: Reaction)
    requires ValidConfig(c) && AtRest(c, st, n) && Held(c, st, n) == map[] && n < a < n + c.W
    requires Shape(c, reaction.st) && !Has(c, reaction.st, a)
    ensures !Refined(c, st, n, a, data, reaction)
  {
    var (r, ack) := Reassemble(Abstract(c, st, n), a, data);
    var got := Kept(Held(c, st, n), a, data);
    assert got.Keys == {a} && FirstMissing(got.Keys, n) == n;
    assert a in r.got;
  }

  /** The exact condition, for the receiver itself: with its window at sequence number n it behaves like
      the reassembler, whatever it holds and whatever arrives, if and only if W divides M or the window
      ends before the sequence numbers wrap. */
  lemma ReceiveRefinesIff(c: Config, n: int)
    requires ValidConfig(c) && 0 <= n < c.M
    ensures (forall st, a, data, end :: RefinesAt(c, st, n, a, data, end)) <==> Regime(c, n)
  {
    ModSmall(n, c.M);
    if Regime(c, n) {
      forall st, a, data: seq<Byte>, end | AtRest(c, st, n) && n - (c.M - c.W) <= a < n + c.W && |data| <= c.frameSize
        ensures RefinesAt(c, st, n, a, data, end)
      {
        ReceiveRefines(c, st, n, a, data, end);
      }
    } else {
      LastFrameMislaid(c, n, []);
    }
  }

  /** With the window at 4929, frame 5000 arrives early, or frame 0 late: it is put into slot 0. */
  lemma ShippedEarly(early: seq<Byte>) returns (st1: Ring)
    requires |early| <= SHIPPED.frameSize
    ensures Receive(SHIPPED, Empty(SHIPPED, 4929), early, 5000 % SHIPPED.M, 0).st == st1
    ensures Shape(SHIPPED, st1) && st1.nfe == 4929 && st1.out == [] && Read(SHIPPED, st1, 0) == early
    ensures forall k :: 0 <= k < SHIPPED.W ==> (st1.present[k] <==> k == 0)
  {
    var c := SHIPPED;
    var st0 := Empty(c, 4929);
    st1 := Store(c, st0, 0, early);
    assert !Outside(c, st0, 0);
    DrainNone(c, st1, 0);
    ReceiveIn(c, st0, early, 0, 0, st1, 0);
  }

  /** What the shipped constants make of it: when frame 4929 arrives, slot 0 is drained as frame 4930. The
      output is wrong, and 4930 is acknowledged although it never arrived. */
  lemma ShippedWrongOutput(early: seq<Byte>, next: seq<Byte>)
    requires |early| <= SHIPPED.frameSize && |next| <= SHIPPED.frameSize
    ensures var r1 := Receive(SHIPPED, Empty(SHIPPED, 4929), early, 5000 % SHIPPED.M, 0);
            var r2 := Receive(SHIPPED, r1.st, next, 4929, 0);
            r1.st.out == [] && r2.st.out == next + early && r2.ack == 4930
  {
    var st1 := ShippedEarly(early);
    ShippedSecond(st1, next, early);
  }

  lemma ShippedSecond(st1: Ring, next: seq<Byte>, early: seq<Byte>)
    requires Shape(SHIPPED, st1) && st1.nfe == 4929 && st1.out == [] && |next| <= SHIPPED.frameSize
    requires Read(SHIPPED, st1, 0) == early && forall k :: 0 <= k < SHIPPED.W ==> (st1.present[k] <==> k == 0)
    ensures var r2 := Receive(SHIPPED, st1, next, 4929, 0); r2.st.out == next + early && r2.ack == 4930
  {
    ShippedDrain(st1, next, early);
    var drained := Drain(SHIPPED, Store(SHIPPED, st1, 169, next), 0);
    assert !Outside(SHIPPED, st1, 4929);
    ReceiveIn(SHIPPED, st1, next, 4929, 0, drained.0, drained.1);
  }

  /** With the window at 4929, frame 4929 and what is in slot 0 are drained. */
  lemma ShippedDrain(st: Ring, next: seq<Byte>, early: seq<Byte>)
    requires Shape(SHIPPED, st) && st.nfe == 4929 && |next| <= SHIPPED.frameSize && Read(SHIPPED, st, 0) == early
    requires forall k :: 0 <= k < SHIPPED.W ==> (st.present[k] <==> k == 0)
    ensures var r := Drain(SHIPPED, Store(SHIPPED, st, 169, next), 0);
            r.1 == 2 && r.0.out == st.out + next + early && r.0.nfe == 4929
  {
    var c := SHIPPED;
    var st2 := Store(c, st, 169, next);
    var st3 := Flush(c, st2, 169);
    var st4 := Flush(c, st3, 0);
    DrainOne(c, st2, 0, 169);
    DrainOne(c, st3, 1, 0);
    DrainNone(c, st4, 2);
  }

  // ---------- Whole runs ----------

  /** The ring buffer at the start: nothing received, nothing written. */
  function Fresh(c: Config): (st: Ring)
    requires ValidConfig(c)
    ensures AtRest(c, st, 0) && st.out == [] && Abstract(c, st, 0) == Reassembler(map[], 0, [])
  {
    ModSmall(0, c.M);
    Ring(seq(c.W, _ => Zeros(c.frameSize)), seq(c.W, _ => 0), seq(c.W, _ => false), 0, -1, [])
  }

  /** A frame that arrives: its absolute index, payload and end flag. */
  datatype Arrival = Arrival(index: int, data: seq<Byte>, end: int)

  /** Each arrival lies in the range the sequence numbers can tell apart when it comes in. */
  ghost predicate Admissible(c: Config, r: Reassembler, arrivals: seq<Arrival>)
    decreases |arrivals|
  {
    arrivals == [] ||
    (&& r.nfe - (c.M - c.W) <= arrivals[0].index < r.nfe + c.W && |arrivals[0].data| <= c.frameSize
     && Admissible(c, Reassemble(r, arrivals[0].index, arrivals[0].data).0, arrivals[1..]))
  }

  ghost function ReassembleAll(r: Reassembler, arrivals: seq<Arrival>): (Reassembler, seq<int>)
    decreases |arrivals|
  {
    if arrivals == [] then (r, [])
    else
      var (r1, ack) := Reassemble(r, arrivals[0].index, arrivals[0].data);
      var (r2, acks) := ReassembleAll(r1, arrivals[1..]);
      (r2, [ack] + acks)
  }

  function ReceiveAll(c: Config, st: Ring, arrivals: seq<Arrival>): (r: (Ring, seq<int>))
    requires ValidConfig(c) && Shape(c, st) && forall i :: 0 <= i < |arrivals| ==> |arrivals[i].data| <= c.frameSize
    ensures Shape(c, r.0) && |r.1| == |arrivals|
    decreases |arrivals|
  {
    if arrivals == [] then (st, [])
    else
      var x := arrivals[0];
      var reaction := Receive(c, st, x.data, x.index % c.M, x.end);
      var (r, acks) := ReceiveAll(c, reaction.st, arrivals[1..]);
      (r, [reaction.ack] + acks)
  }

  /** Over every run, wraps included, the ring buffer with W dividing M writes what the reassembler
      delivers and sends the reassembler's acknowledgements modulo M. */
  lemma {:induction false} RunRefines(c: Config, st: Ring, n: int, arrivals: seq<Arrival>)
    requires InReach(c, n) && c.M % c.W == 0 && AtRest(c, st, n)
    requires Admissible(c, Abstract(c, st, n), arrivals)
    requires forall i :: 0 <= i < |arrivals| ==> |arrivals[i].data| <= c.frameSize
    ensures var (ring, acks) := ReceiveAll(c, st, arrivals);
            var (r, indices) := ReassembleAll(Abstract(c, st, n), arrivals);
            && ring.out == r.out && ring.nfe == r.nfe % c.M
            && |acks| == |indices| && forall i :: 0 <= i < |acks| ==> acks[i] == indices[i] % c.M
    decreases |arrivals|
  {
    if arrivals != [] {
      var x := arrivals[0];
      ReceiveRefines(c, st, n, x.index, x.data, x.end);
      var (r, _) := Reassemble(Abstract(c, st, n), x.index, x.data);
      RunRefines(c, Receive(c, st, x.data, x.index % c.M, x.end).st, r.nfe, arrivals[1..]);
    }
  }

  // ---------- What the reassembler delivers ----------

  /** The first k pieces of what f cuts into pieces. */
  ghost function Pieces(f: int -> seq<Byte>, k: int): seq<Byte>
    decreases k
  {
    if k <= 0 then [] else Pieces(f, k - 1) + f(k - 1)
  }

  /** The output is the in-order prefix of f, each piece exactly once. */
  ghost predicate Faithful(r: Reassembler, f: int -> seq<Byte>) {
    && 0 <= r.nfe && r.nfe !in r.got && r.out == Pieces(f, r.nfe)
    && (forall k :: k in r.got ==> r.got[k] == f(k))
  }

  lemma {:induction false} CollectPieces(got: map<int, seq<Byte>>, f: int -> seq<Byte>, a: int, b: int)
    requires 0 <= a <= b && forall k :: a <= k < b ==> k in got && got[k] == f(k)
    ensures Pieces(f, a) + Collect(got, a, b) == Pieces(f, b)
    decreases b - a
  {
    if a < b {
      CollectPieces(got, f, a + 1, b);
      assert Pieces(f, a) + Collect(got, a, b) == Pieces(f, a + 1) + Collect(got, a + 1, b);
    }
  }

  /** Frames in any order, repeated or missing: if every frame carries its piece, so does the output. */
  lemma ReassembleFaithful(r: Reassembler, a: int, f: int -> seq<Byte>)
    requires Faithful(r, f)
    ensures var (r', ack) := Reassemble(r, a, f(a)); Faithful(r', f) && ack < r'.nfe && r.nfe <= r'.nfe
  {
    if r.nfe <= a {
      var got := Kept(r.got, a, f(a));
      var g := FirstMissing(got.Keys, r.nfe);
      CollectPieces(got, f, r.nfe, g);
    }
  }

  /** The same below n, whatever is held beyond it; frame n itself is missing. */
  ghost predicate FaithfulBelow(r: Reassembler, f: int -> seq<Byte>, n: int) {
    && 0 <= r.nfe <= n && r.nfe !in r.got && n !in r.got && r.out == Pieces(f, r.nfe)
    && (forall k :: k in r.got && k < n ==> r.got[k] == f(k))
  }

  /** Nothing beyond n is delivered. */
  lemma ReassembleBelow(r: Reassembler, a: int, f: int -> seq<Byte>, n: int)
    requires FaithfulBelow(r, f, n) && r.nfe <= a < n
    ensures var (r', ack) := Reassemble(r, a, f(a));
            && FaithfulBelow(r', f, n) && r.nfe <= r'.nfe && ack == r'.nfe - 1
            && (a == r.nfe ==> r.nfe < r'.nfe)
            && (forall k :: k in r'.got ==> k == a || k in r.got)
            && (r.nfe < r'.nfe ==> r'.nfe - 1 == a || r'.nfe - 1 in r.got)
  {
    var got := Kept(r.got, a, f(a));
    var g := FirstMissing(got.Keys, r.nfe);
    assert n !in got;
    CollectPieces(got, f, r.nfe, g);
  }

  // ---------- What the end report means ----------

  /** L is the last frame and the only flagged one: nothing beyond it is held, and its number has been
      noted if it has arrived. */
  ghost predicate EndNoted(c: Config, endSeq: int, r: Reassembler, L: int)
    requires ValidConfig(c)
  {
    && 0 <= r.nfe <= L + 1 && (endSeq == -1 || (endSeq == L % c.M && L < r.nfe + c.W))
    && (forall k :: k in r.got ==> k <= L)
    && (r.nfe == L + 1 || L in r.got ==> endSeq != -1)
  }

  ghost predicate EndKnown(c: Config, st: Ring, n: int, L: int)
    requires ValidConfig(c) && Shape(c, st)
  {
    EndNoted(c, st.endSeq, Abstract(c, st, n), L)
  }

  /** What one more frame does to the reassembler when L is the last frame. */
  lemma UpToLast(r: Reassembler, a: int, data: seq<Byte>, L: int)
    requires r.nfe <= a <= L && forall k :: k in r.got ==> k <= L
    ensures var r' := Reassemble(r, a, data).0;
            && r.nfe <= r'.nfe <= L + 1 && (forall k :: k in r'.got ==> k <= L)
            && (r'.nfe == L + 1 || L in r'.got ==> a == L || L in r.got)
  {
    var got := Kept(r.got, a, data);
    var g := FirstMissing(got.Keys, r.nfe);
    assert g > L + 1 ==> L + 1 in got.Keys;
    assert g == L + 1 ==> L in got.Keys;
  }

  /** Near the end the last delivered frame has the number of L only if it is L. */
  lemma EndNumber(c: Config, nfe: int, L: int)
    requires ValidConfig(c) && nfe <= L + 1
    ensures L < nfe + c.W ==> ((nfe - 1) % c.M == L % c.M <==> nfe == L + 1)
  {
    if L < nfe + c.W && nfe != L + 1 {
      ModDistinct(nfe - 1, L, c.M);
    }
  }

  lemma EndStep(c: Config, endSeq: int, r: Reassembler, a: int, data: seq<Byte>, L: int)
    requires ValidConfig(c) && EndNoted(c, endSeq, r, L) && a <= L && a < r.nfe + c.W
    ensures var noted := if a == L then a % c.M else endSeq;
            var (r', ack) := Reassemble(r, a, data);
            && EndNoted(c, noted, r', L)
            && (r.nfe <= a ==> (noted >= 0 && ack % c.M == noted <==> r'.nfe == L + 1))
  {
    if r.nfe <= a {
      UpToLast(r, a, data, L);
      EndNumber(c, Reassemble(r, a, data).0.nfe, L);
    }
  }

  /** The end is reported by exactly one kind of frame: one that lies in the window and completes the
      delivery of everything up to the flagged frame. */
  lemma EndReportedIff(c: Config, st: Ring, n: int, a: int, data: seq<Byte>, end: int, L: int)
    requires InReach(c, n) && AtRest(c, st, n) && EndKnown(c, st, n, L)
    requires n - (c.M - c.W) <= a < n + c.W && a <= L && |data| <= c.frameSize && (end == 1 <==> a == L)
    ensures var reaction := Receive(c, st, data, a % c.M, end);
            var r := Reassemble(Abstract(c, st, n), a, data).0;
            && (reaction.reachedEnd <==> n <= a && r.nfe == L + 1)
            && AtRest(c, reaction.st, r.nfe) && EndKnown(c, reaction.st, r.nfe, L)
  {
    ReceiveRefines(c, st, n, a, data, end);
    EndTest(c, st, data, a % c.M, end);
    EndStep(c, st.endSeq, Abstract(c, st, n), a, data, L);
    WindowTest(c, n, a);
  }

  /** The end flag is set on frame L only. */
  ghost predicate Flagged(arrivals: seq<Arrival>, L: int) {
    forall i :: 0 <= i < |arrivals| ==> arrivals[i].index <= L && (arrivals[i].end == 1 <==> arrivals[i].index == L)
  }

  lemma {:induction false} RunEndKnown(c: Config, st: Ring, n: int, arrivals: seq<Arrival>, L: int)
    requires InReach(c, n) && c.M % c.W == 0 && AtRest(c, st, n) && EndKnown(c, st, n, L) && Flagged(arrivals, L)
    requires Admissible(c, Abstract(c, st, n), arrivals)
    requires forall i :: 0 <= i < |arrivals| ==> |arrivals[i].data| <= c.frameSize
    ensures var ring := ReceiveAll(c, st, arrivals).0;
            var r := ReassembleAll(Abstract(c, st, n), arrivals).0;
            0 <= r.nfe && AtRest(c, ring, r.nfe) && EndKnown(c, ring, r.nfe, L) && Abstract(c, ring, r.nfe) == r
    decreases |arrivals|
  {
    if arrivals != [] {
      var x := arrivals[0];
      ReceiveRefines(c, st, n, x.index, x.data, x.end);
      EndReportedIff(c, st, n, x.index, x.data, x.end, L);
      var r := Reassemble(Abstract(c, st, n), x.index, x.data).0;
      RunEndKnown(c, Receive(c, st, x.data, x.index % c.M, x.end).st, r.nfe, arrivals[1..], L);
    }
  }

  /** After every run from the start, the next frame makes the receiver report the end if and only if it
      is the one that completes the delivery of all frames up to L. */
  lemma RunEndReported(c: Config, arrivals: seq<Arrival>, x: Arrival, L: nat)
    requires ValidConfig(c) && c.M % c.W == 0 && Flagged(arrivals, L) && Flagged([x], L) && |x.data| <= c.frameSize
    requires Admissible(c, Reassembler(map[], 0, []), arrivals)
    requires forall i :: 0 <= i < |arrivals| ==> |arrivals[i].data| <= c.frameSize
    requires Admissible(c, ReassembleAll(Reassembler(map[], 0, []), arrivals).0, [x])
    ensures var ring := ReceiveAll(c, Fresh(c), arrivals).0;
            var r := ReassembleAll(Reassembler(map[], 0, []), arrivals).0;
            Receive(c, ring, x.data, x.index % c.M, x.end).reachedEnd
            <==> r.nfe <= x.index && Reassemble(r, x.index, x.data).0.nfe == L + 1
  {
    RunEndKnown(c, Fresh(c), 0, arrivals, L);
    var ring := ReceiveAll(c, Fresh(c), arrivals).0;
    var r := ReassembleAll(Reassembler(map[], 0, []), arrivals).0;
    assert Flagged([x], L) ==> [x][0].index <= L && ([x][0].end == 1 <==> [x][0].index == L);
    EndReportedIff(c, ring, r.nfe, x.index, x.data, x.end, L);
  }
}

/** The sender's side of the sliding window, as functions on values: one pass over the window, the
    handling of one acknowledgement, and the retransmission timer. */
module Sending {
  import opened Modular
  import opened Reassembly

  // ---------- The round-trip estimator ----------

  /** Smoothed time, deviation (both -1 before the first sample) and retransmission timeout. */
  datatype Rtt = Rtt(smoothed: int, deviation: int, timeout: int)

  function Sample(r: Rtt, m: int): Rtt {
    var s := if r.smoothed == -1 then m else 7 * TruncDiv(r.smoothed, 8) + TruncDiv(m, 8);
    var d := if r.deviation == -1 then TruncDiv(m, 2) else 3 * TruncDiv(r.deviation, 4) + TruncDiv(m - s, 4);
    Rtt(s, d, s + 4 * d)
  }

  const FIRST_RTT := Rtt(-1, -1, 2000000)  // two seconds, before the first sample

  function SampleAll(r: Rtt, samples: seq<int>): Rtt
    decreases |samples|
  {
    if samples == [] then r else SampleAll(Sample(r, samples[0]), samples[1..])
  }

  ghost predicate Bounded(r: Rtt, b: int) {
    && (r.smoothed == -1 || 0 <= r.smoothed <= b) && (r.deviation == -1 || -b <= r.deviation <= b)
  }

  /** One sample between 0 and b, in truncating arithmetic, with -1 read as "none yet" even when the
      deviation comes to -1 by itself. */
  lemma SampleBounds(r: Rtt, m: int, b: int)
    requires 0 <= m <= b && Bounded(r, b)
    ensures var r' := Sample(r, m);
            0 <= r'.smoothed <= b && -b <= r'.deviation <= b && -4 * b <= r'.timeout <= 5 * b
  {
  }

  /** The estimator stays within the bound of its samples. The timeout does not stay positive. */
  lemma {:induction false} RttBounds(r: Rtt, samples: seq<int>, b: int)
    requires Bounded(r, b) && samples != [] && forall i :: 0 <= i < |samples| ==> 0 <= samples[i] <= b
    ensures var r' := SampleAll(r, samples);
            0 <= r'.smoothed <= b && -b <= r'.deviation <= b && -4 * b <= r'.timeout <= 5 * b
    decreases |samples|
  {
    SampleBounds(r, samples[0], b);
    if |samples| == 1 {
      assert samples[1..] == [];
    } else {
      RttBounds(Sample(r, samples[0]), samples[1..], b);
    }
  }

  lemma TruncSplit(x: int, m: int)
    requires 0 < m
    ensures x == m * TruncDiv(x, m) + TruncMod(x, m)
  {
  }

  /** What the truncating arithmetic approximates. The first round trip m is the smoothed time and half of
      it the deviation, so the timeout is three times the sample. Later the smoothed time is
      (7 * old + m) / 8 and the deviation (3 * old + (m - s)) / 4, at most 7 below and off by at most
      3 respectively, and the timeout exceeds the smoothed time by four deviations. */
  lemma SampleWeights(r: Rtt, m: int, b: int)
    requires 0 <= m <= b && Bounded(r, b)
    ensures var r' := Sample(r, m);
            && r'.timeout == r'.smoothed + 4 * r'.deviation
            && (r.smoothed == -1 ==> r'.smoothed == m)
            && (r.smoothed == -1 && r.deviation == -1 ==> 3 * m - 2 <= r'.timeout <= 3 * m)
            && (r.smoothed != -1 ==> 0 <= 7 * r.smoothed + m - 8 * r'.smoothed <= 56)
            && (r.deviation == -1 ==> 0 <= m - 2 * r'.deviation <= 1)
            && (r.deviation != -1 ==> -12 <= 3 * r.deviation + (m - r'.smoothed) - 4 * r'.deviation <= 12)
  {
  }

  /** So the smoothed time never leaves the range of the samples by more than what truncation loses. */
  lemma {:induction false} SmoothedInRange(r: Rtt, samples: seq<int>, lo: nat, hi: int)
    requires r.smoothed == -1 || (0 <= r.smoothed && lo - 56 <= r.smoothed <= hi)
    requires samples != [] && forall i :: 0 <= i < |samples| ==> lo <= samples[i] <= hi
    ensures var s := SampleAll(r, samples).smoothed; 0 <= s && lo - 56 <= s <= hi
    decreases |samples|
  {
    if |samples| == 1 {
      assert samples[1..] == [];
    } else {
      SmoothedInRange(Sample(r, samples[0]), samples[1..], lo, hi);
    }
  }

  /** Exactly when a sample m makes the timeout negative: the deviation so far is at most -4, and four
      times what is carried over of it outweighs the sample. In particular the first samples, and any
      sample after a deviation above -4, leave the timeout at 0 or more. */
  lemma TimeoutNegativeIff(r: Rtt, m: int, b: int)
    requires 0 <= m <= b && Bounded(r, b)
    ensures var s := if r.smoothed == -1 then m else 7 * TruncDiv(r.smoothed, 8) + TruncDiv(m, 8);
            Sample(r, m).timeout < 0 <==>
              r.deviation <= -4 && m - TruncMod(m - s, 4) < 12 * (-r.deviation / 4)
  {
    SampleBounds(r, m, b);
    var s := Sample(r, m).smoothed;
    if r.deviation != -1 {
      TruncSplit(m - s, 4);
      assert Sample(r, m).timeout == m - TruncMod(m - s, 4) + 12 * TruncDiv(r.deviation, 4);
      assert TruncMod(m - s, 4) <= m;
    }
  }

  /** The condition is met in practice: one long round trip followed by short ones. */
  lemma TimeoutMayBeNegative()
    ensures SampleAll(FIRST_RTT, [1000, 0, 0, 0]).timeout < 0
  {
    var r1 := Sample(FIRST_RTT, 1000);
    var r2 := Sample(r1, 0);
    var r3 := Sample(r2, 0);
    assert SampleAll(r3, [0]) == Sample(r3, 0);
    assert SampleAll(r2, [0, 0]) == SampleAll(r3, [0]);
    assert SampleAll(r1, [0, 0, 0]) == SampleAll(r2, [0, 0]);
  }

  // ---------- The sender ----------

  /** The constants of the sender (SWS, MAX_SEQ_NO, MAX_DATA_SIZE) and what it has to send: the first `total`
      bytes of a file. */
  datatype Job = Job(S: nat, M: nat, D: nat, file: seq<Byte>, total: nat)

  ghost predicate ValidJob(c: Job) {
    2 <= c.S < c.M && 0 < c.D && 0 < c.total <= |c.file|
  }

  datatype Frame = Frame(data: seq<Byte>, seqNum: int, isEnd: bool, sendTime: int)

  /** The sender's variables. `pos` is the position in the file, `ack` the number in the receive
      buffer, `lastFrame` -1 until the frame with the end flag has been built. */
  datatype State = State(window: seq<Frame>, cwnd: int, lar: int, lastFrame: int, pos: nat, rtt: Rtt, ack: int)

  datatype Packet = Packet(seqNum: int, data: seq<Byte>, end: bool)

  /** What the loop over the window relies on. */
  ghost predicate Sane(c: Job, st: State) {
    ValidJob(c) && st.pos <= c.total && -1 <= st.lar
  }

  /** A new frame with the next bytes of the file. */
  function NewFrame(c: Job, st: State, seqNo: int, time: int): Frame
    requires Sane(c, st)
  {
    var remaining := c.total - st.pos;
    var size := if remaining <= c.D then remaining else c.D;
    Frame(c.file[st.pos..st.pos + size], seqNo, remaining <= c.D, time)
  }

  function Push(c: Job, st: State, f: Frame): State {
    st.(window := st.window + [f], pos := st.pos + |f.data|, lastFrame := if f.isEnd then f.seqNum else st.lastFrame)
  }

  function Resend(st: State, i: nat, halve: bool, time: int): State
    requires i < |st.window|
  {
    st.(cwnd := if halve then st.cwnd / 2 else st.cwnd, window := st.window[i := st.window[i].(sendTime := time)])
  }

  /** The outcome of one round of the loop over the window: the state, the packets sent, whether the
      loop ends, and whether the congestion window may still be halved in this pass. */
  datatype Round = Round(st: State, ps: seq<Packet>, stop: bool, mayHalve: bool)

  /** The round for place i. The clock is read once at the test of the timer and once after the
      transmission. */
  function SendPlace(c: Job, st: State, i: nat, mayHalve: bool, clock: int -> int): (r: Round)
    requires Sane(c, st) && i <= |st.window|
    ensures Sane(c, r.st) && (!r.stop ==> i < |r.st.window|) && (i < st.cwnd ==> r.st.cwnd <= st.cwnd)
  {
    var seqNo := TruncMod(st.lar + i + 1, c.M);
    if i == |st.window| then
      if st.pos == c.total then Round(st, [], true, mayHalve)
      else
        var f := NewFrame(c, st, seqNo, clock(2 * i + 1));
        Round(Push(c, st, f), [Packet(seqNo, f.data, f.isEnd)], f.isEnd, mayHalve)
    else
      var f := st.window[i];
      if clock(2 * i) - f.sendTime >= st.rtt.timeout then
        var halve := mayHalve && st.cwnd > 1;
        Round(Resend(st, i, halve, clock(2 * i + 1)), [Packet(seqNo, f.data, f.isEnd)], f.isEnd, mayHalve && !halve)
      else Round(st, [], false, mayHalve)
  }

  /** The loop from place i on, as long as i is inside the congestion window. */
  function PassFrom(c: Job, st: State, i: nat, mayHalve: bool, clock: int -> int): (r: (State, seq<Packet>))
    requires Sane(c, st) && i <= |st.window|
    decreases st.cwnd - i
  {
    if i >= st.cwnd then (st, [])
    else
      var round := SendPlace(c, st, i, mayHalve, clock);
      if round.stop then (round.st, round.ps)
      else
        var (r, ps) := PassFrom(c, round.st, i + 1, round.mayHalve, clock);
        (r, round.ps + ps)
  }

  function Pass(c: Job, st: State, clock: int -> int): (State, seq<Packet>)
    requires Sane(c, st)
  {
    PassFrom(c, st, 0, true, clock)
  }

  function AckIndex(c: Job, st: State, ack: int): int
    requires ValidJob(c)
  {
    TruncMod(ack - (st.lar + 1), c.M)
  }

  predicate InWindow(c: Job, st: State, ack: int)
    requires ValidJob(c)
  {
    0 <= AckIndex(c, st, ack) < |st.window|
  }

  function Grow(c: Job, st: State, ack: int): State {
    st.(ack := ack, cwnd := if st.cwnd < c.S then st.cwnd + 1 else st.cwnd)
  }

  /** The reaction to the number in the receive buffer: the new state, and whether the sender is done. */
  function HandleAck(c: Job, st: State, ack: int, time: int): (State, bool)
    requires ValidJob(c)
  {
    var st1 := Grow(c, st, ack);
    if !InWindow(c, st, ack) then (st1, false)
    else if st.lastFrame == ack then (st1, true)
    else
      var k := AckIndex(c, st, ack);
      (st1.(rtt := Sample(st.rtt, time - st.window[k].sendTime), window := st.window[k + 1..], lar := ack), false)
  }

  /** When nothing arrives in time, the bytes of the previous acknowledgement are handled again. */
  function HandleTimeout(c: Job, st: State, time: int): (State, bool)
    requires ValidJob(c)
  {
    HandleAck(c, st, st.ack, time)
  }

  // ---------- The truncated distance ----------

  /** For numbers in range the truncated distance is non-negative exactly when the acknowledgement
      does not lie before the window in plain order, or the window starts at 0 again and is
      acknowledged with 0. Then it is the true distance modulo M. */
  lemma AckDistance(c: Job, lar: int, ack: int)
    requires ValidJob(c) && -1 <= lar < c.M && 0 <= ack < c.M
    ensures var k := TruncMod(ack - (lar + 1), c.M);
            && (0 <= k <==> lar + 1 <= ack || (lar == c.M - 1 && ack == 0))
            && (0 <= k ==> k == (ack - (lar + 1)) % c.M)
  {
    var x := ack - (lar + 1);
    if 0 <= x {
      ModSmall(x, c.M);
    } else if x + c.M == 0 {
      DivModUnique(c.M, 1, 0, c.M);
    } else {
      ModSmall(-x, c.M);
    }
    if TruncMod(x, c.M) >= 0 {
      TruncModNonNegative(x, c.M);
    }
  }

  /** What that means at a wrap: with the window at sequence number s > 0, a cumulative
      acknowledgement of a frame that lies in the window beyond the wrap is not accepted. */
  lemma AckBeyondWrapIgnored(c: Job, st: State, d: nat)
    requires ValidJob(c) && 0 <= st.lar < c.M - 1 && d < |st.window| && d < c.M && c.M <= st.lar + 1 + d
    ensures var ack := (st.lar + 1 + d) % c.M; !InWindow(c, st, ack)
  {
    ModShift(st.lar + 1 + d - c.M, 1, c.M);
    ModSmall(st.lar + 1 + d - c.M, c.M);
    AckDistance(c, st.lar, st.lar + 1 + d - c.M);
  }
}

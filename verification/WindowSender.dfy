/** The sender: the variables of its main loop, one pass over the window and one wait for an
    acknowledgement at a time. */
module WindowSender {
  import opened Modular
  import opened Sending
  import opened Alignment

  /** What a wait for an acknowledgement yields. */
  datatype Arrival = Arrived(seqNo: int) | NothingInTime

  class Sender {
    const job: Job
    var windowBuf: seq<Frame>
    var congestionWindow: int
    var lar: int               // last acknowledgement received
    var lastFrameSeqNo: int
    var filePos: nat
    var rtts: int
    var rttd: int
    var rto: int
    var ack: int               // the receive buffer
    var sent: seq<Packet>      // what has been handed to the network, in order

    ghost function View(): State
      reads this
    {
      State(windowBuf, congestionWindow, lar, lastFrameSeqNo, filePos, Rtt(rtts, rttd, rto), ack)
    }

    ghost predicate Valid()
      reads this
    {
      Sane(job, View())
    }

    constructor (j: Job, buffer: int)
      requires ValidJob(j)
      ensures Valid() && job == j && View() == Start(j, buffer) && sent == []
    {
      job := j;
      windowBuf, congestionWindow, lar, lastFrameSeqNo, filePos := [], j.S / 2, -1, -1, 0;
      rtts, rttd, rto, ack, sent := -1, -1, 2000000, buffer, [];
    }

    /** Reads the next bytes of the file into a new frame at the end of the window. */
    method AppendFrame(seqNo: int, time: int)
      requires Valid() && filePos != job.total
      modifies this`windowBuf, this`filePos, this`lastFrameSeqNo
      ensures Valid()
      ensures View() == Push(job, old(View()), NewFrame(job, old(View()), seqNo, time))
    {
      var bytesRemaining := job.total - filePos;
      var isEnd := false;
      var cpySize := job.D;
      if bytesRemaining <= job.D {
        cpySize := bytesRemaining;
        isEnd := true;
        lastFrameSeqNo := seqNo;
      }
      windowBuf := windowBuf + [Frame(job.file[filePos..filePos + cpySize], seqNo, isEnd, time)];
      filePos := filePos + cpySize;
    }

    /** One round of the pass: appends a frame at the end of the window, or checks the timer of the
        frame that is there, and sends it if need be. */
    method SendPlaced(i: nat, mayHalve: bool, clock: int -> int) returns (stop: bool, updateTO: bool)
      requires Valid() && i <= |windowBuf|
      modifies this`windowBuf, this`congestionWindow, this`filePos, this`lastFrameSeqNo, this`sent
      ensures var r := SendPlace(job, old(View()), i, mayHalve, clock);
              View() == r.st && sent == old(sent) + r.ps && stop == r.stop && updateTO == r.mayHalve
    {
      updateTO := mayHalve;
      var seqNo := TruncMod(lar + i + 1, job.M);
      if i >= |windowBuf| {
        if job.total - filePos == 0 {
          return true, updateTO;
        }
        AppendFrame(seqNo, clock(2 * i + 1));
      } else if clock(2 * i) - windowBuf[i].sendTime >= rto {
        if updateTO && congestionWindow > 1 {
          updateTO := false;
          congestionWindow := congestionWindow / 2;
        }
        windowBuf := windowBuf[i := windowBuf[i].(sendTime := clock(2 * i + 1))];
      } else {
        return false, updateTO;
      }
      sent := sent + [Packet(seqNo, windowBuf[i].data, windowBuf[i].isEnd)];
      stop := windowBuf[i].isEnd;
    }

    /** One pass over the congestion window: sends the frames that are new and those whose timer has
        run out. */
    method SendWindow(clock: int -> int)
      requires Valid()
      modifies this`windowBuf, this`congestionWindow, this`filePos, this`lastFrameSeqNo, this`sent
      ensures View() == Pass(job, old(View()), clock).0
      ensures sent == old(sent) + Pass(job, old(View()), clock).1
    {
      SendRounds(clock, View(), Pass(job, View(), clock));
    }

    /** The loop of the pass. */
    method SendRounds(clock: int -> int, ghost start: State, ghost whole: (State, seq<Packet>))
      requires Valid() && start == View() && whole == PassFrom(job, start, 0, true, clock)
      modifies this`windowBuf, this`congestionWindow, this`filePos, this`lastFrameSeqNo, this`sent
      ensures View() == whole.0 && sent == old(sent) + whole.1
    {
      ghost var now, final := start, sent + whole.1;
      var updateTO := true;
      var i: nat := 0;
      while i < congestionWindow
        invariant now == View() && Sane(job, now) && i <= |now.window|
        invariant LeadsTo(PassFrom(job, now, i, updateTO, clock), sent, whole.0, final)
        decreases congestionWindow - i
      {
        ghost var round := SendPlace(job, now, i, updateTO, clock);
        LeadsOn(job, now, i, updateTO, clock, sent, whole.0, final);
        var stop;
        stop, updateTO := SendPlaced(i, updateTO, clock);
        now := round.st;
        if stop {
          return;
        }
        i := i + 1;
      }
    }

    /** Pops acknowledged frames off the front of the window, one at a time. */
    method PopFrames(count: nat)
      requires count <= |windowBuf|
      modifies this`windowBuf
      ensures windowBuf == old(windowBuf)[count..]
    {
      var i := 0;
      while i < count
        invariant 0 <= i <= count && windowBuf == old(windowBuf)[i..]
      {
        windowBuf := windowBuf[1..];
        i := i + 1;
      }
    }

    /** Takes the number in the buffer as the acknowledgement of the frames up to place k. */
    method TakeUpTo(k: nat, receiveTime: int)
      requires k < |windowBuf|
      modifies this`windowBuf, this`lar, this`rtts, this`rttd, this`rto
      ensures View() == old(View()).(rtt := Sample(old(View()).rtt, receiveTime - old(windowBuf)[k].sendTime),
                                     window := old(windowBuf)[k + 1..], lar := ack)
    {
      var rttm := receiveTime - windowBuf[k].sendTime;
      UpdateTimer(rttm);
      PopFrames(k + 1);
      lar := ack;
    }

    /** One wait for an acknowledgement. When nothing arrives in time the bytes that are still in the
        buffer are handled again. */
    method AwaitAck(arrival: Arrival, receiveTime: int) returns (done: bool)
      requires Valid()
      modifies this
      ensures (View(), done) == if arrival.Arrived? then HandleAck(job, old(View()), arrival.seqNo, receiveTime)
                                else HandleTimeout(job, old(View()), receiveTime)
      ensures sent == old(sent)
    {
      ghost var st := View();
      if arrival.Arrived? {
        ack := arrival.seqNo;
      }
      if congestionWindow < job.S {
        congestionWindow := congestionWindow + 1;
      }
      assert View() == Grow(job, st, ack);
      var ackIdx := TruncMod(ack - (lar + 1), job.M);
      assert ackIdx == AckIndex(job, st, ack);
      done := false;
      if 0 <= ackIdx < |windowBuf| {
        if lastFrameSeqNo == ack {
          return true;
        }
        TakeUpTo(ackIdx, receiveTime);
        AckTaken(job, st, ack, receiveTime, ackIdx);
      }
    }

    /** Takes a round-trip time into the estimate and sets the retransmission timeout. */
    method UpdateTimer(rttm: int)
      modifies this`rtts, this`rttd, this`rto
      ensures Rtt(rtts, rttd, rto) == Sample(old(Rtt(rtts, rttd, rto)), rttm)
    {
      if rtts == -1 {
        rtts := rttm;
      } else {
        rtts := 7 * TruncDiv(rtts, 8) + TruncDiv(rttm, 8);
      }
      if rttd == -1 {
        rttd := TruncDiv(rttm, 2);
      } else {
        rttd := 3 * TruncDiv(rttd, 4) + TruncDiv(rttm - rtts, 4);
      }
      rto := rtts + 4 * rttd;
    }
  }

  /** The rest of a pass, after what has been sent so far, ends in the given state and output. */
  ghost predicate LeadsTo(rest: (State, seq<Packet>), sent: seq<Packet>, st: State, final: seq<Packet>) {
    rest.0 == st && sent + rest.1 == final
  }

  lemma LeadsOn(c: Job, now: State, i: nat, mayHalve: bool, clock: int -> int, sent: seq<Packet>, st: State,
                final: seq<Packet>)
    requires Sane(c, now) && i <= |now.window| && i < now.cwnd
    requires LeadsTo(PassFrom(c, now, i, mayHalve, clock), sent, st, final)
    ensures var round := SendPlace(c, now, i, mayHalve, clock);
            && (round.stop ==> round.st == st && sent + round.ps == final)
            && (!round.stop ==> LeadsTo(PassFrom(c, round.st, i + 1, round.mayHalve, clock), sent + round.ps, st,
               final))
  {
  }

  lemma AckTaken(c: Job, st: State, ack: int, time: int, k: nat)
    requires ValidJob(c) && k == AckIndex(c, st, ack) && k < |st.window| && st.lastFrame != ack
    ensures HandleAck(c, st, ack, time) ==
            (Grow(c, st, ack).(rtt := Sample(st.rtt, time - st.window[k].sendTime), window := st.window[k + 1..],
                lar := ack), false)
  {
  }
}

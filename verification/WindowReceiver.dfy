/** The receiver: a ring of W frame buffers that is filled and drained in place. */
module WindowReceiver {
  import opened Reassembly

  class Receiver {
    const c: Config
    const buf: array<seq<Byte>>
    const bufDataSize: array<int>
    const present: array<bool>
    var nfe: int               // next frame expected
    var endSeqNum: int         // -1 until a frame with the end flag has arrived
    var file: seq<Byte>        // what has been written
    var acks: seq<int>         // what has been acknowledged, in order

    ghost function View(): Ring
      reads this, buf, bufDataSize, present
    {
      Ring(buf[..], bufDataSize[..], present[..], nfe, endSeqNum, file)
    }

    ghost predicate Valid()
      reads this, buf, bufDataSize, present
    {
      ValidConfig(c) && Shape(c, View()) && nfe < c.M
    }

    constructor (config: Config)
      requires ValidConfig(config)
      ensures Valid() && c == config && View() == Fresh(config) && acks == []
      ensures fresh(buf) && fresh(bufDataSize) && fresh(present)
    {
      c := config;
      buf := new seq<Byte>[config.W](_ => Zeros(config.frameSize));
      bufDataSize := new int[config.W](_ => 0);
      present := new bool[config.W](_ => false);
      nfe, endSeqNum, file, acks := 0, -1, [], [];
      new;
      var start := Fresh(config);
      assert buf[..] == start.buf && bufDataSize[..] == start.size && present[..] == start.present;
    }

    /** Copies a frame into its slot unless the slot is taken. */
    method StoreFrame(idx: int, data: seq<Byte>)
      requires Valid() && 0 <= idx < c.W && |data| <= c.frameSize
      modifies buf, bufDataSize, present
      ensures Valid() && View() == Store(c, old(View()), idx, data)
    {
      if !present[idx] {
        present[idx] := true;
        buf[idx] := data + buf[idx][|data|..];
        bufDataSize[idx] := |data|;
      }
      assert View() == Store(c, old(View()), idx, data);
    }

    /** Writes a slot to the file and clears it. */
    method FlushSlot(idx: int)
      requires Valid() && 0 <= idx < c.W
      modifies this`file, buf, bufDataSize, present
      ensures Valid() && View() == Flush(c, old(View()), idx)
    {
      file := file + buf[idx][..bufDataSize[idx]];
      present[idx] := false;
      bufDataSize[idx] := 0;
      buf[idx] := Zeros(c.frameSize);
      assert View() == Flush(c, old(View()), idx);
    }

    /** Writes out the frames at the front of the window, up to the first missing one. */
    method DrainSlots() returns (i: nat)
      requires Valid()
      modifies this`file, buf, bufDataSize, present
      ensures Valid() && i <= c.W && (View(), i) == Drain(c, old(View()), 0)
    {
      ghost var st := View();
      i := 0;
      ghost var now := st;
      while i < c.W
        invariant i <= c.W && Valid() && now == View() && now.nfe == st.nfe
        invariant Drain(c, st, 0) == Drain(c, now, i)
      {
        var idx := (i + nfe) % c.W;
        if !present[idx] {
          break;
        }
        DrainOne(c, now, i, idx);
        now := Flush(c, now, idx);
        FlushSlot(idx);
        i := i + 1;
      }
      DrainNone(c, now, i);
    }

    /** Moves the window past the i frames just written and acknowledges the last of them. */
    method Advance(i: nat) returns (reachedEnd: bool)
      requires Valid()
      modifies this`nfe, this`acks
      ensures Valid()
      ensures Reaction(View(), Last(acks), reachedEnd) == Answer(c, old(View()), i)
      ensures |acks| == |old(acks)| + 1 && acks[..|old(acks)|] == old(acks)
    {
      nfe := (nfe + i) % c.M;
      var ackSeq := (nfe + c.M - 1) % c.M;
      acks := acks + [ackSeq];
      reachedEnd := endSeqNum >= 0 && ackSeq == endSeqNum;
    }

    /** Handles one frame: notes the end flag, tests the window, stores, drains in order, moves the
        window and acknowledges. The ring, the file and the acknowledgement are those of `Receive`. */
    method HandleRecvFrame(data: seq<Byte>, seqNo: int, end: int) returns (reachedEnd: bool)
      requires Valid() && 0 <= seqNo && |data| <= c.frameSize
      modifies this, buf, bufDataSize, present
      ensures Valid()
      ensures Reaction(View(), Last(acks), reachedEnd) == Receive(c, old(View()), data, seqNo, end)
      ensures |acks| == |old(acks)| + 1 && acks[..|old(acks)|] == old(acks)
    {
      ghost var st := View();
      if end == 1 {
        endSeqNum := seqNo;
      }
      assert View() == Noted(st, seqNo, end);
      if (seqNo + (c.M - nfe)) % c.M >= c.W {
        assert Outside(c, st, seqNo);
        acks := acks + [seqNo];
        return false;
      }
      StoreFrame(seqNo % c.W, data);
      var i := DrainSlots();
      ReceiveIn(c, st, data, seqNo, end, View(), i);
      reachedEnd := Advance(i);
    }
  }

  function Last(s: seq<int>): int {
    if s == [] then -1 else s[|s| - 1]
  }
}

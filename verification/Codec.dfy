/** The datagrams of the transfer, byte by byte. A frame is an end flag, the sequence number and the
    payload size as big-endian 32-bit words, and the payload; an acknowledgement is one such word. */
module Codec {
  import opened Reassembly

  const TWO_TO_31 := 0x8000_0000
  const TWO_TO_32 := 0x1_0000_0000

  /** A C int. */
  predicate IsInt(x: int) {
    -TWO_TO_31 <= x < TWO_TO_31
  }

  /** The conversions between int and the unsigned word on the wire. */
  function ToWord(x: int): (w: nat)
    ensures w < TWO_TO_32
  {
    x % TWO_TO_32
  }

  function ToInt(w: nat): int {
    if w < TWO_TO_31 then w else w - TWO_TO_32
  }

  function BigEndian(w: nat): (bs: seq<Byte>)
    requires w < TWO_TO_32
    ensures |bs| == 4
  {
    [w / 0x100_0000, w / 0x1_0000 % 0x100, w / 0x100 % 0x100, w % 0x100]
  }

  function FromBigEndian(bs: seq<Byte>): nat
    requires |bs| == 4
  {
    (((bs[0] as int) * 0x100 + bs[1]) * 0x100 + bs[2]) * 0x100 + bs[3]
  }

  /** Every int survives the way over the wire, negative ones included. */
  lemma WordRoundTrip(x: int)
    requires IsInt(x)
    ensures ToInt(FromBigEndian(BigEndian(ToWord(x)))) == x
  {
    BytesRoundTrip(ToWord(x));
  }

  lemma BytesRoundTrip(w: nat)
    requires w < TWO_TO_32
    ensures FromBigEndian(BigEndian(w)) == w
  {
    var a, b, c := w / 0x100, w / 0x1_0000, w / 0x100_0000;
    assert w == a * 0x100 + w % 0x100;
    assert a == b * 0x100 + a % 0x100 by {
      assert b == a / 0x100;
    }
    assert b == c * 0x100 + b % 0x100 by {
      assert c == b / 0x100;
    }
    assert c < 0x100;
  }

  /** The order of byte strings of one length: the first difference decides. */
  predicate Before(a: seq<Byte>, b: seq<Byte>)
    requires |a| == |b|
  {
    a != [] && (a[0] < b[0] || (a[0] == b[0] && Before(a[1..], b[1..])))
  }

  /** The most significant byte comes first: on the wire, words are in the order of their numbers. */
  lemma WireOrder(v: nat, w: nat)
    requires v < TWO_TO_32 && w < TWO_TO_32
    ensures v < w <==> Before(BigEndian(v), BigEndian(w))
  {
    var a, b := BigEndian(v), BigEndian(w);
    BytesRoundTrip(v);
    BytesRoundTrip(w);
    assert a[1..][1..][1..] == [a[3]] && b[1..][1..][1..] == [b[3]];
    assert Before(a[1..][1..][1..], b[1..][1..][1..]) <==> a[3] < b[3];
    assert Before(a[1..][1..], b[1..][1..]) <==> a[2] < b[2] || (a[2] == b[2] && a[3] < b[3]);
  }

  // ---------- The formats ----------

  const HEADER := 9

  function EncodeFrame(seqNum: int, data: seq<Byte>, end: int): (f: seq<Byte>)
    ensures |f| == HEADER + |data|
  {
    [if end == 0 then 0 else 1] + BigEndian(ToWord(seqNum)) + BigEndian(ToWord(|data|)) + data
  }

  datatype Contents = Contents(seqNum: int, size: int, data: seq<Byte>, end: int)

  function SizeField(f: seq<Byte>): int
    requires HEADER <= |f|
  {
    ToInt(FromBigEndian(f[5..9]))
  }

  /** The reader trusts the size field: it must be the size of something that is there. */
  predicate Readable(f: seq<Byte>) {
    HEADER <= |f| && 0 <= SizeField(f) <= |f| - HEADER
  }

  function DecodeFrame(f: seq<Byte>): Contents
    requires Readable(f)
  {
    var size := SizeField(f);
    Contents(ToInt(FromBigEndian(f[1..5])), size, f[HEADER..HEADER + size], if f[0] == 0 then 0 else 1)
  }

  /** Reading a frame that has been created gives back what went in, the flag as 0 or 1, whatever
      lies behind the frame in the reader's buffer. */
  lemma FrameRoundTrip(seqNum: int, data: seq<Byte>, end: int, rest: seq<Byte>)
    requires IsInt(seqNum) && IsInt(|data|)
    ensures var f := EncodeFrame(seqNum, data, end) + rest;
            Readable(f) && DecodeFrame(f) == Contents(seqNum, |data|, data, if end == 0 then 0 else 1)
  {
    var f := EncodeFrame(seqNum, data, end) + rest;
    assert f[1..5] == BigEndian(ToWord(seqNum));
    assert f[5..9] == BigEndian(ToWord(|data|));
    assert f[9..9 + |data|] == data;
    WordRoundTrip(seqNum);
    WordRoundTrip(|data|);
  }

  /** The four bytes at a position spell a number, most significant byte first. */
  predicate Spelled(f: seq<Byte>, at: nat, w: int) {
    at + 4 <= |f| &&
    w == (f[at] as int) * 0x100_0000 + (f[at + 1] as int) * 0x1_0000 + (f[at + 2] as int) * 0x100 + f[at + 3]
  }

  lemma SpelledAlone(w: nat)
    requires w < TWO_TO_32
    ensures Spelled(BigEndian(w), 0, w)
  {
    BytesRoundTrip(w);
  }

  lemma SpelledWithin(f: seq<Byte>, at: nat, bs: seq<Byte>, w: int)
    requires at + 4 <= |f| && f[at..at + 4] == bs && Spelled(bs, 0, w)
    ensures Spelled(f, at, w)
  {
    assert f[at] == bs[0] && f[at + 1] == bs[1] && f[at + 2] == bs[2] && f[at + 3] == bs[3];
  }

  /** The word of an int on the wire, in two's complement. */
  lemma OnTheWire(x: int)
    requires IsInt(x)
    ensures Spelled(BigEndian(ToWord(x)), 0, if 0 <= x then x else x + TWO_TO_32)
  {
    var w := if 0 <= x then x else x + TWO_TO_32;
    assert ToWord(x) == w;
    SpelledAlone(w);
  }

  lemma FrameParts(seqNum: int, data: seq<Byte>, end: int, f: seq<Byte>)
    requires f == EncodeFrame(seqNum, data, end)
    ensures (f[0] == 0 <==> end == 0) && f[0] <= 1
    ensures f[1..5] == BigEndian(ToWord(seqNum)) && f[5..9] == BigEndian(ToWord(|data|)) && f[9..] == data
  {
  }

  /** Where what lies in a frame, byte by byte. */
  lemma FrameLayout(seqNum: int, data: seq<Byte>, end: int, f: seq<Byte>)
    requires IsInt(seqNum) && IsInt(|data|) && f == EncodeFrame(seqNum, data, end)
    ensures (f[0] == 0 <==> end == 0) && f[0] <= 1
    ensures Spelled(f, 1, if 0 <= seqNum then seqNum else seqNum + TWO_TO_32) && Spelled(f, 5, |data|) && f[9..] == data
  {
    FrameParts(seqNum, data, end, f);
    OnTheWire(seqNum);
    OnTheWire(|data|);
    SpelledWithin(f, 1, f[1..5], if 0 <= seqNum then seqNum else seqNum + TWO_TO_32);
    SpelledWithin(f, 5, f[5..9], |data|);
  }

  /** Different frames never look the same. */
  lemma FrameInjective(s1: int, d1: seq<Byte>, e1: int, s2: int, d2: seq<Byte>, e2: int)
    requires IsInt(s1) && IsInt(s2) && IsInt(|d1|) && IsInt(|d2|)
    requires EncodeFrame(s1, d1, e1) == EncodeFrame(s2, d2, e2)
    ensures s1 == s2 && d1 == d2 && (e1 == 0 <==> e2 == 0)
  {
    FrameRoundTrip(s1, d1, e1, []);
    FrameRoundTrip(s2, d2, e2, []);
  }

  // ---------- The buffers ----------

  /** memcpy to position `at` of a buffer. */
  method CopyTo(dst: array<Byte>, at: nat, src: seq<Byte>)
    requires at + |src| <= dst.Length
    modifies dst
    ensures dst[..] == old(dst[..at]) + src + old(dst[at + |src|..])
  {
    for i := 0 to |src|
      invariant dst[..] == old(dst[..at]) + src[..i] + old(dst[at + i..])
    {
      dst[at + i] := src[i];
    }
  }

  /** Writes a frame to the front of a buffer and returns its size. */
  method CreateSendFrame(frame: array<Byte>, seqNum: int, data: seq<Byte>, end: int) returns (size: nat)
    requires HEADER + |data| <= frame.Length
    modifies frame
    ensures size == HEADER + |data|
    ensures frame[..size] == EncodeFrame(seqNum, data, end) && frame[size..] == old(frame[size..])
  {
    var flag: Byte := if end == 0 then 0 else 1;
    ghost var rest := frame[..];
    frame[0] := flag;
    assert frame[..] == [flag] + rest[1..];
    Append(frame, [flag], rest[1..], 1, BigEndian(ToWord(seqNum)));
    ghost var two := [flag] + BigEndian(ToWord(seqNum));
    Append(frame, two, rest[1..][4..], 5, BigEndian(ToWord(|data|)));
    ghost var three := two + BigEndian(ToWord(|data|));
    Append(frame, three, rest[1..][4..][4..], 9, data);
    size := 9 + |data|;
    assert three + data == EncodeFrame(seqNum, data, end);
    assert rest[1..][4..][4..][|data|..] == rest[size..];
  }

  /** CopyTo for a buffer of which `done` is written and `rest` is not. */
  method Append(dst: array<Byte>, ghost done: seq<Byte>, ghost rest: seq<Byte>, at: nat, src: seq<Byte>)
    requires dst[..] == done + rest && at == |done| && |src| <= |rest|
    modifies dst
    ensures dst[..] == done + src + rest[|src|..]
  {
    assert dst[..at] == done;
    assert dst[at + |src|..] == rest[|src|..];
    CopyTo(dst, at, src);
  }

  /** Reads a frame from the front of a buffer; the payload goes to the front of another one. */
  method ReadSendFrame(frame: array<Byte>, data: array<Byte>) returns (seqNum: int, dataSize: int, end: int)
    requires Readable(frame[..]) && SizeField(frame[..]) <= data.Length && frame != data
    modifies data
    ensures Contents(seqNum, dataSize, data[..SizeField(frame[..])], end) == DecodeFrame(frame[..])
    ensures data[dataSize..] == old(data[dataSize..])
  {
    end := if frame[0] == 0 then 0 else 1;
    seqNum := ToInt(FromBigEndian(frame[1..5]));
    dataSize := ToInt(FromBigEndian(frame[5..9]));
    assert frame[1..5] == frame[..][1..5] && frame[5..9] == frame[..][5..9];
    CopyTo(data, 0, frame[9..9 + dataSize]);
    assert frame[9..9 + dataSize] == frame[..][9..9 + dataSize];
  }

  method CreateAckFrame(ack: array<Byte>, seqNum: int)
    requires 4 <= ack.Length
    modifies ack
    ensures ack[..4] == BigEndian(ToWord(seqNum)) && ack[4..] == old(ack[4..])
  {
    CopyTo(ack, 0, BigEndian(ToWord(seqNum)));
  }

  method ReadAck(ack: array<Byte>) returns (seqNum: int)
    requires 4 <= ack.Length
    ensures seqNum == ToInt(FromBigEndian(ack[..4]))
  {
    seqNum := ToInt(FromBigEndian(ack[0..4]));
  }
}

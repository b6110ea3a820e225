/**
 The mode-2 USB byte layout: 24-bit sample codecs, check bytes, and the two index maps between the
 byte stream and the samples it carries. In each 16-byte group offsets 8..11 hold check bytes and the
 other twelve hold samples, one byte of each of the four streams in turn.
 */
module Mode2Layout {
  import opened Numbers

  type Byte = b: int | 0 <= b < 0x100

  type I24 = v: int | -0x80_0000 <= v < 0x80_0000

  datatype ByteOrder = Native | Big

  // ----- Sample codecs

  function RawI24(v: I24): nat {
    v % 0x100_0000
  }

  /** The bytes of a sample in transmission order: least significant first when native. */
  function EncodeI24(v: I24, order: ByteOrder): (bytes: seq<Byte>)
    ensures |bytes| == 3
  {
    var raw := RawI24(v);
    var low, mid, high := raw % 0x100, raw / 0x100 % 0x100, raw / 0x1_0000 % 0x100;
    if order.Native? then [low, mid, high] else [high, mid, low]
  }

  function SignExtend(raw: nat): I24
    requires raw < 0x100_0000
  {
    if raw / 0x80_0000 % 2 == 1 then raw - 0x100_0000 else raw
  }

  function JoinBytes(low: int, mid: int, high: int): int {
    low + 0x100 * mid + 0x1_0000 * high
  }

  function DecodeI24(bytes: seq<Byte>, order: ByteOrder): I24
    requires |bytes| == 3
  {
    if order.Native?
    then SignExtend(JoinBytes(bytes[0], bytes[1], bytes[2]))
    else SignExtend(JoinBytes(bytes[2], bytes[1], bytes[0]))
  }

  lemma BytesOfRaw(raw: nat)
    requires raw < 0x100_0000
    ensures raw % 0x100 + 0x100 * (raw / 0x100 % 0x100) + 0x1_0000 * (raw / 0x1_0000 % 0x100) == raw
  {
    assert raw / 0x1_0000 == raw / 0x100 / 0x100;
  }

  lemma DecodeEncode(v: I24, order: ByteOrder)
    ensures DecodeI24(EncodeI24(v, order), order) == v
  {
    BytesOfRaw(RawI24(v));
  }

  lemma JoinedRaw(low: Byte, mid: Byte, high: Byte)
    ensures var raw := JoinBytes(low, mid, high);
      0 <= raw < 0x100_0000 && RawI24(SignExtend(raw)) == raw
  {
  }

  lemma JoinedLow(low: Byte, mid: Byte, high: Byte)
    ensures JoinBytes(low, mid, high) % 0x100 == low
    ensures JoinBytes(low, mid, high) / 0x100 == mid + 0x100 * high
  {
    Divide(JoinBytes(low, mid, high), 0x100, mid + 0x100 * high, low);
  }

  lemma JoinedBytes(low: Byte, mid: Byte, high: Byte)
    ensures JoinBytes(low, mid, high) / 0x100 % 0x100 == mid
    ensures JoinBytes(low, mid, high) / 0x1_0000 % 0x100 == high
  {
    JoinedLow(low, mid, high);
    Divide(mid + 0x100 * high, 0x100, high, mid);
    Divide(JoinBytes(low, mid, high), 0x1_0000, high, low + 0x100 * mid);
  }

  lemma EncodeJoined(low: Byte, mid: Byte, high: Byte)
    ensures EncodeI24(SignExtend(JoinBytes(low, mid, high)), Native) == [low, mid, high]
    ensures EncodeI24(SignExtend(JoinBytes(low, mid, high)), Big) == [high, mid, low]
  {
    JoinedRaw(low, mid, high);
    JoinedLow(low, mid, high);
    JoinedBytes(low, mid, high);
    hide JoinBytes, RawI24, SignExtend;
  }

  lemma EncodeDecode(bytes: seq<Byte>, order: ByteOrder)
    requires |bytes| == 3
    ensures EncodeI24(DecodeI24(bytes, order), order) == bytes
  {
    hide EncodeI24, SignExtend, JoinBytes;
    if order.Native? {
      EncodeJoined(bytes[0], bytes[1], bytes[2]);
    } else {
      EncodeJoined(bytes[2], bytes[1], bytes[0]);
    }
  }

  /** The digits of a sample in base 256, in two's complement. */
  predicate HasDigits(v: int, low: int, mid: int, high: int) {
    v % 0x100_0000 == low + 0x100 * mid + 0x1_0000 * high
  }

  /** The three bytes are the digits of the sample: least significant first when native, last otherwise. */
  lemma DecodeIsTwosComplement(bytes: seq<Byte>)
    requires |bytes| == 3
    ensures HasDigits(DecodeI24(bytes, Native), bytes[0], bytes[1], bytes[2])
    ensures HasDigits(DecodeI24(bytes, Big), bytes[2], bytes[1], bytes[0])
  {
    JoinedRaw(bytes[0], bytes[1], bytes[2]);
    JoinedRaw(bytes[2], bytes[1], bytes[0]);
  }

  // ----- Frames

  /** One sample for each of the eight channels, two to a stream. */
  type Frame = f: seq<I24> | |f| == 8 witness [0, 0, 0, 0, 0, 0, 0, 0]

  const SILENCE: Frame := [0, 0, 0, 0, 0, 0, 0, 0]

  /** The six bytes that one stream of a frame carries: left sample, then right. */
  function StreamBytes(frame: Frame, stream: nat, order: ByteOrder): (bytes: seq<Byte>)
    requires stream < 4
    ensures |bytes| == 6
  {
    EncodeI24(frame[2 * stream], order) + EncodeI24(frame[2 * stream + 1], order)
  }

  /** The frame a stream position reads once the source may have run out. */
  function FrameAt(frames: seq<Frame>, k: nat): Frame {
    if k < |frames| then frames[k] else SILENCE
  }

  /** Sample byte number `n`, counting from byte 0 of stream 0 of frame 0. */
  function SourceByte(frames: seq<Frame>, order: ByteOrder, n: nat): Byte {
    StreamBytes(FrameAt(frames, n / 24), n % 4, order)[n % 24 / 4]
  }

  // ----- Positions

  predicate IsCheck(i: nat) {
    8 <= i % 16 < 12
  }

  /** Check bytes carry their stream and the parity of their group. */
  function CheckByte(stream: nat, index: nat): Byte
    requires stream < 4
  {
    2 * stream + (1 - index / 16 % 2)
  }

  /** A check byte carries its stream above bit 0, and in bit 0 whether its group is even. */
  lemma CheckByteCarries(stream: nat, index: nat)
    requires stream < 4
    ensures CheckByte(stream, index) < 8 && CheckByte(stream, index) / 2 == stream
    ensures CheckByte(stream, index) % 2 == 1 <==> index / 16 % 2 == 0
  {
  }

  /** The mark of a check byte: its low six bits are this stream and the parity of this group. */
  predicate Marks(value: Byte, stream: int, group: nat) {
    value % 64 / 2 == stream && (value % 2 == 1 <==> group % 2 == 0)
  }

  /** The low six bits of a byte are the expected ones exactly when they name that stream and that parity. */
  lemma ExpectedIffMarked(value: Byte, stream: nat, index: nat)
    requires stream < 4
    ensures value % 0x40 == CheckByte(stream, index) <==> Marks(value, stream, index / 16)
  {
    CheckByteCarries(stream, index);
    var low, check := value % 0x40, CheckByte(stream, index);
    assert low == 2 * (low / 2) + low % 2 && check == 2 * (check / 2) + check % 2 && value % 2 == low % 2;
  }

  /** How many sample bytes precede position `i`. */
  function SampleCount(i: nat): nat {
    if i == 0 then 0 else SampleCount(i - 1) + (if IsCheck(i - 1) then 0 else 1)
  }

  /** The position of sample byte `n`. */
  function SampleIndex(n: nat): nat {
    16 * (n / 12) + (if n % 12 < 8 then n % 12 else n % 12 + 4)
  }

  lemma {:induction false} SampleCountClosed(g: nat, r: nat)
    requires r < 16
    ensures SampleCount(16 * g + r) == 12 * g + (if r < 8 then r else if r < 12 then 8 else r - 4)
    decreases g, r
  {
    if r > 0 {
      SampleCountClosed(g, r - 1);
      Divide(16 * g + r - 1, 16, g, r - 1);
    } else if g > 0 {
      SampleCountClosed(g - 1, 15);
      Divide(16 * g - 1, 16, g - 1, 15);
    }
  }

  lemma GroupPosition(g: nat, r: nat, i: nat, n: nat)
    requires r < 8 || 12 <= r < 16
    requires i == 16 * g + r && n == 12 * g + (if r < 8 then r else r - 4)
    ensures SampleIndex(n) == i && n % 4 == i % 4
  {
    var p := if r < 8 then r else r - 4;
    Divide(n, 12, g, p);
    Divide(r, 4, r / 4, r % 4);
    Divide(i, 4, 4 * g + r / 4, r % 4);
    Divide(n, 4, 3 * g + (if r < 8 then r / 4 else r / 4 - 1), r % 4);
  }

  lemma {:induction false} SampleAtCount(i: nat)
    requires !IsCheck(i)
    ensures SampleIndex(SampleCount(i)) == i && SampleCount(i) % 4 == i % 4
  {
    var g, r := i / 16, i % 16;
    SampleCountClosed(g, r);
    assert i == 16 * g + r;
    GroupPosition(g, r, i, SampleCount(i));
  }

  lemma SampleIndexIsSample(n: nat)
    ensures !IsCheck(SampleIndex(n)) && SampleCount(SampleIndex(n)) == n
  {
    var g, p := n / 12, n % 12;
    var r := if p < 8 then p else p + 4;
    SampleCountClosed(g, r);
    Divide(16 * g + r, 16, g, r);
    hide SampleCount;
    assert n == 12 * g + p;
    assert SampleIndex(n) == 16 * g + r;
  }

  lemma {:induction false} SampleCountMonotone(i: nat, j: nat)
    requires i <= j
    ensures SampleCount(i) <= SampleCount(j)
    decreases j - i
  {
    if i == j {
    } else {
      SampleCountMonotone(i + 1, j);
    }
  }

  /** The sample bytes of a prefix of `i` bytes are those numbered below its count. */
  lemma {:induction false} SampleIndexBelow(n: nat, i: nat)
    ensures SampleIndex(n) < i <==> n < SampleCount(i)
  {
    SampleIndexIsSample(n);
    if SampleIndex(n) < i {
      SampleCountMonotone(SampleIndex(n) + 1, i);
    } else {
      SampleCountMonotone(i, SampleIndex(n));
    }
  }

  /** A whole number of groups shifts the count by three quarters of its length. */
  lemma {:induction false} SampleCountShift(a: nat, i: nat)
    requires a % 16 == 0
    ensures SampleCount(a + i) == 12 * (a / 16) + SampleCount(i)
    ensures IsCheck(a + i) <==> IsCheck(i)
    decreases i
  {
    assert (a + i) % 16 == i % 16;
    if i > 0 {
      SampleCountShift(a, i - 1);
      assert a + i - 1 == a + (i - 1);
    } else {
      SampleCountClosed(a / 16, 0);
    }
  }
}

/** The stateful packer of scripts/validate-mode2-output-packing.py, over already quantised frames. */
module Mode2Packer {
  import opened Mode2Layout
  import opened Numbers

  /** How many groups of four sample bytes a transfer of `length` bytes begins. */
  function LanesBegun(length: nat): nat {
    (SampleCount(length) + 3) / 4
  }

  /** What a transfer must hold at position `i` when its first sample byte is number `base`. */
  function TransferByte(frames: seq<Frame>, order: ByteOrder, base: nat, i: nat): Byte {
    if IsCheck(i) then CheckByte(i % 16 - 8, i) else SourceByte(frames, order, base + SampleCount(i))
  }

  function Transfer(frames: seq<Frame>, order: ByteOrder, base: nat, length: nat): (bytes: seq<Byte>)
    ensures |bytes| == length
  {
    if length == 0 then []
    else Transfer(frames, order, base, length - 1) + [TransferByte(frames, order, base, length - 1)]
  }

  /** One byte of each of the four streams. */
  function Column(rows: seq<seq<Byte>>, p: nat): (bytes: seq<Byte>)
    requires |rows| == 4 && forall row :: row in rows ==> p < |row|
    ensures |bytes| == 4
  {
    [rows[0][p], rows[1][p], rows[2][p], rows[3][p]]
  }

  /** The check bytes from the start of a check field. */
  function ChecksFrom(at: nat, count: nat): (bytes: seq<Byte>)
    requires count <= 4
    ensures |bytes| == count
  {
    if count == 0 then [] else ChecksFrom(at, count - 1) + [CheckByte(count - 1, at + count - 1)]
  }

  /** Consecutive sample bytes of the source. */
  function LaneBytes(frames: seq<Frame>, order: ByteOrder, n: nat, count: nat): (bytes: seq<Byte>)
    ensures |bytes| == count
  {
    if count == 0 then [] else LaneBytes(frames, order, n, count - 1) + [SourceByte(frames, order, n + count - 1)]
  }

  lemma SourceByteAt(frames: seq<Frame>, order: ByteOrder, n: nat, f: nat, p: nat, stream: nat)
    requires p < 6 && stream < 4 && n == 24 * f + 4 * p + stream
    ensures SourceByte(frames, order, n) == StreamBytes(FrameAt(frames, f), stream, order)[p]
  {
    Divide(n, 24, f, 4 * p + stream);
    Divide(n, 4, 6 * f + p, stream);
    Divide(4 * p + stream, 4, p, stream);
  }

  /** The four rows of bytes that stream_frame_bytes builds for a frame. */
  function Rows(frame: Frame, order: ByteOrder): (rows: seq<seq<Byte>>)
    ensures |rows| == 4 && forall stream :: 0 <= stream < 4 ==> rows[stream] == StreamBytes(frame, stream, order)
  {
    [StreamBytes(frame, 0, order), StreamBytes(frame, 1, order),
     StreamBytes(frame, 2, order), StreamBytes(frame, 3, order)]
  }

  lemma {:induction false} LaneOfFrame(
    frames: seq<Frame>, order: ByteOrder, n: nat, f: nat, p: nat, count: nat)
    requires p < 6 && n == 24 * f + 4 * p && count <= 4
    ensures LaneBytes(frames, order, n, count) == Column(Rows(FrameAt(frames, f), order), p)[..count]
    decreases count
  {
    hide SourceByte, StreamBytes, FrameAt;
    if count == 0 {
    } else {
      LaneOfFrame(frames, order, n, f, p, count - 1);
      SourceByteAt(frames, order, n + count - 1, f, p, count - 1);
    }
  }

  /** A check field continues a transfer. */
  lemma {:induction false} TransferChecks(frames: seq<Frame>, order: ByteOrder, base: nat, at: nat, count: nat)
    requires at % 16 == 8 && count <= 4
    ensures Transfer(frames, order, base, at + count) == Transfer(frames, order, base, at) + ChecksFrom(at, count)
    decreases count
  {
    hide SourceByte, CheckByte, SampleCount;
    if count == 0 {
    } else {
      TransferChecks(frames, order, base, at, count - 1);
      Divide(at + count - 1, 16, at / 16, 8 + count - 1);
      assert TransferByte(frames, order, base, at + count - 1) == CheckByte(count - 1, at + count - 1);
    }
  }

  lemma InSampleLane(at: nat, stream: nat)
    requires at % 4 == 0 && at % 16 != 8 && stream < 4
    ensures !IsCheck(at + stream)
  {
    var g, r := at / 16, at % 16;
    Divide(at, 4, 4 * g + r / 4, r % 4);
    assert r in {0, 4, 12};
    Divide(at + stream, 16, g, r + stream);
  }

  lemma {:induction false} LaneCount(at: nat, stream: nat)
    requires at % 4 == 0 && at % 16 != 8 && stream <= 4
    ensures SampleCount(at + stream) == SampleCount(at) + stream
    decreases stream
  {
    if stream == 0 {
    } else {
      LaneCount(at, stream - 1);
      InSampleLane(at, stream - 1);
    }
  }

  /** A lane continues a transfer. */
  lemma {:induction false} TransferLane(frames: seq<Frame>, order: ByteOrder, base: nat, at: nat, count: nat)
    requires at % 4 == 0 && at % 16 != 8 && count <= 4
    ensures Transfer(frames, order, base, at + count)
         == Transfer(frames, order, base, at) + LaneBytes(frames, order, base + SampleCount(at), count)
    decreases count
  {
    hide SourceByte, CheckByte;
    if count == 0 {
    } else {
      TransferLane(frames, order, base, at, count - 1);
      LaneCount(at, count - 1);
      InSampleLane(at, count - 1);
    }
  }

  lemma {:induction false} ChecksCount(at: nat, stream: nat)
    requires at % 16 == 8 && stream <= 4
    ensures SampleCount(at + stream) == SampleCount(at)
    decreases stream
  {
    if stream == 0 {
    } else {
      ChecksCount(at, stream - 1);
      assert (at + (stream - 1)) % 16 == 8 + (stream - 1);
    }
  }

  lemma {:induction false} AlignedCount(at: nat)
    requires at % 4 == 0
    ensures SampleCount(at) % 4 == 0 && (at + 4) % 4 == 0
  {
    var g, r := at / 16, at % 16;
    SampleCountClosed(g, r);
    assert r in {0, 4, 8, 12};
    Divide(SampleCount(at), 4, 3 * g + (if r < 12 then r / 4 else 2), 0);
  }

  /** A lane holds four sample bytes, or fewer at the end of a transfer; check bytes hold none. */
  lemma {:induction false} LanesStep(at: nat, i: nat)
    requires at % 4 == 0 && at < i <= at + 4
    ensures SampleCount(at) == 4 * LanesBegun(at)
    ensures LanesBegun(i) == LanesBegun(at) + (if at % 16 == 8 then 0 else 1)
    ensures (at + 4) % 4 == 0
  {
    hide SampleCount;
    AlignedCount(at);
    if at % 16 == 8 {
      ChecksCount(at, i - at);
    } else {
      LaneCount(at, i - at);
    }
  }

  const ZEROS: seq<seq<Byte>> :=
    [[0, 0, 0, 0, 0, 0], [0, 0, 0, 0, 0, 0], [0, 0, 0, 0, 0, 0], [0, 0, 0, 0, 0, 0]]

  lemma RowsOfSilence(order: ByteOrder)
    ensures Rows(SILENCE, order) == ZEROS
  {
    assert EncodeI24(0, order) == [0, 0, 0];
    assert Rows(SILENCE, order)[0] == ZEROS[0];
  }

  lemma {:induction false} TransferAt(frames: seq<Frame>, order: ByteOrder, base: nat, length: nat, i: nat)
    requires i < length
    ensures Transfer(frames, order, base, length)[i] == TransferByte(frames, order, base, i)
    decreases length
  {
    if i == length - 1 {
    } else {
      TransferAt(frames, order, base, length - 1, i);
    }
  }

  lemma StreamByteOf(frame: Frame, st: nat, order: ByteOrder, half: nat, j: nat)
    requires st < 4 && half < 2 && j < 3
    ensures StreamBytes(frame, st, order)[3 * half + j] == EncodeI24(frame[2 * st + half], order)[j]
  {
    hide EncodeI24;
    if half == 0 {
      assert StreamBytes(frame, st, order)[j] == EncodeI24(frame[2 * st], order)[j];
    } else {
      assert StreamBytes(frame, st, order)[3 + j] == EncodeI24(frame[2 * st + 1], order)[j];
    }
  }

  /** The bytes of one channel, gathered from three lanes, are its encoding. */
  lemma ChannelByte(frames: seq<Frame>, order: ByteOrder, f: nat, st: nat, half: nat, j: nat)
    requires st < 4 && half < 2 && j < 3
    ensures SourceByte(frames, order, 24 * f + (st + 12 * half + 4 * j))
         == EncodeI24(FrameAt(frames, f)[2 * st + half], order)[j]
  {
    hide EncodeI24, SourceByte, FrameAt;
    SourceByteAt(frames, order, 24 * f + (st + 12 * half + 4 * j), f, 3 * half + j, st);
    StreamByteOf(FrameAt(frames, f), st, order, half, j);
  }

  /** Which channel and which of its three bytes a sample byte is. */
  lemma SourceByteMeans(frames: seq<Frame>, order: ByteOrder, n: nat)
    ensures var sample: I24 := if n / 24 < |frames| then frames[n / 24][2 * (n % 4) + n % 24 / 12] else 0;
      SourceByte(frames, order, n) == EncodeI24(sample, order)[n % 12 / 4]
  {
    hide EncodeI24, SourceByte;
    var f, r := n / 24, n % 24;
    var half, j, st := r / 12, r % 12 / 4, n % 4;
    assert n == 24 * f + r;
    Divide(n, 12, 2 * f + half, r % 12);
    Divide(n, 4, 6 * f + r / 4, r % 4);
    assert r == st + 12 * half + 4 * j;
    ChannelByte(frames, order, f, st, half, j);
  }

  /** Where a transfer puts what: check bytes in the middle of each group, sample bytes around them. */
  lemma {:induction false} FilledByte(frames: seq<Frame>, order: ByteOrder, base: nat, length: nat, i: nat)
    requires i < length
    ensures var b := Transfer(frames, order, base, length)[i];
      if 8 <= i % 16 < 12 then b / 2 == i % 16 - 8 && (b % 2 == 1 <==> i / 16 % 2 == 0)
      else
        var n := base + 12 * (i / 16) + (if i % 16 < 8 then i % 16 else i % 16 - 4);
        b == SourceByte(frames, order, n)
  {
    hide CheckByte, SourceByte, Transfer;
    TransferAt(frames, order, base, length, i);
    if 8 <= i % 16 < 12 {
      CheckByteCarries(i % 16 - 8, i);
    } else {
      SampleCountClosed(i / 16, i % 16);
      assert i == 16 * (i / 16) + i % 16;
    }
  }

  /** The middle four bytes of each group are check bytes: the stream, and whether the group is even. */
  ghost predicate ChecksLaid(out: seq<Byte>) {
    forall i :: 0 <= i < |out| && 8 <= i % 16 < 12 ==>
      out[i] / 2 == i % 16 - 8 && (out[i] % 2 == 1 <==> i / 16 % 2 == 0)
  }

  /**
   The other twelve are sample bytes in sequence from number `base`: one byte of each stream in turn, three
   bytes of the left channel and then three of the right, frame after frame, and zeros past the last.
   */
  ghost predicate SamplesLaid(out: seq<Byte>, frames: seq<Frame>, order: ByteOrder, base: nat) {
    forall i :: 0 <= i < |out| && !(8 <= i % 16 < 12) ==>
      var n := base + 12 * (i / 16) + (if i % 16 < 8 then i % 16 else i % 16 - 4);
      var sample: I24 := if n / 24 < |frames| then frames[n / 24][2 * (n % 4) + n % 24 / 12] else 0;
      out[i] == EncodeI24(sample, order)[n % 12 / 4]
  }

  lemma {:induction false} TransferIsLaid(frames: seq<Frame>, order: ByteOrder, base: nat, length: nat)
    ensures ChecksLaid(Transfer(frames, order, base, length))
    ensures SamplesLaid(Transfer(frames, order, base, length), frames, order, base)
  {
    hide Transfer, EncodeI24, SourceByte;
    forall i | 0 <= i < length && 8 <= i % 16 < 12
      ensures var b := Transfer(frames, order, base, length)[i];
        b / 2 == i % 16 - 8 && (b % 2 == 1 <==> i / 16 % 2 == 0)
    {
      FilledByte(frames, order, base, length, i);
    }
    forall i | 0 <= i < length && !(8 <= i % 16 < 12)
      ensures
        var n := base + 12 * (i / 16) + (if i % 16 < 8 then i % 16 else i % 16 - 4);
        var sample: I24 := if n / 24 < |frames| then frames[n / 24][2 * (n % 4) + n % 24 / 12] else 0;
        Transfer(frames, order, base, length)[i] == EncodeI24(sample, order)[n % 12 / 4]
    {
      FilledByte(frames, order, base, length, i);
      SourceByteMeans(frames, order, base + 12 * (i / 16) + (if i % 16 < 8 then i % 16 else i % 16 - 4));
    }
  }

  /** Three lanes to a group, and a lane for every begun four bytes of samples. */
  lemma LanesBegunClosed(length: nat)
    ensures LanesBegun(length) == 3 * (length / 16) +
      (if length % 16 <= 8 then (length % 16 + 3) / 4 else if length % 16 <= 12 then 2 else 3)
  {
    var g, r := length / 16, length % 16;
    SampleCountClosed(g, r);
    assert length == 16 * g + r;
    var k := if r < 8 then r else if r < 12 then 8 else r - 4;
    Divide(12 * g + k + 3, 4, 3 * g + (k + 3) / 4, (k + 3) % 4);
  }

  class Packer {
    const frames: seq<Frame>
    const startByte: nat
    const order: ByteOrder
    var frameIndex: nat
    var outputByteInFrame: nat
    var outputFrameLoaded: bool
    var outputFrameBytes: seq<seq<Byte>>
    ghost var lanes: nat   // groups of four sample bytes begun so far
    ghost var loaded: nat  // frames loaded so far, silence included

    /** Where the packer stands in the sample bytes of the whole source. */
    ghost function Position(): nat
      reads this
    {
      4 * (startByte + lanes)
    }

    ghost predicate Valid()
      reads this
    {
      && startByte < 6 && outputByteInFrame < 6
      && frameIndex == (if loaded < |frames| then loaded else |frames|)
      && (outputFrameLoaded <==> loaded > 0)
      && (!outputFrameLoaded ==> lanes == 0 && outputByteInFrame == startByte)
      && (outputFrameLoaded ==>
            && lanes > 0
            && startByte + lanes == 6 * (loaded - 1) + (if outputByteInFrame == 0 then 6 else outputByteInFrame)
            && outputFrameBytes == Rows(FrameAt(frames, loaded - 1), order))
    }

    constructor (frames: seq<Frame>, startByte: nat, order: ByteOrder)
      requires startByte < 6
      ensures Valid() && lanes == 0
      ensures this.frames == frames && this.startByte == startByte && this.order == order
    {
      this.frames, this.startByte, this.order := frames, startByte, order;
      frameIndex, outputByteInFrame, outputFrameLoaded := 0, startByte, false;
      outputFrameBytes := ZEROS;
      lanes, loaded := 0, 0;
    }

    method LoadNextOutputFrameIfNeeded()
      requires Valid()
      modifies `frameIndex, `outputFrameLoaded, `outputFrameBytes, `loaded
      ensures outputFrameLoaded && loaded > 0
      ensures startByte + lanes == 6 * (loaded - 1) + outputByteInFrame
      ensures frameIndex == (if loaded < |frames| then loaded else |frames|)
      ensures outputFrameBytes == Rows(FrameAt(frames, loaded - 1), order)
    {
      hide EncodeI24, StreamBytes, Rows;
      if outputFrameLoaded && outputByteInFrame != 0 {
        return;
      }
      if frameIndex < |frames| {
        outputFrameBytes := Rows(frames[frameIndex], order);
        frameIndex := frameIndex + 1;
      } else {
        RowsOfSilence(order);
        outputFrameBytes := ZEROS;
      }
      loaded := loaded + 1;
      outputFrameLoaded := true;
    }

    /** The inner loop over the four check bytes of a group, cut short at the end of the transfer. */
    method AppendChecks(before: seq<Byte>, at: nat, length: nat) returns (out: seq<Byte>, i: nat)
      requires at < length
      ensures i == (if at + 4 <= length then at + 4 else length)
      ensures out == before + ChecksFrom(at, i - at)
    {
      out, i := before, at;
      for stream := 0 to 4
        invariant i == (if at + stream <= length then at + stream else length)
        invariant out == before + ChecksFrom(at, i - at)
      {
        if i >= length {
          break;
        }
        out := out + [CheckByte(stream, i)];
        i := i + 1;
      }
    }

    /** The inner loop over the four streams, cut short at the end of the transfer. */
    method AppendLaneBytes(before: seq<Byte>, at: nat, length: nat) returns (out: seq<Byte>, i: nat)
      requires at < length && outputByteInFrame < 6
      requires |outputFrameBytes| == 4 && forall row :: row in outputFrameBytes ==> |row| == 6
      ensures i == (if at + 4 <= length then at + 4 else length)
      ensures out == before + Column(outputFrameBytes, outputByteInFrame)[..i - at]
    {
      out, i := before, at;
      for stream := 0 to 4
        invariant i == (if at + stream <= length then at + stream else length)
        invariant out == before + Column(outputFrameBytes, outputByteInFrame)[..i - at]
      {
        if i >= length {
          break;
        }
        out := out + [outputFrameBytes[stream][outputByteInFrame]];
        i := i + 1;
      }
    }

    /** One lane: the byte under the cursor of each stream, and then the cursor moves. */
    method AppendLane(before: seq<Byte>, at: nat, length: nat) returns (out: seq<Byte>, i: nat)
      requires Valid() && at < length
      modifies this
      ensures Valid() && lanes == old(lanes) + 1
      ensures i == (if at + 4 <= length then at + 4 else length)
      ensures out == before + LaneBytes(frames, order, old(Position()), i - at)
    {
      hide SourceByte, LaneBytes, Rows, StreamBytes, FrameAt;
      LoadNextOutputFrameIfNeeded();
      out, i := AppendLaneBytes(before, at, length);
      LaneOfFrame(frames, order, Position(), loaded - 1, outputByteInFrame, i - at);
      outputByteInFrame := outputByteInFrame + 1;
      if outputByteInFrame >= 6 {
        outputByteInFrame := 0;
      }
      lanes := lanes + 1;
    }

    /** One pass of the packing loop: a check field, or a lane of samples. */
    method AppendNext(before: seq<Byte>, at: nat, length: nat, ghost base: nat) returns (out: seq<Byte>, i: nat)
      requires Valid() && at < length && at % 4 == 0
      requires before == Transfer(frames, order, base, at)
      requires base + SampleCount(at) == Position()
      modifies this
      ensures Valid() && lanes == old(lanes) + (if at % 16 == 8 then 0 else 1)
      ensures i == (if at + 4 <= length then at + 4 else length)
      ensures out == Transfer(frames, order, base, i)
    {
      hide Transfer, IsCheck, SampleCount, LaneBytes, ChecksFrom, Rows, StreamBytes, FrameAt, CheckByte;
      ghost var next := if at + 4 <= length then at + 4 else length;
      if at % 16 == 8 {
        TransferChecks(frames, order, base, at, next - at);
        out, i := AppendChecks(before, at, length);
      } else {
        TransferLane(frames, order, base, at, next - at);
        out, i := AppendLane(before, at, length);
      }
    }

    /**
     Packs one transfer of any length. A transfer that ends inside a group of four drops the rest of
     that group: the next one starts with the byte after it.
     */
    method Fill(length: nat) returns (out: seq<Byte>)
      requires Valid()
      modifies this
      ensures Valid()
      ensures lanes == old(lanes) + LanesBegun(length)
      ensures out == Transfer(frames, order, old(Position()), length)
      ensures |out| == length && lanes == old(lanes) + 3 * (length / 16) +
        (if length % 16 <= 8 then (length % 16 + 3) / 4 else if length % 16 <= 12 then 2 else 3)
      ensures ChecksLaid(out) && SamplesLaid(out, frames, order, 4 * (startByte + old(lanes)))
    {
      hide ChecksLaid, SamplesLaid;
      out := [];
      var i := 0;
      ghost var base := Position();
      while i < length
        invariant Valid()
        invariant i <= length && (i % 4 == 0 || i == length)
        invariant lanes == old(lanes) + LanesBegun(i)
        invariant out == Transfer(frames, order, base, i)
      {
        LanesStep(i, if i + 4 <= length then i + 4 else length);
        out, i := AppendNext(out, i, length, base);
      }
      LanesBegunClosed(length);
      TransferIsLaid(frames, order, base, length);
    }
  }
}

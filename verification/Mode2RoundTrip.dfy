/** Packing then decoding is the identity on frames, for every cursor, byte order and transfer size. */
module Mode2RoundTrip {
  import opened Mode2Layout
  import opened Mode2Packer
  import opened Mode2Decoder
  import opened Mode2Agreement
  import opened Numbers

  /** What `count` transfers of one size carry, one after another. */
  function Stream(
    frames: seq<Frame>, order: ByteOrder, startByte: nat, transferBytes: nat, count: nat): (data: seq<Byte>)
    ensures |data| == count * transferBytes
  {
    if count == 0 then []
    else
      var before := Stream(frames, order, startByte, transferBytes, count - 1);
      before + Transfer(frames, order, 4 * startByte + SampleCount(|before|), transferBytes)
  }

  lemma {:induction false} WholeTransfers(count: nat, transferBytes: nat)
    requires transferBytes > 0 && transferBytes % 16 == 0
    ensures count * transferBytes % 16 == 0 && count * transferBytes % transferBytes == 0
    ensures count * transferBytes / transferBytes == count
    ensures SampleCount(count * transferBytes) == 12 * (count * transferBytes / 16)
  {
    var g := transferBytes / 16;
    assert count * transferBytes == 16 * (count * g);
    Divide(count * transferBytes, 16, count * g, 0);
    Divide(count * transferBytes, transferBytes, count, 0);
    SampleCountClosed(count * g, 0);
  }

  /** What position `i` of a stream of transfers must hold. */
  function StreamByte(frames: seq<Frame>, order: ByteOrder, startByte: nat, transferBytes: nat, i: nat): Byte
    requires transferBytes > 0
  {
    if IsCheck(i) then CheckByte(i % 16 - 8, LocalIndex(i, transferBytes))
    else SourceByte(frames, order, 4 * startByte + SampleCount(i))
  }

  /** Whole groups in front of a position change neither its offset in its group nor what follows. */
  lemma GroupShift(before: nat, i: nat)
    requires before % 16 == 0
    ensures SampleCount(before + i) == SampleCount(before) + SampleCount(i)
    ensures (before + i) % 16 == i % 16
    ensures IsCheck(before + i) <==> IsCheck(i)
  {
    SampleCountShift(before, 0);
    SampleCountShift(before, i);
    Divide(i, 16, i / 16, i % 16);
    Divide(before + i, 16, before / 16 + i / 16, i % 16);
  }

  lemma ShiftedPosition(transferBytes: nat, before: nat, i: nat)
    requires transferBytes > 0 && before % transferBytes == 0 && i < transferBytes
    ensures LocalIndex(before + i, transferBytes) == i
  {
    var q := before / transferBytes;
    assert before == transferBytes * q;
    Divide(before + i, transferBytes, q, i);
  }

  lemma {:induction false} ShiftedCheck(
    frames: seq<Frame>, order: ByteOrder, startByte: nat, transferBytes: nat, before: nat, i: nat)
    requires transferBytes > 0 && before % 16 == 0 && before % transferBytes == 0 && i < transferBytes && IsCheck(i)
    ensures TransferByte(frames, order, 4 * startByte + SampleCount(before), i)
         == StreamByte(frames, order, startByte, transferBytes, before + i)
  {
    GroupShift(before, i);
    ShiftedPosition(transferBytes, before, i);
    hide SourceByte, CheckByte, LocalIndex, SampleCount;
  }

  lemma {:induction false} TransferSample(frames: seq<Frame>, order: ByteOrder, base: nat, i: nat, n: nat)
    requires !IsCheck(i) && n == base + SampleCount(i)
    ensures TransferByte(frames, order, base, i) == SourceByte(frames, order, n)
  {
    hide SourceByte;
  }

  lemma {:induction false} StreamSample(
    frames: seq<Frame>, order: ByteOrder, startByte: nat, transferBytes: nat, i: nat, n: nat)
    requires transferBytes > 0 && !IsCheck(i) && n == 4 * startByte + SampleCount(i)
    ensures StreamByte(frames, order, startByte, transferBytes, i) == SourceByte(frames, order, n)
  {
    hide SourceByte;
  }

  lemma {:induction false} ShiftedSample(
    frames: seq<Frame>, order: ByteOrder, startByte: nat, transferBytes: nat, before: nat, i: nat)
    requires transferBytes > 0 && before % 16 == 0 && !IsCheck(i)
    ensures TransferByte(frames, order, 4 * startByte + SampleCount(before), i)
         == StreamByte(frames, order, startByte, transferBytes, before + i)
  {
    hide TransferByte, StreamByte, SampleCount, IsCheck;
    GroupShift(before, i);
    var n := 4 * startByte + SampleCount(before + i);
    TransferSample(frames, order, 4 * startByte + SampleCount(before), i, n);
    StreamSample(frames, order, startByte, transferBytes, before + i, n);
  }

  lemma {:induction false} ShiftedByte(
    frames: seq<Frame>, order: ByteOrder, startByte: nat, transferBytes: nat, before: nat, i: nat)
    requires transferBytes > 0 && before % 16 == 0 && before % transferBytes == 0 && i < transferBytes
    ensures TransferByte(frames, order, 4 * startByte + SampleCount(before), i)
         == StreamByte(frames, order, startByte, transferBytes, before + i)
  {
    if IsCheck(i) {
      ShiftedCheck(frames, order, startByte, transferBytes, before, i);
    } else {
      ShiftedSample(frames, order, startByte, transferBytes, before, i);
    }
  }

  lemma {:induction false} StreamAt(
    frames: seq<Frame>, order: ByteOrder, startByte: nat, transferBytes: nat, count: nat, i: nat)
    requires transferBytes > 0 && transferBytes % 16 == 0 && i < count * transferBytes
    ensures Stream(frames, order, startByte, transferBytes, count)[i]
         == StreamByte(frames, order, startByte, transferBytes, i)
    decreases count
  {
    hide StreamByte, TransferByte;
    var before := (count - 1) * transferBytes;
    assert count * transferBytes == before + transferBytes;
    if i < before {
      StreamAt(frames, order, startByte, transferBytes, count - 1, i);
    } else {
      WholeTransfers(count - 1, transferBytes);
      TransferAt(frames, order, 4 * startByte + SampleCount(before), transferBytes, i - before);
      ShiftedByte(frames, order, startByte, transferBytes, before, i - before);
    }
  }

  // ----- Round trip

  ghost predicate CarriesFrame(raw: Raw, frames: seq<Frame>, order: ByteOrder, f: nat) {
    forall c :: 0 <= c < 24 ==> raw[c] == SourceByte(frames, order, 24 * f + c)
  }

  lemma {:induction false} StreamFrameByte(
    frames: seq<Frame>, order: ByteOrder, startByte: nat, transferBytes: nat, count: nat, f: nat, c: nat)
    requires transferBytes > 0 && transferBytes % 16 == 0 && c < 24
    requires HasFrame(Stream(frames, order, startByte, transferBytes, count), startByte, f)
    ensures FrameByte(Stream(frames, order, startByte, transferBytes, count), startByte, f, c)
         == SourceByte(frames, order, 24 * f + c)
  {
    hide SourceByte, CheckByte, LocalIndex, IsCheck, SampleIndex;
    var data := Stream(frames, order, startByte, transferBytes, count);
    var n := 24 * f + c - 4 * startByte;
    SampleIndexBelow(n, |data|);
    SampleIndexIsSample(n);
    StreamAt(frames, order, startByte, transferBytes, count, SampleIndex(n));
  }

  lemma {:induction false} StreamFrame(
    frames: seq<Frame>, order: ByteOrder, startByte: nat, transferBytes: nat, count: nat, raw: Raw, f: nat)
    requires transferBytes > 0 && transferBytes % 16 == 0
    requires IsFrame(raw, Stream(frames, order, startByte, transferBytes, count), startByte, f)
    ensures CarriesFrame(raw, frames, order, f)
  {
    forall c | 0 <= c < 24
      ensures raw[c] == SourceByte(frames, order, 24 * f + c)
    {
      StreamFrameByte(frames, order, startByte, transferBytes, count, f, c);
    }
  }

  lemma SampleIsSource(frames: seq<Frame>, order: ByteOrder, f: nat, raw: Raw, st: nat, half: nat)
    requires st < 4 && half < 2 && CarriesFrame(raw, frames, order, f)
    ensures Sample(raw, st, half, order) == FrameAt(frames, f)[2 * st + half]
  {
    hide SourceByte, EncodeI24, DecodeI24;
    var v, c := FrameAt(frames, f)[2 * st + half], st + 12 * half;
    ChannelByte(frames, order, f, st, half, 0);
    ChannelByte(frames, order, f, st, half, 1);
    ChannelByte(frames, order, f, st, half, 2);
    DecodeEncode(v, order);
    assert raw[c] == SourceByte(frames, order, 24 * f + c);
    assert raw[c + 4] == SourceByte(frames, order, 24 * f + (c + 4));
    assert raw[c + 8] == SourceByte(frames, order, 24 * f + (c + 8));
    assert [raw[c], raw[c + 4], raw[c + 8]] == EncodeI24(v, order);
  }

  lemma FrameOfSource(frames: seq<Frame>, order: ByteOrder, f: nat, raw: Raw)
    requires CarriesFrame(raw, frames, order, f)
    ensures Samples(raw, order) == FrameAt(frames, f)
  {
    hide CarriesFrame, Sample, FrameAt;
    SampleIsSource(frames, order, f, raw, 0, 0);
    SampleIsSource(frames, order, f, raw, 0, 1);
    SampleIsSource(frames, order, f, raw, 1, 0);
    SampleIsSource(frames, order, f, raw, 1, 1);
    SampleIsSource(frames, order, f, raw, 2, 0);
    SampleIsSource(frames, order, f, raw, 2, 1);
    SampleIsSource(frames, order, f, raw, 3, 0);
    SampleIsSource(frames, order, f, raw, 3, 1);
  }

  /** A decoded frame of a packed stream is the source frame of its number. */
  lemma {:induction false} FrameOfStream(
    frames: seq<Frame>, order: ByteOrder, startByte: nat, transferBytes: nat, count: nat, raw: Raw, f: nat)
    requires transferBytes > 0 && transferBytes % 16 == 0
    requires IsFrame(raw, Stream(frames, order, startByte, transferBytes, count), startByte, f)
    ensures Samples(raw, order) == FrameAt(frames, f)
  {
    StreamFrame(frames, order, startByte, transferBytes, count, raw, f);
    FrameOfSource(frames, order, f, raw);
  }

  lemma CheckByteIsClean(stream: nat, index: nat)
    requires stream < 4
    ensures CheckByte(stream, index) < 0x40 && CheckByte(stream, index) % 0x40 == CheckByte(stream, index)
  {
  }

  lemma {:induction false} CleanAt(
    frames: seq<Frame>, order: ByteOrder, startByte: nat, transferBytes: nat, count: nat, i: nat)
    requires transferBytes > 0 && transferBytes % 16 == 0 && i < count * transferBytes
    ensures var data := Stream(frames, order, startByte, transferBytes, count);
      !IsError(data, 8, i, LocalIndex(i, transferBytes)) && (InChecks(i, 8) ==> data[i] < 0x80)
  {
    hide CheckByte, LocalIndex, SourceByte;
    StreamAt(frames, order, startByte, transferBytes, count, i);
    if InChecks(i, 8) {
      CheckByteIsClean(i % 16 - 8, LocalIndex(i, transferBytes));
    }
  }

  lemma {:induction false} NoErrors(
    frames: seq<Frame>, order: ByteOrder, startByte: nat, transferBytes: nat, count: nat, n: nat)
    requires transferBytes > 0 && transferBytes % 16 == 0 && n <= count * transferBytes
    ensures var data := Stream(frames, order, startByte, transferBytes, count);
      TransferErrors(data, transferBytes, n) == 0 && Panics(data, 8, n) == 0
    decreases n
  {
    hide IsError, Stream, LocalIndex;
    if n == 0 {
    } else {
      NoErrors(frames, order, startByte, transferBytes, count, n - 1);
      CleanAt(frames, order, startByte, transferBytes, count, n - 1);
    }
  }

  /** The frames a decoder delivers for the layout with checks at offset 8. */
  function Decoded(data: seq<Byte>, startByte: nat, order: ByteOrder): seq<Frame>
    requires startByte < 6
  {
    AllSamples(Decode(data, 8, startByte, |data|).frames, order)
  }

  /** No check byte is wrong and no panic bit is set. */
  predicate Clean(data: seq<Byte>, transferBytes: nat)
    requires transferBytes > 0
  {
    TransferErrors(data, transferBytes, |data|) == 0 && Panics(data, 8, |data|) == 0
  }

  /** As many frames as the bytes complete: the source's, less a skipped first one, then silence. */
  ghost predicate Recovers(decoded: seq<Frame>, frames: seq<Frame>, startByte: nat, bytes: nat) {
    && |decoded| == FrameCount(startByte, 12 * (bytes / 16))
    && forall k :: 0 <= k < |decoded| ==> decoded[k] == FrameAt(frames, k + FirstFrame(startByte))
  }

  /**
   Whatever the cursor, the byte order, the transfer size and the number of transfers, decoding what was
   packed gives back the source frames, less the first when the cursor skips part of it, then silence;
   no check byte is wrong and no panic bit is set.
   */
  lemma {:induction false} RoundTrip(
    frames: seq<Frame>, order: ByteOrder, startByte: nat, transferBytes: nat, count: nat)
    requires startByte < 6 && transferBytes > 0 && transferBytes % 16 == 0
    ensures var data := Stream(frames, order, startByte, transferBytes, count);
      Recovers(Decoded(data, startByte, order), frames, startByte, |data|) && Clean(data, transferBytes)
  {
    hide IsFrame, FrameAt, Samples, FrameCount, Stream, Panics, TransferErrors;
    var data := Stream(frames, order, startByte, transferBytes, count);
    DecodeIsClosed(data, startByte);
    WholeTransfers(count, transferBytes);
    var raws := Decode(data, 8, startByte, |data|).frames;
    forall k | 0 <= k < |raws|
      ensures AllSamples(raws, order)[k] == FrameAt(frames, k + FirstFrame(startByte))
    {
      FrameOfStream(frames, order, startByte, transferBytes, count, raws[k], k + FirstFrame(startByte));
    }
    NoErrors(frames, order, startByte, transferBytes, count, |data|);
  }

  /** The count in terms of lanes: six lanes a frame, the cursor's head start counted in. */
  lemma FrameCountInLanes(startByte: nat, bytes: nat)
    requires startByte < 6 && bytes % 16 == 0
    ensures var lanes := 3 * bytes / 16;
      FrameCount(startByte, 12 * (bytes / 16))
      == (startByte + lanes) / 6 - (if startByte > 0 && startByte + lanes >= 6 then 1 else 0)
  {
    var g := bytes / 16;
    Divide(3 * bytes, 16, 3 * g, 0);
    var reached, rest := (startByte + 3 * g) / 6, (startByte + 3 * g) % 6;
    Divide(4 * startByte + 12 * g, 24, reached, 4 * rest);
  }
}

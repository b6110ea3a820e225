/**
 How fills compose, and the validation run of scripts/validate-mode2-output-packing.py: its transfer
 budget always suffices and it always reports success, for any frames, cursor and transfer size.
 */
module Mode2Validation {
  import opened Wrappers
  import opened Mode2Layout
  import opened Mode2Packer
  import opened Mode2Decoder
  import opened Mode2Decoders
  import opened Mode2Agreement
  import opened Mode2RoundTrip
  import opened Numbers

  // ----- fill(a) then fill(b) against fill(a + b)

  function Split(frames: seq<Frame>, order: ByteOrder, base: nat, a: nat, b: nat): (bytes: seq<Byte>)
    ensures |bytes| == a + b
  {
    Transfer(frames, order, base, a) + Transfer(frames, order, base + SampleCount(a), b)
  }

  lemma {:induction false} SplitAt(frames: seq<Frame>, order: ByteOrder, base: nat, a: nat, b: nat, i: nat)
    requires i < a + b
    ensures Split(frames, order, base, a, b)[i]
         == if i < a then TransferByte(frames, order, base, i)
            else TransferByte(frames, order, base + SampleCount(a), i - a)
  {
    hide TransferByte;
    if i < a {
      TransferAt(frames, order, base, a, i);
    } else {
      TransferAt(frames, order, base + SampleCount(a), b, i - a);
    }
  }

  lemma ParityShift(stream: nat, a: nat, i: nat)
    requires stream < 4 && a % 16 == 0
    ensures CheckByte(stream, a + i) == CheckByte(stream, i) <==> a % 32 == 0
  {
    var g, h := a / 16, i / 16;
    Divide(i, 16, h, i % 16);
    Divide(a + i, 16, g + h, i % 16);
    Divide(a, 32, g / 2, 16 * (g % 2));
    Divide(g, 2, g / 2, g % 2);
    Divide(h, 2, h / 2, h % 2);
    if g % 2 == 0 {
      Divide(g + h, 2, g / 2 + h / 2, h % 2);
    } else {
      Divide(g + h, 2, g / 2 + h / 2 + h % 2, 1 - h % 2);
    }
  }

  lemma LanesAdd(a: nat, b: nat)
    requires a % 16 == 0
    ensures LanesBegun(a + b) == LanesBegun(a) + LanesBegun(b)
    ensures 4 * LanesBegun(a) == SampleCount(a)
  {
    SampleCountShift(a, 0);
    SampleCountShift(a, b);
    hide SampleCount;
    var g, s := a / 16, SampleCount(b) + 3;
    Divide(12 * g + s, 4, 3 * g + s / 4, s % 4);
    Divide(12 * g + 3, 4, 3 * g, 3);
  }

  lemma {:induction false} SecondCheck(frames: seq<Frame>, order: ByteOrder, base: nat, a: nat, i: nat)
    requires a % 16 == 0 && IsCheck(i)
    ensures i >= 8
    ensures TransferByte(frames, order, base + SampleCount(a), i) == TransferByte(frames, order, base, a + i)
       <==> a % 32 == 0
  {
    GroupShift(a, i);
    ParityShift(i % 16 - 8, a, i);
    hide CheckByte, SourceByte, SampleCount;
  }

  lemma {:induction false} SecondSample(frames: seq<Frame>, order: ByteOrder, base: nat, a: nat, i: nat)
    requires a % 16 == 0 && !IsCheck(i)
    ensures TransferByte(frames, order, base + SampleCount(a), i) == TransferByte(frames, order, base, a + i)
  {
    hide TransferByte, SampleCount, IsCheck;
    GroupShift(a, i);
    var n := base + SampleCount(a + i);
    TransferSample(frames, order, base + SampleCount(a), i, n);
    TransferSample(frames, order, base, a + i, n);
  }

  /** Where the second part of a split agrees with the whole. */
  lemma {:induction false} SecondByte(frames: seq<Frame>, order: ByteOrder, base: nat, a: nat, i: nat)
    requires a % 16 == 0
    ensures TransferByte(frames, order, base + SampleCount(a), i) == TransferByte(frames, order, base, a + i)
       <==> !IsCheck(i) || a % 32 == 0
    ensures IsCheck(i) ==> i >= 8
  {
    if IsCheck(i) {
      SecondCheck(frames, order, base, a, i);
    } else {
      SecondSample(frames, order, base, a, i);
    }
  }

  lemma {:induction false} SplitByte(frames: seq<Frame>, order: ByteOrder, base: nat, a: nat, b: nat, i: nat)
    requires a % 16 == 0 && i < a + b
    ensures !IsCheck(i) || a % 32 == 0 || b <= 8 ==>
      Transfer(frames, order, base, a + b)[i] == Split(frames, order, base, a, b)[i]
  {
    hide TransferByte;
    TransferAt(frames, order, base, a + b, i);
    SplitAt(frames, order, base, a, b, i);
    if i >= a {
      GroupShift(a, i - a);
      SecondByte(frames, order, base, a, i - a);
    }
  }

  lemma {:induction false} DifferAt(frames: seq<Frame>, order: ByteOrder, base: nat, a: nat, b: nat)
    requires a % 16 == 0 && a % 32 != 0 && b > 8
    ensures Transfer(frames, order, base, a + b)[a + 8] != Split(frames, order, base, a, b)[a + 8]
  {
    hide TransferByte;
    TransferAt(frames, order, base, a + b, a + 8);
    SplitAt(frames, order, base, a, b, a + 8);
    SecondByte(frames, order, base, a, 8);
  }

  /**
   Splitting a fill after whole groups leaves every sample byte and the packer's position as they were;
   the check bytes come out the same as well exactly when the first part has an even number of groups,
   or the second part ends before its first check byte.
   */
  lemma {:induction false} FillComposes(frames: seq<Frame>, order: ByteOrder, base: nat, a: nat, b: nat)
    requires a % 16 == 0
    ensures var whole, split := Transfer(frames, order, base, a + b), Split(frames, order, base, a, b);
      && (forall i :: 0 <= i < a + b && !IsCheck(i) ==> whole[i] == split[i])
      && (whole == split <==> a % 32 == 0 || b <= 8)
    ensures LanesBegun(a + b) == LanesBegun(a) + LanesBegun(b)
    ensures 4 * LanesBegun(a) == SampleCount(a)
  {
    var whole, split := Transfer(frames, order, base, a + b), Split(frames, order, base, a, b);
    LanesAdd(a, b);
    hide IsCheck, LanesBegun;
    forall i | 0 <= i < a + b
      ensures !IsCheck(i) || a % 32 == 0 || b <= 8 ==> whole[i] == split[i]
    {
      SplitByte(frames, order, base, a, b, i);
    }
    if a % 32 != 0 && b > 8 {
      DifferAt(frames, order, base, a, b);
    }
  }

  /** Two packers over the same frames that have begun equally many lanes. */
  ghost predicate Twins(p: Packer, q: Packer)
    reads p, q
  {
    && p.Valid() && q.Valid() && p.lanes == q.lanes
    && p.frames == q.frames && p.startByte == q.startByte && p.order == q.order
  }

  /** They stand at the same byte of the same frame. */
  ghost predicate SameState(p: Packer, q: Packer)
    reads p, q
  {
    && p.frameIndex == q.frameIndex && p.outputByteInFrame == q.outputByteInFrame
    && p.outputFrameLoaded == q.outputFrameLoaded
    && (p.outputFrameLoaded ==> p.outputFrameBytes == q.outputFrameBytes)
  }

  /** The whole state of a packer is settled by how many lanes it has begun. */
  lemma LanesSettleState(p: Packer, q: Packer)
    requires Twins(p, q)
    ensures SameState(p, q)
  {
    hide Rows, FrameAt;
    if p.outputFrameLoaded {
      assert p.loaded == q.loaded;
    }
  }

  /**
   Two fills of one packer against one fill of its twin: both end in the same state, with the same sample
   bytes in the same places, and with the same check bytes exactly under the condition of FillComposes.
   */
  method FillInParts(p: Packer, q: Packer, a: nat, b: nat) returns (parts: seq<Byte>, whole: seq<Byte>)
    requires p != q && Twins(p, q) && a % 16 == 0
    modifies p, q
    ensures Twins(p, q) && SameState(p, q)
    ensures |parts| == |whole| == a + b
    ensures forall i :: 0 <= i < a + b && !IsCheck(i) ==> whole[i] == parts[i]
    ensures whole == parts <==> a % 32 == 0 || b <= 8
  {
    hide LanesBegun, Transfer, Packer.Valid, ChecksLaid, SamplesLaid;
    FillComposes(p.frames, p.order, p.Position(), a, b);
    var first := p.Fill(a);
    var second := p.Fill(b);
    parts := first + second;
    whole := q.Fill(a + b);
    LanesSettleState(p, q);
  }

  // ----- The validation run

  function CeilDiv(a: nat, b: nat): nat
    requires b > 0
  {
    (a + b - 1) / b
  }

  function MaxTransfers(frameCount: nat, transferBytes: nat): nat
    requires transferBytes > 0
  {
    var needed := CeilDiv((frameCount + 8) * 32, transferBytes) + 4;
    if needed > 4 then needed else 4
  }

  lemma CeilDivCovers(a: nat, b: nat)
    requires b > 0
    ensures CeilDiv(a, b) * b >= a
  {
    var q, r := (a + b - 1) / b, (a + b - 1) % b;
    assert a + b - 1 == b * q + r;
  }

  /** The transfer budget carries every source frame, and at least seven of the silence after them. */
  lemma BudgetSuffices(frameCount: nat, startByte: nat, transferBytes: nat)
    requires startByte < 6 && transferBytes > 0 && transferBytes % 16 == 0
    ensures var bytes := MaxTransfers(frameCount, transferBytes) * transferBytes;
      FrameCount(startByte, 12 * (bytes / 16)) >= frameCount + 7
  {
    var wanted, count := (frameCount + 8) * 32, MaxTransfers(frameCount, transferBytes);
    CeilDivCovers(wanted, transferBytes);
    assert count * transferBytes >= CeilDiv(wanted, transferBytes) * transferBytes;
    WholeTransfers(count, transferBytes);
    var g := count * transferBytes / 16;
    assert count * transferBytes == 16 * g;
    assert g >= 2 * (frameCount + 8);
  }

  datatype Packed = Packed(bytes: seq<Byte>, decoded: DecodeResult<Frame>)

  /** What the validator can rely on once enough was packed. */
  ghost predicate Faithful(p: Packed, frames: seq<Frame>, startByte: nat) {
    && (forall k :: 0 <= k < |p.decoded.frames| ==>
          p.decoded.frames[k] == FrameAt(frames, k + FirstFrame(startByte)))
    && p.decoded.checkErrors == 0 && p.decoded.panicFlags == 0
  }

  /** One more transfer on the end of the packed bytes. */
  method FillNext(packer: Packer, packed: seq<Byte>, transferBytes: nat, ghost transfer: nat)
    returns (longer: seq<Byte>)
    requires packer.Valid() && transferBytes > 0 && transferBytes % 16 == 0
    requires packed == Stream(packer.frames, packer.order, packer.startByte, transferBytes, transfer)
    requires 4 * packer.lanes == SampleCount(|packed|)
    modifies packer
    ensures packer.Valid()
    ensures longer == Stream(packer.frames, packer.order, packer.startByte, transferBytes, transfer + 1)
    ensures 4 * packer.lanes == SampleCount(|longer|)
  {
    hide LanesBegun, Transfer, Packer.Valid, ChecksLaid, SamplesLaid;
    ghost var position := packer.Position();
    LanesAdd(transferBytes, 0);
    WholeTransfers(transfer, transferBytes);
    GroupShift(|packed|, transferBytes);
    assert position == 4 * packer.startByte + SampleCount(|packed|);
    var bytes := packer.Fill(transferBytes);
    longer := packed + bytes;
    assert |longer| == |packed| + transferBytes;
    assert longer == packed + Transfer(packer.frames, packer.order, position, transferBytes);
  }

  /** The frames that a number of transfers makes decodable. */
  ghost function Reached(startByte: nat, transferBytes: nat, count: nat): nat {
    FrameCount(startByte, 12 * (count * transferBytes / 16))
  }

  /** Decodes what has been packed so far. */
  method DecodeStream(
    packed: seq<Byte>, startByte: nat, transferBytes: nat, order: ByteOrder, ghost frames: seq<Frame>, ghost count: nat)
    returns (decoded: DecodeResult<Frame>)
    requires startByte < 6 && transferBytes > 0 && transferBytes % 16 == 0
    requires packed == Stream(frames, order, startByte, transferBytes, count)
    ensures Faithful(Packed(packed, decoded), frames, startByte)
    ensures decoded.frames == Decoded(packed, startByte, order)
    ensures |decoded.frames| == Reached(startByte, transferBytes, count)
  {
    hide FrameCount, FrameAt;
    decoded := ValidatorDecode(packed, startByte, transferBytes, order);
    RoundTrip(frames, order, startByte, transferBytes, count);
  }

  lemma BudgetReaches(frameCount: nat, startByte: nat, transferBytes: nat)
    requires startByte < 6 && transferBytes > 0 && transferBytes % 16 == 0
    ensures var budget := MaxTransfers(frameCount, transferBytes);
      budget > 0 && Reached(startByte, transferBytes, budget) >= frameCount + 7
  {
    BudgetSuffices(frameCount, startByte, transferBytes);
  }

  lemma {:induction false} EmptyStream(frames: seq<Frame>, order: ByteOrder, startByte: nat, transferBytes: nat)
    ensures Stream(frames, order, startByte, transferBytes, 0) == [] && SampleCount(0) == 0
  {
  }

  /** This many transfers make enough frames decodable, and no fewer do. */
  ghost predicate Enough(startByte: nat, transferBytes: nat, expectedCount: nat, count: nat) {
    && count > 0 && Reached(startByte, transferBytes, count) >= expectedCount
    && forall fewer :: 0 < fewer < count ==> Reached(startByte, transferBytes, fewer) < expectedCount
  }

  /** These are the bytes of that many whole transfers, and the frames decoded from them. */
  ghost predicate PackedIn(
    p: Packed, frames: seq<Frame>, startByte: nat, transferBytes: nat, order: ByteOrder, count: nat)
    requires startByte < 6
  {
    && p.bytes == Stream(frames, order, startByte, transferBytes, count)
    && p.decoded.frames == Decoded(p.bytes, startByte, order)
    && |p.decoded.frames| == Reached(startByte, transferBytes, count)
  }

  /**
   pack_until_comparable: it stops after the first transfer that makes enough frames decodable, with the
   bytes packed up to there; the budget runs out only when more frames are asked for than it can carry,
   so never before every source frame is decoded.
   */
  method PackUntilComparable(
    frames: seq<Frame>, startByte: nat, transferBytes: nat, expectedCount: nat, order: ByteOrder)
    returns (r: Result<Packed, string>, ghost count: nat)
    requires startByte < 6 && transferBytes > 0 && transferBytes % 16 == 0
    ensures r.Success? ==> Faithful(r.value, frames, startByte)
    ensures r.Success? ==> Enough(startByte, transferBytes, expectedCount, count)
    ensures r.Success? ==> PackedIn(r.value, frames, startByte, transferBytes, order, count)
    ensures r.Success? <==>
              exists n :: 0 < n <= MaxTransfers(|frames|, transferBytes)
                          && Reached(startByte, transferBytes, n) >= expectedCount
    ensures expectedCount <= |frames| + 7 ==> r.Success?
  {
    hide Reached, Faithful, Packer.Valid, Stream, Decoded, MaxTransfers, SampleCount, FirstFrame;
    BudgetReaches(|frames|, startByte, transferBytes);
    EmptyStream(frames, order, startByte, transferBytes);
    var packer := new Packer(frames, startByte, order);
    var packed: seq<Byte> := [];
    var maxTransfers := MaxTransfers(|frames|, transferBytes);
    for transfer := 0 to maxTransfers
      invariant packer.Valid() && fresh(packer)
      invariant packer.frames == frames && packer.startByte == startByte && packer.order == order
      invariant packed == Stream(frames, order, startByte, transferBytes, transfer)
      invariant 4 * packer.lanes == SampleCount(|packed|)
      invariant forall n :: 0 < n <= transfer ==> Reached(startByte, transferBytes, n) < expectedCount
    {
      packed := FillNext(packer, packed, transferBytes, transfer);
      var decoded := DecodeStream(packed, startByte, transferBytes, order, frames, transfer + 1);
      if |decoded.frames| >= expectedCount {
        count := transfer + 1;
        return Success(Packed(packed, decoded)), count;
      }
    }
    r, count := Failure("not enough decoded frames after packing synthetic data"), maxTransfers;
  }

  datatype Mismatch = Mismatch(frame: nat, channel: nat)

  /** A mismatch is where the two sides differ. */
  ghost predicate Genuine(m: Mismatch, expected: seq<Frame>, decoded: seq<Frame>, sourceStart: nat) {
    && m.channel < 8 && m.frame < |decoded| && sourceStart + m.frame < |expected|
    && expected[sourceStart + m.frame][m.channel] != decoded[m.frame][m.channel]
  }

  /** The mismatches among the first channels of a frame, in order. */
  ghost function InFrame(expected: Frame, decoded: Frame, relFrame: nat, channels: nat): seq<Mismatch>
    requires channels <= 8
  {
    if channels == 0 then []
    else
      var c := channels - 1;
      InFrame(expected, decoded, relFrame, c) + (if expected[c] != decoded[c] then [Mismatch(relFrame, c)] else [])
  }

  /** The mismatches of the first `count` frames, in order. */
  ghost function Mismatches(expected: seq<Frame>, decoded: seq<Frame>, sourceStart: nat, count: nat): seq<Mismatch>
    requires sourceStart + count <= |expected| && count <= |decoded|
  {
    if count == 0 then []
    else
      var f := count - 1;
      Mismatches(expected, decoded, sourceStart, f) + InFrame(expected[sourceStart + f], decoded[f], f, 8)
  }

  lemma {:induction false} InFrameIsExact(expected: Frame, decoded: Frame, relFrame: nat, channels: nat, m: Mismatch)
    requires channels <= 8
    ensures m in InFrame(expected, decoded, relFrame, channels) <==>
              m.frame == relFrame && m.channel < channels && expected[m.channel] != decoded[m.channel]
  {
    if channels == 0 {
    } else {
      InFrameIsExact(expected, decoded, relFrame, channels - 1, m);
    }
  }

  lemma InEither(front: seq<Mismatch>, last: seq<Mismatch>, m: Mismatch)
    ensures m in front + last <==> m in front || m in last
  {
  }

  /** Every mismatch is listed, and nothing else. */
  lemma {:induction false} MismatchesAreExact(
    expected: seq<Frame>, decoded: seq<Frame>, sourceStart: nat, count: nat, m: Mismatch)
    requires sourceStart + count <= |expected| && count <= |decoded|
    ensures m in Mismatches(expected, decoded, sourceStart, count) <==>
              m.frame < count && Genuine(m, expected, decoded, sourceStart)
  {
    hide InFrame;
    if count == 0 {
    } else {
      var f := count - 1;
      var front, frame :=
        Mismatches(expected, decoded, sourceStart, f), InFrame(expected[sourceStart + f], decoded[f], f, 8);
      assert Mismatches(expected, decoded, sourceStart, count) == front + frame;
      hide Mismatches;
      MismatchesAreExact(expected, decoded, sourceStart, f, m);
      InFrameIsExact(expected[sourceStart + f], decoded[f], f, 8, m);
      InEither(front, frame, m);
    }
  }

  /** Nothing is listed exactly when the frames are equal. */
  lemma {:induction false} NoMismatchIff(expected: seq<Frame>, decoded: seq<Frame>, sourceStart: nat, count: nat)
    requires sourceStart + count <= |expected| && count <= |decoded|
    ensures Mismatches(expected, decoded, sourceStart, count) == []
       <==> forall k :: 0 <= k < count ==> expected[sourceStart + k] == decoded[k]
  {
    var all := Mismatches(expected, decoded, sourceStart, count);
    if all == [] {
      forall k | 0 <= k < count ensures expected[sourceStart + k] == decoded[k] {
        forall c | 0 <= c < 8 ensures expected[sourceStart + k][c] == decoded[k][c] {
          MismatchesAreExact(expected, decoded, sourceStart, count, Mismatch(k, c));
        }
      }
    } else {
      assert all[0] in all;
      MismatchesAreExact(expected, decoded, sourceStart, count, all[0]);
    }
  }

  lemma {:induction false} MismatchesGrow(
    expected: seq<Frame>, decoded: seq<Frame>, sourceStart: nat, some: nat, count: nat)
    requires some <= count && sourceStart + count <= |expected| && count <= |decoded|
    ensures Mismatches(expected, decoded, sourceStart, some) <= Mismatches(expected, decoded, sourceStart, count)
    decreases count
  {
    if some == count {
    } else {
      MismatchesGrow(expected, decoded, sourceStart, some, count - 1);
    }
  }

  ghost function FirstTen(all: seq<Mismatch>): seq<Mismatch> {
    if |all| < 10 then all else all[..10]
  }

  lemma {:induction false} InFrameGrows(expected: Frame, decoded: Frame, relFrame: nat, some: nat, channels: nat)
    requires some <= channels <= 8
    ensures InFrame(expected, decoded, relFrame, some) <= InFrame(expected, decoded, relFrame, channels)
    decreases channels
  {
    if some == channels {
    } else {
      InFrameGrows(expected, decoded, relFrame, some, channels - 1);
    }
  }

  /** The inner loop of compare_frames; it stops at the tenth mismatch. */
  method CompareChannels(
    expected: Frame, decoded: Frame, relFrame: nat, mismatches: seq<Mismatch>, channelCounts: seq<nat>)
    returns (longer: seq<Mismatch>, counts: seq<nat>)
    requires |mismatches| < 10 && |channelCounts| == 8
    ensures longer == FirstTen(mismatches + InFrame(expected, decoded, relFrame, 8))
    ensures |longer| == 10 ==> longer[9].frame == relFrame
    ensures |counts| == 8 && forall c :: 0 <= c < 8 ==>
      counts[c] == channelCounts[c] + (if |longer| < 10 || c <= longer[9].channel then 1 else 0)
  {
    longer, counts := mismatches, channelCounts;
    for channel := 0 to 8
      invariant |longer| < 10 && longer == mismatches + InFrame(expected, decoded, relFrame, channel)
      invariant |counts| == 8
      invariant forall c :: 0 <= c < 8 ==> counts[c] == channelCounts[c] + (if c < channel then 1 else 0)
    {
      counts := counts[channel := counts[channel] + 1];
      if expected[channel] != decoded[channel] {
        longer := longer + [Mismatch(relFrame, channel)];
        if |longer| >= 10 {
          InFrameGrows(expected, decoded, relFrame, channel + 1, 8);
          return;
        }
      }
    }
  }

  /**
   compare_frames: the first ten mismatches in order, and how often each channel was compared, which is
   once a frame up to the tenth mismatch.
   */
  method CompareFrames(expected: seq<Frame>, decoded: seq<Frame>, sourceStart: nat, compareCount: nat)
    returns (mismatches: seq<Mismatch>, channelCounts: seq<nat>)
    requires sourceStart + compareCount <= |expected| && compareCount <= |decoded|
    ensures mismatches == FirstTen(Mismatches(expected, decoded, sourceStart, compareCount))
    ensures mismatches == [] <==> forall k :: 0 <= k < compareCount ==> expected[sourceStart + k] == decoded[k]
    ensures |channelCounts| == 8 && forall c :: 0 <= c < 8 ==>
      channelCounts[c] == if |mismatches| < 10 then compareCount
                          else mismatches[9].frame + (if c <= mismatches[9].channel then 1 else 0)
  {
    hide InFrame, Genuine;
    NoMismatchIff(expected, decoded, sourceStart, compareCount);
    mismatches, channelCounts := [], seq(8, _ => 0);
    for relFrame := 0 to compareCount
      invariant |mismatches| < 10 && mismatches == Mismatches(expected, decoded, sourceStart, relFrame)
      invariant |channelCounts| == 8 && forall c :: 0 <= c < 8 ==> channelCounts[c] == relFrame
    {
      mismatches, channelCounts := CompareChannels(
        expected[sourceStart + relFrame], decoded[relFrame], relFrame, mismatches, channelCounts);
      MismatchesGrow(expected, decoded, sourceStart, relFrame + 1, compareCount);
      if |mismatches| >= 10 {
        return;
      }
    }
  }

  datatype Report = Report(
    ok: bool, sourceStartFrame: nat, packedBytes: nat, decodedFrames: nat, comparedFrames: nat,
    decoded: DecodeResult<Frame>, mismatches: seq<Mismatch>, channelCounts: seq<nat>)

  /** The numbers of a report on `count` whole transfers. */
  ghost predicate ReportsOn(
    r: Report, frames: seq<Frame>, startByte: nat, transferBytes: nat, order: ByteOrder, count: nat)
    requires startByte < 6
  {
    && r.sourceStartFrame == (if startByte == 0 then 0 else 1)
    && r.packedBytes == count * transferBytes
    && r.decodedFrames == |r.decoded.frames| == Reached(startByte, transferBytes, count)
    && r.decoded.frames == Decoded(Stream(frames, order, startByte, transferBytes, count), startByte, order)
  }

  /**
   validate_start_byte: it fails only for want of a frame to compare, and otherwise it always reports
   success with every expected frame compared on all eight channels.
   */
  method ValidateStartByte(frames: seq<Frame>, startByte: nat, transferBytes: nat, order: ByteOrder)
    returns (r: Result<Report, string>, ghost count: nat)
    requires startByte < 6 && transferBytes > 0 && transferBytes % 16 == 0
    ensures r.Failure? <==> |frames| <= FirstFrame(startByte)
    ensures r.Success? ==>
      && r.value.ok && r.value.mismatches == []
      && r.value.comparedFrames == |frames| - FirstFrame(startByte)
      && r.value.channelCounts == seq(8, _ => r.value.comparedFrames)
      && r.value.decoded.checkErrors == 0 && r.value.decoded.panicFlags == 0
    ensures r.Success? ==>
      && Enough(startByte, transferBytes, r.value.comparedFrames, count)
      && ReportsOn(r.value, frames, startByte, transferBytes, order, count)
  {
    hide Reached, Decoded, Mismatches, MaxTransfers;
    var sourceStartFrame := if startByte == 0 then 0 else 1;
    if |frames| <= sourceStartFrame {
      return Failure("use at least 2 frames when start_byte is not 0"), 0;
    }
    var expectedCount := |frames| - sourceStartFrame;
    var packing;
    packing, count := PackUntilComparable(frames, startByte, transferBytes, expectedCount, order);
    assert packing.Success?;  // the transfer budget always suffices
    var decoded := packing.value.decoded;
    var compareCount := if expectedCount < |decoded.frames| then expectedCount else |decoded.frames|;
    var mismatches, channelCounts := CompareFrames(frames, decoded.frames, sourceStartFrame, compareCount);
    var ok := |decoded.frames| >= expectedCount &&
      decoded.checkErrors == 0 && decoded.panicFlags == 0 && mismatches == [];
    r := Success(Report(ok, sourceStartFrame, |packing.value.bytes|, |decoded.frames|, compareCount,
                        decoded, mismatches, channelCounts));
  }
}

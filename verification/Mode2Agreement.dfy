/** The three decoders agree on every byte sequence, and their error counters differ exactly as said. */
module Mode2Agreement {
  import opened Mode2Layout
  import opened Mode2Decoder
  import opened Mode2Decoders
  import opened Numbers

  /** The driver analyser's four groups of grace are the only errors it leaves out. */
  lemma {:induction false} GraceErrors(data: seq<Byte>, checkOffset: int, n: nat)
    requires n <= |data|
    ensures Errors(data, checkOffset, 0, n)
         == Errors(data, checkOffset, 4, n) + Errors(data, checkOffset, 0, Min(n, 64))
    decreases n
  {
    if n == 0 {
    } else {
      hide IsError;
      GraceErrors(data, checkOffset, n - 1);
      assert 4 <= (n - 1) / 16 <==> 64 <= n - 1;
    }
  }

  lemma SameParity(stream: nat, transferBytes: nat, i: nat)
    requires stream < 4 && transferBytes > 0 && transferBytes % 32 == 0
    ensures CheckByte(stream, LocalIndex(i, transferBytes)) == CheckByte(stream, i)
  {
    var q, local, g := i / transferBytes, i % transferBytes, transferBytes / 32;
    assert i == transferBytes * q + local;
    assert transferBytes * q == 32 * (g * q);
    var h, r := local / 16, local % 16;
    Divide(local, 16, h, r);
    Divide(i, 16, 2 * (g * q) + h, r);
    Divide(h, 2, h / 2, h % 2);
    Divide(2 * (g * q) + h, 2, g * q + h / 2, h % 2);
  }

  lemma {:induction false} TransferErrorsAgree(data: seq<Byte>, transferBytes: nat, n: nat)
    requires n <= |data| && transferBytes > 0 && transferBytes % 32 == 0
    ensures TransferErrors(data, transferBytes, n) == Errors(data, 8, 0, n)
    decreases n
  {
    if n == 0 {
    } else {
      TransferErrorsAgree(data, transferBytes, n - 1);
      if InChecks(n - 1, 8) {
        SameParity((n - 1) % 16 - 8, transferBytes, n - 1);
      }
      hide CheckByte, LocalIndex;
    }
  }

  /** Within the first transfer the two countings cannot differ. */
  lemma {:induction false} FirstTransferErrorsAgree(data: seq<Byte>, transferBytes: nat, n: nat)
    requires n <= |data| && n <= transferBytes && transferBytes > 0
    ensures TransferErrors(data, transferBytes, n) == Errors(data, 8, 0, n)
    decreases n
  {
    if n == 0 {
    } else {
      FirstTransferErrorsAgree(data, transferBytes, n - 1);
      Divide(n - 1, transferBytes, 0, n - 1);
      hide CheckByte;
    }
  }

  lemma {:induction false} LastByteDecides(data: seq<Byte>, transferBytes: nat)
    requires transferBytes > 0 && data != []
    requires var i := |data| - 1;
      && TransferErrors(data, transferBytes, i) == Errors(data, 8, 0, i)
      && IsError(data, 8, i, LocalIndex(i, transferBytes)) && !IsError(data, 8, i, i)
    ensures TransferErrors(data, transferBytes, |data|) != Errors(data, 8, 0, |data|)
  {
    hide IsError, LocalIndex;
  }

  lemma ParitiesDiffer(transferBytes: nat)
    requires transferBytes > 0 && transferBytes % 32 == 16
    ensures var i := transferBytes + 8;
      && i % 16 == 8 && LocalIndex(i, transferBytes) == 8
      && CheckByte(0, 8) == 1 && CheckByte(0, i) == 0
  {
    var i, g := transferBytes + 8, transferBytes / 32;
    Divide(i, transferBytes, 1, 8);
    Divide(i, 16, 2 * g + 1, 8);
    Divide(2 * g + 1, 2, g, 1);
  }

  lemma LastByteIsWrongOnce(data: seq<Byte>, transferBytes: nat)
    requires transferBytes > 0 && transferBytes % 32 == 16 && |data| == transferBytes + 9
    requires data[transferBytes + 8] == 0
    ensures var i := transferBytes + 8;
      IsError(data, 8, i, LocalIndex(i, transferBytes)) && !IsError(data, 8, i, i)
  {
    ParitiesDiffer(transferBytes);
    hide CheckByte, LocalIndex;
  }

  lemma {:induction false} NoChecksYet(data: seq<Byte>, at: nat, k: nat)
    requires at > 0 && at % 16 == 0 && k <= 8 && at + k <= |data|
    ensures TransferErrors(data, at, at + k) == TransferErrors(data, at, at)
    ensures Errors(data, 8, 0, at + k) == Errors(data, 8, 0, at)
    decreases k
  {
    if k == 0 {
    } else {
      NoChecksYet(data, at, k - 1);
      var i := at + k - 1;
      Divide(i, 16, at / 16, k - 1);
      hide CheckByte, LocalIndex;
      assert !InChecks(i, 8);
    }
  }

  /** With an odd number of groups to a transfer, the second one starts with the other parity. */
  lemma OddTransferDisagrees(transferBytes: nat) returns (data: seq<Byte>)
    requires transferBytes > 0 && transferBytes % 32 == 16
    ensures |data| == transferBytes + 9
    ensures TransferErrors(data, transferBytes, |data|) != Errors(data, 8, 0, |data|)
  {
    var i := transferBytes + 8;
    data := seq<Byte>(i + 1, _ => 0);
    hide IsError, LocalIndex, TransferErrors, Errors;
    Divide(transferBytes, 16, 2 * (transferBytes / 32) + 1, 0);
    LastByteIsWrongOnce(data, transferBytes);
    FirstTransferErrorsAgree(data, transferBytes, transferBytes);
    NoChecksYet(data, transferBytes, 8);
    LastByteDecides(data, transferBytes);
  }

  /** The validator's error counter is the packed analyser's on all data exactly for even transfers. */
  lemma {:induction false} ErrorCountersAgreeIff(transferBytes: nat)
    requires transferBytes > 0 && transferBytes % 16 == 0
    ensures transferBytes % 32 == 0 <==>
      forall data: seq<Byte> :: TransferErrors(data, transferBytes, |data|) == Errors(data, 8, 0, |data|)
  {
    if transferBytes % 32 == 0 {
      forall data: seq<Byte>
        ensures TransferErrors(data, transferBytes, |data|) == Errors(data, 8, 0, |data|)
      {
        TransferErrorsAgree(data, transferBytes, |data|);
      }
    } else {
      var data := OddTransferDisagrees(transferBytes);
    }
  }

  function PairOfFrame(frame: FloatFrame, pair: nat): (real, real)
    requires pair < 4
  {
    (frame[2 * pair], frame[2 * pair + 1])
  }

  lemma PairProjection(raw: Raw, pair: nat, order: ByteOrder)
    requires pair < 4
    ensures PairOf(raw, pair, order) == PairOfFrame(ToFloats(Samples(raw, order)), pair)
  {
    hide Sample;
    var frame := Samples(raw, order);
    assert frame[2 * pair] == Sample(raw, pair, 0, order);
    assert frame[2 * pair + 1] == Sample(raw, pair, 1, order);
  }

  /** The two analysers agree at any check offset, not only at the one the packer uses. */
  method CompareAnalysers(data: seq<Byte>, pair: nat, checkOffset: int, startByte: nat, order: ByteOrder)
    returns (driver: DecodeResult<FloatFrame>, packed: PairResult)
    requires pair < 4 && startByte < 6
    ensures driver.frames == AllFloats(AllSamples(Decode(data, checkOffset, startByte, |data|).frames, order))
    ensures driver.sampleBytes == |data| - driver.checks
    ensures |driver.frames| == |packed.frames|
    ensures forall k :: 0 <= k < |packed.frames| ==> packed.frames[k] == PairOfFrame(driver.frames[k], pair)
    ensures driver.checks == packed.checks == Checks(checkOffset, |data|)
    ensures driver.panicFlags == packed.panicFlags == Panics(data, checkOffset, |data|)
    ensures packed.checkErrors == driver.checkErrors + Errors(data, checkOffset, 0, Min(|data|, 64))
    ensures packed.checkErrors == Errors(data, checkOffset, 0, |data|)
  {
    driver := DriverDecode(data, checkOffset, startByte, order);
    packed := DecodePair(data, pair, checkOffset, startByte, order);
    ghost var raws := Decode(data, checkOffset, startByte, |data|).frames;
    hide Samples, ToFloats, PairOfFrame, PairOf;
    forall k | 0 <= k < |raws|
      ensures packed.frames[k] == PairOfFrame(driver.frames[k], pair)
    {
      PairProjection(raws[k], pair, order);
    }
    GraceErrors(data, checkOffset, |data|);
  }

  /** The same frames as numbers, as fractions of full scale, and one pair of channels of them. */
  lemma {:induction false} DeliveredAlike(raws: seq<Raw>, pair: nat, order: ByteOrder)
    requires pair < 4
    ensures var frames := AllSamples(raws, order);
      var floats, pairs := AllFloats(frames), AllPairs(raws, pair, order);
      && |floats| == |pairs| == |frames|
      && (forall k, ch :: 0 <= k < |floats| && 0 <= ch < 8 ==> floats[k][ch] * 8388608.0 == frames[k][ch] as real)
      && forall k :: 0 <= k < |floats| ==> pairs[k] == (floats[k][2 * pair], floats[k][2 * pair + 1])
  {
    hide Samples, PairOf, AllSamples, AllFloats, AllPairs;
    forall k | 0 <= k < |raws|
      ensures PairOf(raws[k], pair, order) == PairOfFrame(ToFloats(Samples(raws[k], order)), pair)
    {
      PairProjection(raws[k], pair, order);
    }
  }

  /** All three decoders on the same bytes, whatever the bytes are. */
  method CompareDecoders(data: seq<Byte>, pair: nat, startByte: nat, transferBytes: nat, order: ByteOrder)
    returns (validator: DecodeResult<Frame>, driver: DecodeResult<FloatFrame>, packed: PairResult)
    requires pair < 4 && startByte < 6 && transferBytes > 0 && transferBytes % 16 == 0
    ensures |validator.frames| == |driver.frames| == |packed.frames|
    ensures FramesRead(validator.frames, data, startByte, order)
    ensures forall k, ch :: 0 <= k < |driver.frames| && 0 <= ch < 8 ==>
      driver.frames[k][ch] * 8388608.0 == validator.frames[k][ch] as real
    ensures forall k :: 0 <= k < |packed.frames| ==>
      packed.frames[k] == (driver.frames[k][2 * pair], driver.frames[k][2 * pair + 1])
    ensures validator.checks == driver.checks == packed.checks
    ensures validator.sampleBytes == driver.sampleBytes
    ensures validator.panicFlags == driver.panicFlags == packed.panicFlags
    ensures packed.checkErrors == driver.checkErrors + Errors(data, 8, 0, Min(|data|, 64))
    ensures transferBytes % 32 == 0 ==> validator.checkErrors == packed.checkErrors
  {
    hide FramesRead, Samples, AllSamples, AllFloats, AllPairs, ToFloats, PairOf, Decode, Marks;
    hide Checks, Panics, Errors, TransferErrors;
    validator := ValidatorDecode(data, startByte, transferBytes, order);
    driver, packed := CompareAnalysers(data, pair, 8, startByte, order);
    DeliveredAlike(Decode(data, 8, startByte, |data|).frames, pair, order);
    if transferBytes % 32 == 0 {
      TransferErrorsAgree(data, transferBytes, |data|);
    }
  }
}

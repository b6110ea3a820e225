/**
 The three independently written mode-2 decoders: the packing validator's, the driver analyser's, and
 the packed-capture analyser's, which never clears its byte buffer and keeps presence bits instead.
 Each is proved to collect the frames of Mode2Decoder.Decode, so on any bytes they agree.
 */
module Mode2Decoders {
  import opened Wrappers
  import opened Mode2Layout
  import opened Mode2Decoder
  import opened Numbers

  datatype DecodeResult<T> = DecodeResult(
    frames: seq<T>, checks: nat, checkErrors: nat, panicFlags: nat, sampleBytes: nat)

  // The packed-capture analyser does not count sample bytes.
  datatype PairResult = PairResult(frames: seq<(real, real)>, checks: nat, checkErrors: nat, panicFlags: nat)

  // ----- The buffer of four streams by six bytes

  ghost predicate Grid<T>(rows: seq<seq<T>>) {
    |rows| == 4 && |rows[0]| == 6 && |rows[1]| == 6 && |rows[2]| == 6 && |rows[3]| == 6
  }

  ghost predicate Mirrors(pending: seq<seq<Option<Byte>>>, cells: Cells) {
    Grid(pending) && forall st, p :: 0 <= st < 4 && 0 <= p < 6 ==> pending[st][p] == cells[4 * p + st]
  }

  function NewPending(): (pending: seq<seq<Option<Byte>>>)
    ensures Mirrors(pending, Empty())
  {
    seq<seq<Option<Byte>>>(4, _ => seq<Option<Byte>>(6, _ => None))
  }

  function StoreAt(pending: seq<seq<Option<Byte>>>, stream: nat, p: nat, value: Byte): seq<seq<Option<Byte>>>
    requires Grid(pending) && stream < 4 && p < 6
  {
    pending[stream := pending[stream][p := Some(value)]]
  }

  lemma MirrorsPut(pending: seq<seq<Option<Byte>>>, cells: Cells, stream: nat, p: nat, value: Byte)
    requires Mirrors(pending, cells) && stream < 4 && p < 6
    ensures Grid(pending) && Mirrors(StoreAt(pending, stream, p, value), Put(cells, 4 * p + stream, value))
  {
  }

  lemma MirrorsComplete(pending: seq<seq<Option<Byte>>>, cells: Cells)
    requires Mirrors(pending, cells)
    ensures Complete(cells) <==> forall st :: 0 <= st < 4 ==> None !in pending[st]
  {
    if forall st :: 0 <= st < 4 ==> None !in pending[st] {
      forall c | 0 <= c < 24
        ensures cells[c].Some?
      {
        assert cells[c] == pending[c % 4][c / 4];
      }
    }
    if Complete(cells) {
      forall st | 0 <= st < 4
        ensures None !in pending[st]
      {
        forall p | 0 <= p < 6
          ensures pending[st][p] != None
        {
          assert pending[st][p] == cells[4 * p + st];
        }
      }
    }
  }

  function Unwrap(row: seq<Option<Byte>>): (bytes: seq<Byte>)
    requires |row| == 3 && None !in row
    ensures |bytes| == 3 && forall p :: 0 <= p < 3 ==> Some(bytes[p]) == row[p]
  {
    [row[0].value, row[1].value, row[2].value]
  }

  lemma RowSamples(pending: seq<seq<Option<Byte>>>, cells: Cells, st: nat, order: ByteOrder)
    requires Mirrors(pending, cells) && Complete(cells) && st < 4 && None !in pending[st]
    ensures DecodeI24(Unwrap(pending[st][..3]), order) == Sample(Values(cells), st, 0, order)
    ensures DecodeI24(Unwrap(pending[st][3..6]), order) == Sample(Values(cells), st, 1, order)
  {
    var raw := Values(cells);
    hide DecodeI24, Values;
    assert Unwrap(pending[st][..3]) == [raw[st], raw[st + 4], raw[st + 8]];
    assert Unwrap(pending[st][3..6]) == [raw[st + 12], raw[st + 16], raw[st + 20]];
  }

  /** The inner loop of the validator: no frame if any byte of any stream is missing. */
  method TakeFrame(pending: seq<seq<Option<Byte>>>, order: ByteOrder, ghost cells: Cells)
    returns (complete: bool, frame: seq<I24>)
    requires Mirrors(pending, cells)
    ensures complete <==> Complete(cells)
    ensures complete ==> frame == Samples(Values(cells), order)
  {
    hide DecodeI24, Sample, Complete, Values;
    complete, frame := true, [];
    for stream := 0 to 4
      invariant |frame| == 2 * stream
      invariant forall st :: 0 <= st < stream ==> None !in pending[st]
      invariant Complete(cells) ==> frame == Samples(Values(cells), order)[..2 * stream]
    {
      var streamBytes := pending[stream];
      if None in streamBytes {
        MirrorsComplete(pending, cells);
        complete := false;
        return;
      }
      if Complete(cells) {
        RowSamples(pending, cells, stream, order);
      }
      frame := frame + [DecodeI24(Unwrap(streamBytes[..3]), order)];
      frame := frame + [DecodeI24(Unwrap(streamBytes[3..6]), order)];
    }
    MirrorsComplete(pending, cells);
  }

  lemma {:induction false} AllSamplesAppend(frames: seq<Raw>, raw: Raw, order: ByteOrder)
    ensures AllSamples(frames + [raw], order) == AllSamples(frames, order) + [Samples(raw, order)]
  {
    assert (frames + [raw])[..|frames|] == frames;
  }

  /** The loop body for a sample byte, in the validator and in the driver analyser. */
  method StoreSample(
    pending: seq<seq<Option<Byte>>>, laneStreams: nat, bytePosition: nat, decoded: seq<Frame>,
    offset: nat, value: Byte, order: ByteOrder, ghost d: Decoder)
    returns (pending': seq<seq<Option<Byte>>>, laneStreams': nat, bytePosition': nat, decoded': seq<Frame>)
    requires offset < 16 && d.Valid() && Mirrors(pending, d.cells)
    requires laneStreams == d.laneStreams && bytePosition == d.bytePosition && decoded == AllSamples(d.frames, order)
    ensures var r := Accept(d, offset, value);
      && Mirrors(pending', r.cells)
      && laneStreams' == r.laneStreams && bytePosition' == r.bytePosition && decoded' == AllSamples(r.frames, order)
  {
    hide Samples, Mirrors, Complete, Values, AllSamples;
    pending', laneStreams', bytePosition', decoded' := pending, laneStreams, bytePosition, decoded;
    ghost var cells := d.cells;
    var stream := offset % 4;
    if stream == 0 && bytePosition' == 0 {
      pending', laneStreams' := NewPending(), 0;
      cells := Empty();
    }
    MirrorsPut(pending', cells, stream, bytePosition', value);
    cells := Put(cells, 4 * bytePosition' + stream, value);
    pending' := StoreAt(pending', stream, bytePosition', value);
    laneStreams' := laneStreams' + 1;
    if laneStreams' == 4 {
      if bytePosition' == 5 {
        var complete, frame := TakeFrame(pending', order, cells);
        if complete {
          AllSamplesAppend(d.frames, Values(cells), order);
          decoded' := decoded' + [frame];
        }
        pending' := NewPending();
      }
      bytePosition' := (bytePosition' + 1) % 6;
      laneStreams' := 0;
    }
  }

  /** A transfer of whole groups keeps every byte's offset in its group. */
  lemma LocalOffset(index: nat, transferBytes: nat)
    requires transferBytes > 0 && transferBytes % 16 == 0
    ensures LocalIndex(index, transferBytes) % 16 == index % 16
  {
    var q, local, g := index / transferBytes, index % transferBytes, transferBytes / 16;
    assert index == transferBytes * q + local;
    assert transferBytes * q == 16 * (g * q);
    Divide(local, 16, local / 16, local % 16);
    Divide(index, 16, g * q + local / 16, local % 16);
  }

  /** decode_mode2_usb_bytes of the packing validator: check bytes count groups within their transfer. */
  method ValidatorDecode(data: seq<Byte>, startByte: nat, transferBytes: nat, order: ByteOrder)
    returns (r: DecodeResult<Frame>)
    requires startByte < 6 && transferBytes > 0 && transferBytes % 16 == 0
    ensures r.frames == AllSamples(Decode(data, 8, startByte, |data|).frames, order)
    ensures r.checks == Checks(8, |data|) && r.sampleBytes == |data| - r.checks
    ensures r.checkErrors == TransferErrors(data, transferBytes, |data|)
    ensures r.panicFlags == Panics(data, 8, |data|)
    ensures FramesRead(r.frames, data, startByte, order)
    ensures r.checks == |set i | 0 <= i < |data| && 8 <= i % 16 < 12|
    ensures r.panicFlags == |set i | 0 <= i < |data| && 8 <= i % 16 < 12 && data[i] >= 0x80|
    ensures r.checkErrors
         == |set i | 0 <= i < |data| && 8 <= i % 16 < 12 && !Marks(data[i], i % 16 - 8, i % transferBytes / 16)|
  {
    hide Mirrors, Accept, CheckByte, LocalIndex, Decode, Checks, Panics, AllSamples, Samples, TransferErrors, IsError;
    hide FramesRead;
    FramesAreRead(data, startByte, order);
    CheckBytesCount(8, |data|);
    PanicsCount(data, 8, |data|);
    TransferErrorsCount(data, transferBytes, |data|);
    NoBytes(data, 8, startByte);
    var pending, decoded := NewPending(), [];
    var checks, checkErrors, panicFlags, sampleBytes := 0, 0, 0, 0;
    var laneStreams, bytePosition := 0, startByte;
    ghost var d := Decode(data, 8, startByte, 0);
    for index := 0 to |data|
      invariant d == Decode(data, 8, startByte, index)
      invariant Mirrors(pending, d.cells) && decoded == AllSamples(d.frames, order)
      invariant laneStreams == d.laneStreams && bytePosition == d.bytePosition
      invariant checks == Checks(8, index) && checks + sampleBytes == index
      invariant checkErrors == TransferErrors(data, transferBytes, index)
      invariant panicFlags == Panics(data, 8, index)
    {
      OneMoreByte(data, 8, startByte, index);
      OneMoreTransferError(data, transferBytes, index);
      var value := data[index];
      var localIndex := LocalIndex(index, transferBytes);
      var groupOffset := localIndex % 16;
      LocalOffset(index, transferBytes);
      if 8 <= groupOffset < 8 + 4 {
        var stream := groupOffset - 8;
        checks := checks + 1;
        if value >= 0x80 {
          panicFlags := panicFlags + 1;
        }
        if value % 0x40 != CheckByte(stream, localIndex) {
          checkErrors := checkErrors + 1;
        }
      } else {
        pending, laneStreams, bytePosition, decoded := StoreSample(
          pending, laneStreams, bytePosition, decoded, groupOffset, value, order, d);
        sampleBytes := sampleBytes + 1;
        d := Accept(d, groupOffset, value);
      }
    }
    r := DecodeResult(decoded, checks, checkErrors, panicFlags, sampleBytes);
  }

  // ----- The driver analyser

  function ToFloat(v: I24): real {
    v as real / 8388608.0
  }

  type FloatFrame = f: seq<real> | |f| == 8 witness [0.0, 0.0, 0.0, 0.0, 0.0, 0.0, 0.0, 0.0]

  function ToFloats(frame: Frame): (r: FloatFrame)
    ensures forall ch :: 0 <= ch < 8 ==> r[ch] == ToFloat(frame[ch])
  {
    [ToFloat(frame[0]), ToFloat(frame[1]), ToFloat(frame[2]), ToFloat(frame[3]),
     ToFloat(frame[4]), ToFloat(frame[5]), ToFloat(frame[6]), ToFloat(frame[7])]
  }

  function AllFloats(frames: seq<Frame>): (r: seq<FloatFrame>)
    ensures |r| == |frames| && forall k :: 0 <= k < |frames| ==> r[k] == ToFloats(frames[k])
  {
    if frames == [] then []
    else AllFloats(frames[..|frames| - 1]) + [ToFloats(frames[|frames| - 1])]
  }

  /** decode_mode2_usb_bytes of the driver analyser: any check offset, and four groups of grace. */
  method DriverDecode(data: seq<Byte>, checkOffset: int, startByte: nat, order: ByteOrder)
    returns (r: DecodeResult<FloatFrame>)
    requires startByte < 6
    ensures r.frames == AllFloats(AllSamples(Decode(data, checkOffset, startByte, |data|).frames, order))
    ensures r.checks == Checks(checkOffset, |data|) && r.sampleBytes == |data| - r.checks
    ensures r.checkErrors == Errors(data, checkOffset, 4, |data|)
    ensures r.panicFlags == Panics(data, checkOffset, |data|)
    ensures r.checks == |set i | 0 <= i < |data| && checkOffset <= i % 16 < checkOffset + 4|
    ensures r.panicFlags == |set i | 0 <= i < |data| && checkOffset <= i % 16 < checkOffset + 4 && data[i] >= 0x80|
    ensures r.checkErrors
         == |set i | 0 <= i < |data| && checkOffset <= i % 16 < checkOffset + 4 && i / 16 >= 4
                     && !Marks(data[i], i % 16 - checkOffset, i / 16)|
  {
    hide AllFloats, ToFloats, Mirrors, Accept, CheckByte, Decode, Checks, Panics, AllSamples, Samples, Errors, IsError;
    CheckBytesCount(checkOffset, |data|);
    PanicsCount(data, checkOffset, |data|);
    ErrorsCount(data, checkOffset, 4, |data|);
    NoBytes(data, checkOffset, startByte);
    var pending, decoded := NewPending(), [];
    var checks, checkErrors, panicFlags, sampleBytes := 0, 0, 0, 0;
    var laneStreams, bytePosition := 0, startByte;
    ghost var d := Decode(data, checkOffset, startByte, 0);
    for index := 0 to |data|
      invariant d == Decode(data, checkOffset, startByte, index)
      invariant Mirrors(pending, d.cells) && decoded == AllSamples(d.frames, order)
      invariant laneStreams == d.laneStreams && bytePosition == d.bytePosition
      invariant checks == Checks(checkOffset, index) && checks + sampleBytes == index
      invariant checkErrors == Errors(data, checkOffset, 4, index)
      invariant panicFlags == Panics(data, checkOffset, index)
    {
      OneMoreByte(data, checkOffset, startByte, index);
      OneMoreError(data, checkOffset, 4, index);
      var value := data[index];
      var groupOffset := index % 16;
      if checkOffset <= groupOffset < checkOffset + 4 {
        var stream := groupOffset - checkOffset;
        checks := checks + 1;
        if value >= 0x80 {
          panicFlags := panicFlags + 1;
        }
        var group := index / 16;
        if group >= 4 && value % 0x40 != CheckByte(stream, index) {
          checkErrors := checkErrors + 1;
        }
      } else {
        pending, laneStreams, bytePosition, decoded := StoreSample(
          pending, laneStreams, bytePosition, decoded, groupOffset, value, order, d);
        sampleBytes := sampleBytes + 1;
        d := Accept(d, groupOffset, value);
      }
    }
    r := DecodeResult(AllFloats(decoded), checks, checkErrors, panicFlags, sampleBytes);
  }

  // ----- The packed-capture analyser

  /** Stale bytes may linger; a presence bit says which of them count. */
  ghost predicate Presents(pending: seq<seq<Byte>>, present: seq<seq<bool>>, cells: Cells) {
    && Grid(pending) && Grid(present)
    && forall st, p :: 0 <= st < 4 && 0 <= p < 6 ==>
         cells[4 * p + st] == if present[st][p] then Some(pending[st][p]) else None
  }

  function NothingPresent(): (present: seq<seq<bool>>)
    ensures Grid(present) && forall st, p :: 0 <= st < 4 && 0 <= p < 6 ==> !present[st][p]
  {
    seq<seq<bool>>(4, _ => seq<bool>(6, _ => false))
  }

  function SetAt<T>(rows: seq<seq<T>>, stream: nat, p: nat, value: T): seq<seq<T>>
    requires |rows| == 4 && |rows[0]| == 6 && |rows[1]| == 6 && |rows[2]| == 6 && |rows[3]| == 6
    requires stream < 4 && p < 6
  {
    rows[stream := rows[stream][p := value]]
  }

  lemma PresentsPut(
    pending: seq<seq<Byte>>, present: seq<seq<bool>>, cells: Cells, stream: nat, p: nat, value: Byte)
    requires Presents(pending, present, cells) && stream < 4 && p < 6
    ensures Presents(SetAt(pending, stream, p, value), SetAt(present, stream, p, true),
                     Put(cells, 4 * p + stream, value))
  {
  }

  predicate AllPresent(present: seq<seq<bool>>) {
    forall row :: row in present ==> false !in row
  }

  lemma PresentsComplete(pending: seq<seq<Byte>>, present: seq<seq<bool>>, cells: Cells)
    requires Presents(pending, present, cells)
    ensures AllPresent(present) <==> Complete(cells)
  {
    if AllPresent(present) {
      forall c | 0 <= c < 24
        ensures cells[c].Some?
      {
        assert present[c % 4] in present && present[c % 4][c / 4] in present[c % 4];
        assert cells[4 * (c / 4) + c % 4].Some?;
      }
    }
    if Complete(cells) {
      forall st, p | 0 <= st < 4 && 0 <= p < 6
        ensures present[st][p]
      {
        assert cells[4 * p + st].Some?;
      }
    }
  }

  /** The two samples of a stream's row of bytes, as fractions of full scale. */
  function PairOfRow(row: seq<Byte>, order: ByteOrder): (real, real)
    requires |row| == 6
  {
    (ToFloat(DecodeI24(row[..3], order)), ToFloat(DecodeI24(row[3..], order)))
  }

  function PairOf(raw: Raw, pair: nat, order: ByteOrder): (real, real)
    requires pair < 4
  {
    (ToFloat(Sample(raw, pair, 0, order)), ToFloat(Sample(raw, pair, 1, order)))
  }

  lemma PairOfCells(
    pending: seq<seq<Byte>>, present: seq<seq<bool>>, cells: Cells, pair: nat, order: ByteOrder)
    requires Presents(pending, present, cells) && Complete(cells) && pair < 4
    ensures PairOfRow(pending[pair], order) == PairOf(Values(cells), pair, order)
  {
    var raw := Values(cells);
    assert forall p :: 0 <= p < 6 ==> cells[4 * p + pair] == Some(pending[pair][p]);
    hide DecodeI24, Values;
    assert pending[pair][..3] == [raw[pair], raw[pair + 4], raw[pair + 8]];
    assert pending[pair][3..] == [raw[pair + 12], raw[pair + 16], raw[pair + 20]];
  }

  function AllPairs(frames: seq<Raw>, pair: nat, order: ByteOrder): (r: seq<(real, real)>)
    requires pair < 4
    ensures |r| == |frames| && forall k :: 0 <= k < |frames| ==> r[k] == PairOf(frames[k], pair, order)
  {
    if frames == [] then []
    else AllPairs(frames[..|frames| - 1], pair, order) + [PairOf(frames[|frames| - 1], pair, order)]
  }

  lemma {:induction false} AllPairsAppend(frames: seq<Raw>, raw: Raw, pair: nat, order: ByteOrder)
    requires pair < 4
    ensures AllPairs(frames + [raw], pair, order) == AllPairs(frames, pair, order) + [PairOf(raw, pair, order)]
  {
    assert (frames + [raw])[..|frames|] == frames;
  }

  /** At the end of a frame: one pair, if every byte of the frame is present. */
  method TakePair(
    pending: seq<seq<Byte>>, present: seq<seq<bool>>, frames: seq<(real, real)>, pair: nat, order: ByteOrder,
    ghost cells: Cells, ghost raws: seq<Raw>)
    returns (frames': seq<(real, real)>)
    requires Presents(pending, present, cells) && pair < 4 && frames == AllPairs(raws, pair, order)
    ensures frames' == AllPairs(Emit(cells, raws), pair, order)
  {
    hide Complete, Values, PairOf, PairOfRow, AllPresent, AllPairs;
    frames' := frames;
    PresentsComplete(pending, present, cells);
    if AllPresent(present) {
      PairOfCells(pending, present, cells, pair, order);
      AllPairsAppend(raws, Values(cells), pair, order);
      frames' := frames + [PairOfRow(pending[pair], order)];
    }
  }

  lemma PresentsNothing(pending: seq<seq<Byte>>)
    requires Grid(pending)
    ensures Presents(pending, NothingPresent(), Empty())
  {
  }

  lemma PresentsGrids(pending: seq<seq<Byte>>, present: seq<seq<bool>>, cells: Cells)
    requires Presents(pending, present, cells)
    ensures Grid(pending) && Grid(present)
  {
  }

  /** The loop body for a sample byte in decode_mode2_pair. */
  method StorePair(
    pending: seq<seq<Byte>>, present: seq<seq<bool>>, laneStreams: nat, bytePosition: nat,
    frames: seq<(real, real)>, pair: nat, offset: nat, value: Byte, order: ByteOrder, ghost d: Decoder)
    returns (pending': seq<seq<Byte>>, present': seq<seq<bool>>, laneStreams': nat, bytePosition': nat,
             frames': seq<(real, real)>)
    requires offset < 16 && pair < 4 && d.Valid() && Presents(pending, present, d.cells)
    requires laneStreams == d.laneStreams && bytePosition == d.bytePosition
    requires frames == AllPairs(d.frames, pair, order)
    ensures var r := Accept(d, offset, value);
      && Presents(pending', present', r.cells)
      && laneStreams' == r.laneStreams && bytePosition' == r.bytePosition && frames' == AllPairs(r.frames, pair, order)
  {
    hide Complete, Values, PairOf, PairOfRow, AllPresent, AllPairs, Emit, Presents;
    pending', present', laneStreams', bytePosition', frames' := pending, present, laneStreams, bytePosition, frames;
    ghost var cells := d.cells;
    var stream := offset % 4;
    PresentsGrids(pending, present, cells);
    PresentsNothing(pending);
    if stream == 0 && bytePosition' == 0 {
      present', laneStreams' := NothingPresent(), 0;
      cells := Empty();
    }
    PresentsPut(pending', present', cells, stream, bytePosition', value);
    PresentsGrids(pending', present', cells);
    cells := Put(cells, 4 * bytePosition' + stream, value);
    pending' := SetAt(pending', stream, bytePosition', value);
    present' := SetAt(present', stream, bytePosition', true);
    PresentsGrids(pending', present', cells);
    PresentsNothing(pending');
    laneStreams' := laneStreams' + 1;
    if laneStreams' == 4 {
      if bytePosition' == 5 {
        frames' := TakePair(pending', present', frames', pair, order, cells, d.frames);
        present' := NothingPresent();
      }
      bytePosition' := (bytePosition' + 1) % 6;
      laneStreams' := 0;
    }
  }

  /** decode_mode2_pair of the packed-capture analyser: one pair of channels, any check offset. */
  method DecodePair(data: seq<Byte>, pair: nat, checkOffset: int, startByte: nat, order: ByteOrder)
    returns (r: PairResult)
    requires startByte < 6 && pair < 4
    ensures r.frames == AllPairs(Decode(data, checkOffset, startByte, |data|).frames, pair, order)
    ensures r.checks == Checks(checkOffset, |data|)
    ensures r.checkErrors == Errors(data, checkOffset, 0, |data|)
    ensures r.panicFlags == Panics(data, checkOffset, |data|)
    ensures r.checks == |set i | 0 <= i < |data| && checkOffset <= i % 16 < checkOffset + 4|
    ensures r.panicFlags == |set i | 0 <= i < |data| && checkOffset <= i % 16 < checkOffset + 4 && data[i] >= 0x80|
    ensures r.checkErrors
         == |set i | 0 <= i < |data| && checkOffset <= i % 16 < checkOffset + 4 && i / 16 >= 0
                     && !Marks(data[i], i % 16 - checkOffset, i / 16)|
  {
    hide Presents, Accept, CheckByte, Decode, Checks, Panics, AllPairs, PairOf, Errors, IsError;
    CheckBytesCount(checkOffset, |data|);
    PanicsCount(data, checkOffset, |data|);
    ErrorsCount(data, checkOffset, 0, |data|);
    NoBytes(data, checkOffset, startByte);
    var pending := seq<seq<Byte>>(4, _ => seq<Byte>(6, _ => 0));
    PresentsNothing(pending);
    var present, frames := NothingPresent(), [];
    var checks, checkErrors, panicFlags := 0, 0, 0;
    var laneStreams, bytePosition := 0, startByte;
    ghost var d := Decode(data, checkOffset, startByte, 0);
    for index := 0 to |data|
      invariant d == Decode(data, checkOffset, startByte, index)
      invariant Presents(pending, present, d.cells) && frames == AllPairs(d.frames, pair, order)
      invariant laneStreams == d.laneStreams && bytePosition == d.bytePosition
      invariant checks == Checks(checkOffset, index)
      invariant checkErrors == Errors(data, checkOffset, 0, index)
      invariant panicFlags == Panics(data, checkOffset, index)
    {
      OneMoreByte(data, checkOffset, startByte, index);
      OneMoreError(data, checkOffset, 0, index);
      var value := data[index];
      var groupOffset := index % 16;
      if checkOffset <= groupOffset < checkOffset + 4 {
        var stream := groupOffset - checkOffset;
        checks := checks + 1;
        if value >= 0x80 {
          panicFlags := panicFlags + 1;
        }
        if value % 0x40 != CheckByte(stream, index) {
          checkErrors := checkErrors + 1;
        }
      } else {
        pending, present, laneStreams, bytePosition, frames := StorePair(
          pending, present, laneStreams, bytePosition, frames, pair, groupOffset, value, order, d);
        d := Accept(d, groupOffset, value);
      }
    }
    r := PairResult(frames, checks, checkErrors, panicFlags);
  }
}

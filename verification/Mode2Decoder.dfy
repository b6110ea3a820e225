/**
 What a mode-2 decoder computes. `Decode` is the byte-at-a-time machine that the three decoders of the
 repository share; `FrameBytes` says, without any state, which bytes each decoded frame is made of, and
 DecodeIsClosed proves that the machine collects exactly those for the layout with checks at offset 8.
 */
module Mode2Decoder {
  import opened Wrappers
  import opened Mode2Layout
  import opened Numbers

  // The 24 bytes of a frame in the order in which they arrive: cell 4 * p + stream holds byte p of a stream.
  type Raw = bytes: seq<Byte> | |bytes| == 24 witness seq(24, _ => 0)

  type Cells = cells: seq<Option<Byte>> | |cells| == 24 witness seq(24, _ => None)

  function Empty(): (cells: Cells)
    ensures forall c :: 0 <= c < 24 ==> cells[c] == None
  {
    seq<Option<Byte>>(24, _ => None)
  }

  datatype Decoder = Decoder(cells: Cells, laneStreams: nat, bytePosition: nat, frames: seq<Raw>)
  {
    ghost predicate Valid() {
      laneStreams < 4 && bytePosition < 6
    }
  }

  predicate Complete(cells: Cells) {
    forall c :: 0 <= c < 24 ==> cells[c].Some?
  }

  function Values(cells: Cells): (raw: Raw)
    requires Complete(cells)
    ensures forall c :: 0 <= c < 24 ==> cells[c] == Some(raw[c])
  {
    seq<Byte>(24, c requires 0 <= c < 24 && cells[c].Some? => cells[c].value)
  }

  function Put(cells: Cells, c: nat, value: Byte): (r: Cells)
    requires c < 24
    ensures r == cells[c := Some(value)]
  {
    cells[c := Some(value)]
  }

  function Emit(cells: Cells, frames: seq<Raw>): seq<Raw> {
    if Complete(cells) then frames + [Values(cells)] else frames
  }

  /** After the fourth byte of a lane the cursor moves, and after the sixth lane the frame is emitted. */
  function Advance(d: Decoder, cells: Cells, laneStreams: nat): (r: Decoder)
    requires d.Valid() && laneStreams <= 4
    ensures r.Valid()
  {
    if laneStreams < 4 then Decoder(cells, laneStreams, d.bytePosition, d.frames)
    else if d.bytePosition < 5 then Decoder(cells, 0, d.bytePosition + 1, d.frames)
    else Decoder(Empty(), 0, 0, Emit(cells, d.frames))
  }

  /** One sample byte, at offset `offset` of its group. */
  function Accept(d: Decoder, offset: nat, value: Byte): (r: Decoder)
    requires d.Valid() && offset < 16
    ensures r.Valid()
  {
    if offset % 4 == 0 && d.bytePosition == 0
    then Advance(d, Put(Empty(), 0, value), 1)
    else Advance(d, Put(d.cells, 4 * d.bytePosition + offset % 4, value), d.laneStreams + 1)
  }

  predicate InChecks(i: nat, checkOffset: int) {
    checkOffset <= i % 16 < checkOffset + 4
  }

  /** The decoder after the first `n` bytes. */
  function Decode(data: seq<Byte>, checkOffset: int, startByte: nat, n: nat): (d: Decoder)
    requires n <= |data| && startByte < 6
    ensures d.Valid()
  {
    if n == 0 then Decoder(Empty(), 0, startByte, [])
    else
      var d := Decode(data, checkOffset, startByte, n - 1);
      if InChecks(n - 1, checkOffset) then d else Accept(d, (n - 1) % 16, data[n - 1])
  }

  // ----- The same frames, without the machine

  /** Frame `f` is complete in a prefix once its last byte is there, if its first byte ever was. */
  predicate HasFrame(data: seq<Byte>, startByte: nat, f: nat) {
    4 * startByte <= 24 * f && 24 * f + 24 <= 4 * startByte + SampleCount(|data|)
  }

  /** Byte `c` of frame `f`, counted in the order of arrival. */
  function FrameByte(data: seq<Byte>, startByte: nat, f: nat, c: nat): Byte
    requires HasFrame(data, startByte, f) && c < 24
  {
    SampleIndexBelow(24 * f + c - 4 * startByte, |data|);
    data[SampleIndex(24 * f + c - 4 * startByte)]
  }

  function FrameBytes(data: seq<Byte>, startByte: nat, f: nat): (raw: Raw)
    requires HasFrame(data, startByte, f)
    ensures forall c :: 0 <= c < 24 ==> raw[c] == FrameByte(data, startByte, f, c)
  {
    seq<Byte>(24, c requires 0 <= c < 24 => FrameByte(data, startByte, f, c))
  }

  ghost predicate IsFrame(raw: Raw, data: seq<Byte>, startByte: nat, f: nat) {
    HasFrame(data, startByte, f) && raw == FrameBytes(data, startByte, f)
  }

  /** The first frame is lost when the cursor does not start at its first byte. */
  function FirstFrame(startByte: nat): nat {
    if startByte == 0 then 0 else 1
  }

  /** How many whole frames the samples reach, the lost one not counted. */
  function FrameCount(startByte: nat, samples: nat): nat {
    var reached := (4 * startByte + samples) / 24;
    if reached < FirstFrame(startByte) then 0 else reached - FirstFrame(startByte)
  }

  /** A byte of the open frame is in its cell once it has been read. */
  ghost function CellByte(data: seq<Byte>, startByte: nat, i: nat, m: nat): Option<Byte>
    requires i <= |data|
  {
    if 4 * startByte <= m < 4 * startByte + SampleCount(i) then
      SampleIndexBelow(m - 4 * startByte, i);
      Some(data[SampleIndex(m - 4 * startByte)])
    else None
  }

  /** Where the machine stands after `i` bytes, having passed `f` frames, the lost one included. */
  ghost predicate At(d: Decoder, data: seq<Byte>, startByte: nat, i: nat, f: nat)
    requires i <= |data|
  {
    && d.Valid()
    && 4 * startByte + SampleCount(i) == 24 * f + 4 * d.bytePosition + d.laneStreams
    && (forall c :: 0 <= c < 24 ==> d.cells[c] == CellByte(data, startByte, i, 24 * f + c))
    && |d.frames| == (if f < FirstFrame(startByte) then 0 else f - FirstFrame(startByte))
    && forall k :: 0 <= k < |d.frames| ==> IsFrame(d.frames[k], data, startByte, k + FirstFrame(startByte))
  }

  /** The byte just read is the one that the open frame waits for. */
  lemma NextByte(startByte: nat, i: nat, f: nat, p: nat, lane: nat)
    requires !IsCheck(i) && 4 * startByte + SampleCount(i) == 24 * f + 4 * p + lane && lane < 4
    ensures i % 16 % 4 == lane
    ensures SampleCount(i + 1) == SampleCount(i) + 1 && SampleIndex(SampleCount(i)) == i
  {
    SampleAtCount(i);
    hide SampleIndex, IsCheck;
    Divide(i, 16, i / 16, i % 16);
    Divide(SampleCount(i), 4, 6 * f + p - startByte, lane);
    var r := i % 16;
    Divide(r, 4, r / 4, r % 4);
    Divide(i, 4, 4 * (i / 16) + r / 4, r % 4);
  }

  lemma CellsAfter(d: Decoder, data: seq<Byte>, startByte: nat, i: nat, f: nat, c: nat)
    requires i < |data| && !IsCheck(i) && At(d, data, startByte, i, f) && c < 24
    ensures Put(d.cells, 4 * d.bytePosition + d.laneStreams, data[i])[c] == CellByte(data, startByte, i + 1, 24 * f + c)
  {
    hide SampleIndex, IsCheck;
    NextByte(startByte, i, f, d.bytePosition, d.laneStreams);
  }

  /** Restarting at the first byte of a frame changes nothing: no byte of it is in yet. */
  lemma RestartIsHarmless(d: Decoder, data: seq<Byte>, startByte: nat, i: nat, f: nat)
    requires i < |data| && !IsCheck(i) && At(d, data, startByte, i, f)
    requires d.bytePosition == 0 && d.laneStreams == 0
    ensures d.cells == Empty()
  {
    hide SampleIndex, IsCheck;
  }

  /** A frame is emitted exactly when its first byte was not skipped by the cursor. */
  lemma {:induction false} EmitIsFrame(cells: Cells, data: seq<Byte>, startByte: nat, i: nat, f: nat)
    requires i <= |data| && startByte < 6
    requires 4 * startByte + SampleCount(i) == 24 * f + 24
    requires forall c :: 0 <= c < 24 ==> cells[c] == CellByte(data, startByte, i, 24 * f + c)
    ensures Complete(cells) <==> f >= FirstFrame(startByte)
    ensures f >= FirstFrame(startByte) ==> IsFrame(Values(cells), data, startByte, f)
  {
    SampleCountMonotone(i, |data|);
    hide SampleIndex, IsCheck;
    if f < FirstFrame(startByte) {
      assert cells[0] == None;
    }
  }

  lemma AcceptKeepsAt(d: Decoder, data: seq<Byte>, startByte: nat, i: nat, f: nat) returns (next: nat)
    requires i < |data| && startByte < 6 && !IsCheck(i) && At(d, data, startByte, i, f)
    ensures At(Accept(d, i % 16, data[i]), data, startByte, i + 1, next)
  {
    hide SampleIndex, IsCheck;
    NextByte(startByte, i, f, d.bytePosition, d.laneStreams);
    if d.bytePosition == 0 && d.laneStreams == 0 {
      RestartIsHarmless(d, data, startByte, i, f);
    }
    var cells := Put(d.cells, 4 * d.bytePosition + d.laneStreams, data[i]);
    assert Accept(d, i % 16, data[i]) == Advance(d, cells, d.laneStreams + 1);
    forall c | 0 <= c < 24
      ensures cells[c] == CellByte(data, startByte, i + 1, 24 * f + c)
    {
      CellsAfter(d, data, startByte, i, f, c);
    }
    if d.laneStreams == 3 && d.bytePosition == 5 {
      next := f + 1;
      EmitIsFrame(cells, data, startByte, i + 1, f);
    } else {
      next := f;
    }
  }

  lemma {:induction false} MachineIsAt(data: seq<Byte>, startByte: nat, i: nat) returns (f: nat)
    requires i <= |data| && startByte < 6
    ensures At(Decode(data, 8, startByte, i), data, startByte, i, f)
    decreases i
  {
    if i == 0 {
      f := 0;
    } else {
      f := MachineIsAt(data, startByte, i - 1);
      var d := Decode(data, 8, startByte, i - 1);
      if IsCheck(i - 1) {
        assert At(d, data, startByte, i, f);
      } else {
        f := AcceptKeepsAt(d, data, startByte, i - 1, f);
      }
    }
  }

  /** The frames the machine has collected are exactly the complete ones, byte for byte. */
  lemma {:induction false} DecodeIsClosed(data: seq<Byte>, startByte: nat)
    requires startByte < 6
    ensures var frames := Decode(data, 8, startByte, |data|).frames;
      && |frames| == FrameCount(startByte, SampleCount(|data|))
      && forall k :: 0 <= k < |frames| ==> IsFrame(frames[k], data, startByte, k + FirstFrame(startByte))
  {
    var f := MachineIsAt(data, startByte, |data|);
    var d := Decode(data, 8, startByte, |data|);
    Divide(4 * startByte + SampleCount(|data|), 24, f, 4 * d.bytePosition + d.laneStreams);
  }

  // ----- Counters

  function Checks(checkOffset: int, n: nat): nat {
    if n == 0 then 0 else Checks(checkOffset, n - 1) + (if InChecks(n - 1, checkOffset) then 1 else 0)
  }

  /** Check bytes of the first `n` with the panic bit set. */
  function Panics(data: seq<Byte>, checkOffset: int, n: nat): nat
    requires n <= |data|
  {
    if n == 0 then 0
    else Panics(data, checkOffset, n - 1) + (if InChecks(n - 1, checkOffset) && data[n - 1] >= 0x80 then 1 else 0)
  }

  /** Whether the byte at `i` is a check byte that does not carry the stream and parity of `index`. */
  predicate IsError(data: seq<Byte>, checkOffset: int, i: nat, index: nat)
    requires i < |data|
  {
    InChecks(i, checkOffset) && data[i] % 0x40 != CheckByte(i % 16 - checkOffset, index)
  }

  /** Wrong check bytes among the first `n`, counted from group `firstGroup` on. */
  function Errors(data: seq<Byte>, checkOffset: int, firstGroup: nat, n: nat): nat
    requires n <= |data|
  {
    if n == 0 then 0
    else
      Errors(data, checkOffset, firstGroup, n - 1)
      + (if firstGroup <= (n - 1) / 16 && IsError(data, checkOffset, n - 1, n - 1) then 1 else 0)
  }

  lemma OneMoreError(data: seq<Byte>, checkOffset: int, firstGroup: nat, n: nat)
    requires n < |data|
    ensures Errors(data, checkOffset, firstGroup, n + 1) == Errors(data, checkOffset, firstGroup, n) +
            (if InChecks(n, checkOffset) && n / 16 >= firstGroup && data[n] % 0x40 != CheckByte(n % 16 - checkOffset, n)
             then 1 else 0)
  {
  }

  /** The position of a byte within its transfer. */
  function LocalIndex(index: nat, transferBytes: nat): nat
    requires transferBytes > 0
  {
    index % transferBytes
  }

  /** Wrong check bytes when each transfer counts its groups afresh. */
  function TransferErrors(data: seq<Byte>, transferBytes: nat, n: nat): nat
    requires n <= |data| && transferBytes > 0
  {
    if n == 0 then 0
    else
      TransferErrors(data, transferBytes, n - 1)
      + (if IsError(data, 8, n - 1, LocalIndex(n - 1, transferBytes)) then 1 else 0)
  }

  lemma {:induction false} NoBytes(data: seq<Byte>, checkOffset: int, startByte: nat)
    requires startByte < 6
    ensures Decode(data, checkOffset, startByte, 0) == Decoder(Empty(), 0, startByte, [])
    ensures Checks(checkOffset, 0) == Panics(data, checkOffset, 0) == 0
    ensures forall group :: Errors(data, checkOffset, group, 0) == 0
    ensures forall size: nat :: size > 0 ==> TransferErrors(data, size, 0) == 0
  {
  }

  /** What one more byte adds to the machine and to the counters that all decoders share. */
  lemma OneMoreByte(data: seq<Byte>, checkOffset: int, startByte: nat, n: nat)
    requires n < |data| && startByte < 6
    ensures var d := Decode(data, checkOffset, startByte, n);
      Decode(data, checkOffset, startByte, n + 1) ==
      if InChecks(n, checkOffset) then d else Accept(d, n % 16, data[n])
    ensures Checks(checkOffset, n + 1) == Checks(checkOffset, n) + (if InChecks(n, checkOffset) then 1 else 0)
    ensures Panics(data, checkOffset, n + 1) ==
            Panics(data, checkOffset, n) + (if InChecks(n, checkOffset) && data[n] >= 0x80 then 1 else 0)
  {
  }

  lemma OneMoreTransferError(data: seq<Byte>, transferBytes: nat, n: nat)
    requires n < |data| && transferBytes > 0
    ensures TransferErrors(data, transferBytes, n + 1) == TransferErrors(data, transferBytes, n) +
            (if InChecks(n, 8) && data[n] % 0x40 != CheckByte(n % 16 - 8, LocalIndex(n, transferBytes)) then 1 else 0)
  {
  }

  lemma {:induction false} CheckSetCount(checkOffset: int, n: nat)
    ensures Checks(checkOffset, n) == |set i | 0 <= i < n && InChecks(i, checkOffset)|
  {
    hide InChecks;
    if n == 0 {
    } else {
      var k := n - 1;
      CheckSetCount(checkOffset, k);
      var checks := set i | 0 <= i < k && InChecks(i, checkOffset);
      assert (set i | 0 <= i < n && InChecks(i, checkOffset))
          == if InChecks(k, checkOffset) then checks + {k} else checks;
    }
  }

  /** Check bytes are counted by their place in a group of sixteen. */
  lemma {:induction false} CheckBytesCount(checkOffset: int, n: nat)
    ensures Checks(checkOffset, n) == |set i | 0 <= i < n && checkOffset <= i % 16 < checkOffset + 4|
  {
    hide Checks;
    CheckSetCount(checkOffset, n);
    assert (set i | 0 <= i < n && checkOffset <= i % 16 < checkOffset + 4)
        == set i | 0 <= i < n && InChecks(i, checkOffset);
  }

  /** A check byte with the high bit set. */
  ghost predicate PanicsAt(data: seq<Byte>, checkOffset: int, i: nat)
    requires i < |data|
  {
    checkOffset <= i % 16 < checkOffset + 4 && data[i] >= 0x80
  }

  lemma {:induction false} PanicSetCount(data: seq<Byte>, checkOffset: int, n: nat)
    requires n <= |data|
    ensures Panics(data, checkOffset, n) == |set i | 0 <= i < n && PanicsAt(data, checkOffset, i)|
  {
    if n == 0 {
    } else {
      var k := n - 1;
      PanicSetCount(data, checkOffset, k);
      assert InChecks(k, checkOffset) && data[k] >= 0x80 <==> PanicsAt(data, checkOffset, k);
      hide PanicsAt;
      var panics := set i | 0 <= i < k && PanicsAt(data, checkOffset, i);
      assert (set i | 0 <= i < n && PanicsAt(data, checkOffset, i))
          == if PanicsAt(data, checkOffset, k) then panics + {k} else panics;
    }
  }

  /** Panics are the check bytes with the high bit set. */
  lemma {:induction false} PanicsCount(data: seq<Byte>, checkOffset: int, n: nat)
    requires n <= |data|
    ensures Panics(data, checkOffset, n)
         == |set i | 0 <= i < n && checkOffset <= i % 16 < checkOffset + 4 && data[i] >= 0x80|
  {
    hide Panics;
    PanicSetCount(data, checkOffset, n);
    assert (set i | 0 <= i < n && checkOffset <= i % 16 < checkOffset + 4 && data[i] >= 0x80)
        == set i | 0 <= i < n && PanicsAt(data, checkOffset, i);
  }

  /** A check byte whose low six bits do not name its stream and the parity of its group. */
  ghost predicate Unmarked(data: seq<Byte>, checkOffset: int, firstGroup: nat, i: nat)
    requires i < |data|
  {
    && checkOffset <= i % 16 < checkOffset + 4 && i / 16 >= firstGroup
    && !Marks(data[i], i % 16 - checkOffset, i / 16)
  }

  lemma ErrorIffUnmarked(data: seq<Byte>, checkOffset: int, firstGroup: nat, i: nat)
    requires i < |data|
    ensures firstGroup <= i / 16 && IsError(data, checkOffset, i, i) <==> Unmarked(data, checkOffset, firstGroup, i)
  {
    if InChecks(i, checkOffset) { ExpectedIffMarked(data[i], i % 16 - checkOffset, i); }
  }

  lemma {:induction false} UnmarkedCount(data: seq<Byte>, checkOffset: int, firstGroup: nat, n: nat)
    requires n <= |data|
    ensures Errors(data, checkOffset, firstGroup, n)
         == |set i | 0 <= i < n && Unmarked(data, checkOffset, firstGroup, i)|
  {
    hide IsError, Unmarked;
    if n == 0 {
    } else {
      var k := n - 1;
      UnmarkedCount(data, checkOffset, firstGroup, k);
      ErrorIffUnmarked(data, checkOffset, firstGroup, k);
      var errors := set i | 0 <= i < k && Unmarked(data, checkOffset, firstGroup, i);
      assert (set i | 0 <= i < n && Unmarked(data, checkOffset, firstGroup, i))
          == if Unmarked(data, checkOffset, firstGroup, k) then errors + {k} else errors;
    }
  }

  /** Errors are the check bytes whose low six bits do not name their stream and the parity of their group. */
  lemma {:induction false} ErrorsCount(data: seq<Byte>, checkOffset: int, firstGroup: nat, n: nat)
    requires n <= |data|
    ensures Errors(data, checkOffset, firstGroup, n)
         == |set i | 0 <= i < n && checkOffset <= i % 16 < checkOffset + 4 && i / 16 >= firstGroup
                     && !Marks(data[i], i % 16 - checkOffset, i / 16)|
  {
    hide Marks, Errors;
    UnmarkedCount(data, checkOffset, firstGroup, n);
    assert (set i | 0 <= i < n && checkOffset <= i % 16 < checkOffset + 4 && i / 16 >= firstGroup
                    && !Marks(data[i], i % 16 - checkOffset, i / 16))
        == set i | 0 <= i < n && Unmarked(data, checkOffset, firstGroup, i);
  }

  /** The same by the parity of the group within its own transfer. */
  ghost predicate UnmarkedInTransfer(data: seq<Byte>, transferBytes: nat, i: nat)
    requires i < |data| && transferBytes > 0
  {
    8 <= i % 16 < 12 && !Marks(data[i], i % 16 - 8, i % transferBytes / 16)
  }

  lemma TransferErrorIffUnmarked(data: seq<Byte>, transferBytes: nat, i: nat)
    requires i < |data| && transferBytes > 0
    ensures IsError(data, 8, i, LocalIndex(i, transferBytes)) <==> UnmarkedInTransfer(data, transferBytes, i)
  {
    if InChecks(i, 8) { ExpectedIffMarked(data[i], i % 16 - 8, LocalIndex(i, transferBytes)); }
  }

  lemma {:induction false} UnmarkedInTransfersCount(data: seq<Byte>, transferBytes: nat, n: nat)
    requires n <= |data| && transferBytes > 0
    ensures TransferErrors(data, transferBytes, n)
         == |set i | 0 <= i < n && UnmarkedInTransfer(data, transferBytes, i)|
  {
    hide IsError, UnmarkedInTransfer, LocalIndex;
    if n == 0 {
    } else {
      var k := n - 1;
      UnmarkedInTransfersCount(data, transferBytes, k);
      TransferErrorIffUnmarked(data, transferBytes, k);
      var errors := set i | 0 <= i < k && UnmarkedInTransfer(data, transferBytes, i);
      assert (set i | 0 <= i < n && UnmarkedInTransfer(data, transferBytes, i))
          == if UnmarkedInTransfer(data, transferBytes, k) then errors + {k} else errors;
    }
  }

  /** The validator's errors are counted alike, by the parity of the group within its own transfer. */
  lemma {:induction false} TransferErrorsCount(data: seq<Byte>, transferBytes: nat, n: nat)
    requires n <= |data| && transferBytes > 0
    ensures TransferErrors(data, transferBytes, n)
         == |set i | 0 <= i < n && 8 <= i % 16 < 12 && !Marks(data[i], i % 16 - 8, i % transferBytes / 16)|
  {
    hide Marks, TransferErrors;
    UnmarkedInTransfersCount(data, transferBytes, n);
    assert (set i | 0 <= i < n && 8 <= i % 16 < 12 && !Marks(data[i], i % 16 - 8, i % transferBytes / 16))
        == set i | 0 <= i < n && UnmarkedInTransfer(data, transferBytes, i);
  }

  // ----- Samples

  /** The left (half 0) or right (half 1) sample of a stream: three of its bytes, one lane apart. */
  function Sample(raw: Raw, stream: nat, half: nat, order: ByteOrder): I24
    requires stream < 4 && half < 2
  {
    var c := stream + 12 * half;
    DecodeI24([raw[c], raw[c + 4], raw[c + 8]], order)
  }

  function Samples(raw: Raw, order: ByteOrder): Frame {
    [Sample(raw, 0, 0, order), Sample(raw, 0, 1, order), Sample(raw, 1, 0, order), Sample(raw, 1, 1, order),
     Sample(raw, 2, 0, order), Sample(raw, 2, 1, order), Sample(raw, 3, 0, order), Sample(raw, 3, 1, order)]
  }

  function AllSamples(frames: seq<Raw>, order: ByteOrder): (r: seq<Frame>)
    ensures |r| == |frames| && forall k :: 0 <= k < |frames| ==> r[k] == Samples(frames[k], order)
  {
    if frames == [] then []
    else AllSamples(frames[..|frames| - 1], order) + [Samples(frames[|frames| - 1], order)]
  }

  // ----- What the frames hold, byte for byte

  /** How many sample bytes there are among the first n. */
  ghost function SampleBytesIn(n: nat): nat {
    12 * (n / 16) + (if n % 16 < 8 then n % 16 else if n % 16 < 12 then 8 else n % 16 - 4)
  }

  /** Where sample byte n lies among the check bytes. */
  ghost function Place(n: nat): nat {
    16 * (n / 12) + (if n % 12 < 8 then n % 12 else n % 12 + 4)
  }

  /** Channel `ch` of this frame: three of its bytes, one lane apart, left before right. */
  ghost predicate ChannelRead(frame: Frame, data: seq<Byte>, startByte: nat, order: ByteOrder, f: nat, ch: nat)
    requires ch < 8
  {
    var n := 24 * f + ch / 2 + 12 * (ch % 2) - 4 * startByte;
    && 0 <= n && Place(n) < |data| && Place(n + 4) < |data| && Place(n + 8) < |data|
    && frame[ch] == DecodeI24([data[Place(n)], data[Place(n + 4)], data[Place(n + 8)]], order)
  }

  ghost predicate FrameRead(frame: Frame, data: seq<Byte>, startByte: nat, order: ByteOrder, f: nat) {
    forall ch :: 0 <= ch < 8 ==> ChannelRead(frame, data, startByte, order, f, ch)
  }

  /** There is a frame for every whole 24 sample bytes, counted from the cursor, less one that it starts within. */
  ghost predicate FramesRead(frames: seq<Frame>, data: seq<Byte>, startByte: nat, order: ByteOrder) {
    var whole, lost := (4 * startByte + SampleBytesIn(|data|)) / 24, if startByte == 0 then 0 else 1;
    && |frames| == (if whole < lost then 0 else whole - lost)
    && forall k :: 0 <= k < |frames| ==> FrameRead(frames[k], data, startByte, order, k + lost)
  }

  lemma {:induction false} CountIsSampleBytes(n: nat)
    ensures SampleCount(n) == SampleBytesIn(n)
  {
    SampleCountClosed(n / 16, n % 16);
    assert n == 16 * (n / 16) + n % 16;
  }

  lemma FrameByteAt(data: seq<Byte>, startByte: nat, f: nat, c: nat)
    requires startByte < 6 && HasFrame(data, startByte, f) && c < 24
    ensures 24 * f + c >= 4 * startByte && Place(24 * f + c - 4 * startByte) < |data|
    ensures FrameByte(data, startByte, f, c) == data[Place(24 * f + c - 4 * startByte)]
  {
    SampleIndexBelow(24 * f + c - 4 * startByte, |data|);
  }

  lemma SampleOfChannel(raw: Raw, order: ByteOrder, ch: nat)
    requires ch < 8
    ensures var c := ch / 2 + 12 * (ch % 2);
      Samples(raw, order)[ch] == DecodeI24([raw[c], raw[c + 4], raw[c + 8]], order)
  {
    hide DecodeI24;
  }

  lemma ChannelIsRead(raw: Raw, data: seq<Byte>, startByte: nat, order: ByteOrder, f: nat, ch: nat)
    requires startByte < 6 && ch < 8 && IsFrame(raw, data, startByte, f)
    ensures ChannelRead(Samples(raw, order), data, startByte, order, f, ch)
  {
    hide FrameByte, HasFrame, Place, DecodeI24, Samples;
    var c := ch / 2 + 12 * (ch % 2);
    FrameByteAt(data, startByte, f, c);
    FrameByteAt(data, startByte, f, c + 4);
    FrameByteAt(data, startByte, f, c + 8);
    SampleOfChannel(raw, order, ch);
  }

  lemma FrameIsRead(raw: Raw, data: seq<Byte>, startByte: nat, order: ByteOrder, f: nat)
    requires startByte < 6 && IsFrame(raw, data, startByte, f)
    ensures FrameRead(Samples(raw, order), data, startByte, order, f)
  {
    hide IsFrame, ChannelRead, Samples;
    forall ch: nat | ch < 8
      ensures ChannelRead(Samples(raw, order), data, startByte, order, f, ch)
    {
      ChannelIsRead(raw, data, startByte, order, f, ch);
    }
  }

  /** The decoded frames are these. */
  lemma {:induction false} FramesAreRead(data: seq<Byte>, startByte: nat, order: ByteOrder)
    requires startByte < 6
    ensures FramesRead(AllSamples(Decode(data, 8, startByte, |data|).frames, order), data, startByte, order)
  {
    hide Decode, IsFrame, SampleCount, SampleBytesIn, FrameRead, Samples, AllSamples;
    DecodeIsClosed(data, startByte);
    CountIsSampleBytes(|data|);
    var raws := Decode(data, 8, startByte, |data|).frames;
    var lost := if startByte == 0 then 0 else 1;
    forall k | 0 <= k < |raws|
      ensures FrameRead(AllSamples(raws, order)[k], data, startByte, order, k + lost)
    {
      FrameIsRead(raws[k], data, startByte, order, k + lost);
    }
  }
}

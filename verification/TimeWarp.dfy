/** The lag profile and the piecewise-linear time warp of scripts/analyze-soundcheck-capture.py, over the reals. */
module TimeWarp {
  import opened LagSearch
  import opened LagTheorems
  import opened LeastSquares
  import opened Numbers

  datatype Point = Point(offset: int, lag: int, score: real)

  // ---- Interpolating a sample

  function SampleLinear(values: seq<real>, position: real): real {
    if values == [] then 0.0
    else if position <= 0.0 then values[0]
    else
      var lastIndex := |values| - 1;
      if position >= lastIndex as real then values[lastIndex]
      else
        var leftIndex := position.Floor;
        var fraction := position - leftIndex as real;
        values[leftIndex] + (values[leftIndex + 1] - values[leftIndex]) * fraction
  }

  lemma NonnegativeProduct(x: real, y: real)
    requires x >= 0.0 && y >= 0.0
    ensures x * y >= 0.0
  {
  }

  /** Part of the way from a to b lies between them. */
  lemma Between(a: real, b: real, t: real, low: real, high: real)
    requires 0.0 <= t <= 1.0 && low <= a <= high && low <= b <= high
    ensures low <= a + (b - a) * t <= high
  {
    var u := 1.0 - t;
    NonnegativeProduct(a - low, u);
    NonnegativeProduct(b - low, t);
    NonnegativeProduct(high - a, u);
    NonnegativeProduct(high - b, t);
    assert a + (b - a) * t - low == (a - low) * u + (b - low) * t;
    assert high - (a + (b - a) * t) == (high - a) * u + (high - b) * t;
  }

  ghost predicate Within(values: seq<real>, low: real, high: real) {
    forall i :: 0 <= i < |values| ==> low <= values[i] <= high
  }

  /** No interpolated sample leaves the range of the samples. */
  lemma SampleWithin(values: seq<real>, position: real, low: real, high: real)
    requires values != [] && Within(values, low, high)
    ensures low <= SampleLinear(values, position) <= high
  {
    if 0.0 < position < (|values| - 1) as real {
      var k := position.Floor;
      Between(values[k], values[k + 1], position - k as real, low, high);
    }
  }

  /** At a whole position within the samples the result is the sample itself. */
  lemma SampleAtWhole(values: seq<real>, k: int)
    requires 0 <= k < |values|
    ensures SampleLinear(values, k as real) == values[k]
  {
    if 0 < k < |values| - 1 { assert (k as real).Floor == k; }
  }

  /** Between two neighbouring samples the result moves from one to the other at a constant rate. */
  lemma SampleBetween(values: seq<real>, k: nat, t: real)
    requires k + 1 < |values| && 0.0 <= t <= 1.0
    ensures SampleLinear(values, k as real + t) == (1.0 - t) * values[k] + t * values[k + 1]
  {
    if t == 0.0 {
      SampleAtWhole(values, k);
    } else if t == 1.0 {
      SampleAtWhole(values, k + 1);
    } else {
      assert (k as real + t).Floor == k;
      assert values[k] + (values[k + 1] - values[k]) * t == (1.0 - t) * values[k] + t * values[k + 1];
    }
  }

  /** Before the first sample and past the last these two go on, and no samples at all read as zero. */
  lemma SampleOutside(values: seq<real>, position: real)
    ensures values == [] ==> SampleLinear(values, position) == 0.0
    ensures values != [] && position <= 0.0 ==> SampleLinear(values, position) == values[0]
    ensures values != [] && position >= |values| as real - 1.0 ==>
              SampleLinear(values, position) == values[|values| - 1]
  {
    if values != [] && position <= 0.0 && position >= |values| as real - 1.0 { assert |values| == 1; }
  }

  /** Samples on a straight line are read on that line. */
  lemma SampleOnRamp(values: seq<real>, position: real, a: real, b: real)
    requires forall i :: 0 <= i < |values| ==> values[i] == a + b * i as real
    requires 0.0 <= position <= |values| as real - 1.0
    ensures SampleLinear(values, position) == a + b * position
  {
    if position == 0.0 {
      SampleAtWhole(values, 0);
    } else if position == |values| as real - 1.0 {
      SampleAtWhole(values, |values| - 1);
    } else {
      var k := position.Floor;
      var t := position - k as real;
      SampleBetween(values, k, t);
      assert (1.0 - t) * (a + b * k as real) + t * (a + b * (k as real + 1.0)) == a + b * (k as real + t);
    }
  }

  // ---- Interpolating a lag

  ghost predicate Increasing(points: seq<Point>) {
    forall i, j :: 0 <= i < j < |points| ==> points[i].offset < points[j].offset
  }

  /** The lag on the segment that ends at point k. */
  function OnSegment(points: seq<Point>, k: nat, x: real): real
    requires 0 < k < |points|
  {
    var left, right := points[k - 1], points[k];
    var span := Max(1, right.offset - left.offset);
    left.lag as real + (right.lag - left.lag) as real * ((x - left.offset as real) / span as real)
  }

  /** The least k from n on whose offset is not before x. */
  function FirstNotBefore(points: seq<Point>, x: real, n: nat): (k: nat)
    requires n <= |points|
    ensures n <= k <= |points|
    ensures k < |points| ==> x <= points[k].offset as real
    ensures forall i :: n <= i < k ==> points[i].offset as real < x
    decreases |points| - n
  {
    if n == |points| || x <= points[n].offset as real then n else FirstNotBefore(points, x, n + 1)
  }

  function LagAt(points: seq<Point>, x: real): real {
    if points == [] then 0.0
    else if x <= points[0].offset as real then points[0].lag as real
    else
      var k := FirstNotBefore(points, x, 1);
      if k < |points| then OnSegment(points, k, x) else points[|points| - 1].lag as real
  }

  /** interpolated_lag. */
  method InterpolatedLag(points: seq<Point>, x: real) returns (lag: real)
    ensures lag == LagAt(points, x)
  {
    if points == [] { return 0.0; }
    if x <= points[0].offset as real { return points[0].lag as real; }
    for k := 1 to |points|
      invariant FirstNotBefore(points, x, k) == FirstNotBefore(points, x, 1)
    {
      var left, right := points[k - 1], points[k];
      if x <= right.offset as real {
        var span := Max(1, right.offset - left.offset);
        var fraction := (x - left.offset as real) / span as real;
        return left.lag as real + (right.lag - left.lag) as real * fraction;
      }
    }
    lag := points[|points| - 1].lag as real;
  }

  lemma SegmentEnds(points: seq<Point>, k: nat)
    requires Increasing(points) && 0 < k < |points|
    ensures OnSegment(points, k, points[k - 1].offset as real) == points[k - 1].lag as real
    ensures OnSegment(points, k, points[k].offset as real) == points[k].lag as real
  {
    var span := (points[k].offset - points[k - 1].offset) as real;
    assert span / span == 1.0;
    assert 0.0 / span == 0.0;
  }

  /** For an increasing profile every segment, both ends included, is the straight line between its points. */
  lemma LagOnSegment(points: seq<Point>, k: nat, x: real)
    requires Increasing(points) && 0 < k < |points|
    requires points[k - 1].offset as real <= x <= points[k].offset as real
    ensures LagAt(points, x) == OnSegment(points, k, x)
  {
    var n := FirstNotBefore(points, x, 1);
    if x == points[k - 1].offset as real {
      SegmentEnds(points, k);
      if k > 1 {
        assert n == k - 1;
        SegmentEnds(points, k - 1);
      }
    } else {
      assert forall i :: 1 <= i < k ==> points[i].offset <= points[k - 1].offset;
      assert n == k;
    }
  }

  /** The profile passes through each of its points. */
  lemma PassesThrough(points: seq<Point>, k: nat)
    requires Increasing(points) && k < |points|
    ensures LagAt(points, points[k].offset as real) == points[k].lag as real
  {
    if k > 0 {
      LagOnSegment(points, k, points[k].offset as real);
      SegmentEnds(points, k);
    }
  }

  /** Between two neighbouring points the lag stays between their lags. */
  lemma StaysBetween(points: seq<Point>, k: nat, x: real, low: real, high: real)
    requires Increasing(points) && 0 < k < |points|
    requires points[k - 1].offset as real <= x <= points[k].offset as real
    requires low <= points[k - 1].lag as real <= high && low <= points[k].lag as real <= high
    ensures low <= LagAt(points, x) <= high
  {
    LagOnSegment(points, k, x);
    var left, right := points[k - 1], points[k];
    var span := (right.offset - left.offset) as real;
    var t := (x - left.offset as real) / span;
    assert t * span == x - left.offset as real;
    assert span * (t - 1.0) == t * span - span;
    ProductSign(span, t);
    ProductSign(span, t - 1.0);
    Between(left.lag as real, right.lag as real, t, low, high);
  }

  lemma SpanPart(span: real, t: real)
    requires span > 0.0
    ensures t * span / span == t
  {
  }

  /** Part of the way from one point of the profile to the next, the lag is the same part of its way. */
  lemma LagIsLinear(points: seq<Point>, k: nat, t: real, x: real)
    requires Increasing(points) && 0 < k < |points| && 0.0 <= t <= 1.0
    requires x == (1.0 - t) * points[k - 1].offset as real + t * points[k].offset as real
    ensures LagAt(points, x) == (1.0 - t) * points[k - 1].lag as real + t * points[k].lag as real
  {
    hide LagAt;
    var left, right := points[k - 1], points[k];
    var span := (right.offset - left.offset) as real;
    assert x - left.offset as real == t * span;
    assert right.offset as real - x == (1.0 - t) * span;
    NonnegativeProduct(t, span);
    NonnegativeProduct(1.0 - t, span);
    SpanPart(span, t);
    LagOnSegment(points, k, x);
    assert (right.lag - left.lag) as real * t == (right.lag as real - left.lag as real) * t;
  }

  /** Before the first point and after the last these two go on, and with no points there is no lag. */
  lemma LagOutside(points: seq<Point>, x: real)
    requires Increasing(points)
    ensures points == [] ==> LagAt(points, x) == 0.0
    ensures points != [] && x <= points[0].offset as real ==> LagAt(points, x) == points[0].lag as real
    ensures points != [] && x >= points[|points| - 1].offset as real ==>
              LagAt(points, x) == points[|points| - 1].lag as real
  {
    if points != [] && x >= points[|points| - 1].offset as real && x > points[0].offset as real {
      var k := FirstNotBefore(points, x, 1);
      if k < |points| { PassesThrough(points, |points| - 1); }
    }
  }

  ghost predicate LagsWithin(points: seq<Point>, low: real, high: real) {
    forall i :: 0 <= i < |points| ==> low <= points[i].lag as real <= high
  }

  /** No interpolated lag leaves the range of the profile's lags, at whatever offset. */
  lemma LagWithin(points: seq<Point>, x: real, low: real, high: real)
    requires points != [] && Increasing(points) && LagsWithin(points, low, high)
    ensures low <= LagAt(points, x) <= high
  {
    if x > points[0].offset as real {
      var k := FirstNotBefore(points, x, 1);
      if k < |points| {
        assert points[k - 1].offset as real <= x;
        StaysBetween(points, k, x, low, high);
      }
    }
  }

  // ---- Warping the capture

  function Clip(n: nat, i: int): (c: nat)
    ensures c <= n
  {
    if i < 0 then Max(0, n + i) else Min(i, n)
  }

  /** A slice with Python's bounds: a negative index counts from the end, and both are clipped. */
  function Slice<T>(s: seq<T>, first: int, last: int): seq<T> {
    var i, j := Clip(|s|, first), Clip(|s|, last);
    if i <= j then s[i..j] else []
  }

  /** A bound past the end is the end, and a negative one counts from the end but never past the start. */
  lemma SliceBounds<T>(s: seq<T>, first: int, last: int)
    ensures 0 <= first <= last <= |s| ==> Slice(s, first, last) == s[first..last]
    ensures 0 <= last < first ==> Slice(s, first, last) == []
    ensures last > |s| ==> Slice(s, first, last) == Slice(s, first, |s|)
    ensures first > |s| ==> Slice(s, first, last) == []
    ensures first < 0 ==> Slice(s, first, last) == Slice(s, if first < -|s| then 0 else |s| + first, last)
    ensures last < 0 ==> Slice(s, first, last) == Slice(s, first, if last < -|s| then 0 else |s| + last)
  {
  }

  function Source(points: seq<Point>, gotStart: int, offset: int): real {
    gotStart as real + offset as real + LagAt(points, offset as real)
  }

  function WarpedAt(got: seq<Pair>, gotStart: int, points: seq<Point>, offset: int): Pair {
    var position := Source(points, gotStart, offset);
    (SampleLinear(Left(got), position), SampleLinear(Right(got), position))
  }

  /** warp_capture_pair. */
  method WarpCapturePair(got: seq<Pair>, gotStart: int, usable: int, points: seq<Point>) returns (warped: seq<Pair>)
    ensures points == [] ==> warped == Slice(got, gotStart, gotStart + usable)
    ensures points != [] ==>
              |warped| == Max(0, usable) &&
              forall i :: 0 <= i < |warped| ==>
                warped[i] == WarpedAt(got, gotStart, points, i)
                == (var position := gotStart as real + i as real + LagAt(points, i as real);
                    (SampleLinear(Left(got), position), SampleLinear(Right(got), position)))
  {
    if points == [] { return Slice(got, gotStart, gotStart + usable); }
    warped := [];
    var offset := 0;
    while offset < usable
      invariant 0 <= offset <= Max(0, usable) && |warped| == offset
      invariant forall i :: 0 <= i < offset ==> warped[i] == WarpedAt(got, gotStart, points, i)
    {
      var lag := InterpolatedLag(points, offset as real);
      var position := gotStart as real + offset as real + lag;
      warped := warped + [(SampleLinear(Left(got), position), SampleLinear(Right(got), position))];
      offset := offset + 1;
    }
  }

  /** Every warped sample lies within the range of its channel of the capture. */
  lemma WarpStaysWithin(got: seq<Pair>, gotStart: int, points: seq<Point>, offset: int, low: real, high: real)
    requires got != []
    ensures Within(Left(got), low, high) ==> low <= WarpedAt(got, gotStart, points, offset).0 <= high
    ensures Within(Right(got), low, high) ==> low <= WarpedAt(got, gotStart, points, offset).1 <= high
  {
    var position := Source(points, gotStart, offset);
    if Within(Left(got), low, high) { SampleWithin(Left(got), position, low, high); }
    if Within(Right(got), low, high) { SampleWithin(Right(got), position, low, high); }
  }

  /** A capture on a straight line is warped to the values of that line at the source positions. */
  lemma RampIsWarped(
    got: seq<Pair>, gotStart: int, points: seq<Point>, offset: int, position: real,
    a: real, b: real, c: real, d: real)
    requires forall i :: 0 <= i < |got| ==> got[i] == (a + b * i as real, c + d * i as real)
    requires position == gotStart as real + offset as real + LagAt(points, offset as real)
    requires 0.0 <= position <= |got| as real - 1.0
    ensures WarpedAt(got, gotStart, points, offset) == (a + b * position, c + d * position)
  {
    hide SampleLinear, LagAt;
    SampleOnRamp(Left(got), position, a, b);
    SampleOnRamp(Right(got), position, c, d);
  }

  /** A profile with one lag throughout shifts the capture by that lag, wherever the shifted frame exists. */
  lemma ConstantProfileShifts(got: seq<Pair>, gotStart: int, points: seq<Point>, lag: int, offset: int)
    requires points != [] && Increasing(points)
    requires forall i :: 0 <= i < |points| ==> points[i].lag == lag
    requires 0 <= gotStart + offset + lag < |got|
    ensures WarpedAt(got, gotStart, points, offset) == got[gotStart + offset + lag]
  {
    LagWithin(points, offset as real, lag as real, lag as real);
    SampleAtWhole(Left(got), gotStart + offset + lag);
    SampleAtWhole(Right(got), gotStart + offset + lag);
  }

  // ---- Building the profile

  function PairToMono(pairs: seq<Pair>): (mono: seq<real>)
    ensures |mono| == |pairs| && forall i :: 0 <= i < |mono| ==> mono[i] + mono[i] == pairs[i].0 + pairs[i].1
  {
    seq<real>(|pairs|, i requires 0 <= i < |pairs| => 0.5 * (pairs[i].0 + pairs[i].1))
  }

  const SINGLE_STAGE: nat := 4096

  /** One window's search: the lag is the one find_best_lag gives, and it stays in range. */
  method WindowLag(sqrt: real -> real, s: Signals, maxLag: int, window: int, stride: int)
    returns (lag: int, score: real)
    requires IsSqrt(sqrt)
    ensures BestLag(sqrt, s, SINGLE_STAGE, maxLag, window, stride, lag, score)
    ensures -1.0 <= score <= 1.0
    ensures maxLag >= 0 ==> -maxLag <= lag <= maxLag
  {
    ghost var coarseLag, coarse;
    lag, score, coarseLag, coarse := FindBestLag(sqrt, s, SINGLE_STAGE, maxLag, window, stride);
    if maxLag > SINGLE_STAGE {
      FineBeatsCoarse(sqrt, s, maxLag, window, stride, coarseLag, coarse, lag, score);
    }
  }

  /** The two mono signals as a window `start` frames on sees them. */
  function WindowSignals(reference: seq<Pair>, got: seq<Pair>, refStart: int, gotStart: int, start: int): Signals {
    Signals(PairToMono(reference), PairToMono(got), refStart + start, gotStart + start)
  }

  /** Each point's lag and score are what find_best_lag gives for its window. */
  ghost predicate BestPoints(
    sqrt: real -> real, reference: seq<Pair>, got: seq<Pair>, refStart: int, gotStart: int,
    maxLag: int, window: int, points: seq<Point>)
    requires IsSqrt(sqrt)
  {
    forall i :: 0 <= i < |points| ==>
      BestLag(sqrt, WindowSignals(reference, got, refStart, gotStart, points[i].offset), SINGLE_STAGE, maxLag,
              window, Max(1, window / 256), points[i].lag, points[i].score)
  }

  /**
   lag_profile, from the window and hop lengths in frames on. The points lie at every hop that leaves room
   for a window, each with the best lag of its window; the profile is increasing and its lags in range.
   */
  method LagProfile(
    sqrt: real -> real, reference: seq<Pair>, got: seq<Pair>, refStart: int, gotStart: int, usable: int,
    maxLag: int, windowFrames: int, hopFrames: int)
    returns (points: seq<Point>)
    requires IsSqrt(sqrt)
    ensures var window, hop := Max(64, windowFrames), Max(1, hopFrames);
      && Increasing(points)
      && (forall i :: 0 <= i < |points| ==> points[i].offset == i * hop && i * hop + window <= usable)
      && |points| * hop + window > usable
      && BestPoints(sqrt, reference, got, refStart, gotStart, maxLag, window, points)
      && forall i :: 0 <= i < |points| ==> -1.0 <= points[i].score <= 1.0
    ensures maxLag >= 0 ==> LagsWithin(points, -(maxLag as real), maxLag as real)
  {
    hide BestLag, PairToMono;
    var window, hop := Max(64, windowFrames), Max(1, hopFrames);
    points := [];
    if usable < window { return; }
    var refMono, gotMono := PairToMono(reference), PairToMono(got);
    var stride := Max(1, window / 256);
    var start := 0;
    while start <= usable - window
      invariant start == |points| * hop
      invariant forall i :: 0 <= i < |points| ==> points[i].offset == i * hop && i * hop + window <= usable
      invariant forall i :: 0 <= i < |points| ==> points[i].offset < start
      invariant Increasing(points)
      invariant BestPoints(sqrt, reference, got, refStart, gotStart, maxLag, window, points)
      invariant forall i :: 0 <= i < |points| ==> -1.0 <= points[i].score <= 1.0
      invariant maxLag >= 0 ==> LagsWithin(points, -(maxLag as real), maxLag as real)
      decreases usable - window - start
    {
      var s := Signals(refMono, gotMono, refStart + start, gotStart + start);
      var lag, score := WindowLag(sqrt, s, maxLag, window, stride);
      points := points + [Point(start, lag, score)];
      start := start + hop;
    }
  }

  /** With lags up to 4096 a window's point is the first lag at which the capture holds a copy, if there is one. */
  lemma PointFindsCopy(
    sqrt: real -> real, reference: seq<Pair>, got: seq<Pair>, refStart: int, gotStart: int,
    maxLag: int, window: int, points: seq<Point>, i: nat)
    requires IsSqrt(sqrt) && maxLag <= 4096 && i < |points|
    requires BestPoints(sqrt, reference, got, refStart, gotStart, maxLag, window, points)
    ensures var at, stride := points[i].offset, if window >= 512 then window / 256 else 1;
      var s := Signals(PairToMono(reference), PairToMono(got), refStart + at, gotStart + at);
      (exists k :: -maxLag <= k <= maxLag && HoldsCopy(s, k, window, stride)) <==>
      FirstCopy(s, -maxLag, maxLag, window, stride, points[i].lag, points[i].score)
  {
    hide BestLag, HoldsCopy, FirstCopy, PairToMono;
    var at := points[i].offset;
    var s := Signals(PairToMono(reference), PairToMono(got), refStart + at, gotStart + at);
    SearchFindsCopy(sqrt, s, 4096, maxLag, window, Max(1, window / 256), points[i].lag, points[i].score);
  }

  /** Offset n of a window lies inside the reference, and moved by k inside the capture. */
  ghost predicate Overlaps(reference: seq<Pair>, got: seq<Pair>, refStart: int, gotStart: int, k: int, n: int) {
    0 <= refStart + n < |reference| && 0 <= gotStart + n + k < |got|
  }

  /** A capture that is the reference c times as loud and k frames late is a copy, if the reference is heard. */
  lemma LouderAndLaterIsCopy(
    reference: seq<Pair>, got: seq<Pair>, refStart: int, gotStart: int, window: int, stride: int, k: int, c: real,
    heard: int)
    requires c > 0.0
    requires forall n :: 0 <= n < window && Overlaps(reference, got, refStart, gotStart, k, n) ==>
      got[gotStart + n + k] == (c * reference[refStart + n].0, c * reference[refStart + n].1)
    requires 0 <= heard < window && (stride > 1 ==> heard % stride == 0)
    requires Overlaps(reference, got, refStart, gotStart, k, heard)
    requires reference[refStart + heard].0 + reference[refStart + heard].1 != 0.0
    ensures HoldsCopy(Signals(PairToMono(reference), PairToMono(got), refStart, gotStart), k, window, stride)
  {
    var s := Signals(PairToMono(reference), PairToMono(got), refStart, gotStart);
    var step := if stride > 1 then stride else 1;
    forall n | Compared(s, k, window, step, n)
      ensures s.got[gotStart + n + k] == c * s.reference[refStart + n]
    {
      assert Overlaps(reference, got, refStart, gotStart, k, n);
      var x, y := reference[refStart + n].0, reference[refStart + n].1;
      assert 0.5 * (c * x + c * y) == c * (0.5 * (x + y));
    }
    assert Scaled(s, k, window, step, c);
    assert Compared(s, k, window, step, heard);
  }
}

/**
 Normalised lag correlation and the coarse-to-fine search of scripts/analyze-soundcheck-capture.py and
 scripts/analyze-driver-capture.py, over the reals.
 */
module LagSearch {
  import opened LeastSquares
  import opened Numbers
  import opened Wrappers

  /** The two mono signals and where the comparison starts in each. */
  datatype Signals = Signals(reference: seq<real>, got: seq<real>, refStart: int, gotStart: int)

  // ---- The score at one lag

  /** Offset n of the window falls inside both signals at this lag. */
  predicate InBounds(s: Signals, lag: int, n: int) {
    && 0 <= s.refStart + n < |s.reference|
    && 0 <= s.gotStart + n + lag < |s.got|
  }

  /** The sample pairs compared from offset n on, every stride-th. */
  function Samples(s: Signals, lag: int, n: int, count: int, stride: int): seq<Pair>
    requires stride >= 1
    decreases count - n
  {
    if n >= count then []
    else
      (if InBounds(s, lag, n) then [(s.reference[s.refStart + n], s.got[s.gotStart + n + lag])] else [])
      + Samples(s, lag, n + stride, count, stride)
  }

  lemma RootIsPositive(sqrt: real -> real, x: real)
    requires IsSqrt(sqrt)
    ensures x > 0.0 ==> sqrt(x) > 0.0
  {
    if x > 0.0 { assert sqrt(x) * sqrt(x) == x && sqrt(x) >= 0.0; }
  }

  /** The score of sums: none when either energy vanishes. */
  function Ratio(sqrt: real -> real, uu: real, uv: real, vv: real): Option<real>
    requires IsSqrt(sqrt)
  {
    if uu <= 0.0 || vv <= 0.0 then None
    else
      ProductSign(uu, vv);
      RootIsPositive(sqrt, uu * vv);
      Some(uv / sqrt(uu * vv))
  }

  function Normalised(sqrt: real -> real, pairs: seq<Pair>): Option<real>
    requires IsSqrt(sqrt)
  {
    var u, v := Left(pairs), Right(pairs);
    if |pairs| == 0 then None else Ratio(sqrt, Dot(u, u), Dot(u, v), Dot(v, v))
  }

  function AtLeastOne(n: int): int { Max(1, n) }

  function Score(sqrt: real -> real, s: Signals, lag: int, count: int, stride: int): Option<real>
    requires IsSqrt(sqrt)
  {
    Normalised(sqrt, Samples(s, lag, 0, count, AtLeastOne(stride)))
  }

  lemma QuotientBound(p: real, q: real)
    requires q > 0.0 && p * p <= q * q
    ensures -1.0 <= p / q <= 1.0
    ensures Abs(p / q) == 1.0 <==> q * q - p * p == 0.0
  {
    SquareOrder(Abs(p), q);
    var t := p / q;
    assert t * q == p;
    ProductSign(q, t - 1.0);
    ProductSign(q, t + 1.0);
    assert q * (t - 1.0) == p - q && q * (t + 1.0) == p + q;
    assert q * q - p * p == (q - p) * (q + p);
    if (q - p) * (q + p) == 0.0 { ZeroProduct(q - p, q + p); }
  }

  lemma UnitRatio(sqrt: real -> real, uu: real, uv: real, vv: real)
    requires IsSqrt(sqrt) && Ratio(sqrt, uu, uv, vv).Some? && Determinant(uu, uv, vv) >= 0.0
    ensures -1.0 <= Ratio(sqrt, uu, uv, vv).value <= 1.0
    ensures Abs(Ratio(sqrt, uu, uv, vv).value) == 1.0 <==> Determinant(uu, uv, vv) == 0.0
  {
    ProductSign(uu, vv);
    RootIsPositive(sqrt, uu * vv);
    QuotientBound(uv, sqrt(uu * vv));
  }

  /** Unit bound for any samples, and equality of square with one exactly for proportional signals. */
  lemma NormalisedBound(sqrt: real -> real, pairs: seq<Pair>)
    requires IsSqrt(sqrt) && Normalised(sqrt, pairs).Some?
    ensures -1.0 <= Normalised(sqrt, pairs).value <= 1.0
    ensures Abs(Normalised(sqrt, pairs).value) == 1.0 <==> exists x, y :: Dependent(Left(pairs), Right(pairs), x, y)
  {
    var u, v := Left(pairs), Right(pairs);
    GramDeterminantNonnegative(u, v);
    SingularIffDependent(u, v);
    UnitRatio(sqrt, Dot(u, u), Dot(u, v), Dot(v, v));
  }

  /** No lag, stride or clipping brings a score outside -1..1. */
  lemma ScoreBound(sqrt: real -> real, s: Signals, lag: int, count: int, stride: int)
    requires IsSqrt(sqrt) && Score(sqrt, s, lag, count, stride).Some?
    ensures -1.0 <= Score(sqrt, s, lag, count, stride).value <= 1.0
  {
    NormalisedBound(sqrt, Samples(s, lag, 0, count, AtLeastOne(stride)));
  }

  lemma SamplesStep(s: Signals, lag: int, n: int, count: int, stride: int)
    requires stride >= 1
    ensures n >= count ==> Samples(s, lag, n, count, stride) == []
    ensures n < count && InBounds(s, lag, n) ==>
              Samples(s, lag, n, count, stride) ==
              [(s.reference[s.refStart + n], s.got[s.gotStart + n + lag])] + Samples(s, lag, n + stride, count, stride)
    ensures n < count && !InBounds(s, lag, n) ==>
              Samples(s, lag, n, count, stride) == Samples(s, lag, n + stride, count, stride)
  {
  }

  /** With an empty window no lag has a score, so the driver script's early return changes no scan. */
  lemma EmptyWindowHasNoScore(sqrt: real -> real, s: Signals, lag: int, count: int, stride: int)
    requires IsSqrt(sqrt) && count <= 0
    ensures Score(sqrt, s, lag, count, stride) == None
  {
  }

  /** What the loop of score_lag holds after the samples done. */
  ghost predicate Accumulated(done: seq<Pair>, score: real, refEnergy: real, gotEnergy: real, used: int) {
    && used == |done| && score == Dot(Left(done), Right(done))
    && refEnergy == Dot(Left(done), Left(done)) && gotEnergy == Dot(Right(done), Right(done))
  }

  lemma AccumulatesNone()
    ensures Accumulated([], 0.0, 0.0, 0.0, 0)
  {
  }

  lemma DotGrows(done: seq<Pair>, p: Pair)
    ensures var next := done + [p];
      && Dot(Left(next), Right(next)) == Dot(Left(done), Right(done)) + p.0 * p.1
      && Dot(Left(next), Left(next)) == Dot(Left(done), Left(done)) + p.0 * p.0
      && Dot(Right(next), Right(next)) == Dot(Right(done), Right(done)) + p.1 * p.1
  {
    var u, v, u', v' := Left(done), Right(done), Left(done + [p]), Right(done + [p]);
    assert u' == u + [p.0] && v' == v + [p.1];
    DotToPrefix(u, v, u', v', |done|);
    DotToPrefix(u, u, u', u', |done|);
    DotToPrefix(v, v, v', v', |done|);
  }

  lemma AccumulatesNext(
    done: seq<Pair>, score: real, refEnergy: real, gotEnergy: real, used: int, rv: real, gv: real)
    requires Accumulated(done, score, refEnergy, gotEnergy, used)
    ensures Accumulated(done + [(rv, gv)], score + rv * gv, refEnergy + rv * rv, gotEnergy + gv * gv, used + 1)
  {
    DotGrows(done, (rv, gv));
  }

  lemma AccumulatedScore(
    sqrt: real -> real, done: seq<Pair>, score: real, refEnergy: real, gotEnergy: real, used: int)
    requires IsSqrt(sqrt) && Accumulated(done, score, refEnergy, gotEnergy, used)
    ensures var r := if used > 0 then Ratio(sqrt, refEnergy, score, gotEnergy) else None;
      r == Normalised(sqrt, done) && (r.Some? ==> -1.0 <= r.value <= 1.0)
  {
    if Normalised(sqrt, done).Some? { NormalisedBound(sqrt, done); }
  }

  /** The end of score_lag, after its loop found samples. */
  method FromEnergies(sqrt: real -> real, score: real, refEnergy: real, gotEnergy: real) returns (r: Option<real>)
    requires IsSqrt(sqrt)
    ensures r == Ratio(sqrt, refEnergy, score, gotEnergy)
  {
    if refEnergy <= 0.0 || gotEnergy <= 0.0 { return None; }
    ProductSign(refEnergy, gotEnergy);
    RootIsPositive(sqrt, refEnergy * gotEnergy);
    r := Some(score / sqrt(refEnergy * gotEnergy));
  }

  lemma TakesNext<T>(done: seq<T>, x: T, rest: seq<T>)
    ensures done + ([x] + rest) == (done + [x]) + rest
  {
  }

  /** score_lag. */
  method ScoreLag(sqrt: real -> real, s: Signals, lag: int, count: int, stride: int) returns (r: Option<real>)
    requires IsSqrt(sqrt)
    ensures r == Score(sqrt, s, lag, count, stride)
    ensures r.Some? ==> -1.0 <= r.value <= 1.0
  {
    hide Dot, Left, Right, Accumulated, Samples, Normalised, Ratio;
    var score, refEnergy, gotEnergy, used := 0.0, 0.0, 0.0, 0;
    var step := if stride > 1 then stride else 1;
    var n := 0;
    ghost var done: seq<Pair> := [];
    AccumulatesNone();
    while n < count
      invariant done + Samples(s, lag, n, count, step) == Samples(s, lag, 0, count, step)
      invariant Accumulated(done, score, refEnergy, gotEnergy, used)
      decreases count - n
    {
      SamplesStep(s, lag, n, count, step);
      var ri, gi := s.refStart + n, s.gotStart + n + lag;
      if !(ri < 0 || gi < 0 || ri >= |s.reference| || gi >= |s.got|) {
        var rv, gv := s.reference[ri], s.got[gi];
        AccumulatesNext(done, score, refEnergy, gotEnergy, used, rv, gv);
        score, refEnergy, gotEnergy := score + rv * gv, refEnergy + rv * rv, gotEnergy + gv * gv;
        used := used + 1;
        TakesNext(done, (rv, gv), Samples(s, lag, n + step, count, step));
        done := done + [(rv, gv)];
      }
      n := n + step;
    }
    SamplesStep(s, lag, n, count, step);
    assert done == Samples(s, lag, 0, count, step);
    if used > 0 { r := FromEnergies(sqrt, score, refEnergy, gotEnergy); } else { r := None; }
    AccumulatedScore(sqrt, done, score, refEnergy, gotEnergy, used);
  }

  // ---- Scanning a range of lags

  /** range(first, last + 1, step). */
  function LagRange(first: int, last: int, step: int): (lags: seq<int>)
    requires step >= 1
    ensures forall x :: x in lags ==> first <= x <= last
    decreases last - first
  {
    if first > last then [] else [first] + LagRange(first + step, last, step)
  }

  lemma {:induction false} UnitRange(first: int, last: int, x: int)
    ensures x in LagRange(first, last, 1) <==> first <= x <= last
    decreases last - first
  {
    if first > last {
    } else {
      UnitRange(first + 1, last, x);
    }
  }

  /** lag is the smallest of the lags with the largest score, or zero when none of them has a score. */
  ghost predicate FirstMaximum(f: int -> Option<real>, lags: seq<int>, lag: int, best: Option<real>) {
    match best
    case None => lag == 0 && forall x :: x in lags ==> f(x).None?
    case Some(score) =>
      && lag in lags && f(lag) == best
      && forall x :: x in lags && f(x).Some? ==> f(x).value <= score && (x < lag ==> f(x).value < score)
  }

  lemma NothingFound(f: int -> Option<real>)
    ensures FirstMaximum(f, [], 0, None)
  {
  }

  lemma MaximumGrows(f: int -> Option<real>, visited: seq<int>, bestLag: int, found: Option<real>, lag: int)
    requires FirstMaximum(f, visited, bestLag, found) && forall x :: x in visited ==> x < lag
    ensures var next := visited + [lag];
      if f(lag).Some? && (found.None? || f(lag).value > found.value)
      then FirstMaximum(f, next, lag, f(lag))
      else FirstMaximum(f, next, bestLag, found)
  {
  }

  ghost function ScoreAt(sqrt: real -> real, s: Signals, count: int, stride: int): int -> Option<real>
    requires IsSqrt(sqrt)
  {
    lag => Score(sqrt, s, lag, count, stride)
  }

  function OrZero(best: Option<real>): real { if best.Some? then best.value else 0.0 }

  /** scan_lags. Its second result is zero when best is absent. */
  method ScanLags(sqrt: real -> real, s: Signals, first: int, last: int, step: int, count: int, stride: int)
    returns (bestLag: int, bestScore: real, ghost best: Option<real>)
    requires IsSqrt(sqrt)
    ensures FirstMaximum(ScoreAt(sqrt, s, count, stride), LagRange(first, last, AtLeastOne(step)), bestLag, best)
    ensures bestScore == OrZero(best) && -1.0 <= bestScore <= 1.0
  {
    var stepped := if step > 1 then step else 1;
    var found: Option<real> := None;
    bestLag := 0;
    var lag := first;
    hide FirstMaximum;
    ghost var f := ScoreAt(sqrt, s, count, stride);
    NothingFound(f);
    ghost var visited: seq<int> := [];
    while lag <= last
      invariant visited + LagRange(lag, last, stepped) == LagRange(first, last, stepped)
      invariant forall x :: x in visited ==> x < lag
      invariant FirstMaximum(f, visited, bestLag, found)
      invariant found.Some? ==> -1.0 <= found.value <= 1.0
      decreases last - lag
    {
      var score := ScoreLag(sqrt, s, lag, count, stride);
      assert score == f(lag);
      MaximumGrows(f, visited, bestLag, found, lag);
      if score.Some? && (found.None? || score.value > found.value) {
        found, bestLag := score, lag;
      }
      TakesNext(visited, lag, LagRange(lag + stepped, last, stepped));
      visited := visited + [lag];
      lag := lag + stepped;
    }
    assert visited == LagRange(first, last, stepped);
    best := found;
    bestScore := if found.Some? then found.value else 0.0;
  }

  // ---- The search

  /** What a search that scans every lag in its range promises. */
  ghost predicate ExactOver(f: int -> Option<real>, first: int, last: int, lag: int, score: real) {
    && (forall x :: first <= x <= last && f(x).Some? ==>
          f(x).value <= score && (x < lag ==> f(x).value < score))
    && (if exists x :: first <= x <= last && f(x).Some?
        then first <= lag <= last && f(lag) == Some(score)
        else lag == 0 && score == 0.0)
  }

  lemma {:induction false} UnitScanIsExact(f: int -> Option<real>, first: int, last: int, lag: int, best: Option<real>)
    requires FirstMaximum(f, LagRange(first, last, 1), lag, best)
    ensures ExactOver(f, first, last, lag, OrZero(best))
  {
    forall x | first <= x <= last ensures x in LagRange(first, last, 1) { UnitRange(first, last, x); }
  }

  /** The coarse winner is the first maximum of the coarse grid, and the result is exact around that winner. */
  ghost predicate TwoStage(sqrt: real -> real, s: Signals, maxLag: int, count: int, stride: int,
                           coarseLag: int, coarse: Option<real>, lag: int, score: real)
    requires IsSqrt(sqrt)
  {
    var step := Max(8, maxLag / 2048);
    && FirstMaximum(ScoreAt(sqrt, s, count, Max(stride, step)), LagRange(-maxLag, maxLag, step), coarseLag, coarse)
    && ExactOver(ScoreAt(sqrt, s, count, stride),
                 Max(-maxLag, coarseLag - 2 * step), Min(maxLag, coarseLag + 2 * step), lag, score)
  }

  /** The lag and score that the search settles on, whatever its limit for a single stage. */
  ghost predicate BestLag(sqrt: real -> real, s: Signals, singleStage: nat, maxLag: int, count: int, stride: int,
                          lag: int, score: real)
    requires IsSqrt(sqrt)
  {
    if maxLag <= singleStage then ExactOver(ScoreAt(sqrt, s, count, stride), -maxLag, maxLag, lag, score)
    else exists coarseLag, coarse :: TwoStage(sqrt, s, maxLag, count, stride, coarseLag, coarse, lag, score)
  }

  /**
   find_best_lag, with the single-stage limit that differs between the two scripts (4096 and 512). Up to
   the limit it is the exact search over -maxLag..maxLag. Above it, the coarse winner is the first maximum
   of the coarse grid and the result is the exact search over the window around that winner.
   */
  method FindBestLag(
    sqrt: real -> real, s: Signals, singleStage: nat, maxLag: int, count: int, stride: int)
    returns (lag: int, score: real, ghost coarseLag: int, ghost coarse: Option<real>)
    requires IsSqrt(sqrt)
    ensures BestLag(sqrt, s, singleStage, maxLag, count, stride, lag, score)
    ensures maxLag > singleStage ==> TwoStage(sqrt, s, maxLag, count, stride, coarseLag, coarse, lag, score)
    ensures -1.0 <= score <= 1.0
  {
    hide FirstMaximum, ExactOver, LagRange, ScoreAt, OrZero;
    ghost var f := ScoreAt(sqrt, s, count, stride);
    ghost var best: Option<real>;
    coarseLag, coarse := 0, None;
    if maxLag <= singleStage {
      lag, score, best := ScanLags(sqrt, s, -maxLag, maxLag, 1, count, stride);
      UnitScanIsExact(f, -maxLag, maxLag, lag, best);
      return;
    }
    var step := Max(8, maxLag / 2048);
    var winner, _, coarseBest := ScanLags(sqrt, s, -maxLag, maxLag, step, count, Max(stride, step));
    coarseLag, coarse := winner, coarseBest;
    var radius := step * 2;
    var fineStart := Max(-maxLag, winner - radius);
    var fineEnd := Min(maxLag, winner + radius);
    lag, score, best := ScanLags(sqrt, s, fineStart, fineEnd, 1, count, stride);
    UnitScanIsExact(f, fineStart, fineEnd, lag, best);
    assert TwoStage(sqrt, s, maxLag, count, stride, coarseLag, coarse, lag, score);
  }

  /**
   What the two stages mean together: the result stays within the range, and whenever the coarse winner
   has a score at the fine stride, the result is near it and scores at least as well.
   */
  lemma FineBeatsCoarse(sqrt: real -> real, s: Signals, maxLag: int, count: int, stride: int,
                        coarseLag: int, coarse: Option<real>, lag: int, score: real)
    requires IsSqrt(sqrt) && maxLag >= 0
    requires TwoStage(sqrt, s, maxLag, count, stride, coarseLag, coarse, lag, score)
    ensures -maxLag <= coarseLag <= maxLag && -maxLag <= lag <= maxLag
    ensures Score(sqrt, s, coarseLag, count, stride).Some? ==>
              && Score(sqrt, s, lag, count, stride) == Some(score)
              && score >= Score(sqrt, s, coarseLag, count, stride).value
              && Abs(lag as real - coarseLag as real) <= 2.0 * Max(8, maxLag / 2048) as real
  {
    var f := ScoreAt(sqrt, s, count, stride);
    assert f(coarseLag) == Score(sqrt, s, coarseLag, count, stride);
    assert f(lag) == Score(sqrt, s, lag, count, stride);
  }

  /** normalize_starts: both starts become nonnegative, moved by the same least amount. */
  function NormalizeStarts(refStart: int, gotStart: int): (r: (int, int))
    ensures var moved := Max(0, Max(-refStart, -gotStart));
      r == (refStart + moved, gotStart + moved)
  {
    var ref', got' := if gotStart < 0 then refStart - gotStart else refStart, if gotStart < 0 then 0 else gotStart;
    if ref' < 0 then (0, got' - ref') else (ref', got')
  }
}

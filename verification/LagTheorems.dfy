/**
 What the lag search finds. A lag scores one exactly when the capture is there, wherever the two are
 compared, a positive multiple of a reference that is not silent; the search returns the first such lag.
 */
module LagTheorems {
  import opened LagSearch
  import opened LeastSquares
  import opened Numbers
  import opened Wrappers

  // ---- Which samples are compared

  /** Offset n is compared at this lag: one of every `step` of the window, inside both signals. */
  ghost predicate Compared(s: Signals, lag: int, count: int, step: int, n: int)
    requires step >= 1
  {
    && 0 <= n < count && n % step == 0
    && 0 <= s.refStart + n < |s.reference|
    && 0 <= s.gotStart + n + lag < |s.got|
  }

  lemma MultiplesApart(step: int, a: int, b: int)
    requires step >= 1 && step * a < step * b
    ensures step * a + step <= step * b
  {
    var d := b - a;
    assert step * d == step * b - step * a;
    assert d <= 0 ==> step * d <= 0;
    assert d >= 1 ==> step * d >= step;
  }

  lemma NextMultiple(n: nat, m: nat, step: int)
    requires step >= 1 && n % step == 0 && m % step == 0
    ensures (n + step) % step == 0
    ensures n < m ==> n + step <= m
  {
    var a, b := n / step, m / step;
    assert n == step * a && m == step * b;
    Divide(n + step, step, a + 1, 0);
    if n < m { MultiplesApart(step, a, b); }
  }

  /** Each sample pair is that of a compared offset. */
  lemma {:induction false} SampleHasOffset(s: Signals, lag: int, n: nat, count: int, step: int, i: nat)
    returns (m: int)
    requires step >= 1 && n % step == 0 && i < |Samples(s, lag, n, count, step)|
    ensures n <= m && Compared(s, lag, count, step, m)
    ensures Samples(s, lag, n, count, step)[i] == (s.reference[s.refStart + m], s.got[s.gotStart + m + lag])
    decreases count - n
  {
    SamplesStep(s, lag, n, count, step);
    NextMultiple(n, n, step);
    if InBounds(s, lag, n) {
      if i == 0 {
        m := n;
      } else {
        m := SampleHasOffset(s, lag, n + step, count, step, i - 1);
      }
    } else {
      m := SampleHasOffset(s, lag, n + step, count, step, i);
    }
  }

  /** Each compared offset has its sample pair. */
  lemma {:induction false} OffsetIsSampled(s: Signals, lag: int, n: nat, count: int, step: int, m: nat)
    returns (i: nat)
    requires step >= 1 && n % step == 0 && n <= m && Compared(s, lag, count, step, m)
    ensures i < |Samples(s, lag, n, count, step)|
    ensures Samples(s, lag, n, count, step)[i] == (s.reference[s.refStart + m], s.got[s.gotStart + m + lag])
    decreases count - n
  {
    SamplesStep(s, lag, n, count, step);
    NextMultiple(n, m, step);
    if n == m {
      i := 0;
    } else {
      i := OffsetIsSampled(s, lag, n + step, count, step, m);
      if InBounds(s, lag, n) { i := i + 1; }
    }
  }

  /** There are as many sample pairs as compared offsets. */
  lemma {:induction false} SamplesCount(s: Signals, lag: int, n: nat, count: int, step: int)
    requires step >= 1 && n % step == 0
    ensures |Samples(s, lag, n, count, step)| == |set m | n <= m < count && Compared(s, lag, count, step, m)|
    decreases count - n
  {
    SamplesStep(s, lag, n, count, step);
    var compared := set m | n <= m < count && Compared(s, lag, count, step, m);
    if n >= count {
      assert compared == {};
    } else {
      NextMultiple(n, n, step);
      SamplesCount(s, lag, n + step, count, step);
      var later := set m | n + step <= m < count && Compared(s, lag, count, step, m);
      forall m | m in compared && m != n
        ensures m in later
      {
        NextMultiple(n, m, step);
      }
      assert compared == if InBounds(s, lag, n) then {n} + later else later;
    }
  }

  // ---- When a lag has a score

  ghost predicate ReferenceSounds(s: Signals, lag: int, count: int, step: int)
    requires step >= 1
  {
    exists n :: Compared(s, lag, count, step, n) && s.reference[s.refStart + n] != 0.0
  }

  ghost predicate CaptureSounds(s: Signals, lag: int, count: int, step: int)
    requires step >= 1
  {
    exists n :: Compared(s, lag, count, step, n) && s.got[s.gotStart + n + lag] != 0.0
  }

  lemma {:induction false} SilentEnergy(u: seq<real>)
    ensures Dot(u, u) >= 0.0
    ensures Dot(u, u) > 0.0 <==> exists i :: 0 <= i < |u| && u[i] != 0.0
  {
    SquaresNonnegative(u, |u|);
    if forall i :: 0 <= i < |u| ==> u[i] == 0.0 { ZeroDots(u, u, |u|); }
  }

  lemma NoEnergy(pairs: seq<Pair>)
    requires pairs == []
    ensures Dot(Left(pairs), Left(pairs)) == 0.0
  {
  }

  lemma {:induction false} ReferenceEnergy(s: Signals, lag: int, count: int, step: int)
    requires step >= 1
    ensures var u := Left(Samples(s, lag, 0, count, step));
      Dot(u, u) > 0.0 <==> ReferenceSounds(s, lag, count, step)
  {
    hide Dot, Samples;
    var pairs := Samples(s, lag, 0, count, step);
    var u := Left(pairs);
    SilentEnergy(u);
    if i :| 0 <= i < |u| && u[i] != 0.0 {
      var n := SampleHasOffset(s, lag, 0, count, step, i);
    }
    if n :| Compared(s, lag, count, step, n) && s.reference[s.refStart + n] != 0.0 {
      var i := OffsetIsSampled(s, lag, 0, count, step, n);
      assert u[i] != 0.0;
    }
  }

  lemma {:induction false} CaptureEnergy(s: Signals, lag: int, count: int, step: int)
    requires step >= 1
    ensures var v := Right(Samples(s, lag, 0, count, step));
      Dot(v, v) > 0.0 <==> CaptureSounds(s, lag, count, step)
  {
    var pairs := Samples(s, lag, 0, count, step);
    var v := Right(pairs);
    SilentEnergy(v);
    if i :| 0 <= i < |v| && v[i] != 0.0 {
      var n := SampleHasOffset(s, lag, 0, count, step, i);
    }
    if n :| Compared(s, lag, count, step, n) && s.got[s.gotStart + n + lag] != 0.0 {
      var i := OffsetIsSampled(s, lag, 0, count, step, n);
      assert v[i] != 0.0;
    }
  }

  /** A lag has a score exactly when neither signal is silent wherever the two are compared. */
  lemma ScoredIffHeard(sqrt: real -> real, s: Signals, lag: int, count: int, stride: int)
    requires IsSqrt(sqrt)
    ensures var step := if stride > 1 then stride else 1;
      Score(sqrt, s, lag, count, stride).Some? <==>
        ReferenceSounds(s, lag, count, step) && CaptureSounds(s, lag, count, step)
  {
    hide Dot, Samples, ReferenceSounds, CaptureSounds;
    var step := if stride > 1 then stride else 1;
    ReferenceEnergy(s, lag, count, step);
    CaptureEnergy(s, lag, count, step);
    var pairs := Samples(s, lag, 0, count, step);
    if pairs == [] { NoEnergy(pairs); }
  }

  // ---- Cosine

  lemma {:induction false} ScoreOfSamples(sqrt: real -> real, s: Signals, lag: int, count: int, stride: int)
    requires IsSqrt(sqrt)
    ensures Score(sqrt, s, lag, count, stride)
         == Normalised(sqrt, Samples(s, lag, 0, count, if stride > 1 then stride else 1))
  {
  }

  lemma CosineOf(sqrt: real -> real, uu: real, uv: real, vv: real)
    requires IsSqrt(sqrt) && uu > 0.0 && vv > 0.0
    ensures var z := Ratio(sqrt, uu, uv, vv).value;
      z * z * (uu * vv) == uv * uv && (z > 0.0 <==> uv > 0.0) && (z < 0.0 <==> uv < 0.0)
  {
    ProductSign(uu, vv);
    RootIsPositive(sqrt, uu * vv);
    var root := sqrt(uu * vv);
    var z := uv / root;
    assert z * root == uv;
    assert (z * root) * (z * root) == z * z * (root * root);
    ProductSign(root, z);
  }

  /** A score is the cosine of the angle between the compared samples. */
  lemma {:induction false} ScoreIsCosine(sqrt: real -> real, s: Signals, lag: int, count: int, stride: int)
    requires IsSqrt(sqrt) && Score(sqrt, s, lag, count, stride).Some?
    ensures var pairs := Samples(s, lag, 0, count, if stride > 1 then stride else 1);
      var u, v, z := Left(pairs), Right(pairs), Score(sqrt, s, lag, count, stride).value;
      && z * z * (Dot(u, u) * Dot(v, v)) == Dot(u, v) * Dot(u, v)
      && (z > 0.0 <==> Dot(u, v) > 0.0) && (z < 0.0 <==> Dot(u, v) < 0.0)
  {
    hide Dot, Samples;
    var pairs := Samples(s, lag, 0, count, if stride > 1 then stride else 1);
    CosineOf(sqrt, Dot(Left(pairs), Left(pairs)), Dot(Left(pairs), Right(pairs)), Dot(Right(pairs), Right(pairs)));
  }

  // ---- When the score is one

  /** Wherever the two are compared the capture is c times the reference. */
  ghost predicate Scaled(s: Signals, lag: int, count: int, step: int, c: real)
    requires step >= 1
  {
    forall n :: Compared(s, lag, count, step, n) ==>
      s.got[s.gotStart + n + lag] == c * s.reference[s.refStart + n]
  }

  /** The capture holds, moved by this lag, a positive multiple of a reference that is not silent. */
  ghost predicate HoldsCopy(s: Signals, lag: int, count: int, stride: int) {
    var step := if stride > 1 then stride else 1;
    ReferenceSounds(s, lag, count, step) && exists c :: c > 0.0 && Scaled(s, lag, count, step, c)
  }

  ghost predicate Multiple(u: seq<real>, v: seq<real>, c: real) {
    |u| == |v| && forall i :: 0 <= i < |u| ==> v[i] == c * u[i]
  }

  lemma {:induction false} ScaledDots(u: seq<real>, v: seq<real>, c: real, n: nat)
    requires n <= |u| && Multiple(u, v, c)
    ensures DotTo(u, v, n) == c * DotTo(u, u, n)
    ensures DotTo(v, v, n) == c * (c * DotTo(u, u, n))
  {
    if n == 0 {
    } else {
      ScaledDots(u, v, c, n - 1);
      var x := u[n - 1];
      assert x * v[n - 1] == c * (x * x) && v[n - 1] * v[n - 1] == c * (c * (x * x));
    }
  }

  lemma CopyDots(u: seq<real>, v: seq<real>, c: real)
    requires Multiple(u, v, c)
    ensures Dot(u, v) == c * Dot(u, u) && Dot(v, v) == c * (c * Dot(u, u))
  {
    hide DotTo;
    ScaledDots(u, v, c, |u|);
  }

  lemma CopyRatio(sqrt: real -> real, uu: real, uv: real, vv: real, c: real)
    requires IsSqrt(sqrt) && uu > 0.0 && c > 0.0 && uv == c * uu && vv == c * (c * uu)
    ensures Ratio(sqrt, uu, uv, vv) == Some(1.0)
  {
    ProductSign(c, uu);
    ProductSign(c, uv);
    CosineOf(sqrt, uu, uv, vv);
    var z := Ratio(sqrt, uu, uv, vv).value;
    var p := uv * uv;
    assert uu * vv == p;
    ProductSign(uv, uv);
    assert (z * z - 1.0) * p == 0.0;
    ZeroProduct(z * z - 1.0, p);
    assert (z - 1.0) * (z + 1.0) == 0.0;
    ZeroProduct(z - 1.0, z + 1.0);
  }

  lemma {:induction false} ScaledSamples(s: Signals, lag: int, count: int, step: int, c: real)
    requires step >= 1
    ensures var pairs := Samples(s, lag, 0, count, step);
      Scaled(s, lag, count, step, c) <==> Multiple(Left(pairs), Right(pairs), c)
  {
    hide Samples;
    var pairs := Samples(s, lag, 0, count, step);
    if Scaled(s, lag, count, step, c) {
      forall i | 0 <= i < |pairs| ensures Right(pairs)[i] == c * Left(pairs)[i] {
        var n := SampleHasOffset(s, lag, 0, count, step, i);
      }
    }
    if Multiple(Left(pairs), Right(pairs), c) {
      forall n | Compared(s, lag, count, step, n)
        ensures s.got[s.gotStart + n + lag] == c * s.reference[s.refStart + n]
      {
        var i := OffsetIsSampled(s, lag, 0, count, step, n);
        assert Right(pairs)[i] == c * Left(pairs)[i];
      }
    }
  }

  lemma MakesCopy(s: Signals, lag: int, count: int, stride: int, c: real)
    requires var step := if stride > 1 then stride else 1;
      ReferenceSounds(s, lag, count, step) && c > 0.0 && Scaled(s, lag, count, step, c)
    ensures HoldsCopy(s, lag, count, stride)
  {
  }

  lemma MultipleScoresOne(sqrt: real -> real, pairs: seq<Pair>, c: real)
    requires IsSqrt(sqrt) && c > 0.0 && Multiple(Left(pairs), Right(pairs), c)
    requires Dot(Left(pairs), Left(pairs)) > 0.0
    ensures Normalised(sqrt, pairs) == Some(1.0)
  {
    hide Dot, Ratio, Multiple;
    var u, v := Left(pairs), Right(pairs);
    if pairs == [] { NoEnergy(pairs); }
    CopyDots(u, v, c);
    CopyRatio(sqrt, Dot(u, u), Dot(u, v), Dot(v, v), c);
  }

  /** A moved copy of the reference, of whatever loudness, scores one. */
  lemma CopyScoresOne(sqrt: real -> real, s: Signals, lag: int, count: int, stride: int)
    requires IsSqrt(sqrt) && HoldsCopy(s, lag, count, stride)
    ensures Score(sqrt, s, lag, count, stride) == Some(1.0)
  {
    hide Dot, Samples, Scaled, ReferenceSounds, Normalised, Multiple, Score;
    var step := if stride > 1 then stride else 1;
    var c :| c > 0.0 && Scaled(s, lag, count, step, c);
    ScaledSamples(s, lag, count, step, c);
    ReferenceEnergy(s, lag, count, step);
    MultipleScoresOne(sqrt, Samples(s, lag, 0, count, step), c);
    ScoreOfSamples(sqrt, s, lag, count, stride);
  }

  /** Proportional samples whose product is positive are a positive multiple of each other. */
  lemma MultipleOf(u: seq<real>, v: seq<real>, x: real, y: real) returns (c: real)
    requires |u| == |v| && Dependent(u, v, x, y) && Dot(u, u) > 0.0 && Dot(u, v) > 0.0
    ensures c > 0.0 && Multiple(u, v, c)
  {
    if y == 0.0 {
      forall i | 0 <= i < |u| ensures u[i] == 0.0 {
        assert Mix(x, u, y, v)[i] == x * u[i];
        ZeroProduct(x, u[i]);
      }
      ZeroDots(u, u, |u|);
      assert false;
    }
    c := -x / y;
    forall i | 0 <= i < |u| ensures v[i] == c * u[i] {
      assert Mix(x, u, y, v)[i] == x * u[i] + y * v[i];
      assert c * y == -x;
      assert y * (v[i] - c * u[i]) == y * v[i] - (c * y) * u[i];
      ZeroProduct(y, v[i] - c * u[i]);
    }
    CopyDots(u, v, c);
    if c < 0.0 { ProductSign(Dot(u, u), c); }
  }

  /** Only a copy of the reference scores one. */
  lemma OneMeansCopy(sqrt: real -> real, s: Signals, lag: int, count: int, stride: int)
    requires IsSqrt(sqrt) && Score(sqrt, s, lag, count, stride) == Some(1.0)
    ensures HoldsCopy(s, lag, count, stride)
  {
    hide Dot, Samples, Scaled, ReferenceSounds, Dependent, Multiple, Score, HoldsCopy;
    ScoreOfSamples(sqrt, s, lag, count, stride);
    var step := if stride > 1 then stride else 1;
    var pairs := Samples(s, lag, 0, count, step);
    var u, v := Left(pairs), Right(pairs);
    NormalisedBound(sqrt, pairs);
    ScoreIsCosine(sqrt, s, lag, count, stride);
    ReferenceEnergy(s, lag, count, step);
    var x, y :| Dependent(u, v, x, y);
    var c := MultipleOf(u, v, x, y);
    ScaledSamples(s, lag, count, step, c);
    MakesCopy(s, lag, count, stride, c);
  }

  /** A lag scores one if and only if the capture holds a copy of the reference moved by it. */
  lemma ScoresOneIffCopy(sqrt: real -> real, s: Signals, lag: int, count: int, stride: int)
    requires IsSqrt(sqrt)
    ensures Score(sqrt, s, lag, count, stride) == Some(1.0) <==> HoldsCopy(s, lag, count, stride)
  {
    hide Score, HoldsCopy;
    if HoldsCopy(s, lag, count, stride) { CopyScoresOne(sqrt, s, lag, count, stride); }
    if Score(sqrt, s, lag, count, stride) == Some(1.0) { OneMeansCopy(sqrt, s, lag, count, stride); }
  }

  // ---- What the search returns

  /** The first lag of the range at which the capture holds a copy, with a score of one. */
  ghost predicate FirstCopy(s: Signals, first: int, last: int, count: int, stride: int, lag: int, score: real) {
    && score == 1.0 && first <= lag <= last && HoldsCopy(s, lag, count, stride)
    && forall x :: first <= x < lag ==> !HoldsCopy(s, x, count, stride)
  }

  lemma ExactFindsCopy(sqrt: real -> real, s: Signals, first: int, last: int, count: int, stride: int,
                       lag: int, score: real)
    requires IsSqrt(sqrt) && ExactOver(ScoreAt(sqrt, s, count, stride), first, last, lag, score)
    ensures (exists k :: first <= k <= last && HoldsCopy(s, k, count, stride)) <==>
            FirstCopy(s, first, last, count, stride, lag, score)
  {
    hide HoldsCopy, Score;
    var f := ScoreAt(sqrt, s, count, stride);
    forall x ensures f(x) == Some(1.0) <==> HoldsCopy(s, x, count, stride) {
      ScoresOneIffCopy(sqrt, s, x, count, stride);
    }
    if k :| first <= k <= last && HoldsCopy(s, k, count, stride) {
      assert f(k) == Some(1.0) && f(lag) == Some(score);
      ScoreBound(sqrt, s, lag, count, stride);
    }
  }

  /**
   The law of the search in one stage: the capture holds the reference, moved by some lag in range, exactly
   when the search returns a score of one, and the lag it returns is the first at which it does.
   */
  lemma SearchFindsCopy(sqrt: real -> real, s: Signals, singleStage: nat, maxLag: int, count: int, stride: int,
                        lag: int, score: real)
    requires IsSqrt(sqrt) && maxLag <= singleStage
    requires BestLag(sqrt, s, singleStage, maxLag, count, stride, lag, score)
    ensures (exists k :: -maxLag <= k <= maxLag && HoldsCopy(s, k, count, stride)) <==>
            FirstCopy(s, -maxLag, maxLag, count, stride, lag, score)
  {
    ExactFindsCopy(sqrt, s, -maxLag, maxLag, count, stride, lag, score);
  }

  lemma OnGrid(first: int, x: int, step: int)
    requires step >= 1 && first < x
    ensures (x - first) % step == 0 <==> first + step <= x && (x - (first + step)) % step == 0
  {
    var d := x - first;
    if d >= step { Divide(d, step, (d - step) / step + 1, (d - step) % step); }
  }

  /** The lags scanned are every step-th of the range, from its first on. */
  lemma {:induction false} RangeIsGrid(first: int, last: int, step: int, x: int)
    requires step >= 1
    ensures x in LagRange(first, last, step) <==> first <= x <= last && (x - first) % step == 0
    decreases last - first
  {
    if first > last {
    } else {
      RangeIsGrid(first + step, last, step, x);
      if first < x { OnGrid(first, x, step); }
    }
  }

  /** The coarse winner scores at least as well as every lag of the coarse grid, and better than those before it. */
  lemma CoarseWinnerIsBest(sqrt: real -> real, s: Signals, maxLag: int, count: int, stride: int,
                           coarseLag: int, coarse: Option<real>, lag: int, score: real, x: int)
    requires IsSqrt(sqrt) && TwoStage(sqrt, s, maxLag, count, stride, coarseLag, coarse, lag, score)
    requires -maxLag <= x <= maxLag && (x + maxLag) % Max(8, maxLag / 2048) == 0
    requires Score(sqrt, s, x, count, Max(stride, Max(8, maxLag / 2048))).Some?
    ensures var step := Max(8, maxLag / 2048);
      && -maxLag <= coarseLag <= maxLag && (coarseLag + maxLag) % step == 0
      && coarse.Some? && Score(sqrt, s, coarseLag, count, Max(stride, step)) == coarse
      && Score(sqrt, s, x, count, Max(stride, step)).value <= coarse.value
      && (x < coarseLag ==> Score(sqrt, s, x, count, Max(stride, step)).value < coarse.value)
  {
    hide Score, LagRange, ExactOver;
    var step := Max(8, maxLag / 2048);
    var f := ScoreAt(sqrt, s, count, Max(stride, step));
    assert f(x) == Score(sqrt, s, x, count, Max(stride, step));
    assert f(coarseLag) == Score(sqrt, s, coarseLag, count, Max(stride, step));
    RangeIsGrid(-maxLag, maxLag, step, x);
    RangeIsGrid(-maxLag, maxLag, step, coarseLag);
  }

  /** In two stages the same holds of the lags within two coarse steps of the coarse winner. */
  lemma FineStageFindsCopy(sqrt: real -> real, s: Signals, maxLag: int, count: int, stride: int,
                           coarseLag: int, coarse: Option<real>, lag: int, score: real)
    requires IsSqrt(sqrt) && TwoStage(sqrt, s, maxLag, count, stride, coarseLag, coarse, lag, score)
    ensures var radius := 2 * Max(8, maxLag / 2048);
      var first, last := Max(-maxLag, coarseLag - radius), Min(maxLag, coarseLag + radius);
      (exists k :: first <= k <= last && HoldsCopy(s, k, count, stride)) <==>
      FirstCopy(s, first, last, count, stride, lag, score)
  {
    hide ExactOver, FirstCopy, HoldsCopy, FirstMaximum, LagRange, ScoreAt;
    var radius := 2 * Max(8, maxLag / 2048);
    ExactFindsCopy(sqrt, s, Max(-maxLag, coarseLag - radius), Min(maxLag, coarseLag + radius), count, stride,
                   lag, score);
  }
}

/**
 The two-input least-squares fit of scripts/analyze-soundcheck-linear-matrix.py and the C++ matrix of
 tools/audiophile_wav_analysis.cpp, over the reals.
 */
module LeastSquares {
  import opened Numbers
  import opened Wrappers

  type Pair = (real, real)

  // ---- Sums of products

  /** The sum of the first n products. */
  function DotTo(u: seq<real>, v: seq<real>, n: nat): real
    requires n <= |u| && n <= |v|
  {
    if n == 0 then 0.0 else DotTo(u, v, n - 1) + u[n - 1] * v[n - 1]
  }

  lemma {:induction false} DotToPrefix(u: seq<real>, v: seq<real>, u': seq<real>, v': seq<real>, n: nat)
    requires n <= |u| <= |u'| && n <= |v| <= |v'| && u <= u' && v <= v'
    ensures DotTo(u, v, n) == DotTo(u', v', n)
  {
    if n == 0 {
    } else {
      DotToPrefix(u, v, u', v', n - 1);
      assert u[n - 1] == u'[n - 1] && v[n - 1] == v'[n - 1];
    }
  }

  /** dot over zip: the shorter sequence ends the sum. */
  function Dot(u: seq<real>, v: seq<real>): real {
    DotTo(u, v, if |u| <= |v| then |u| else |v|)
  }

  /** No products sum to zero, one more pair adds its product, and what the longer sequence has over is left out. */
  lemma {:induction false} DotLaws(u: seq<real>, v: seq<real>, x: real, y: real, more: seq<real>)
    requires |u| == |v|
    ensures Dot([], []) == 0.0
    ensures Dot(u + [x], v + [y]) == Dot(u, v) + x * y
    ensures Dot(u + more, v) == Dot(u, v) == Dot(u, v + more)
  {
    DotToPrefix(u, v, u + [x], v + [y], |u|);
    DotToPrefix(u, v, u + more, v, |u|);
    DotToPrefix(u, v, u, v + more, |u|);
  }

  function Mix(x: real, l: seq<real>, y: real, r: seq<real>): seq<real>
    requires |l| == |r|
  {
    seq<real>(|l|, i requires 0 <= i < |l| => x * l[i] + y * r[i])
  }

  function Minus(g: seq<real>, p: seq<real>): seq<real>
    requires |g| == |p|
  {
    seq<real>(|g|, i requires 0 <= i < |g| => g[i] - p[i])
  }

  // ---- The 2x2 normal equations

  const DETERMINANT_GUARD := 0.000000000000000001

  function Abs(x: real): real { if x < 0.0 then -x else x }

  function Determinant(a: real, b: real, d: real): real { a * d - b * b }

  /** x*x*a + 2*x*y*b + y*y*d, the energy of the mix whose Gram matrix is (a b; b d). */
  function Form(a: real, b: real, d: real, x: real, y: real): real {
    x * x * a + 2.0 * (x * y * b) + y * y * d
  }

  ghost predicate IsSqrt(sqrt: real -> real) {
    forall x: real :: x >= 0.0 ==> sqrt(x) >= 0.0 && sqrt(x) * sqrt(x) == x
  }

  /** None stands for infinity. */
  function GramCondition(sqrt: real -> real, a: real, b: real, d: real): Option<real> {
    var trace := a + d;
    var determinant := Determinant(a, b, d);
    if determinant <= 0.0 then None
    else
      var disc := trace * trace - 4.0 * determinant;
      var root := sqrt(if disc > 0.0 then disc else 0.0);
      var low := 0.5 * (trace - root);
      var high := 0.5 * (trace + root);
      if low <= 0.0 then None else Some(high / low)
  }

  lemma Quotients(p: real, a: real, q: real, b: real, det: real)
    requires det != 0.0
    ensures p / det * a + q / det * b == (p * a + q * b) / det
  {
    var x, y := p / det, q / det;
    assert x * det == p && y * det == q;
    assert (x * a + y * b) * det == (x * det) * a + (y * det) * b;
    var z := (p * a + q * b) / det;
    assert z * det == p * a + q * b;
    assert (x * a + y * b - z) * det == 0.0;
  }

  lemma SolvesNormalEquations(a: real, b: real, d: real, u: real, v: real)
    requires Determinant(a, b, d) != 0.0
    ensures var det := Determinant(a, b, d);
      var x, y := (u * d - v * b) / det, (v * a - u * b) / det;
      x * a + y * b == u && x * b + y * d == v
  {
    var det := Determinant(a, b, d);
    var p, q := u * d - v * b, v * a - u * b;
    Quotients(p, a, q, b, det);
    Quotients(p, b, q, d, det);
    assert p * a + q * b == u * det;
    assert p * b + q * d == v * det;
    assert (u * det) / det == u && (v * det) / det == v;
  }

  /** The two quotients solve the normal equations. */
  function Cramer(a: real, b: real, d: real, u: real, v: real): (s: (real, real))
    requires Determinant(a, b, d) != 0.0
    ensures s.0 * a + s.1 * b == u && s.0 * b + s.1 * d == v
  {
    var determinant := Determinant(a, b, d);
    SolvesNormalEquations(a, b, d, u, v);
    ((u * d - v * b) / determinant, (v * a - u * b) / determinant)
  }

  datatype Fit = Fit(x: real, y: real, condition: Option<real>)

  function SolveTwoInputFit(sqrt: real -> real, l: seq<real>, r: seq<real>, g: seq<real>): Fit {
    var ll, lr, rr, lg, rg := Dot(l, l), Dot(l, r), Dot(r, r), Dot(l, g), Dot(r, g);
    var determinant := Determinant(ll, lr, rr);
    if Abs(determinant) <= DETERMINANT_GUARD then Fit(0.0, 0.0, None)
    else
      var s := Cramer(ll, lr, rr, lg, rg);
      Fit(s.0, s.1, GramCondition(sqrt, ll, lr, rr))
  }

  /** The squared error of the prediction x*l + y*r. */
  function Error(l: seq<real>, r: seq<real>, g: seq<real>, x: real, y: real): real
    requires |l| == |r| == |g|
  {
    var e := Minus(g, Mix(x, l, y, r));
    Dot(e, e)
  }

  function GramDeterminant(l: seq<real>, r: seq<real>): real {
    Determinant(Dot(l, l), Dot(l, r), Dot(r, r))
  }

  // ---- Signs

  lemma ProductSign(c: real, x: real)
    requires c > 0.0
    ensures x < 0.0 ==> c * x < 0.0
    ensures x > 0.0 ==> c * x > 0.0
  {
  }

  lemma ZeroProduct(x: real, y: real)
    requires x * y == 0.0
    ensures x == 0.0 || y == 0.0
  {
    if x > 0.0 { ProductSign(x, y); }
    if x < 0.0 { assert (-x) * y == 0.0; ProductSign(-x, y); }
  }

  lemma SquareSign(x: real)
    ensures x * x >= 0.0
    ensures x * x == 0.0 ==> x == 0.0
  {
    if x * x == 0.0 { ZeroProduct(x, x); }
  }

  /** On nonnegative numbers squaring keeps the order. */
  lemma SquareOrder(u: real, v: real)
    requires u >= 0.0 && v >= 0.0 && u * u <= v * v
    ensures u <= v
  {
    assert (v - u) * (v + u) >= 0.0;
    if v + u > 0.0 {
      ProductSign(v + u, v - u);
      assert (v + u) * (v - u) == (v - u) * (v + u);
    }
  }

  // ---- Expansions

  lemma {:induction false} MixDotTo(x: real, l: seq<real>, y: real, r: seq<real>, v: seq<real>, n: nat)
    requires |l| == |r| == |v| && n <= |l|
    ensures DotTo(Mix(x, l, y, r), v, n) == x * DotTo(l, v, n) + y * DotTo(r, v, n)
  {
    if n == 0 {
    } else {
      MixDotTo(x, l, y, r, v, n - 1);
      var i := n - 1;
      assert (x * l[i] + y * r[i]) * v[i] == x * (l[i] * v[i]) + y * (r[i] * v[i]);
    }
  }

  lemma {:induction false} DotToSymmetric(u: seq<real>, v: seq<real>, n: nat)
    requires n <= |u| && n <= |v|
    ensures DotTo(u, v, n) == DotTo(v, u, n)
  {
    if n == 0 {
    } else {
      DotToSymmetric(u, v, n - 1);
    }
  }

  lemma {:induction false} MinusDotTo(g: seq<real>, p: seq<real>, v: seq<real>, n: nat)
    requires |g| == |p| == |v| && n <= |g|
    ensures DotTo(Minus(g, p), v, n) == DotTo(g, v, n) - DotTo(p, v, n)
  {
    if n == 0 {
    } else {
      MinusDotTo(g, p, v, n - 1);
      var i := n - 1;
      assert (g[i] - p[i]) * v[i] == g[i] * v[i] - p[i] * v[i];
    }
  }

  lemma {:induction false} SquaresNonnegative(u: seq<real>, n: nat)
    requires n <= |u|
    ensures DotTo(u, u, n) >= 0.0
    ensures DotTo(u, u, n) == 0.0 ==> forall i :: 0 <= i < n ==> u[i] == 0.0
  {
    if n == 0 {
    } else {
      SquaresNonnegative(u, n - 1);
      SquareSign(u[n - 1]);
      if DotTo(u, u, n) == 0.0 { assert DotTo(u, u, n - 1) == 0.0 && u[n - 1] == 0.0; }
    }
  }

  lemma FormAsProducts(a: real, b: real, d: real, x: real, y: real)
    ensures Form(a, b, d, x, y) == x * (x * a + y * b) + y * (x * b + y * d)
  {
  }

  /** The energy of a mix is the Gram form of its coefficients, so the form is never negative. */
  lemma MixEnergy(l: seq<real>, r: seq<real>, x: real, y: real)
    requires |l| == |r|
    ensures var p := Mix(x, l, y, r);
      Dot(p, p) == Form(Dot(l, l), Dot(l, r), Dot(r, r), x, y) >= 0.0
    ensures Form(Dot(l, l), Dot(l, r), Dot(r, r), x, y) == 0.0 ==>
              forall i :: 0 <= i < |l| ==> Mix(x, l, y, r)[i] == 0.0
  {
    var n := |l|;
    var p := Mix(x, l, y, r);
    MixDotTo(x, l, y, r, p, n);
    DotToSymmetric(l, p, n);
    DotToSymmetric(r, p, n);
    MixDotTo(x, l, y, r, l, n);
    MixDotTo(x, l, y, r, r, n);
    DotToSymmetric(l, r, n);
    SquaresNonnegative(p, n);
    var ll, lr, rr := Dot(l, l), Dot(l, r), Dot(r, r);
    assert Dot(p, p) == x * (x * ll + y * lr) + y * (x * lr + y * rr);
    FormAsProducts(ll, lr, rr, x, y);
  }

  lemma ResidualDot(l: seq<real>, r: seq<real>, g: seq<real>, x: real, y: real, v: seq<real>)
    requires |l| == |r| == |g| == |v|
    ensures Dot(v, Minus(g, Mix(x, l, y, r))) == Dot(v, g) - (x * Dot(l, v) + y * Dot(r, v))
  {
    var p := Mix(x, l, y, r);
    DotToSymmetric(v, Minus(g, p), |l|);
    MinusDotTo(g, p, v, |l|);
    MixDotTo(x, l, y, r, v, |l|);
    DotToSymmetric(g, v, |l|);
  }

  /** The dot product of either input with the residual. */
  lemma ResidualDots(l: seq<real>, r: seq<real>, g: seq<real>, x: real, y: real)
    requires |l| == |r| == |g|
    ensures var e := Minus(g, Mix(x, l, y, r));
      && Dot(l, e) == Dot(l, g) - (x * Dot(l, l) + y * Dot(l, r))
      && Dot(r, e) == Dot(r, g) - (x * Dot(l, r) + y * Dot(r, r))
      && Dot(g, e) == Dot(g, g) - (x * Dot(l, g) + y * Dot(r, g))
  {
    hide DotTo, Mix, Minus;
    var n := |l|;
    ResidualDot(l, r, g, x, y, l);
    ResidualDot(l, r, g, x, y, r);
    ResidualDot(l, r, g, x, y, g);
    DotToSymmetric(l, r, n);
  }

  function ResidualOf(l: seq<real>, r: seq<real>, g: seq<real>, x: real, y: real): (e: seq<real>)
    requires |l| == |r| == |g|
    ensures |e| == |g|
  {
    Minus(g, Mix(x, l, y, r))
  }

  lemma ErrorDots(l: seq<real>, r: seq<real>, g: seq<real>, x: real, y: real)
    requires |l| == |r| == |g|
    ensures var e := Minus(g, Mix(x, l, y, r));
      Error(l, r, g, x, y) == Dot(g, e) - (x * Dot(l, e) + y * Dot(r, e))
  {
    var p := Mix(x, l, y, r);
    MinusDotTo(g, p, Minus(g, p), |l|);
    MixDotTo(x, l, y, r, Minus(g, p), |l|);
  }

  lemma ErrorPolynomial(
    ll: real, lr: real, rr: real, lg: real, rg: real, le: real, re: real, x: real, y: real)
    requires le == lg - (x * ll + y * lr) && re == rg - (x * lr + y * rr)
    ensures x * le + y * re == x * lg + y * rg - Form(ll, lr, rr, x, y)
  {
  }

  lemma ErrorExpands(l: seq<real>, r: seq<real>, g: seq<real>, x: real, y: real)
    requires |l| == |r| == |g|
    ensures Error(l, r, g, x, y) ==
            Dot(g, g) - 2.0 * (x * Dot(l, g) + y * Dot(r, g)) + Form(Dot(l, l), Dot(l, r), Dot(r, r), x, y)
  {
    hide DotTo, Mix, Minus;
    var e := ResidualOf(l, r, g, x, y);
    ErrorDots(l, r, g, x, y);
    ResidualDots(l, r, g, x, y);
    ErrorPolynomial(Dot(l, l), Dot(l, r), Dot(r, r), Dot(l, g), Dot(r, g), Dot(l, e), Dot(r, e), x, y);
  }

  // ---- The Gram determinant

  /** A form that is nowhere negative has a nonnegative determinant (the Cauchy-Schwarz inequality). */
  lemma NonnegativeFormDeterminant(a: real, b: real, d: real)
    requires forall x, y :: Form(a, b, d, x, y) >= 0.0
    ensures Determinant(a, b, d) >= 0.0 && a >= 0.0 && d >= 0.0
  {
    assert Form(a, b, d, 1.0, 0.0) == a;
    assert Form(a, b, d, 0.0, 1.0) == d;
    if a > 0.0 {
      assert Form(a, b, d, -b, a) == a * Determinant(a, b, d);
      ProductSign(a, Determinant(a, b, d));
    } else {
      var x := if b == 0.0 then 0.0 else -(d + 1.0) / (2.0 * b);
      assert b != 0.0 ==> 2.0 * (x * 1.0 * b) == -(d + 1.0);
      assert a == 0.0 && Form(a, b, d, x, 1.0) == 2.0 * (x * 1.0 * b) + d;
    }
  }

  lemma GramDeterminantNonnegative(l: seq<real>, r: seq<real>)
    requires |l| == |r|
    ensures GramDeterminant(l, r) >= 0.0 && Dot(l, l) >= 0.0 && Dot(r, r) >= 0.0
  {
    forall x, y ensures Form(Dot(l, l), Dot(l, r), Dot(r, r), x, y) >= 0.0 { MixEnergy(l, r, x, y); }
    NonnegativeFormDeterminant(Dot(l, l), Dot(l, r), Dot(r, r));
  }

  /** x*l + y*r vanishes everywhere although x and y do not both. */
  ghost predicate Dependent(l: seq<real>, r: seq<real>, x: real, y: real)
    requires |l| == |r|
  {
    (x != 0.0 || y != 0.0) && forall i :: 0 <= i < |l| ==> Mix(x, l, y, r)[i] == 0.0
  }

  lemma {:induction false} ZeroDots(z: seq<real>, v: seq<real>, n: nat)
    requires n <= |z| && n <= |v| && forall i :: 0 <= i < n ==> z[i] == 0.0
    ensures DotTo(z, v, n) == 0.0
  {
    if n == 0 {
    } else {
      ZeroDots(z, v, n - 1);
    }
  }

  lemma DependentRows(a: real, b: real, d: real, x: real, y: real)
    requires x * a + y * b == 0.0 && x * b + y * d == 0.0 && (x != 0.0 || y != 0.0)
    ensures Determinant(a, b, d) == 0.0
  {
    var det := Determinant(a, b, d);
    assert x * det == d * (x * a + y * b) - b * (x * b + y * d);
    assert y * det == a * (x * b + y * d) - b * (x * a + y * b);
  }

  /** The determinant is zero exactly when the two inputs are linearly dependent. */
  lemma SingularIffDependent(l: seq<real>, r: seq<real>)
    requires |l| == |r|
    ensures GramDeterminant(l, r) == 0.0 <==> exists x, y :: Dependent(l, r, x, y)
  {
    var ll, lr, rr := Dot(l, l), Dot(l, r), Dot(r, r);
    if GramDeterminant(l, r) == 0.0 {
      var x, y := if ll == 0.0 then 1.0 else -lr, if ll == 0.0 then 0.0 else ll;
      assert Form(ll, lr, rr, -lr, ll) == ll * Determinant(ll, lr, rr);
      assert Form(ll, lr, rr, 1.0, 0.0) == ll;
      MixEnergy(l, r, x, y);
      assert Dependent(l, r, x, y);
    }
    if x, y :| Dependent(l, r, x, y) {
      var zero := Mix(x, l, y, r);
      ZeroDots(zero, l, |l|);
      ZeroDots(zero, r, |l|);
      MixDotTo(x, l, y, r, l, |l|);
      MixDotTo(x, l, y, r, r, |l|);
      DotToSymmetric(l, r, |l|);
      DependentRows(ll, lr, rr, x, y);
    }
  }

  // ---- What the fit achieves

  ghost predicate GuardPasses(l: seq<real>, r: seq<real>) {
    Abs(GramDeterminant(l, r)) > DETERMINANT_GUARD
  }

  ghost predicate Solves(l: seq<real>, r: seq<real>, g: seq<real>, x: real, y: real) {
    x * Dot(l, l) + y * Dot(l, r) == Dot(l, g) && x * Dot(l, r) + y * Dot(r, r) == Dot(r, g)
  }

  lemma SolutionSplitsEnergy(l: seq<real>, r: seq<real>, g: seq<real>, x: real, y: real)
    requires |l| == |r| == |g| && Solves(l, r, g, x, y)
    ensures var p := Mix(x, l, y, r);
      var e := Minus(g, p);
      Dot(l, e) == 0.0 && Dot(r, e) == 0.0 && Dot(g, g) == Dot(p, p) + Dot(e, e)
  {
    hide DotTo, Mix, Minus;
    ResidualDots(l, r, g, x, y);
    ErrorExpands(l, r, g, x, y);
    MixEnergy(l, r, x, y);
    FormAsProducts(Dot(l, l), Dot(l, r), Dot(r, r), x, y);
    assert x * (x * Dot(l, l) + y * Dot(l, r)) == x * Dot(l, g);
    assert y * (x * Dot(l, r) + y * Dot(r, r)) == y * Dot(r, g);
  }

  lemma FormOfSum(a: real, b: real, d: real, x: real, y: real, p: real, q: real)
    ensures Form(a, b, d, x + p, y + q) ==
            Form(a, b, d, x, y) + 2.0 * (p * (x * a + y * b) + q * (x * b + y * d)) + Form(a, b, d, p, q)
  {
  }

  lemma CompletesSquare(a: real, b: real, d: real, u: real, v: real, fx: real, fy: real, x: real, y: real)
    requires fx * a + fy * b == u && fx * b + fy * d == v
    ensures Form(a, b, d, x, y) - 2.0 * (x * u + y * v) ==
            Form(a, b, d, fx, fy) - 2.0 * (fx * u + fy * v) + Form(a, b, d, x - fx, y - fy)
  {
    var p, q := x - fx, y - fy;
    assert x == fx + p && y == fy + q;
    FormOfSum(a, b, d, fx, fy, p, q);
    assert (fx + p) * u == fx * u + p * u && (fy + q) * v == fy * v + q * v;
  }

  lemma SolutionIsBest(l: seq<real>, r: seq<real>, g: seq<real>, fx: real, fy: real, x: real, y: real)
    requires |l| == |r| == |g| && Solves(l, r, g, fx, fy)
    requires GramDeterminant(l, r) != 0.0 && (x, y) != (fx, fy)
    ensures Error(l, r, g, fx, fy) < Error(l, r, g, x, y)
  {
    hide DotTo, Mix, Minus;
    ErrorExpands(l, r, g, fx, fy);
    ErrorExpands(l, r, g, x, y);
    CompletesSquare(Dot(l, l), Dot(l, r), Dot(r, r), Dot(l, g), Dot(r, g), fx, fy, x, y);
    MixEnergy(l, r, x - fx, y - fy);
    SingularIffDependent(l, r);
    assert !Dependent(l, r, x - fx, y - fy);
  }

  // ---- The condition number

  function Root(sqrt: real -> real, a: real, b: real, d: real): real {
    sqrt((a - d) * (a - d) + 4.0 * (b * b))
  }

  function Low(sqrt: real -> real, a: real, b: real, d: real): real { 0.5 * (a + d - Root(sqrt, a, b, d)) }
  function High(sqrt: real -> real, a: real, b: real, d: real): real { 0.5 * (a + d + Root(sqrt, a, b, d)) }

  lemma RootDominates(root: real, t: real, b: real)
    requires root >= 0.0 && root * root == t * t + 4.0 * (b * b)
    ensures -root <= t <= root
  {
    SquareSign(b);
    assert Abs(t) * Abs(t) == t * t;
    SquareOrder(Abs(t), root);
  }

  lemma Eigenvalues(sqrt: real -> real, a: real, b: real, d: real)
    requires IsSqrt(sqrt)
    ensures var low, high := Low(sqrt, a, b, d), High(sqrt, a, b, d);
      && low <= a <= high && low <= d <= high
      && low + high == a + d
      && low * high == Determinant(a, b, d)
      && (a - low) * (d - low) == b * b
      && (high - a) * (high - d) == b * b
  {
    var root := Root(sqrt, a, b, d);
    var low, high := Low(sqrt, a, b, d), High(sqrt, a, b, d);
    var disc := (a - d) * (a - d) + 4.0 * (b * b);
    SquareSign(a - d);
    SquareSign(b);
    assert root >= 0.0 && root * root == disc;
    assert low * high == 0.25 * ((a + d) * (a + d) - root * root);
    assert (a + d) * (a + d) - disc == 4.0 * (a * d - b * b);
    assert (a - low) * (d - low) == a * d - low * (a + d) + low * low;
    assert low * (low + high) == low * low + low * high;
    assert high * (low + high) == high * high + low * high;
    assert (high - a) * (high - d) == a * d - high * (a + d) + high * high;
    RootDominates(root, a - d, b);
  }

  lemma ShiftedForm(a: real, b: real, d: real, t: real, x: real, y: real)
    ensures Form(a - t, b, d - t, x, y) == Form(a, b, d, x, y) - t * (x * x + y * y)
  {
  }

  lemma ScaledForm(a: real, b: real, d: real, x: real, y: real)
    ensures a * Form(a, b, d, x, y) == (a * x + b * y) * (a * x + b * y) + y * y * Determinant(a, b, d)
  {
  }

  lemma SemidefiniteForm(a: real, b: real, d: real, x: real, y: real)
    requires a >= 0.0 && d >= 0.0 && a * d == b * b
    ensures Form(a, b, d, x, y) >= 0.0
  {
    if a == 0.0 {
      SquareSign(b);
      SquareSign(y);
      assert a * d == 0.0 && b == 0.0;
      assert Form(0.0, 0.0, d, x, y) == y * y * d;
      if d > 0.0 { ProductSign(d, y * y); }
    } else {
      SquareSign(a * x + b * y);
      ScaledForm(a, b, d, x, y);
      assert Determinant(a, b, d) == 0.0;
      ProductSign(a, Form(a, b, d, x, y));
    }
  }

  lemma FormBounds(a: real, b: real, d: real, low: real, high: real, x: real, y: real)
    requires low <= a <= high && low <= d <= high
    requires (a - low) * (d - low) == b * b && (high - a) * (high - d) == b * b
    ensures low * (x * x + y * y) <= Form(a, b, d, x, y) <= high * (x * x + y * y)
  {
    SemidefiniteForm(a - low, b, d - low, x, y);
    SemidefiniteForm(high - a, -b, high - d, x, y);
    ShiftedForm(a, b, d, low, x, y);
    ShiftedForm(-a, -b, -d, -high, x, y);
    assert Form(-a, -b, -d, x, y) == -Form(a, b, d, x, y);
    assert -high * (x * x + y * y) == -(high * (x * x + y * y));
  }

  /** Every mix has an energy between low and high times the energy of its coefficients. */
  lemma GainBounds(sqrt: real -> real, a: real, b: real, d: real, x: real, y: real)
    requires IsSqrt(sqrt)
    ensures Low(sqrt, a, b, d) * (x * x + y * y) <= Form(a, b, d, x, y) <= High(sqrt, a, b, d) * (x * x + y * y)
  {
    Eigenvalues(sqrt, a, b, d);
    FormBounds(a, b, d, Low(sqrt, a, b, d), High(sqrt, a, b, d), x, y);
  }

  /** This gain is reached by some nonzero mix. */
  ghost predicate Reached(a: real, b: real, d: real, gain: real) {
    exists x, y :: (x != 0.0 || y != 0.0) && Form(a, b, d, x, y) == gain * (x * x + y * y)
  }

  lemma EigenvalueReached(a: real, b: real, d: real, gain: real)
    requires (a - gain) * (d - gain) == b * b
    ensures Reached(a, b, d, gain)
  {
    if b == 0.0 {
      if a == gain {
        assert Form(a, b, d, 1.0, 0.0) == gain * (1.0 * 1.0 + 0.0 * 0.0);
      } else {
        ZeroProduct(a - gain, d - gain);
        assert Form(a, b, d, 0.0, 1.0) == gain * (0.0 * 0.0 + 1.0 * 1.0);
      }
    } else {
      var t := gain - a;
      assert t * (gain - d) == b * b;
      assert Form(a, b, d, b, t) - gain * (b * b + t * t) == t * (b * b) - t * (t * (gain - d));
      assert Form(a, b, d, b, t) == gain * (b * b + t * t);
    }
  }

  lemma RatioAtLeastOne(low: real, high: real)
    requires 0.0 < low <= high
    ensures high / low >= 1.0
  {
    var q := high / low;
    assert q * low == high;
    ProductSign(low, q - 1.0);
    assert low * (q - 1.0) == high - low;
  }

  /**
   For a positive determinant and nonnegative powers the condition number is finite, at least one, and
   the ratio of the largest to the smallest gain any mix reaches.
   */
  lemma ConditionBoundsGain(sqrt: real -> real, a: real, b: real, d: real)
    requires IsSqrt(sqrt) && Determinant(a, b, d) > 0.0 && a >= 0.0 && d >= 0.0
    ensures var low, high := Low(sqrt, a, b, d), High(sqrt, a, b, d);
      && 0.0 < low <= high
      && GramCondition(sqrt, a, b, d) == Some(high / low) && high / low >= 1.0
      && Reached(a, b, d, low) && Reached(a, b, d, high)
      && forall x, y :: low * (x * x + y * y) <= Form(a, b, d, x, y) <= high * (x * x + y * y)
  {
    var low, high := Low(sqrt, a, b, d), High(sqrt, a, b, d);
    Eigenvalues(sqrt, a, b, d);
    assert (low - a) * (low - d) == b * b && (a - high) * (d - high) == b * b by {
      assert (low - a) * (low - d) == (a - low) * (d - low);
      assert (a - high) * (d - high) == (high - a) * (high - d);
    }
    EigenvalueReached(a, b, d, low);
    EigenvalueReached(a, b, d, high);
    if low < 0.0 { ProductSign(-low, high); }
    RatioAtLeastOne(low, high);
    var trace := a + d;
    assert trace * trace - 4.0 * Determinant(a, b, d) == (a - d) * (a - d) + 4.0 * (b * b);
    SquareSign(a - d);
    SquareSign(b);
    forall x, y ensures low * (x * x + y * y) <= Form(a, b, d, x, y) <= high * (x * x + y * y) {
      GainBounds(sqrt, a, b, d, x, y);
    }
  }

  /** The energy of this mix is so many times that of its coefficients. */
  ghost predicate HasGain(l: seq<real>, r: seq<real>, x: real, y: real, gain: real)
    requires |l| == |r|
  {
    (x != 0.0 || y != 0.0) && Dot(Mix(x, l, y, r), Mix(x, l, y, r)) == gain * (x * x + y * y)
  }

  /** The smallest and the largest gain of any mix of the two inputs, both reached. */
  ghost predicate ExtremeGains(l: seq<real>, r: seq<real>, low: real, high: real)
    requires |l| == |r|
  {
    && (forall x, y :: low * (x * x + y * y) <= Dot(Mix(x, l, y, r), Mix(x, l, y, r)) <= high * (x * x + y * y))
    && (exists x, y :: HasGain(l, r, x, y, low))
    && (exists x, y :: HasGain(l, r, x, y, high))
  }

  lemma GainReached(l: seq<real>, r: seq<real>, gain: real)
    requires |l| == |r| && Reached(Dot(l, l), Dot(l, r), Dot(r, r), gain)
    ensures exists x, y :: HasGain(l, r, x, y, gain)
  {
    hide Dot, Mix, Form;
    var x, y :| (x != 0.0 || y != 0.0) && Form(Dot(l, l), Dot(l, r), Dot(r, r), x, y) == gain * (x * x + y * y);
    MixEnergy(l, r, x, y);
    assert HasGain(l, r, x, y, gain);
  }

  /** The condition number of independent inputs is the ratio of the largest to the smallest gain. */
  lemma ConditionIsGainRatio(sqrt: real -> real, l: seq<real>, r: seq<real>)
    requires |l| == |r| && IsSqrt(sqrt) && GramDeterminant(l, r) > 0.0
    ensures var low, high := Low(sqrt, Dot(l, l), Dot(l, r), Dot(r, r)), High(sqrt, Dot(l, l), Dot(l, r), Dot(r, r));
      && 0.0 < low <= high && ExtremeGains(l, r, low, high)
      && GramCondition(sqrt, Dot(l, l), Dot(l, r), Dot(r, r)) == Some(high / low)
  {
    hide Dot, Mix, Form, Reached, GramCondition, Low, High;
    var a, b, d := Dot(l, l), Dot(l, r), Dot(r, r);
    GramDeterminantNonnegative(l, r);
    ConditionBoundsGain(sqrt, a, b, d);
    var low, high := Low(sqrt, a, b, d), High(sqrt, a, b, d);
    GainReached(l, r, low);
    GainReached(l, r, high);
    forall x, y
      ensures low * (x * x + y * y) <= Dot(Mix(x, l, y, r), Mix(x, l, y, r)) <= high * (x * x + y * y)
    {
      MixEnergy(l, r, x, y);
    }
  }

  // ---- What the fit promises

  /**
   Past the determinant guard the residual is orthogonal to both inputs, every other pair of coefficients
   has a strictly larger squared error, the energy of the capture is that of prediction plus residual, and
   the condition number is the ratio of the largest to the smallest gain of any mix.
   */
  lemma FitIsBest(sqrt: real -> real, l: seq<real>, r: seq<real>, g: seq<real>)
    requires |l| == |r| == |g| && IsSqrt(sqrt)
    requires Dot(l, l) * Dot(r, r) - Dot(l, r) * Dot(l, r) > 0.000000000000000001
    ensures var f := SolveTwoInputFit(sqrt, l, r, g);
      var p := Mix(f.x, l, f.y, r);
      var e := Minus(g, p);
      && Dot(l, e) == 0.0 && Dot(r, e) == 0.0
      && Dot(g, g) == Dot(p, p) + Dot(e, e)
      && (forall x, y :: (x, y) != (f.x, f.y) ==> Error(l, r, g, f.x, f.y) < Error(l, r, g, x, y))
      && exists low, high :: 0.0 < low <= high && ExtremeGains(l, r, low, high) && f.condition == Some(high / low)
  {
    hide Dot, Mix, Minus, Error, GramCondition, ExtremeGains, Low, High;
    var f := SolveTwoInputFit(sqrt, l, r, g);
    SolutionSplitsEnergy(l, r, g, f.x, f.y);
    ConditionIsGainRatio(sqrt, l, r);
    forall x, y | (x, y) != (f.x, f.y) ensures Error(l, r, g, f.x, f.y) < Error(l, r, g, x, y) {
      SolutionIsBest(l, r, g, f.x, f.y, x, y);
    }
  }

  /** Otherwise both coefficients are zero and the condition number is infinite, as always for dependent inputs. */
  lemma GuardStopsFit(sqrt: real -> real, l: seq<real>, r: seq<real>, g: seq<real>)
    requires |l| == |r| == |g| && IsSqrt(sqrt)
    ensures Dot(l, l) * Dot(r, r) - Dot(l, r) * Dot(l, r) <= 0.000000000000000001 <==>
            SolveTwoInputFit(sqrt, l, r, g).condition.None?
    ensures Dot(l, l) * Dot(r, r) - Dot(l, r) * Dot(l, r) <= 0.000000000000000001 ==>
            SolveTwoInputFit(sqrt, l, r, g) == Fit(0.0, 0.0, None)
    ensures (exists x, y :: Dependent(l, r, x, y)) ==> SolveTwoInputFit(sqrt, l, r, g) == Fit(0.0, 0.0, None)
  {
    hide Dot, Dependent, GramCondition, Low, High;
    SingularIffDependent(l, r);
    GramDeterminantNonnegative(l, r);
    if GuardPasses(l, r) { ConditionIsGainRatio(sqrt, l, r); }
  }

  // ---- The whole matrix

  datatype Matrix = Matrix(m00: real, m01: real, m10: real, m11: real)

  function Left(pairs: seq<Pair>): (channel: seq<real>)
    ensures |channel| == |pairs| && forall i :: 0 <= i < |pairs| ==> channel[i] == pairs[i].0
  {
    seq<real>(|pairs|, i requires 0 <= i < |pairs| => pairs[i].0)
  }

  function Right(pairs: seq<Pair>): (channel: seq<real>)
    ensures |channel| == |pairs| && forall i :: 0 <= i < |pairs| ==> channel[i] == pairs[i].1
  {
    seq<real>(|pairs|, i requires 0 <= i < |pairs| => pairs[i].1)
  }

  /** Two aligned windows of the same length, as fit_matrix receives them. */
  function ClampPair(reference: seq<Pair>, got: seq<Pair>, refStart: int, gotStart: int, frames: int)
    : (w: (seq<Pair>, seq<Pair>))
    ensures var skipped := Max(0, Max(-refStart, -gotStart));
      var n := Max(0, Min(frames, Min(|reference| - refStart, |got| - gotStart) - skipped));
      |w.0| == |w.1| == n &&
      (n > 0 ==>
         && w.0 == reference[refStart + skipped..refStart + skipped + n]
         && w.1 == got[gotStart + skipped..gotStart + skipped + n])
  {
    var g := if refStart < 0 then gotStart - refStart else gotStart;
    var r := if refStart < 0 then 0 else refStart;
    var r' := if g < 0 then r - g else r;
    var g' := if g < 0 then 0 else g;
    var usable := Min(frames, Min(|reference| - r', |got| - g'));
    if usable <= 0 then ([], []) else (reference[r'..r' + usable], got[g'..g' + usable])
  }

  /** fit_matrix: row i gives the capture's channel i as a mix of the reference's two. */
  function FitMatrix(sqrt: real -> real, reference: seq<Pair>, got: seq<Pair>): Matrix {
    var l, r := Left(reference), Right(reference);
    var f, g := SolveTwoInputFit(sqrt, l, r, Left(got)), SolveTwoInputFit(sqrt, l, r, Right(got));
    Matrix(f.x, f.y, g.x, g.y)
  }

  /** These coefficients predict g with a smaller squared error than any others. */
  ghost predicate BestFor(l: seq<real>, r: seq<real>, g: seq<real>, x: real, y: real)
    requires |l| == |r| == |g|
  {
    forall x', y' :: (x', y') != (x, y) ==> Error(l, r, g, x, y) < Error(l, r, g, x', y')
  }

  /**
   Each row predicts its channel best, and over both channels the energy of the capture is that of the
   prediction plus that of the residual.
   */
  lemma MatrixSplitsEnergy(sqrt: real -> real, reference: seq<Pair>, got: seq<Pair>)
    requires |reference| == |got| && IsSqrt(sqrt) && GuardPasses(Left(reference), Right(reference))
    ensures var l, r, m := Left(reference), Right(reference), FitMatrix(sqrt, reference, got);
      BestFor(l, r, Left(got), m.m00, m.m01) && BestFor(l, r, Right(got), m.m10, m.m11)
    ensures var l, r, g, h := Left(reference), Right(reference), Left(got), Right(got);
      var m := FitMatrix(sqrt, reference, got);
      var p, q := Mix(m.m00, l, m.m01, r), Mix(m.m10, l, m.m11, r);
      Dot(g, g) + Dot(h, h) == (Dot(p, p) + Dot(q, q)) + (Error(l, r, g, m.m00, m.m01) + Error(l, r, h, m.m10, m.m11))
  {
    hide Dot, Mix, Minus, SolveTwoInputFit, ExtremeGains;
    GramDeterminantNonnegative(Left(reference), Right(reference));
    FitIsBest(sqrt, Left(reference), Right(reference), Left(got));
    FitIsBest(sqrt, Left(reference), Right(reference), Right(got));
  }

  function FitCondition(sqrt: real -> real, reference: seq<Pair>): Option<real> {
    var l, r := Left(reference), Right(reference);
    GramCondition(sqrt, Dot(l, l), Dot(l, r), Dot(r, r))
  }

  lemma CramerIsBest(l: seq<real>, r: seq<real>, g: seq<real>)
    requires |l| == |r| == |g| && GramDeterminant(l, r) != 0.0
    ensures var s := Cramer(Dot(l, l), Dot(l, r), Dot(r, r), Dot(l, g), Dot(r, g)); BestFor(l, r, g, s.0, s.1)
  {
    hide DotTo, Dot, Error;
    var s := Cramer(Dot(l, l), Dot(l, r), Dot(r, r), Dot(l, g), Dot(r, g));
    forall x, y | (x, y) != s ensures Error(l, r, g, s.0, s.1) < Error(l, r, g, x, y) {
      SolutionIsBest(l, r, g, s.0, s.1, x, y);
    }
  }

  const CPP_EPSILON := 0.00000000000000000001

  function Transpose(m: Matrix): Matrix { Matrix(m.m00, m.m10, m.m01, m.m11) }

  lemma CramerAt(a: real, b: real, d: real, u: real, v: real, p: real, q: real)
    requires Determinant(a, b, d) != 0.0
    requires p == u * d - v * b && q == v * a - u * b
    ensures Cramer(a, b, d, u, v) == (p / (a * d - b * b), q / (a * d - b * b))
  {
  }

  /** The second half of stereo_matrix, from the seven sums on. */
  method FromSums(
    sqrt: real -> real, a: real, b: real, d: real, y00: real, y01: real, y10: real, y11: real)
    returns (m: Matrix, condition: Option<real>)
    requires IsSqrt(sqrt)
    ensures Abs(Determinant(a, b, d)) <= CPP_EPSILON ==> m == Matrix(0.0, 0.0, 0.0, 0.0) && condition == None
    ensures Abs(Determinant(a, b, d)) > CPP_EPSILON ==>
              && (m.m00, m.m10) == Cramer(a, b, d, y00, y10)
              && (m.m01, m.m11) == Cramer(a, b, d, y01, y11)
              && condition == (var low := Low(sqrt, a, b, d);
                               if low > CPP_EPSILON then Some(High(sqrt, a, b, d) / low) else None)
  {
    var det := a * d - b * b;
    m, condition := Matrix(0.0, 0.0, 0.0, 0.0), None;
    if Abs(det) <= CPP_EPSILON { return; }
    m := Matrix((d * y00 - b * y10) / det, (d * y01 - b * y11) / det,
                (-b * y00 + a * y10) / det, (-b * y01 + a * y11) / det);
    CramerAt(a, b, d, y00, y10, d * y00 - b * y10, -b * y00 + a * y10);
    CramerAt(a, b, d, y01, y11, d * y01 - b * y11, -b * y01 + a * y11);
    var trace := a + d;
    var square := (a - d) * (a - d) + 4.0 * b * b;
    SquareSign(a - d);
    SquareSign(b);
    assert square == (a - d) * (a - d) + 4.0 * (b * b);
    var disc := sqrt(if square > 0.0 then square else 0.0);
    var low, high := 0.5 * (trace - disc), 0.5 * (trace + disc);
    if low > CPP_EPSILON { condition := Some(high / low); }
  }

  /** The loop of stereo_matrix. */
  method Sums(reference: seq<Pair>, capture: seq<Pair>)
    returns (a: real, b: real, d: real, y00: real, y01: real, y10: real, y11: real)
    requires |reference| == |capture|
    ensures var l, r, g, h := Left(reference), Right(reference), Left(capture), Right(capture);
      && a == Dot(l, l) && b == Dot(l, r) && d == Dot(r, r)
      && y00 == Dot(l, g) && y01 == Dot(l, h) && y10 == Dot(r, g) && y11 == Dot(r, h)
  {
    ghost var l, r, g, h := Left(reference), Right(reference), Left(capture), Right(capture);
    a, b, d := 0.0, 0.0, 0.0;
    y00, y01, y10, y11 := 0.0, 0.0, 0.0, 0.0;
    for index := 0 to |reference|
      invariant a == DotTo(l, l, index) && b == DotTo(l, r, index) && d == DotTo(r, r, index)
      invariant y00 == DotTo(l, g, index) && y01 == DotTo(l, h, index)
      invariant y10 == DotTo(r, g, index) && y11 == DotTo(r, h, index)
    {
      var x, y := reference[index].0, reference[index].1;
      a, b, d := a + x * x, b + x * y, d + y * y;
      y00, y01 := y00 + x * capture[index].0, y01 + x * capture[index].1;
      y10, y11 := y10 + y * capture[index].0, y11 + y * capture[index].1;
    }
  }

  /**
   stereo_matrix. At or below its own, smaller determinant threshold the matrix stays zero and the condition
   number infinite; above it each column predicts its capture channel best, and the condition number is
   finite exactly when the smallest gain exceeds the threshold. Above the Python guard the matrix is the
   transpose of what fit_matrix computes from the same windows, with the same condition number when finite.
   */
  method StereoMatrix(sqrt: real -> real, reference: seq<Pair>, capture: seq<Pair>)
    returns (m: Matrix, condition: Option<real>)
    requires |reference| == |capture| && IsSqrt(sqrt)
    ensures var l, r := Left(reference), Right(reference);
      if Dot(l, l) * Dot(r, r) - Dot(l, r) * Dot(l, r) <= 0.00000000000000000001
      then m == Matrix(0.0, 0.0, 0.0, 0.0) && condition == None
      else
        && BestFor(l, r, Left(capture), m.m00, m.m10) && BestFor(l, r, Right(capture), m.m01, m.m11)
        && exists low, high :: 0.0 < low <= high && ExtremeGains(l, r, low, high)
             && condition == if low > 0.00000000000000000001 then Some(high / low) else None
    ensures GuardPasses(Left(reference), Right(reference)) ==>
              && m == Transpose(FitMatrix(sqrt, reference, capture))
              && (condition.None? || condition == FitCondition(sqrt, reference))
  {
    hide DotTo, Dot, Error, Form, Reached, ExtremeGains;
    ghost var l, r := Left(reference), Right(reference);
    var a, b, d, y00, y01, y10, y11 := Sums(reference, capture);
    m, condition := FromSums(sqrt, a, b, d, y00, y01, y10, y11);
    GramDeterminantNonnegative(l, r);
    if GramDeterminant(l, r) > CPP_EPSILON {
      CramerIsBest(l, r, Left(capture));
      CramerIsBest(l, r, Right(capture));
      ConditionIsGainRatio(sqrt, l, r);
    }
  }
}

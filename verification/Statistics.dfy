/** Exact-real coefficients: product-moment correlation and the least-squares line. */
module Statistics {
  import opened Wrappers

  type Vector = seq<real>

  function Sum(xs: Vector): real {
    if xs == [] then 0.0 else xs[0] + Sum(xs[1..])
  }

  function Dot(xs: Vector, ys: Vector): real
    requires |xs| == |ys|
  {
    if xs == [] then 0.0 else xs[0] * ys[0] + Dot(xs[1..], ys[1..])
  }

  function Mean(xs: Vector): real
    requires xs != []
  {
    Sum(xs) / |xs| as real
  }

  function Deviations(xs: Vector, c: real): (d: Vector)
    ensures |d| == |xs| && forall i :: 0 <= i < |xs| ==> d[i] == xs[i] - c
  {
    seq(|xs|, i requires 0 <= i < |xs| => xs[i] - c)
  }

  function Centred(xs: Vector): (d: Vector)
    requires xs != []
    ensures |d| == |xs|
  {
    Deviations(xs, Mean(xs))
  }

  function Abs(x: real): real {
    if x < 0.0 then -x else x
  }

  function AbsResiduals(xs: Vector, ys: Vector, m: real, c: real): real
    requires |xs| == |ys|
  {
    if xs == [] then 0.0 else Abs(Residual(xs[0], ys[0], m, c)) + AbsResiduals(xs[1..], ys[1..], m, c)
  }

  datatype Line = Line(m: real, c: real, resid: real)

  /** The five sums a fit is made of, and how many points. */
  datatype Sums = Sums(n: real, sx: real, sy: real, sxx: real, sxy: real, syy: real)

  function SumsOf(xs: Vector, ys: Vector): Sums
    requires |xs| == |ys|
  {
    Sums(|xs| as real, Sum(xs), Sum(ys), Dot(xs, xs), Dot(xs, ys), Dot(ys, ys))
  }

  function Denominator(s: Sums): real {
    s.n * s.sxx - s.sx * s.sx
  }

  function Slope(s: Sums): real
    requires Denominator(s) != 0.0
  {
    (s.n * s.sxy - s.sx * s.sy) / Denominator(s)
  }

  function Intercept(s: Sums, m: real): real
    requires s.n != 0.0
  {
    (s.sy - m * s.sx) / s.n
  }

  function LinearFit(xs: Vector, ys: Vector): (r: Option<Line>)
    requires |xs| == |ys|
  {
    var s := SumsOf(xs, ys);
    if |xs| < 2 || Denominator(s) == 0.0 then None
    else
      var m := Slope(s);
      var c := Intercept(s, m);
      Some(Line(m, c, AbsResiduals(xs, ys, m, c) / s.n))
  }

  /** A square root on the reals not below zero. */
  ghost predicate IsRoot(root: real -> real) {
    forall x :: x >= 0.0 ==> root(x) >= 0.0 && root(x) * root(x) == x
  }

  /** Covariance over the product of the two spreads' roots; undefined when a spread is zero. */
  function Ratio(root: real -> real, cov: real, sx: real, sy: real): (r: Option<real>)
    requires IsRoot(root) && sx >= 0.0 && sy >= 0.0
  {
    if sx == 0.0 || sy == 0.0 then None
    else
      RootsMatter(root, sx, sy);
      Some(cov / (root(sx) * root(sy)))
  }

  function Pearson(root: real -> real, xs: Vector, ys: Vector): (r: Option<real>)
    requires |xs| == |ys| && IsRoot(root)
  {
    if |xs| < 2 then None
    else
      var dx, dy := Centred(xs), Centred(ys);
      SquaresArePositive(dx);
      SquaresArePositive(dy);
      Ratio(root, Dot(dx, dy), Dot(dx, dx), Dot(dy, dy))
  }

  lemma RootsMatter(root: real -> real, sx: real, sy: real)
    requires IsRoot(root) && sx > 0.0 && sy > 0.0
    ensures root(sx) > 0.0 && root(sy) > 0.0 && root(sx) * root(sy) != 0.0
    ensures root(sx) * root(sx) == sx && root(sy) * root(sy) == sy
  {
  }

  // ---------- arithmetic ----------

  lemma Positive(n: real, e: real)
    requires n > 0.0 && e >= 0.0
    ensures n * e >= 0.0 && (n * e == 0.0 <==> e == 0.0)
  {
  }

  lemma SignOf(n: real, g: real)
    requires n > 0.0
    ensures n * g >= 0.0 <==> g >= 0.0
    ensures n * g == 0.0 <==> g == 0.0
  {
  }

  lemma Scale(n: real, a: real, b: real)
    requires n > 0.0 && n * a == n * b
    ensures a == b
  {
    assert n * (a - b) == 0.0;
  }

  lemma Distribute(m: real, a: real, b: real)
    ensures m * (a - b) == m * a - m * b
  {
  }

  lemma SquareSign(x: real)
    ensures x * x >= 0.0 && (x * x == 0.0 <==> x == 0.0)
  {
    if x > 0.0 {
      Positive(x, x);
    } else if x < 0.0 {
      Positive(-x, -x);
    }
  }

  function Square(x: real): (s: real)
    ensures s >= 0.0 && (s == 0.0 <==> x == 0.0)
  {
    SquareSign(x);
    x * x
  }

  // ---------- sums of squares ----------

  function Residual(x: real, y: real, m: real, c: real): real {
    y - (m * x + c)
  }

  /** The squared error of a line. */
  function SquaredError(xs: Vector, ys: Vector, m: real, c: real): (e: real)
    requires |xs| == |ys|
  {
    if xs == [] then 0.0
    else Square(Residual(xs[0], ys[0], m, c)) + SquaredError(xs[1..], ys[1..], m, c)
  }

  ghost predicate OnLine(xs: Vector, ys: Vector, m: real, c: real)
    requires |xs| == |ys|
  {
    forall i :: 0 <= i < |xs| ==> ys[i] == m * xs[i] + c
  }

  lemma OnLineStep(xs: Vector, ys: Vector, m: real, c: real)
    requires |xs| == |ys| && xs != []
    ensures OnLine(xs, ys, m, c) <==> ys[0] == m * xs[0] + c && OnLine(xs[1..], ys[1..], m, c)
  {
    if ys[0] == m * xs[0] + c && OnLine(xs[1..], ys[1..], m, c) {
      forall i | 0 <= i < |xs|
        ensures ys[i] == m * xs[i] + c
      {
        assert i > 0 ==> xs[i] == xs[1..][i - 1] && ys[i] == ys[1..][i - 1];
      }
    }
    if OnLine(xs, ys, m, c) {
      forall i | 0 <= i < |xs[1..]|
        ensures ys[1..][i] == m * xs[1..][i] + c
      {
        assert ys[i + 1] == m * xs[i + 1] + c;
      }
    }
  }

  lemma {:induction false} ErrorIsNonNegative(xs: Vector, ys: Vector, m: real, c: real)
    requires |xs| == |ys|
    ensures SquaredError(xs, ys, m, c) >= 0.0
    ensures SquaredError(xs, ys, m, c) == 0.0 <==> OnLine(xs, ys, m, c)
  {
    if xs != [] {
      ErrorIsNonNegative(xs[1..], ys[1..], m, c);
      OnLineStep(xs, ys, m, c);
      hide OnLine;
    }
  }

  /** The error of a line as a polynomial in the sums. */
  function ErrorFormula(s: Sums, m: real, c: real): real {
    s.syy - 2.0 * m * s.sxy - 2.0 * c * s.sy + m * m * s.sxx + 2.0 * m * c * s.sx + s.n * c * c
  }

  function AddPoint(s: Sums, x: real, y: real): Sums {
    Sums(s.n + 1.0, x + s.sx, y + s.sy, x * x + s.sxx, x * y + s.sxy, y * y + s.syy)
  }

  lemma FormulaStep(s: Sums, x: real, y: real, m: real, c: real)
    ensures ErrorFormula(AddPoint(s, x, y), m, c) == Square(Residual(x, y, m, c)) + ErrorFormula(s, m, c)
  {
    var e := m * x + c;
    assert Square(y - e) == y * y - 2.0 * (e * y) + e * e;
    assert e * e == m * m * (x * x) + 2.0 * m * c * x + c * c;
    assert e * y == m * (x * y) + c * y;
    assert m * m * (x * x + s.sxx) == m * m * (x * x) + m * m * s.sxx;
    assert m * (x * y + s.sxy) == m * (x * y) + m * s.sxy;
    assert m * c * (x + s.sx) == m * c * x + m * c * s.sx;
  }

  lemma SumsStep(xs: Vector, ys: Vector)
    requires |xs| == |ys| && xs != []
    ensures SumsOf(xs, ys) == AddPoint(SumsOf(xs[1..], ys[1..]), xs[0], ys[0])
  {
  }

  lemma {:induction false} ErrorExpands(xs: Vector, ys: Vector, m: real, c: real)
    requires |xs| == |ys|
    ensures SquaredError(xs, ys, m, c) == ErrorFormula(SumsOf(xs, ys), m, c)
  {
    hide *;
    if xs == [] {
      NoError(xs, ys, m, c);
    } else {
      SumsStep(xs, ys);
      ErrorStep(xs, ys, m, c);
      FormulaStep(SumsOf(xs[1..], ys[1..]), xs[0], ys[0], m, c);
      ErrorExpands(xs[1..], ys[1..], m, c);
    }
  }

  lemma NoError(xs: Vector, ys: Vector, m: real, c: real)
    requires |xs| == |ys| == 0
    ensures SquaredError(xs, ys, m, c) == ErrorFormula(SumsOf(xs, ys), m, c)
  {
    assert SumsOf(xs, ys) == Sums(0.0, 0.0, 0.0, 0.0, 0.0, 0.0);
  }

  lemma ErrorStep(xs: Vector, ys: Vector, m: real, c: real)
    requires |xs| == |ys| && xs != []
    ensures SquaredError(xs, ys, m, c) == Square(Residual(xs[0], ys[0], m, c)) + SquaredError(xs[1..], ys[1..], m, c)
  {
    hide Square;
  }

  // ---------- the denominator ----------

  ghost predicate IsConstant(xs: Vector) {
    forall i, k :: 0 <= i < |xs| && 0 <= k < |xs| ==> xs[i] == xs[k]
  }

  lemma SpreadFormula(s: Sums)
    requires s.n > 0.0 && s.sx == s.sy && s.sxx == s.sxy == s.syy
    ensures s.n * ErrorFormula(s, 0.0, s.sx / s.n) == Denominator(s)
  {
    var c := s.sx / s.n;
    assert c * s.n == s.sx;
    assert s.n * (s.n * c * c) == s.sx * s.sx;
    assert s.n * (c * s.sx) == s.sx * s.sx;
  }

  lemma {:induction false} SumOfConstant(xs: Vector, x: real)
    requires forall i :: 0 <= i < |xs| ==> xs[i] == x
    ensures Sum(xs) == |xs| as real * x
  {
    if xs != [] {
      SumOfConstant(xs[1..], x);
    }
  }

  lemma ConstantIsItsMean(xs: Vector)
    requires xs != []
    ensures IsConstant(xs) <==> forall i :: 0 <= i < |xs| ==> xs[i] == Mean(xs)
  {
    if IsConstant(xs) {
      SumOfConstant(xs, xs[0]);
    }
  }

  lemma ConstantIsLevelLine(xs: Vector)
    requires xs != []
    ensures IsConstant(xs) <==> OnLine(xs, xs, 0.0, Mean(xs))
  {
    ConstantIsItsMean(xs);
    hide IsConstant, Mean;
    assert forall i :: 0 <= i < |xs| ==> 0.0 * xs[i] + Mean(xs) == Mean(xs);
  }

  /** The fit's denominator is never negative, and zero only for a constant. */
  lemma DenominatorSign(xs: Vector, ys: Vector)
    requires |xs| == |ys|
    ensures Denominator(SumsOf(xs, ys)) >= 0.0
    ensures Denominator(SumsOf(xs, ys)) == 0.0 <==> IsConstant(xs)
  {
    assert Denominator(SumsOf(xs, ys)) == Denominator(SumsOf(xs, xs));
    if xs != [] {
      var s := SumsOf(xs, xs);
      assert s.n == |xs| as real && Mean(xs) == s.sx / s.n;
      ErrorExpands(xs, xs, 0.0, Mean(xs));
      SpreadFormula(s);
      ErrorIsNonNegative(xs, xs, 0.0, Mean(xs));
      ConstantIsLevelLine(xs);
      hide *;
      SignOf(s.n, SquaredError(xs, xs, 0.0, Mean(xs)));
    }
  }

  // ---------- least squares ----------

  ghost predicate SolvesNormal(s: Sums, m: real, c: real) {
    m * s.sx + s.n * c == s.sy && m * s.sxx + c * s.sx == s.sxy
  }

  lemma FitSolves(s: Sums)
    requires s.n > 0.0 && Denominator(s) > 0.0
    ensures SolvesNormal(s, Slope(s), Intercept(s, Slope(s)))
  {
    var d, m := Denominator(s), Slope(s);
    var c := Intercept(s, m);
    assert m * d == s.n * s.sxy - s.sx * s.sy;
    assert s.n * c == s.sy - m * s.sx;
    Scale(s.n, m * s.sxx + c * s.sx, s.sxy) by {
      assert s.n * (m * s.sxx + c * s.sx) == m * (s.n * s.sxx) + (s.n * c) * s.sx;
      assert (s.n * c) * s.sx == s.sy * s.sx - m * (s.sx * s.sx);
      assert m * d == m * (s.n * s.sxx) - m * (s.sx * s.sx);
    }
  }

  function Gap(s: Sums, dm: real, dc: real): real {
    dm * dm * s.sxx + 2.0 * dm * dc * s.sx + s.n * dc * dc
  }

  /** How much a line's error exceeds that of the line which solves the normal equations. */
  lemma ErrorGap(s: Sums, m: real, c: real, dm: real, dc: real)
    requires SolvesNormal(s, m, c)
    ensures ErrorFormula(s, m + dm, c + dc) == ErrorFormula(s, m, c) + Gap(s, dm, dc)
  {
    assert (m + dm) * (m + dm) * s.sxx == m * m * s.sxx + 2.0 * (dm * (m * s.sxx)) + dm * dm * s.sxx;
    assert (m + dm) * (c + dc) * s.sx == m * c * s.sx + dc * (m * s.sx) + dm * (c * s.sx) + dm * dc * s.sx;
    assert s.n * (c + dc) * (c + dc) == s.n * c * c + 2.0 * (dc * (s.n * c)) + s.n * dc * dc;
    assert dm * s.sxy == dm * (m * s.sxx) + dm * (c * s.sx);
    assert dc * s.sy == dc * (m * s.sx) + dc * (s.n * c);
  }

  lemma GapIsPositive(s: Sums, dm: real, dc: real)
    requires s.n > 0.0 && Denominator(s) > 0.0
    ensures Gap(s, dm, dc) >= 0.0
    ensures Gap(s, dm, dc) == 0.0 ==> dm == 0.0 && dc == 0.0
  {
    var g, u, d := Gap(s, dm, dc), s.n * dc + dm * s.sx, Denominator(s);
    assert s.n * g == Square(u) + d * Square(dm) by {
      assert Square(u) == s.n * (s.n * dc * dc) + s.n * (2.0 * dm * dc * s.sx) + dm * dm * (s.sx * s.sx);
      assert d * Square(dm) == s.n * (dm * dm * s.sxx) - dm * dm * (s.sx * s.sx);
    }
    hide Gap, Denominator, Square;
    Positive(d, Square(dm));
    SignOf(s.n, g);
    if g == 0.0 {
      assert dm == 0.0 && u == 0.0;
      assert s.n * dc == 0.0;
    }
  }

  lemma FitIsASolution(xs: Vector, ys: Vector)
    requires |xs| == |ys| && LinearFit(xs, ys).Some?
    ensures var fit, s := LinearFit(xs, ys).value, SumsOf(xs, ys);
      && |xs| >= 2 && s.n == |xs| as real && Denominator(s) > 0.0
      && SolvesNormal(s, fit.m, fit.c)
      && fit.resid == AbsResiduals(xs, ys, fit.m, fit.c) / s.n
  {
    var s := SumsOf(xs, ys);
    assert s.n == |xs| as real;
    hide Sum, Dot, Denominator, Slope, Intercept, SolvesNormal, AbsResiduals, SumsOf;
    DenominatorSign(xs, ys);
    FitSolves(s);
  }

  /** No line has a smaller squared error than the fitted one, and no other line has the same. */
  lemma FitIsLeast(xs: Vector, ys: Vector, m: real, c: real)
    requires |xs| == |ys| && LinearFit(xs, ys).Some?
    ensures var fit := LinearFit(xs, ys).value;
      && SquaredError(xs, ys, fit.m, fit.c) <= SquaredError(xs, ys, m, c)
      && (SquaredError(xs, ys, fit.m, fit.c) == SquaredError(xs, ys, m, c) ==> m == fit.m && c == fit.c)
  {
    hide *;
    FitIsASolution(xs, ys);
    var fit, s := LinearFit(xs, ys).value, SumsOf(xs, ys);
    var dm, dc := m - fit.m, c - fit.c;
    ErrorExpands(xs, ys, fit.m, fit.c);
    ErrorExpands(xs, ys, m, c);
    ErrorGap(s, fit.m, fit.c, dm, dc);
    assert fit.m + dm == m && fit.c + dc == c;
    GapIsPositive(s, dm, dc);
  }

  /** A fit exists exactly when two references differ; its residual is zero exactly when every point is on it. */
  lemma FitExists(xs: Vector, ys: Vector)
    requires |xs| == |ys|
    ensures LinearFit(xs, ys).Some? <==> |xs| >= 2 && !IsConstant(xs)
    ensures LinearFit(xs, ys).Some? ==>
      var fit := LinearFit(xs, ys).value;
      fit.resid >= 0.0 && (fit.resid == 0.0 <==> OnLine(xs, ys, fit.m, fit.c))
  {
    DenominatorSign(xs, ys);
    assert LinearFit(xs, ys).Some? <==> |xs| >= 2 && Denominator(SumsOf(xs, ys)) != 0.0;
    hide LinearFit, Denominator, SumsOf, IsConstant, OnLine;
    if LinearFit(xs, ys).Some? {
      var fit, n := LinearFit(xs, ys).value, |xs| as real;
      FitIsASolution(xs, ys);
      ResidualsVanish(xs, ys, fit.m, fit.c);
      hide AbsResiduals;
      SignOf(n, fit.resid);
    }
  }

  lemma {:induction false} ResidualsVanish(xs: Vector, ys: Vector, m: real, c: real)
    requires |xs| == |ys|
    ensures AbsResiduals(xs, ys, m, c) >= 0.0
    ensures AbsResiduals(xs, ys, m, c) == 0.0 <==> OnLine(xs, ys, m, c)
  {
    if xs != [] {
      ResidualsVanish(xs[1..], ys[1..], m, c);
      OnLineStep(xs, ys, m, c);
      hide OnLine;
    }
  }

  // ---------- the product-moment coefficient ----------

  lemma ProjectionError(s: Sums, t: real)
    requires s.sxx > 0.0 && t == s.sxy / s.sxx
    ensures s.sxx * ErrorFormula(s, t, 0.0) == s.sxx * s.syy - Square(s.sxy)
  {
    assert t * s.sxx == s.sxy;
    assert t * t * s.sxx == t * s.sxy;
    assert s.sxx * (t * s.sxy) == s.sxy * s.sxy;
    assert ErrorFormula(s, t, 0.0) == s.syy - t * s.sxy;
  }

  /** The Cauchy-Schwarz inequality, with its case of equality. */
  lemma CauchySchwarz(a: Vector, b: Vector)
    requires |a| == |b| && Dot(a, a) > 0.0
    ensures Square(Dot(a, b)) <= Dot(a, a) * Dot(b, b)
    ensures Square(Dot(a, b)) == Dot(a, a) * Dot(b, b) <==> OnLine(a, b, Dot(a, b) / Dot(a, a), 0.0)
  {
    hide *;
    var s, t := SumsOf(a, b), Dot(a, b) / Dot(a, a);
    SumsAreDots(a, b);
    ErrorExpands(a, b, t, 0.0);
    ErrorIsNonNegative(a, b, t, 0.0);
    ProjectionError(s, t);
    SignOf(s.sxx, SquaredError(a, b, t, 0.0));
  }

  lemma SumsAreDots(a: Vector, b: Vector)
    requires |a| == |b|
    ensures SumsOf(a, b).sxx == Dot(a, a) && SumsOf(a, b).sxy == Dot(a, b) && SumsOf(a, b).syy == Dot(b, b)
  {
  }

  lemma {:induction false} DotIsSymmetric(a: Vector, b: Vector)
    requires |a| == |b|
    ensures Dot(a, b) == Dot(b, a)
  {
    if a != [] {
      DotIsSymmetric(a[1..], b[1..]);
    }
  }

  lemma {:induction false} SquaresArePositive(a: Vector)
    ensures Dot(a, a) >= 0.0
    ensures Dot(a, a) == 0.0 <==> forall i :: 0 <= i < |a| ==> a[i] == 0.0
  {
    if a != [] {
      SquaresArePositive(a[1..]);
      SquareSign(a[0]);
      if a[0] == 0.0 && forall i :: 0 <= i < |a[1..]| ==> a[1..][i] == 0.0 {
        assert forall i :: 0 < i < |a| ==> a[i] == a[1..][i - 1];
      }
      if forall i :: 0 <= i < |a| ==> a[i] == 0.0 {
        assert forall i :: 0 <= i < |a[1..]| ==> a[1..][i] == a[i + 1];
      }
    }
  }

  lemma CentredVanishes(xs: Vector)
    requires xs != []
    ensures Dot(Centred(xs), Centred(xs)) >= 0.0
    ensures Dot(Centred(xs), Centred(xs)) == 0.0 <==> IsConstant(xs)
  {
    SquaresArePositive(Centred(xs));
    ConstantIsItsMean(xs);
    hide Mean, IsConstant, Dot;
    assert forall i :: 0 <= i < |xs| ==> Centred(xs)[i] == xs[i] - Mean(xs);
  }

  lemma SquareBound(r: real, w: real, k: real)
    requires w > 0.0 && k == Square(r) * w && k <= w
    ensures -1.0 <= r <= 1.0 && (Square(r) == 1.0 <==> k == w)
  {
    var s := Square(r);
    SignOf(w, 1.0 - s);
    assert w * (1.0 - s) == w - k;
    assert s <= 1.0;
    assert Square(1.0 - r) + Square(1.0 + r) == 2.0 + 2.0 * s;
    assert (1.0 - r) * (1.0 + r) == 1.0 - s;
  }

  lemma RatioInRange(root: real -> real, cov: real, sx: real, sy: real)
    requires IsRoot(root) && sx > 0.0 && sy > 0.0 && Square(cov) <= sx * sy
    ensures var r := Ratio(root, cov, sx, sy);
      && r.Some? && -1.0 <= r.value <= 1.0
      && (Square(r.value) == 1.0 <==> Square(cov) == sx * sy)
  {
    RootsMatter(root, sx, sy);
    var p, q := root(sx), root(sy);
    var r := cov / (p * q);
    assert (p * q) * (p * q) == sx * sy by {
      assert (p * q) * (p * q) == (p * p) * (q * q);
    }
    assert r * (p * q) == cov;
    RatioIs(root, cov, sx, sy, p * q);
    SquareOfProduct(r, p * q);
    Positive(sx, sy);
    SquareBound(r, sx * sy, Square(cov));
  }

  lemma RatioIs(root: real -> real, cov: real, sx: real, sy: real, w: real)
    requires IsRoot(root) && sx > 0.0 && sy > 0.0 && w == root(sx) * root(sy) && w != 0.0
    ensures Ratio(root, cov, sx, sy) == Some(cov / w)
  {
  }

  lemma SquareOfProduct(r: real, w: real)
    ensures Square(r * w) == Square(r) * (w * w)
  {
  }

  /** The coefficient exists exactly when neither series is constant, and lies in [-1, 1]. */
  lemma PearsonInRange(root: real -> real, xs: Vector, ys: Vector)
    requires |xs| == |ys| && IsRoot(root)
    ensures Pearson(root, xs, ys).Some? <==> |xs| >= 2 && !IsConstant(xs) && !IsConstant(ys)
    ensures Pearson(root, xs, ys).Some? ==> -1.0 <= Pearson(root, xs, ys).value <= 1.0
  {
    hide IsRoot, IsConstant, Dot, Centred, Square;
    if |xs| >= 2 {
      CentredVanishes(xs);
      CentredVanishes(ys);
      var dx, dy := Centred(xs), Centred(ys);
      if !IsConstant(xs) && !IsConstant(ys) {
        CauchySchwarz(dx, dy);
        hide OnLine;
        RatioInRange(root, Dot(dx, dy), Dot(dx, dx), Dot(dy, dy));
        hide Ratio;
      }
    }
  }

  /** The coefficient does not depend on which series comes first. */
  lemma PearsonIsSymmetric(root: real -> real, xs: Vector, ys: Vector)
    requires |xs| == |ys| && IsRoot(root)
    ensures Pearson(root, xs, ys) == Pearson(root, ys, xs)
  {
    if |xs| >= 2 {
      var dx, dy := Centred(xs), Centred(ys);
      DotIsSymmetric(dx, dy);
      SquaresArePositive(dx);
      SquaresArePositive(dy);
      hide Dot, Centred;
      assert root(Dot(dx, dx)) * root(Dot(dy, dy)) == root(Dot(dy, dy)) * root(Dot(dx, dx));
    }
  }

  /** |r| is 1 exactly when every point lies on the fitted line. */
  lemma PearsonIsOneOnALine(root: real -> real, xs: Vector, ys: Vector)
    requires |xs| == |ys| && IsRoot(root) && Pearson(root, xs, ys).Some?
    ensures LinearFit(xs, ys).Some?
    ensures Square(Pearson(root, xs, ys).value) == 1.0 <==> LinearFit(xs, ys).value.resid == 0.0
  {
    hide IsRoot, IsConstant, Dot, Centred, Square, LinearFit, OnLine;
    PearsonInRange(root, xs, ys);
    CentredVanishes(xs);
    CentredVanishes(ys);
    var dx, dy := Centred(xs), Centred(ys);
    CauchySchwarz(dx, dy);
    RatioInRange(root, Dot(dx, dy), Dot(dx, dx), Dot(dy, dy));
    hide Ratio;
    FitExists(xs, ys);
    var fit, t := LinearFit(xs, ys).value, Dot(dx, dy) / Dot(dx, dx);
    if OnLine(dx, dy, t, 0.0) {
      Uncentre(xs, ys, t);
      LineIsTheFit(xs, ys, t, Mean(ys) - t * Mean(xs));
    }
    if OnLine(xs, ys, fit.m, fit.c) {
      Centre(xs, ys, fit.m, fit.c);
      CentredSlope(dx, dy, fit.m);
    }
  }

  /** Points on some line have that line as their fit. */
  lemma LineIsTheFit(xs: Vector, ys: Vector, m: real, c: real)
    requires |xs| == |ys| && LinearFit(xs, ys).Some? && OnLine(xs, ys, m, c)
    ensures LinearFit(xs, ys).value.m == m && LinearFit(xs, ys).value.c == c
  {
    hide LinearFit, OnLine, SquaredError;
    var fit := LinearFit(xs, ys).value;
    ErrorIsNonNegative(xs, ys, m, c);
    ErrorIsNonNegative(xs, ys, fit.m, fit.c);
    FitIsLeast(xs, ys, m, c);
  }

  lemma Uncentre(xs: Vector, ys: Vector, t: real)
    requires |xs| == |ys| && xs != [] && OnLine(Centred(xs), Centred(ys), t, 0.0)
    ensures OnLine(xs, ys, t, Mean(ys) - t * Mean(xs))
  {
    hide Mean;
    var dx, dy := Centred(xs), Centred(ys);
    forall i | 0 <= i < |xs|
      ensures ys[i] == t * xs[i] + (Mean(ys) - t * Mean(xs))
    {
      assert dy[i] == t * dx[i] + 0.0;
      Distribute(t, xs[i], Mean(xs));
    }
  }

  lemma {:induction false} SumOnLine(xs: Vector, ys: Vector, m: real, c: real)
    requires |xs| == |ys| && OnLine(xs, ys, m, c)
    ensures Sum(ys) == m * Sum(xs) + |xs| as real * c
  {
    if xs != [] {
      OnLineStep(xs, ys, m, c);
      hide OnLine;
      SumOnLine(xs[1..], ys[1..], m, c);
      assert m * (xs[0] + Sum(xs[1..])) == m * xs[0] + m * Sum(xs[1..]);
    }
  }

  lemma MeanOnLine(n: real, sx: real, sy: real, m: real, c: real)
    requires n > 0.0 && sy == m * sx + n * c
    ensures sy / n == m * (sx / n) + c
  {
    var x := sx / n;
    assert x * n == sx;
    assert sy == n * (m * x + c);
  }

  lemma MeansOnLine(xs: Vector, ys: Vector, m: real, c: real)
    requires |xs| == |ys| && xs != [] && OnLine(xs, ys, m, c)
    ensures Mean(ys) == m * Mean(xs) + c
  {
    SumOnLine(xs, ys, m, c);
    hide Sum, OnLine;
    MeanOnLine(|xs| as real, Sum(xs), Sum(ys), m, c);
  }

  lemma Centre(xs: Vector, ys: Vector, m: real, c: real)
    requires |xs| == |ys| && xs != [] && OnLine(xs, ys, m, c)
    ensures OnLine(Centred(xs), Centred(ys), m, 0.0)
  {
    MeansOnLine(xs, ys, m, c);
    hide Mean, Sum;
    var dx, dy := Centred(xs), Centred(ys);
    forall i | 0 <= i < |dx|
      ensures dy[i] == m * dx[i] + 0.0
    {
      assert ys[i] == m * xs[i] + c;
      Distribute(m, xs[i], Mean(xs));
    }
  }

  lemma {:induction false} DotOnLine(a: Vector, b: Vector, m: real)
    requires |a| == |b| && OnLine(a, b, m, 0.0)
    ensures Dot(a, b) == m * Dot(a, a)
  {
    if a != [] {
      OnLineStep(a, b, m, 0.0);
      hide OnLine;
      DotOnLine(a[1..], b[1..], m);
      assert m * (a[0] * a[0] + Dot(a[1..], a[1..])) == a[0] * (m * a[0]) + m * Dot(a[1..], a[1..]);
    }
  }

  lemma CentredSlope(a: Vector, b: Vector, m: real)
    requires |a| == |b| && Dot(a, a) > 0.0 && OnLine(a, b, m, 0.0)
    ensures Dot(a, b) / Dot(a, a) == m
  {
    DotOnLine(a, b, m);
    hide Dot;
  }
}

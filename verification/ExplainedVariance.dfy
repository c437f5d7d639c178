/**
  What the correlation coefficient measures: its square is the share of the spread that the least-squares
  line explains, and its sign is that of the line's slope.
 */
module ExplainedVariance {
  import opened Wrappers
  import opened Statistics

  /** A line through the point (a, b) has the residuals of the slope alone on deviations from that point. */
  lemma {:induction false} ShiftedError(xs: Vector, ys: Vector, a: real, b: real, m: real, c: real)
    requires |xs| == |ys| && c == b - m * a
    ensures SquaredError(xs, ys, m, c) == SquaredError(Deviations(xs, a), Deviations(ys, b), m, 0.0)
  {
    if xs != [] {
      ShiftedError(xs[1..], ys[1..], a, b, m, c);
      assert Deviations(xs, a)[1..] == Deviations(xs[1..], a);
      assert Deviations(ys, b)[1..] == Deviations(ys[1..], b);
      assert Residual(xs[0], ys[0], m, c) == Residual(xs[0] - a, ys[0] - b, m, 0.0) by {
        assert m * (xs[0] - a) == m * xs[0] - m * a;
      }
      hide Square, Residual;
    }
  }

  /** The error of a line through the means, from its slope. */
  function SlopeError(sx: real, sxy: real, sy: real, m: real): real {
    sy - 2.0 * m * sxy + m * m * sx
  }

  /** The line with slope `m` through the means, and its error. */
  function Level(xs: Vector, ys: Vector, m: real): real
    requires xs != [] && ys != []
  {
    Mean(ys) - m * Mean(xs)
  }

  function Spread(xs: Vector): real
    requires xs != []
  {
    Dot(Centred(xs), Centred(xs))
  }

  function Covariance(xs: Vector, ys: Vector): real
    requires |xs| == |ys| && xs != []
  {
    Dot(Centred(xs), Centred(ys))
  }

  predicate IsQuotient(t: real, a: real, b: real) {
    t * b == a
  }

  lemma ErrorThroughMeans(xs: Vector, ys: Vector, m: real)
    requires |xs| == |ys| && xs != []
    ensures SquaredError(xs, ys, m, Level(xs, ys, m)) == SlopeError(Spread(xs), Covariance(xs, ys), Spread(ys), m)
  {
    var dx, dy := Centred(xs), Centred(ys);
    assert dx == Deviations(xs, Mean(xs)) && dy == Deviations(ys, Mean(ys));
    ShiftedError(xs, ys, Mean(xs), Mean(ys), m, Level(xs, ys, m));
    assert Spread(xs) == Dot(dx, dx) && Spread(ys) == Dot(dy, dy) && Covariance(xs, ys) == Dot(dx, dy);
    hide *;
    ErrorExpands(dx, dy, m, 0.0);
    SumsAreDots(dx, dy);
    SlopeFormula(SumsOf(dx, dy), m);
  }

  lemma SlopeFormula(s: Sums, m: real)
    ensures ErrorFormula(s, m, 0.0) == SlopeError(s.sxx, s.sxy, s.syy, m)
  {
  }

  lemma FitThroughMeans(xs: Vector, ys: Vector)
    requires |xs| == |ys| && LinearFit(xs, ys).Some?
    ensures var fit := LinearFit(xs, ys).value; xs != [] && fit.c == Level(xs, ys, fit.m)
  {
    var s, fit := SumsOf(xs, ys), LinearFit(xs, ys).value;
    assert fit.c == (s.sy - fit.m * s.sx) / s.n;
    assert Mean(xs) * s.n == s.sx && Mean(ys) * s.n == s.sy;
    assert (Mean(ys) - fit.m * Mean(xs)) * s.n == s.sy - fit.m * s.sx;
  }

  lemma Completed(sx: real, sxy: real, sy: real, m: real, t: real) returns (extra: real)
    requires sx > 0.0 && IsQuotient(t, sxy, sx)
    ensures SlopeError(sx, sxy, sy, m) == SlopeError(sx, sxy, sy, t) + extra
    ensures extra >= 0.0 && (extra == 0.0 ==> m == t)
  {
    var s := Square(m - t);
    extra := sx * s;
    Positive(sx, s);
    assert s == m * m - 2.0 * m * t + t * t;
    assert sx * s == m * m * sx - 2.0 * m * (t * sx) + t * (t * sx);
    assert t * t * sx == t * sxy;
  }

  /** The fitted slope is the covariance over the references' spread. */
  lemma SlopeIs(xs: Vector, ys: Vector, t: real)
    requires |xs| == |ys| && LinearFit(xs, ys).Some? && xs != [] && Spread(xs) > 0.0
    requires IsQuotient(t, Covariance(xs, ys), Spread(xs))
    ensures var fit := LinearFit(xs, ys).value;
      && fit.m == t
      && SquaredError(xs, ys, fit.m, fit.c) == SlopeError(Spread(xs), Covariance(xs, ys), Spread(ys), t)
  {
    hide *;
    FitThroughMeans(xs, ys);
    var fit := LinearFit(xs, ys).value;
    ErrorThroughMeans(xs, ys, fit.m);
    ErrorThroughMeans(xs, ys, t);
    var extra := Completed(Spread(xs), Covariance(xs, ys), Spread(ys), fit.m, t);
    FitIsLeast(xs, ys, t, Level(xs, ys, t));
  }

  /** `r` squared is the share of `sxy` squared in the product of the spreads, and has its sign. */
  predicate IsShare(r: real, sx: real, sxy: real, sy: real) {
    r * r * (sx * sy) == sxy * sxy && (r > 0.0 <==> sxy > 0.0)
  }

  lemma RatioIsShare(root: real -> real, cov: real, sx: real, sy: real)
    requires IsRoot(root) && sx > 0.0 && sy > 0.0
    ensures Ratio(root, cov, sx, sy).Some? && IsShare(Ratio(root, cov, sx, sy).value, sx, cov, sy)
  {
    RootsMatter(root, sx, sy);
    var w := root(sx) * root(sy);
    assert w * w == sx * sy by {
      assert w * w == (root(sx) * root(sx)) * (root(sy) * root(sy));
    }
    RatioIs(root, cov, sx, sy, w);
    var r := cov / w;
    assert r * w == cov && w > 0.0;
    hide Ratio;
    SquareOfProduct(r, w);
    SignOf(w, r);
    SignOf(w, -r);
  }

  lemma Shares(sx: real, sxy: real, sy: real, t: real, r: real)
    requires sx > 0.0 && IsQuotient(t, sxy, sx) && IsShare(r, sx, sxy, sy)
    ensures SlopeError(sx, sxy, sy, t) == (1.0 - r * r) * SlopeError(sx, sxy, sy, 0.0)
    ensures r > 0.0 <==> t > 0.0
  {
    Scale(sx, t * sxy, r * r * sy) by {
      assert sx * (t * sxy) == (t * sx) * sxy;
      assert sx * (r * r * sy) == r * r * (sx * sy);
    }
    assert t * t * sx == t * sxy;
    SignOf(sx, t);
    SignOf(sx, -t);
  }

  lemma PearsonIsShare(root: real -> real, xs: Vector, ys: Vector)
    requires |xs| == |ys| && IsRoot(root) && Pearson(root, xs, ys).Some?
    ensures xs != [] && Spread(xs) > 0.0 && LinearFit(xs, ys).Some?
    ensures IsShare(Pearson(root, xs, ys).value, Spread(xs), Covariance(xs, ys), Spread(ys))
  {
    PearsonInRange(root, xs, ys);
    FitExists(xs, ys);
    CentredVanishes(xs);
    CentredVanishes(ys);
    RatioIsShare(root, Covariance(xs, ys), Spread(xs), Spread(ys));
    hide IsShare, IsConstant, Dot, Centred, LinearFit, IsRoot, Ratio, OnLine;
  }

  lemma Quotient(a: real, b: real) returns (t: real)
    requires b > 0.0
    ensures IsQuotient(t, a, b)
  {
    t := a / b;
  }

  lemma LevelLine(xs: Vector, ys: Vector)
    requires xs != [] && ys != []
    ensures Level(xs, ys, 0.0) == Mean(ys)
  {
  }

  /**
    The error left by the fitted line is 1 - r² of the error left by the level line through the mean, and
    the coefficient is positive exactly when the line rises.
   */
  lemma PearsonIsShareExplained(root: real -> real, xs: Vector, ys: Vector)
    requires |xs| == |ys| && IsRoot(root) && Pearson(root, xs, ys).Some?
    ensures xs != [] && LinearFit(xs, ys).Some?
    ensures var r, fit := Pearson(root, xs, ys).value, LinearFit(xs, ys).value;
      && SquaredError(xs, ys, fit.m, fit.c) == (1.0 - r * r) * SquaredError(xs, ys, 0.0, Mean(ys))
      && (r > 0.0 <==> fit.m > 0.0)
  {
    hide *;
    PearsonIsShare(root, xs, ys);
    var t := Quotient(Covariance(xs, ys), Spread(xs));
    SlopeIs(xs, ys, t);
    ErrorThroughMeans(xs, ys, 0.0);
    LevelLine(xs, ys);
    Shares(Spread(xs), Covariance(xs, ys), Spread(ys), t, Pearson(root, xs, ys).value);
  }
}

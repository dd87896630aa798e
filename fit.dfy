/** The elastic trend: a degree-1 polynomial fitted to stress against strain by least
    squares, in closed form over the reals. */
module LinearFit {
  import opened Errors
  import opened Arrays

  /** `slope * x + intercept`, a degree-1 `poly1d`. */
  datatype Trend = Trend(slope: real, intercept: real) {
    function At(x: real): real { slope * x + intercept }
  }

  /** The trend evaluated at every entry of `xs`, as `poly1d` does on an array: the
      abscissae scaled by the slope, then shifted by the intercept. */
  function Predict(t: Trend, xs: seq<real>): (r: seq<real>)
    ensures |r| == |xs|
    ensures forall i :: 0 <= i < |xs| ==> r[i] == t.At(xs[i])
  {
    Shift(Scale(xs, t.slope), t.intercept)
  }

  /** What the trend leaves unexplained at each sample. */
  function Residuals(xs: seq<real>, ys: seq<real>, t: Trend): seq<real>
    requires |xs| == |ys|
  {
    seq(|xs|, i requires 0 <= i < |xs| => ys[i] - t.At(xs[i]))
  }

  /** n * sum(x^2) - sum(x)^2, the determinant of the normal equations of a degree-1 fit. */
  function Determinant(xs: seq<real>): real
  {
    Size(xs) * Dot(xs, xs) - Sum(xs) * Sum(xs)
  }

  /** The squared differences between `x` and each entry of `xs`. */
  function SquaredDeviations(xs: seq<real>, x: real): seq<real>
  {
    seq(|xs|, i requires 0 <= i < |xs| => (xs[i] - x) * (xs[i] - x))
  }

  /** The sum of the squared differences over all pairs of samples. */
  function Spread(xs: seq<real>): real
  {
    if |xs| == 0 then 0.0
    else Spread(xs[..|xs| - 1]) + Sum(SquaredDeviations(xs[..|xs| - 1], xs[|xs| - 1]))
  }

  /** Some two samples have different abscissae. */
  ghost predicate Varies(xs: seq<real>)
  {
    exists i, j :: 0 <= i < |xs| && 0 <= j < |xs| && xs[i] != xs[j]
  }

  /** `polyfit(xs, ys, 1)`: the least-squares line through the points (xs[i], ys[i]). An
      empty window is refused, and so is a window whose normal equations are singular. */
  function Fit(xs: seq<real>, ys: seq<real>): Result<Trend>
    requires |xs| == |ys|
  {
    var n := Size(xs);
    var d := Determinant(xs);
    if n == 0.0 then Err(EmptyData)
    else if d == 0.0 then Err(SingularFit)
    else Ok(Solve(n, Sum(xs), Sum(ys), Dot(xs, xs), Dot(xs, ys)))
  }

  /** The solution of the normal equations of a degree-1 fit, from the count `n`, the sums
      `sx`, `sy` and the sums of products `sxx`, `sxy`, by Cramer's rule. */
  function Solve(n: real, sx: real, sy: real, sxx: real, sxy: real): Trend
    requires n != 0.0 && n * sxx - sx * sx != 0.0
  {
    var slope := (n * sxy - sx * sy) / (n * sxx - sx * sx);
    Trend(slope, (sy - slope * sx) / n)
  }

  /** The sum of the residuals of the line `a*x + b`, through the data sums. */
  lemma {:induction false} ResidualSum(xs: seq<real>, ys: seq<real>, a: real, b: real)
    requires |xs| == |ys|
    ensures Sum(Residuals(xs, ys, Trend(a, b))) == Sum(ys) - Sum(xs) * a - Size(xs) * b
  {
    ResidualsExpanded(xs, ys, a, b);
    SumCombination(ys, xs, Ones(|xs|), a, b);
    Substitute(Sum(Residuals(xs, ys, Trend(a, b))), Sum(ys), Sum(xs), Sum(xs), Size(xs), Sum(Ones(|xs|)), a, b);
  }

  lemma {:induction false} ResidualsExpanded(xs: seq<real>, ys: seq<real>, a: real, b: real)
    requires |xs| == |ys|
    ensures Sum(Residuals(xs, ys, Trend(a, b))) == Sum(Minus(Minus(ys, Scale(xs, a)), Scale(Ones(|xs|), b)))
  {
    var r := Residuals(xs, ys, Trend(a, b));
    var c := Minus(Minus(ys, Scale(xs, a)), Scale(Ones(|xs|), b));
    forall i | 0 <= i < |xs| ensures r[i] == c[i] {
      ResidualTerm(xs[i], ys[i], a, b);
    }
    assert r == c;
  }

  /** Replaces the coefficients of `a` and `b` by equal ones. */
  lemma Substitute(r: real, u: real, v: real, v': real, z: real, z': real, a: real, b: real)
    requires r == u - v' * a - z' * b && v == v' && z == z'
    ensures r == u - v * a - z * b
  {
  }

  lemma ResidualTerm(x: real, y: real, a: real, b: real)
    ensures y - (a * x + b) == (y - x * a) - 1.0 * b
  {
  }

  /** The sum of the residuals of the line `a*x + b` weighted by x, through the data sums. */
  lemma {:induction false} ResidualDot(xs: seq<real>, ys: seq<real>, a: real, b: real)
    requires |xs| == |ys|
    ensures Dot(xs, Residuals(xs, ys, Trend(a, b))) == Dot(xs, ys) - Dot(xs, xs) * a - Sum(xs) * b
  {
    WeightedResidualsExpanded(xs, ys, a, b);
    SumCombination(Products(xs, ys), Products(xs, xs), xs, a, b);
    Substitute(Dot(xs, Residuals(xs, ys, Trend(a, b))), Dot(xs, ys), Dot(xs, xs), Sum(Products(xs, xs)), Sum(xs), Sum(xs), a, b);
  }

  lemma {:induction false} WeightedResidualsExpanded(xs: seq<real>, ys: seq<real>, a: real, b: real)
    requires |xs| == |ys|
    ensures Dot(xs, Residuals(xs, ys, Trend(a, b)))
         == Sum(Minus(Minus(Products(xs, ys), Scale(Products(xs, xs), a)), Scale(xs, b)))
  {
    var p := Products(xs, Residuals(xs, ys, Trend(a, b)));
    var c := Minus(Minus(Products(xs, ys), Scale(Products(xs, xs), a)), Scale(xs, b));
    forall i | 0 <= i < |xs| ensures p[i] == c[i] {
      ResidualProduct(xs[i], ys[i], a, b);
    }
    assert p == c;
  }

  lemma ResidualProduct(x: real, y: real, a: real, b: real)
    ensures x * (y - (a * x + b)) == (x * y - (x * x) * a) - x * b
  {
  }

  /** A fitted line satisfies the normal equations: its residuals sum to zero and are
      orthogonal to the abscissae, which is what makes it the least-squares line. */
  lemma {:induction false} FitSolvesNormalEquations(xs: seq<real>, ys: seq<real>)
    requires |xs| == |ys| && Fit(xs, ys).Ok?
    ensures Sum(Residuals(xs, ys, Fit(xs, ys).value)) == 0.0
    ensures Dot(xs, Residuals(xs, ys, Fit(xs, ys).value)) == 0.0
  {
    var Trend(a, b) := Fit(xs, ys).value;
    ResidualSum(xs, ys, a, b);
    ResidualDot(xs, ys, a, b);
    FitCoefficients(xs, ys, a, b);
  }

  /** The fitted coefficients solve the normal equations in the data sums. */
  lemma {:induction false} FitCoefficients(xs: seq<real>, ys: seq<real>, a: real, b: real)
    requires |xs| == |ys| && Fit(xs, ys) == Ok(Trend(a, b))
    ensures Sum(ys) - Sum(xs) * a - Size(xs) * b == 0.0
    ensures Dot(xs, ys) - Dot(xs, xs) * a - Sum(xs) * b == 0.0
  {
    NormalEquationsArithmetic(Size(xs), Sum(xs), Sum(ys), Dot(xs, xs), Dot(xs, ys), a, b);
  }

  /** The closed-form slope and intercept solve the normal equations. */
  lemma NormalEquationsArithmetic(n: real, sx: real, sy: real, sxx: real, sxy: real, a: real, b: real)
    requires n != 0.0 && n * sxx - sx * sx != 0.0
    requires Solve(n, sx, sy, sxx, sxy) == Trend(a, b)
    ensures sy - sx * a - n * b == 0.0
    ensures sxy - sxx * a - sx * b == 0.0
  {
    var d := n * sxx - sx * sx;
    assert a * d == n * sxy - sx * sy;
    assert b * n == sy - a * sx;
    calc {
      n * (sxy - sxx * a - sx * b);
      n * sxy - a * (n * sxx) - (b * n) * sx;
      n * sxy - a * (n * sxx) - (sy - a * sx) * sx;
      (n * sxy - sx * sy) - a * d;
      0.0;
    }
  }

  lemma {:induction false} SizeSnoc(xs: seq<real>, x: real)
    ensures Size(xs + [x]) == Size(xs) + 1.0
  {
    assert Ones(|xs| + 1)[..|xs|] == Ones(|xs|);
  }

  lemma {:induction false} SumSnoc(xs: seq<real>, x: real)
    ensures Sum(xs + [x]) == Sum(xs) + x
  {
    assert (xs + [x])[..|xs|] == xs;
  }

  lemma {:induction false} DotSnoc(xs: seq<real>, x: real)
    ensures Dot(xs + [x], xs + [x]) == Dot(xs, xs) + x * x
  {
    var ys := xs + [x];
    forall i | 0 <= i < |xs| ensures Products(ys, ys)[i] == Products(xs, xs)[i] {
      assert ys[i] == xs[i];
    }
    assert Products(ys, ys)[..|xs|] == Products(xs, xs);
    assert Products(ys, ys)[|xs|] == x * x by {
      assert ys[|xs|] == x;
    }
  }

  /** The squared deviations from `x` sum to sum(v^2) - 2x sum(v) + n x^2. */
  lemma {:induction false} DeviationsSum(xs: seq<real>, x: real)
    ensures Sum(SquaredDeviations(xs, x)) == (Dot(xs, xs) - Sum(xs) * (2.0 * x)) + Size(xs) * (x * x)
  {
    var ones := Ones(|xs|);
    var lin := Minus(Products(xs, xs), Scale(xs, 2.0 * x));
    DeviationsExpanded(xs, x);
    SumPlus(lin, Scale(ones, x * x));
    SumMinus(Products(xs, xs), Scale(xs, 2.0 * x));
    SumScale(xs, 2.0 * x);
    SumScale(ones, x * x);
    Rescale(Sum(SquaredDeviations(xs, x)), Sum(lin), Dot(xs, xs), Sum(xs) * (2.0 * x), Size(xs), Sum(ones), x * x);
  }

  lemma {:induction false} DeviationsExpanded(xs: seq<real>, x: real)
    ensures Sum(SquaredDeviations(xs, x))
         == Sum(Plus(Minus(Products(xs, xs), Scale(xs, 2.0 * x)), Scale(Ones(|xs|), x * x)))
  {
    var dev := SquaredDeviations(xs, x);
    var c := Plus(Minus(Products(xs, xs), Scale(xs, 2.0 * x)), Scale(Ones(|xs|), x * x));
    forall i | 0 <= i < |xs| ensures dev[i] == c[i] {
      DeviationSquare(xs[i], x);
    }
    assert dev == c;
  }

  lemma DeviationSquare(v: real, x: real)
    ensures (v - x) * (v - x) == (v * v - v * (2.0 * x)) + 1.0 * (x * x)
  {
  }

  lemma Rescale(r: real, l: real, q: real, t: real, n: real, n': real, k: real)
    requires r == l + n' * k && l == q - t && n == n'
    ensures r == (q - t) + n * k
  {
  }

  /** Adding a sample grows the determinant by its squared deviations from the others. */
  lemma {:induction false} DeterminantSnoc(xs: seq<real>, x: real)
    ensures Determinant(xs + [x]) == Determinant(xs) + Sum(SquaredDeviations(xs, x))
  {
    var ys := xs + [x];
    SizeSnoc(xs, x);
    SumSnoc(xs, x);
    DotSnoc(xs, x);
    DeviationsSum(xs, x);
    SpreadStep(Size(xs), Sum(xs), Dot(xs, xs), x, Size(ys), Sum(ys), Dot(ys, ys), Sum(SquaredDeviations(xs, x)));
  }

  lemma SpreadStep(n: real, s: real, q: real, x: real, n': real, s': real, q': real, dev: real)
    requires n' == n + 1.0 && s' == s + x && q' == q + x * x
    requires dev == (q - s * (2.0 * x)) + n * (x * x)
    ensures n' * q' - s' * s' == (n * q - s * s) + dev
  {
  }

  /** The determinant of the normal equations is the sum of squared pairwise differences. */
  lemma {:induction false} DeterminantIsSpread(xs: seq<real>)
    ensures Determinant(xs) == Spread(xs)
  {
    if |xs| == 0 {
      assert Products(xs, xs) == [] && Ones(0) == [];
    } else {
      var n := |xs| - 1;
      assert xs == xs[..n] + [xs[n]];
      DeterminantIsSpread(xs[..n]);
      DeterminantSnoc(xs[..n], xs[n]);
    }
  }

  lemma DeviationSign(p: seq<real>, x: real, i: nat)
    requires i < |p|
    ensures SquaredDeviations(p, x)[i] >= 0.0
    ensures p[i] != x ==> SquaredDeviations(p, x)[i] > 0.0
    ensures p[i] == x ==> SquaredDeviations(p, x)[i] == 0.0
  {
    var v := p[i] - x;
    if v == 0.0 {
      calc {
        SquaredDeviations(p, x)[i];
      ==
        v * v;
      ==
        0.0;
      }
    } else {
      if v > 0.0 {
        PositiveProduct(v, v);
      } else {
        PositiveProduct(-v, -v);
        assert (-v) * (-v) == v * v;
      }
      calc {
        SquaredDeviations(p, x)[i];
      ==
        v * v;
      >
        0.0;
      }
    }
  }

  lemma PositiveProduct(u: real, v: real)
    requires u > 0.0 && v > 0.0
    ensures u * v > 0.0
  {
  }

  /** The spread is never negative, and it vanishes exactly when all abscissae agree. */
  lemma {:induction false} SpreadSign(xs: seq<real>)
    ensures Spread(xs) >= 0.0
    ensures Spread(xs) == 0.0 <==> !Varies(xs)
  {
    if |xs| > 0 {
      var n := |xs| - 1;
      var p, x := xs[..n], xs[n];
      SpreadSign(p);
      var dev := SquaredDeviations(p, x);
      forall i | 0 <= i < n ensures dev[i] >= 0.0 && (p[i] != x ==> dev[i] > 0.0) {
        DeviationSign(p, x, i);
      }
      SumNonNegative(dev, 0);
      if Varies(p) {
        var i, j :| 0 <= i < |p| && 0 <= j < |p| && p[i] != p[j];
        assert xs[i] != xs[j];
      } else if exists i :: 0 <= i < n && p[i] != x {
        var i :| 0 <= i < n && p[i] != x;
        SumNonNegative(dev, i);
        assert xs[i] != xs[n];
      } else {
        forall i | 0 <= i < n ensures dev[i] == 0.0 {
          DeviationSign(p, x, i);
        }
        SumZeros(dev);
        assert forall i :: 0 <= i < |xs| ==> xs[i] == x;
      }
    }
  }

  /** The fit exists exactly when the window holds two distinct abscissae; an empty window
      is reported as such. */
  lemma {:induction false} FitDefinedIffVaries(xs: seq<real>, ys: seq<real>)
    requires |xs| == |ys|
    ensures Fit(xs, ys).Ok? <==> Varies(xs)
    ensures |xs| == 0 ==> Fit(xs, ys) == Err(EmptyData)
    ensures |xs| > 0 && !Varies(xs) ==> Fit(xs, ys) == Err(SingularFit)
  {
    DeterminantIsSpread(xs);
    SpreadSign(xs);
    SizeIsLength(xs);
    if Varies(xs) {
      var i, j :| 0 <= i < |xs| && 0 <= j < |xs| && xs[i] != xs[j];
    }
  }

  /** On points that lie exactly on a line with distinct abscissae, the fit recovers that line. */
  lemma {:induction false} FitRecoversLine(xs: seq<real>, ys: seq<real>, e: real, c: real)
    requires |xs| == |ys| && Varies(xs)
    requires forall i :: 0 <= i < |xs| ==> ys[i] == e * xs[i] + c
    ensures Fit(xs, ys) == Ok(Trend(e, c))
  {
    LineSolvesNormalEquations(xs, ys, e, c);
    FitDefinedIffVaries(xs, ys);
    FitFromNormalEquations(xs, ys, e, c);
  }

  /** A line that solves the normal equations of a window with a fit is that fit. */
  lemma {:induction false} FitFromNormalEquations(xs: seq<real>, ys: seq<real>, e: real, c: real)
    requires |xs| == |ys| && Fit(xs, ys).Ok?
    requires Sum(ys) - Sum(xs) * e - Size(xs) * c == 0.0
    requires Dot(xs, ys) - Dot(xs, xs) * e - Sum(xs) * c == 0.0
    ensures Fit(xs, ys) == Ok(Trend(e, c))
  {
    SolveUnique(Size(xs), Sum(xs), Sum(ys), Dot(xs, xs), Dot(xs, ys), e, c);
  }

  lemma {:induction false} LineSolvesNormalEquations(xs: seq<real>, ys: seq<real>, e: real, c: real)
    requires |xs| == |ys|
    requires forall i :: 0 <= i < |xs| ==> ys[i] == e * xs[i] + c
    ensures Sum(ys) - Sum(xs) * e - Size(xs) * c == 0.0
    ensures Dot(xs, ys) - Dot(xs, xs) * e - Sum(xs) * c == 0.0
  {
    var r := Residuals(xs, ys, Trend(e, c));
    forall i | 0 <= i < |xs| ensures r[i] == 0.0 {
      OnLineResidual(xs[i], ys[i], e, c);
    }
    SumZeros(r);
    var p := Products(xs, r);
    forall i | 0 <= i < |xs| ensures p[i] == 0.0 {
      ZeroProduct(xs[i], r[i]);
    }
    SumZeros(p);
    ResidualSum(xs, ys, e, c);
    ResidualDot(xs, ys, e, c);
  }

  lemma OnLineResidual(x: real, y: real, e: real, c: real)
    requires y == e * x + c
    ensures y - Trend(e, c).At(x) == 0.0
  {
  }

  lemma ZeroProduct(x: real, z: real)
    requires z == 0.0
    ensures x * z == 0.0
  {
  }

  /** The normal equations have no solution but the one `Solve` gives. */
  lemma SolveUnique(n: real, sx: real, sy: real, sxx: real, sxy: real, e: real, c: real)
    requires n != 0.0 && n * sxx - sx * sx != 0.0
    requires sy - sx * e - n * c == 0.0
    requires sxy - sxx * e - sx * c == 0.0
    ensures Solve(n, sx, sy, sxx, sxy) == Trend(e, c)
  {
    var d := n * sxx - sx * sx;
    calc {
      n * sxy - sx * sy;
      n * (e * sxx + c * sx) - sx * (e * sx + c * n);
      e * d;
    }
  }
}

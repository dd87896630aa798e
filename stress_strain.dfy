/** The quantities a uniaxial tensile test derives from its force and displacement
    readings, and the searches along the stress-strain curve that locate its
    characteristic points. Everything here is a pure function of the arrays; the test
    record that stores the results is in module Ziagn. */
module StressStrain {
  import opened Errors
  import opened Arrays
  import opened LinearFit

  /** One sample of the stress-strain curve. */
  datatype Point = Point(strain: real, stress: real)

  /** The plastic strain offset of the 0.2% proof stress. */
  const ProofOffset: real := 0.002

  /** The strain below which the second pass of the linear-limit search evaluates the trend. */
  const InnerStrainLimit: real := 0.04

  // Elementwise derivations.

  /** `stressEng * (1 + strainEng)`: the stress referred to the current cross-section. */
  function TrueStress(stress: seq<real>, strain: seq<real>): (r: seq<real>)
    requires |stress| == |strain|
    ensures |r| == |stress|
  {
    seq(|stress|, i requires 0 <= i < |stress| => stress[i] * (1.0 + strain[i]))
  }

  /** `Area0 / (1 + strainEng)`: the cross-section under constant volume, per sample; a
      strain of -1 divides by zero. */
  function CurrentArea(area0: real, strain: seq<real>): (r: seq<Quotient>)
    ensures |r| == |strain|
    ensures forall i :: 0 <= i < |r| ==> (r[i].Finite? <==> strain[i] != -1.0)
  {
    seq(|strain|, i requires 0 <= i < |strain| => Divide(area0, 1.0 + strain[i]))
  }

  /** True stress times current area gives back the force: the derived quantities are
      consistent with constant volume. */
  lemma {:induction false} TrueStressTimesArea(force: seq<real>, area0: real, strain: seq<real>, i: nat)
    requires area0 != 0.0 && |force| == |strain| && i < |strain| && strain[i] != -1.0
    ensures TrueStress(DivideBy(force, area0), strain)[i] * CurrentArea(area0, strain)[i].value
            == force[i]
  {
    var s := DivideBy(force, area0)[i];
    var q := CurrentArea(area0, strain)[i].value;
    var g := 1.0 + strain[i];
    assert s * area0 == force[i];
    DivideInverse(area0, g);
    calc {
      TrueStress(DivideBy(force, area0), strain)[i] * q;
      (s * g) * q;
      s * (q * g);
      s * area0;
      force[i];
    }
  }

  // The elastic modulus profile and the elastic fit.

  /** The slope between consecutive samples, `(stress[i+1]-stress[i]) / (strain[i+1]-strain[i])`,
      for the first `n - 1` sample pairs. */
  function ModulusProfile(stress: seq<real>, strain: seq<real>, n: nat): (r: seq<Quotient>)
    requires 1 <= n <= |stress| && n <= |strain|
    ensures |r| == n - 1
    ensures forall i {:trigger r[i]} :: 0 <= i < n - 1 ==> (r[i].Finite? <==> strain[i + 1] != strain[i])
  {
    seq(n - 1, i requires 0 <= i < n - 1 =>
      Divide(stress[i + 1] - stress[i], strain[i + 1] - strain[i]))
  }

  /** On samples lying on the line `k * strain + c`, every finite slope of the profile is `k`,
      and the slope is finite wherever consecutive strains differ. */
  lemma {:induction false} ModulusOfLinearData(stress: seq<real>, strain: seq<real>, n: nat, k: real, c: real)
    requires 1 <= n <= |stress| && n <= |strain|
    requires forall i :: 0 <= i < n ==> stress[i] == k * strain[i] + c
    ensures forall i {:trigger ModulusProfile(stress, strain, n)[i]} :: 0 <= i < n - 1 && strain[i + 1] != strain[i] ==>
              ModulusProfile(stress, strain, n)[i] == Finite(k)
  {
    forall i | 0 <= i < n - 1 && strain[i + 1] != strain[i] ensures ModulusProfile(stress, strain, n)[i] == Finite(k) {
      ModulusAt(stress, strain, n, i, k, c);
    }
  }

  /** One slope of the profile between two samples on the line `k * strain + c`. */
  lemma ModulusAt(stress: seq<real>, strain: seq<real>, n: nat, i: nat, k: real, c: real)
    requires 1 <= n <= |stress| && n <= |strain| && i < n - 1 && strain[i + 1] != strain[i]
    requires stress[i] == k * strain[i] + c && stress[i + 1] == k * strain[i + 1] + c
    ensures ModulusProfile(stress, strain, n)[i] == Finite(k)
  {
    LinearSlope(stress[i], stress[i + 1], strain[i], strain[i + 1], k, c);
  }

  /** Two points on the line `k * x + c` have slope `k` between them. */
  lemma LinearSlope(u: real, v: real, x: real, y: real, k: real, c: real)
    requires u == k * x + c && v == k * y + c && x != y
    ensures Divide(v - u, y - x) == Finite(k)
  {
    var d := y - x;
    assert v - u == k * d;
    DivideInverse(v - u, d);
    Cancel(Divide(v - u, d).value, k, d);
  }

  lemma Cancel(v: real, k: real, d: real)
    requires v * d == k * d && d != 0.0
    ensures v == k
  {
    assert (v - k) * d == 0.0;
  }

  /** Shifting every strain by the same amount leaves the modulus profile as it was. */
  lemma {:induction false} ShiftKeepsModulus(stress: seq<real>, strain: seq<real>, n: nat, c: real)
    requires 1 <= n <= |stress| && n <= |strain|
    ensures ModulusProfile(stress, Shift(strain, c), n) == ModulusProfile(stress, strain, n)
  {
    var p, q := ModulusProfile(stress, Shift(strain, c), n), ModulusProfile(stress, strain, n);
    forall i | 0 <= i < n - 1 ensures p[i] == q[i] {
      ShiftedModulusAt(stress, strain, n, c, i);
    }
    assert |p| == |q|;
  }

  /** One slope of the profile is unchanged by the shift. */
  lemma ShiftedModulusAt(stress: seq<real>, strain: seq<real>, n: nat, c: real, i: nat)
    requires 1 <= n <= |stress| && n <= |strain| && i < n - 1
    ensures ModulusProfile(stress, Shift(strain, c), n)[i] == ModulusProfile(stress, strain, n)[i]
  {
    var s := Shift(strain, c);
    assert s[i] == strain[i] + c && s[i + 1] == strain[i + 1] + c;
    ShiftedStep(strain[i], strain[i + 1], c);
  }

  lemma ShiftedStep(a: real, b: real, c: real)
    ensures (b + c) - (a + c) == b - a
  {
  }

  /** The samples whose strain lies strictly between `s0` and `s1`. */
  function Band(strain: seq<real>, s0: real, s1: real): (m: seq<bool>)
    ensures |m| == |strain|
    ensures forall i :: 0 <= i < |m| ==> (m[i] <==> s0 < strain[i] < s1)
  {
    And(Greater(strain, s0), Less(strain, s1))
  }

  /** The window the elastic trend is fitted to, filtered as written: first the samples with
      strain above `s0`, then of those the ones with strain below `s1`. The result pairs
      the window's strains with its stresses. */
  function ElasticWindow(strain: seq<real>, stress: seq<real>, s0: real, s1: real): (seq<real>, seq<real>)
    requires |strain| == |stress|
  {
    var above := Greater(strain, s0);
    var strainAbove := Select(strain, above);
    var stressAbove := Select(stress, above);
    (Select(strainAbove, Less(strainAbove, s1)), Select(stressAbove, Less(strainAbove, s1)))
  }

  /** The two-step filter keeps exactly the samples with `s0 < strain < s1`, in order, and
      keeps each strain paired with its own stress. */
  lemma {:induction false} ElasticWindowIsBand(strain: seq<real>, stress: seq<real>, s0: real, s1: real)
    requires |strain| == |stress|
    ensures ElasticWindow(strain, stress, s0, s1) ==
            (Select(strain, Band(strain, s0, s1)), Select(stress, Band(strain, s0, s1)))
  {
    var above := Greater(strain, s0);
    SelectLess(strain, above, s1);
    SelectSelect(strain, above, Less(strain, s1));
    SelectSelect(stress, above, Less(strain, s1));
  }

  /** Every sample lies on the line `k * strain + c`. */
  predicate OnLine(strain: seq<real>, stress: seq<real>, k: real, c: real)
    requires |strain| == |stress|
  {
    forall i :: 0 <= i < |strain| ==> stress[i] == k * strain[i] + c
  }

  /** Samples on the line `k * strain + c` stay on it in any window. */
  lemma {:induction false} SelectOnLine(strain: seq<real>, stress: seq<real>, mask: seq<bool>, k: real, c: real)
    requires |strain| == |stress| == |mask|
    requires forall i :: 0 <= i < |strain| ==> stress[i] == k * strain[i] + c
    ensures var xs, ys := Select(strain, mask), Select(stress, mask);
            forall j :: 0 <= j < |xs| ==> ys[j] == k * xs[j] + c
  {
    var w := Where(mask);
    var xs, ys := Select(strain, mask), Select(stress, mask);
    forall j | 0 <= j < |xs| ensures ys[j] == k * xs[j] + c {
      assert xs[j] == strain[w[j]] && ys[j] == stress[w[j]];
    }
  }

  /** `polyfit` of the window's stresses against its strains, degree 1. */
  function ElasticFit(strain: seq<real>, stress: seq<real>, s0: real, s1: real): Result<Trend>
    requires |strain| == |stress|
  {
    var window := ElasticWindow(strain, stress, s0, s1);
    Fit(window.0, window.1)
  }

  /** On samples lying on the line `k * strain + c`, the elastic trend over any window whose
      strains vary is that line. */
  lemma {:induction false} ElasticFitOfLine(strain: seq<real>, stress: seq<real>, s0: real, s1: real, k: real, c: real)
    requires |strain| == |stress| && OnLine(strain, stress, k, c)
    requires Varies(Select(strain, Band(strain, s0, s1)))
    ensures ElasticFit(strain, stress, s0, s1) == Ok(Trend(k, c))
  {
    SelectedLineFit(strain, stress, Band(strain, s0, s1), k, c);
    ElasticWindowIsBand(strain, stress, s0, s1);
  }

  /** The fit of a window of samples on a line, when its strains vary, is that line. */
  lemma {:induction false} SelectedLineFit(strain: seq<real>, stress: seq<real>, mask: seq<bool>, k: real, c: real)
    requires |strain| == |stress| == |mask|
    requires forall i :: 0 <= i < |strain| ==> stress[i] == k * strain[i] + c
    requires Varies(Select(strain, mask))
    ensures Fit(Select(strain, mask), Select(stress, mask)) == Ok(Trend(k, c))
  {
    SelectOnLine(strain, stress, mask, k, c);
    FitRecoversLine(Select(strain, mask), Select(stress, mask), k, c);
  }

  /** A window holding any sample has `s0 < s1`, so the Young's modulus quotient is defined
      whenever the elastic fit is. */
  lemma {:induction false} ElasticFitBounds(strain: seq<real>, stress: seq<real>, s0: real, s1: real)
    requires |strain| == |stress| && ElasticFit(strain, stress, s0, s1).Ok?
    ensures s0 < s1
  {
    ElasticWindowIsBand(strain, stress, s0, s1);
    var band := Band(strain, s0, s1);
    var xs := Select(strain, band);
    FitDefinedIffVaries(xs, Select(stress, band));
    var i := Where(band)[0];
    assert band[i];
  }

  /** `(trend(s1) - trend(s0)) / (s1 - s0)`: the secant of the trend over the window, which
      for a straight trend is its slope. */
  function YoungsModulus(t: Trend, s0: real, s1: real): (e: real)
    requires s0 != s1
    ensures e == t.slope
  {
    var d := s1 - s0;
    assert t.At(s1) - t.At(s0) == t.slope * d;
    (t.At(s1) - t.At(s0)) / d
  }

  // The ultimate stress.

  /** `max(stressEng)`, which fails on an empty array. */
  function UltimateStress(stress: seq<real>): (r: Result<real>)
    ensures |stress| == 0 <==> r == Err(EmptyData)
    ensures r.Ok? ==> r.value in stress && forall i :: 0 <= i < |stress| ==> stress[i] <= r.value
  {
    if |stress| == 0 then Err(EmptyData) else Ok(Max(stress))
  }

  /** The strains at every sample whose stress equals `m`. */
  function StrainsAt(strain: seq<real>, stress: seq<real>, m: real): seq<real>
    requires |strain| == |stress|
  {
    Select(strain, Equal(stress, m))
  }

  /** `strain[np.where(stress == m)]` on columns of any lengths: an index past the end of
      `strain` fails. */
  function StrainsWhere(strain: seq<real>, stress: seq<real>, m: real): (r: Result<seq<real>>)
    ensures r.Err? ==> r == Err(ShapeMismatch)
    ensures |strain| == |stress| ==> r == Ok(StrainsAt(strain, stress, m))
  {
    var mask := Equal(stress, m);
    var w := Where(mask);
    if |strain| == |stress| then TakeWhere(strain, mask); Ok(Take(strain, w))
    else if forall k :: 0 <= k < |w| ==> w[k] < |strain| then Ok(Take(strain, w))
    else Err(ShapeMismatch)
  }

  /** The strains can be read off exactly when every sample at stress `m` has a strain. */
  lemma {:induction false} StrainsWhereInRange(strain: seq<real>, stress: seq<real>, m: real)
    ensures StrainsWhere(strain, stress, m).Ok? <==>
            forall i :: 0 <= i < |stress| && stress[i] == m ==> i < |strain|
  {
    var mask := Equal(stress, m);
    var w := Where(mask);
    if forall i :: 0 <= i < |stress| && stress[i] == m ==> i < |strain| {
      forall k | 0 <= k < |w| ensures w[k] < |strain| {
        assert mask[w[k]];
      }
    } else {
      var i :| 0 <= i < |stress| && stress[i] == m && i >= |strain|;
      WhereComplete(mask, i);
    }
  }

  /** At the ultimate stress, the strains listed are those of every sample attaining the
      maximum, in sample order, and there is at least one. */
  lemma {:induction false} UltimateStrains(strain: seq<real>, stress: seq<real>)
    requires |strain| == |stress| > 0
    ensures var m := Max(stress);
            var w := Where(Equal(stress, m));
            var r := StrainsAt(strain, stress, m);
            && |r| == |w| > 0
            && (forall k :: 0 <= k < |r| ==> r[k] == strain[w[k]] && stress[w[k]] == m)
            && (forall k, l :: 0 <= k < l < |w| ==> w[k] < w[l])
            && (forall i :: 0 <= i < |stress| && stress[i] == m ==> i in w)
  {
    var m := Max(stress);
    var mask := Equal(stress, m);
    forall i | 0 <= i < |stress| && stress[i] == m ensures i in Where(mask) {
      WhereComplete(mask, i);
    }
    var i :| 0 <= i < |stress| && stress[i] == m;
    WhereComplete(mask, i);
    forall k, l | 0 <= k < l < |Where(mask)| ensures Where(mask)[k] < Where(mask)[l] {
      WhereIncreasing(mask, k, l);
    }
  }

  // The 0.2% proof stress.

  /** `np.sign`. */
  function Sign(x: real): int
  {
    if x > 0.0 then 1 else if x < 0.0 then -1 else 0
  }

  /** How far the trend, moved right by the plastic offset, lies above each sample. */
  function OffsetGap(t: Trend, strain: seq<real>, stress: seq<real>): (g: seq<real>)
    requires |strain| == |stress|
    ensures |g| == |strain|
    ensures forall i :: 0 <= i < |g| ==> g[i] == t.At(strain[i] - ProofOffset) - stress[i]
  {
    Minus(Predict(t, Shift(strain, -ProofOffset)), stress)
  }

  /** The sign of the gap differs between sample `i` and sample `i + 1`; zero is a sign of
      its own. */
  predicate Crosses(g: seq<real>, i: int)
    requires 0 <= i && i + 1 < |g|
  {
    Sign(g[i]) != Sign(g[i + 1])
  }

  /** `np.sign` applied to every entry, as floating-point values. */
  function Signs(g: seq<real>): seq<real>
  {
    seq(|g|, i requires 0 <= i < |g| => Sign(g[i]) as real)
  }

  /** Elementwise `d != 0`. */
  function NonZero(d: seq<real>): seq<bool>
  {
    seq(|d|, i requires 0 <= i < |d| => d[i] != 0.0)
  }

  /** `np.diff(np.sign(g)) != 0`: set exactly at the pairs whose signs differ. */
  function SignChanges(g: seq<real>): (m: seq<bool>)
    ensures |m| == if |g| == 0 then 0 else |g| - 1
    ensures forall i :: 0 <= i < |m| ==> (m[i] <==> Crosses(g, i))
  {
    NonZero(Differences(Signs(g)))
  }

  /** The sample at the first index where the gap changes sign: the last sample before the
      offset trend crosses the curve. An index into an empty array fails. */
  function Rp02(t: Trend, strain: seq<real>, stress: seq<real>): Result<Point>
    requires |strain| == |stress|
  {
    var w := Where(SignChanges(OffsetGap(t, strain, stress)));
    if |w| == 0 then Err(NoMatch) else Ok(Point(strain[w[0]], stress[w[0]]))
  }

  /** The proof stress is found exactly when the gap changes sign somewhere, and then it is
      the sample at the least such index, strain and stress alike. */
  lemma {:induction false} Rp02IsFirstCrossing(t: Trend, strain: seq<real>, stress: seq<real>)
    requires |strain| == |stress|
    ensures var g := OffsetGap(t, strain, stress);
            Rp02(t, strain, stress).Ok? <==> exists i :: 0 <= i && i + 1 < |g| && Crosses(g, i)
    ensures Rp02(t, strain, stress).Err? ==> Rp02(t, strain, stress) == Err(NoMatch)
    ensures var g := OffsetGap(t, strain, stress);
            Rp02(t, strain, stress).Ok? ==>
              exists i :: 0 <= i && i + 1 < |g| && Crosses(g, i) &&
                (forall j :: 0 <= j < i ==> !Crosses(g, j)) &&
                Rp02(t, strain, stress).value == Point(strain[i], stress[i])
  {
    var g := OffsetGap(t, strain, stress);
    var m := SignChanges(g);
    var w := Where(m);
    if exists i :: 0 <= i && i + 1 < |g| && Crosses(g, i) {
      var i :| 0 <= i && i + 1 < |g| && Crosses(g, i);
      assert m[i];
      WhereFirst(m, i);
      var f := w[0];
      assert m[f];
      forall j | 0 <= j < f ensures !Crosses(g, j) {
        if Crosses(g, j) {
          assert m[j];
          WhereFirst(m, j);
        }
      }
    }
  }

  // The linear limit.

  /** `(predicted - stress) / stress < eps` in floating point: the test is signed, and a
      zero stress turns the quotient into an infinity (or NaN) that passes only when the
      numerator is negative. */
  function WithinTolerance(predicted: real, stress: real, eps: real): (ok: bool)
    ensures stress != 0.0 ==> (ok <==> (predicted - stress) / stress < eps)
    ensures stress == 0.0 ==> (ok <==> predicted < 0.0)
    ensures stress > 0.0 && predicted <= stress && eps > 0.0 ==> ok
  {
    if stress == 0.0 then predicted - stress < 0.0 else (predicted - stress) / stress < eps
  }

  /** The tolerance test applied pairwise. */
  function ToleranceMask(predicted: seq<real>, stress: seq<real>, eps: real): (m: seq<bool>)
    requires |predicted| == |stress|
    ensures |m| == |stress|
    ensures forall i :: 0 <= i < |m| ==> (m[i] <==> WithinTolerance(predicted[i], stress[i], eps))
  {
    seq(|stress|, i requires 0 <= i < |stress| => WithinTolerance(predicted[i], stress[i], eps))
  }

  /** `stress[mask][-1]` and `strain[mask][-1]`: the last selected sample, or a failed index
      when nothing is selected. */
  function LastMatch(strain: seq<real>, stress: seq<real>, mask: seq<bool>): Result<Point>
    requires |strain| == |stress| == |mask|
  {
    var es := Select(strain, mask);
    var ss := Select(stress, mask);
    if |ss| == 0 then Err(NoMatch) else Ok(Point(es[|es| - 1], ss[|ss| - 1]))
  }

  /** A search finds a sample exactly when the mask selects one, and then both coordinates
      come from the greatest selected index. */
  lemma {:induction false} LastMatchIsLast(strain: seq<real>, stress: seq<real>, mask: seq<bool>)
    requires |strain| == |stress| == |mask|
    ensures LastMatch(strain, stress, mask).Ok? <==> exists i :: 0 <= i < |mask| && mask[i]
    ensures LastMatch(strain, stress, mask).Err? ==> LastMatch(strain, stress, mask) == Err(NoMatch)
    ensures LastMatch(strain, stress, mask).Ok? ==>
              exists i :: 0 <= i < |mask| && mask[i] &&
                (forall j :: i < j < |mask| ==> !mask[j]) &&
                LastMatch(strain, stress, mask).value == Point(strain[i], stress[i])
  {
    var w := Where(mask);
    if |w| > 0 {
      var l := w[|w| - 1];
      assert mask[l];
      forall j | l < j < |mask| ensures !mask[j] {
        if mask[j] {
          WhereLast(mask, j);
        }
      }
      assert LastMatch(strain, stress, mask).value == Point(strain[l], stress[l]);
    } else {
      forall i | 0 <= i < |mask| ensures !mask[i] {
        if mask[i] {
          WhereComplete(mask, i);
        }
      }
    }
  }

  /** The first pass: the last sample within tolerance of the trend. */
  function FirstPass(t: Trend, strain: seq<real>, stress: seq<real>, eps: real): Result<Point>
    requires |strain| == |stress|
  {
    LastMatch(strain, stress, ToleranceMask(Predict(t, strain), stress, eps))
  }

  /** The second pass, as written: the trend is evaluated only at the cut strains below
      `InnerStrainLimit` but compared with every cut stress. The arrays line up only when
      the inner filter keeps every cut sample; a single inner sample is broadcast; any other
      length is a shape error. */
  function SecondPass(t: Trend, strain: seq<real>, stress: seq<real>, eps: real, rangeMax: real): Result<Point>
    requires |strain| == |stress|
  {
    var cut := Less(strain, rangeMax);
    var strainCut := Select(strain, cut);
    var stressCut := Select(stress, cut);
    var predicted := Predict(t, Select(strainCut, Less(strainCut, InnerStrainLimit)));
    if |predicted| == |stressCut| then
      LastMatch(strainCut, stressCut, ToleranceMask(predicted, stressCut, eps))
    else if |predicted| == 1 then
      LastMatch(strainCut, stressCut, ToleranceMask(seq(|stressCut|, _ => predicted[0]), stressCut, eps))
    else Err(ShapeMismatch)
  }

  /** The limit of proportionality: the first pass, replaced by the second pass when its
      stress lies above the proof stress. The replacement is not compared again. */
  function LinearLimit(t: Trend, strain: seq<real>, stress: seq<real>, eps: real, rangeMax: real, rp02: real): Result<Point>
    requires |strain| == |stress|
  {
    var first := FirstPass(t, strain, stress, eps);
    if first.Ok? && first.value.stress > rp02 then SecondPass(t, strain, stress, eps, rangeMax)
    else first
  }

  /** When every strain below `rangeMax` is also below the inner limit, the second pass is
      the last sample below `rangeMax` within tolerance of the trend. */
  lemma {:induction false} SecondPassInRange(t: Trend, strain: seq<real>, stress: seq<real>, eps: real, rangeMax: real)
    requires |strain| == |stress|
    requires forall i :: 0 <= i < |strain| && strain[i] < rangeMax ==> strain[i] < InnerStrainLimit
    ensures SecondPass(t, strain, stress, eps, rangeMax) ==
            LastMatch(strain, stress, And(Less(strain, rangeMax), ToleranceMask(Predict(t, strain), stress, eps)))
  {
    var cut := Less(strain, rangeMax);
    var strainCut := Select(strain, cut);
    var stressCut := Select(stress, cut);
    var full := ToleranceMask(Predict(t, strain), stress, eps);
    InnerKeepsAll(strain, rangeMax);
    calc {
      SecondPass(t, strain, stress, eps, rangeMax);
      LastMatch(strainCut, stressCut, ToleranceMask(Predict(t, strainCut), stressCut, eps));
      { SelectToleranceMask(t, strain, stress, eps, cut); }
      LastMatch(strainCut, stressCut, Select(full, cut));
      { LastMatchSelect(strain, stress, cut, full); }
      LastMatch(strain, stress, And(cut, full));
    }
  }

  /** Searching the samples a first mask keeps, with a second mask filtered along, is
      searching all samples with both masks. */
  lemma {:induction false} LastMatchSelect(strain: seq<real>, stress: seq<real>, m1: seq<bool>, m2: seq<bool>)
    requires |strain| == |stress| == |m1| == |m2|
    ensures LastMatch(Select(strain, m1), Select(stress, m1), Select(m2, m1)) ==
            LastMatch(strain, stress, And(m1, m2))
  {
    SelectSelect(strain, m1, m2);
    SelectSelect(stress, m1, m2);
  }

  /** With every cut strain below the inner limit, the inner filter keeps them all. */
  lemma {:induction false} InnerKeepsAll(strain: seq<real>, rangeMax: real)
    requires forall i :: 0 <= i < |strain| && strain[i] < rangeMax ==> strain[i] < InnerStrainLimit
    ensures var strainCut := Select(strain, Less(strain, rangeMax));
            Select(strainCut, Less(strainCut, InnerStrainLimit)) == strainCut
  {
    var cut := Less(strain, rangeMax);
    var strainCut := Select(strain, cut);
    var inner := Less(strainCut, InnerStrainLimit);
    forall k | 0 <= k < |inner| ensures inner[k] {
      var i := Where(cut)[k];
      assert cut[i];
    }
    SelectAll(strainCut, inner);
  }

  /** The tolerance test commutes with mask indexing. */
  lemma {:induction false} SelectToleranceMask(t: Trend, strain: seq<real>, stress: seq<real>, eps: real, mask: seq<bool>)
    requires |strain| == |stress| == |mask|
    ensures ToleranceMask(Predict(t, Select(strain, mask)), Select(stress, mask), eps) ==
            Select(ToleranceMask(Predict(t, strain), stress, eps), mask)
  {
  }

  /** Whatever the pass, the linear limit's stress and strain belong to one sample. */
  lemma {:induction false} LinearLimitIsSample(t: Trend, strain: seq<real>, stress: seq<real>, eps: real, rangeMax: real, rp02: real)
    requires |strain| == |stress|
    ensures var r := LinearLimit(t, strain, stress, eps, rangeMax, rp02);
            r.Ok? ==> exists i :: 0 <= i < |strain| && r.value == Point(strain[i], stress[i])
  {
    var first := FirstPass(t, strain, stress, eps);
    if first.Ok? && first.value.stress > rp02 {
      SecondPassIsSample(t, strain, stress, eps, rangeMax);
    } else {
      LastMatchIsSample(strain, stress, ToleranceMask(Predict(t, strain), stress, eps));
    }
  }

  /** A search that finds something finds a sample. */
  lemma {:induction false} LastMatchIsSample(strain: seq<real>, stress: seq<real>, mask: seq<bool>)
    requires |strain| == |stress| == |mask|
    ensures LastMatch(strain, stress, mask).Ok? ==>
              exists i :: 0 <= i < |strain| && LastMatch(strain, stress, mask).value == Point(strain[i], stress[i])
  {
    LastMatchIsLast(strain, stress, mask);
  }

  /** The second pass, searching the cut curve, finds a sample of the whole curve. */
  lemma {:induction false} SecondPassIsSample(t: Trend, strain: seq<real>, stress: seq<real>, eps: real, rangeMax: real)
    requires |strain| == |stress|
    ensures var r := SecondPass(t, strain, stress, eps, rangeMax);
            r.Ok? ==> exists i :: 0 <= i < |strain| && r.value == Point(strain[i], stress[i])
  {
    var cut := Less(strain, rangeMax);
    var strainCut := Select(strain, cut);
    var stressCut := Select(stress, cut);
    var r := SecondPass(t, strain, stress, eps, rangeMax);
    if r.Ok? {
      var predicted := Predict(t, Select(strainCut, Less(strainCut, InnerStrainLimit)));
      var mask := if |predicted| == |stressCut| then ToleranceMask(predicted, stressCut, eps)
                  else ToleranceMask(seq(|stressCut|, _ => predicted[0]), stressCut, eps);
      LastMatchIsSample(strainCut, stressCut, mask);
      var k :| 0 <= k < |strainCut| && r.value == Point(strainCut[k], stressCut[k]);
      var i := Where(cut)[k];
      assert r.value == Point(strain[i], stress[i]);
    }
  }


  // Shifting the strains.

  /** `strainEng += strain0`, with `strain0 = stressEng[0] / YoungsModulus`: the curve is moved
      so that the elastic line through the first sample starts at zero strain. */
  function StrainOffset(stress: seq<real>, modulus: real): (r: Result<real>)
    ensures r.Ok? <==> |stress| > 0 && modulus != 0.0
    ensures r.Ok? ==> r.value * modulus == stress[0]
  {
    if |stress| == 0 then Err(EmptyData)
    else if modulus == 0.0 then Err(Failure.NonFinite)
    else Ok(stress[0] / modulus)
  }

  /** A uniform shift keeps the length and the spacing of the strains. */
  lemma {:induction false} ShiftKeepsDifferences(s: seq<real>, c: real)
    ensures |Shift(s, c)| == |s|
    ensures Differences(Shift(s, c)) == Differences(s)
  {
    if |s| > 0 {
      var d, d' := Differences(Shift(s, c)), Differences(s);
      forall i | 0 <= i < |s| - 1 ensures d[i] == d'[i] {
        assert Shift(s, c)[i + 1] - Shift(s, c)[i] == s[i + 1] - s[i];
      }
    }
  }
}

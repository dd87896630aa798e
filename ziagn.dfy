/** The record of one uniaxial tensile test: the measured displacement and force, the
    quantities derived from them step by step, and the per-test summary row of a test
    report. */
module Ziagn {
  import opened Errors
  import opened Arrays
  import opened LinearFit
  import opened StressStrain

  // The unit conversion.

  /** The measured columns with their unit tags. */
  datatype Readings = Readings(disp: seq<real>, force: seq<real>, dispUnit: string, forceUnit: string)

  /** The conversion to the "MPa" system as written: displacements in metres become
      millimetres, and forces in kilonewtons are multiplied by 1000, but that branch
      retags the displacement and leaves the force tagged "kN". Any other system leaves the
      readings alone. */
  function ChangedUnits(r: Readings, unitSystem: string): (r': Readings)
    ensures |r'.disp| == |r.disp| && |r'.force| == |r.force|
    ensures r'.forceUnit == r.forceUnit
    ensures unitSystem != "MPa" ==> r' == r
    ensures unitSystem == "MPa" ==> r'.dispUnit != "m"
    ensures unitSystem == "MPa" && r.dispUnit != "m" ==> r'.disp == r.disp
    ensures unitSystem == "MPa" && r.forceUnit != "kN" ==> r'.force == r.force
    ensures unitSystem == "MPa" && (r.dispUnit == "m" || r.forceUnit == "kN") ==> r'.dispUnit == "mm"
    ensures unitSystem == "MPa" && r.dispUnit != "m" && r.forceUnit != "kN" ==> r' == r
  {
    if unitSystem != "MPa" then r
    else
      var r1 := if r.dispUnit == "m" then r.(disp := Scale(r.disp, 1000.0), dispUnit := "mm") else r;
      if r1.forceUnit == "kN" then r1.(force := Scale(r1.force, 1000.0), dispUnit := "mm") else r1
  }

  /** Displacements in metres are converted once: a repeated conversion leaves them alone. */
  lemma MetresConvertOnce(r: Readings)
    ensures r.dispUnit == "m" ==> ChangedUnits(r, "MPa").disp == Scale(r.disp, 1000.0)
    ensures ChangedUnits(ChangedUnits(r, "MPa"), "MPa").disp == ChangedUnits(r, "MPa").disp
  {
  }

  /** Forces in kilonewtons keep their tag, so every conversion multiplies them by 1000 again. */
  lemma KilonewtonsScaleEveryTime(r: Readings)
    requires r.forceUnit == "kN"
    ensures ChangedUnits(r, "MPa").force == Scale(r.force, 1000.0)
    ensures ChangedUnits(r, "MPa").forceUnit == "kN" && ChangedUnits(r, "MPa").dispUnit == "mm"
    ensures ChangedUnits(ChangedUnits(r, "MPa"), "MPa").force == Scale(Scale(r.force, 1000.0), 1000.0)
  {
  }

  // The modulus loop.

  /** Fills a zeroed array with the slope between each pair of consecutive samples. */
  method FiniteDifferences(stress: seq<real>, strain: seq<real>, n: nat) returns (modulus: seq<Quotient>)
    requires 1 <= n <= |stress| && n <= |strain|
    ensures modulus == ModulusProfile(stress, strain, n)
  {
    ghost var profile := ModulusProfile(stress, strain, n);
    var a := new Quotient[n - 1](_ => Finite(0.0));
    for i := 0 to n - 1
      invariant a[..i] == profile[..i]
    {
      a[i] := Divide(stress[i + 1] - stress[i], strain[i + 1] - strain[i]);
      assert a[..i + 1] == a[..i] + [profile[i]];
    }
    assert a[..] == a[..n - 1];
    modulus := a[..];
  }

  // The example data set.

  const ExampleSamples: nat := 10001

  function ExampleForce(): seq<real>
  {
    Linspace(0.0, 1000.0, ExampleSamples)
  }

  function ExampleDisp(): seq<real>
  {
    Linspace(0.0, 1.0, ExampleSamples)
  }

  /** The engineering stress and strain of the example, with its 10 mm² section and 10 mm gauge. */
  function ExampleStress(): seq<real>
  {
    DivideBy(ExampleForce(), 10.0)
  }

  function ExampleStrain(): seq<real>
  {
    DivideBy(ExampleDisp(), 10.0)
  }

  /** In the example, stress is 1000 times strain at every sample, strain `i / 100000`. */
  lemma ExampleStressIsLinear()
    ensures |ExampleStress()| == |ExampleStrain()| == ExampleSamples
    ensures forall i :: 0 <= i < ExampleSamples ==>
              ExampleStrain()[i] == (i as real) / 100000.0 && ExampleStress()[i] == 1000.0 * ExampleStrain()[i]
  {
    var stress, strain := ExampleStress(), ExampleStrain();
    forall i | 0 <= i < ExampleSamples
      ensures strain[i] == (i as real) / 100000.0 && stress[i] == 1000.0 * strain[i]
    {
      assert ExampleDisp()[i] == (i as real) / 10000.0;
      assert ExampleForce()[i] == (i as real) / 10.0;
    }
  }

  /** The example peaks at its last sample only: 100 MPa at a strain of 0.1. */
  lemma ExampleUltimate()
    ensures UltimateStress(ExampleStress()) == Ok(100.0)
    ensures StrainsAt(ExampleStrain(), ExampleStress(), 100.0) == [0.1]
  {
    ExampleStressIsLinear();
    var stress, strain := ExampleStress(), ExampleStrain();
    var last := ExampleSamples - 1;
    var m := Max(stress);
    assert stress[last] == 100.0;
    var j :| 0 <= j < |stress| && stress[j] == m;
    assert m == 100.0;
    var mask := Equal(stress, 100.0);
    var w := Where(mask);
    WhereComplete(mask, last);
    forall k | 0 <= k < |w| ensures w[k] == last {
      assert mask[w[k]];
    }
    if |w| > 1 {
      WhereIncreasing(mask, 0, 1);
    }
    assert StrainsAt(strain, stress, 100.0) == [strain[last]];
  }

  /** On the example, the trend fitted over strains strictly between 0 and 0.1 is exactly
      `1000 * strain`, so the Young's modulus is 1000 MPa. */
  lemma ExampleYoungsModulus()
    ensures ElasticFit(ExampleStrain(), ExampleStress(), 0.0, 0.1) == Ok(Trend(1000.0, 0.0))
    ensures YoungsModulus(Trend(1000.0, 0.0), 0.0, 0.1) == 1000.0
  {
    ExampleOnLine();
    ExampleWindowVaries();
    ElasticFitOfLine(ExampleStrain(), ExampleStress(), 0.0, 0.1, 1000.0, 0.0);
  }

  lemma ExampleOnLine()
    ensures |ExampleStress()| == |ExampleStrain()|
    ensures OnLine(ExampleStrain(), ExampleStress(), 1000.0, 0.0)
  {
    ExampleStressIsLinear();
  }

  /** The default window holds the second and third samples, whose strains differ. */
  lemma ExampleWindowVaries()
    ensures |ExampleStrain()| == ExampleSamples
    ensures Varies(Select(ExampleStrain(), Band(ExampleStrain(), 0.0, 0.1)))
  {
    ExampleStressIsLinear();
    var strain := ExampleStrain();
    var band := Band(strain, 0.0, 0.1);
    var w := Where(band);
    var xs := Select(strain, band);
    assert strain[1] == 0.00001 && strain[2] == 0.00002;
    WhereComplete(band, 1);
    WhereComplete(band, 2);
    var k1 :| 0 <= k1 < |w| && w[k1] == 1;
    var k2 :| 0 <= k2 < |w| && w[k2] == 2;
    assert xs[k1] == strain[1] && xs[k2] == strain[2];
  }

  /** On the example, the trend moved right by the 0.2% offset lies 2 MPa below every sample,
      so the gap never changes sign and no proof stress is found. */
  lemma ExampleHasNoRp02()
    ensures Rp02(Trend(1000.0, 0.0), ExampleStrain(), ExampleStress()) == Err(NoMatch)
  {
    ExampleStressIsLinear();
    var t, stress, strain := Trend(1000.0, 0.0), ExampleStress(), ExampleStrain();
    var g := OffsetGap(t, strain, stress);
    forall i | 0 <= i < |g| ensures g[i] == -2.0 {
    }
    Rp02IsFirstCrossing(t, strain, stress);
  }

  /** The record of a test, one field per attribute. An attribute the program has not yet
      assigned is `None`. */
  class UniaxialTensileTest {
    var testMachine: seq<string>
    var title: string
    var titel: Option<string>
    var area0: real
    var length0: real
    var fileFormat: Option<string>

    var nSamples: Option<nat>
    var disp: Option<seq<real>>
    var force: Option<seq<real>>
    var dispUnit: Option<string>
    var forceUnit: Option<string>

    var nSamplesAll: Option<nat>
    var dispAll: Option<seq<real>>
    var forceAll: Option<seq<real>>
    var forceRaw: Option<seq<real>>

    var stressEng: Option<seq<real>>
    var strainEng: Option<seq<real>>
    var stressTrue: Option<seq<real>>
    var area: Option<seq<Quotient>>
    var elasticModulus: Option<seq<Quotient>>
    var elasticTrend: Option<Trend>
    var youngsModulus: Option<real>
    var stressUltimate: Option<real>
    var strainUltimate: Option<seq<real>>
    var stressRp02: Option<real>
    var strainRp02: Option<real>
    var stressLinLimit: Option<real>
    var strainLinLimit: Option<real>
    var strain0: Option<real>

    /** The measured columns, their count and their tags are assigned together, and the
        count is the length of both columns; likewise for the copies kept by a cut. */
    predicate Valid()
      reads this
    {
      && (disp.Some? <==> force.Some?)
      && (disp.Some? <==> nSamples.Some?)
      && (disp.Some? <==> dispUnit.Some?)
      && (disp.Some? <==> forceUnit.Some?)
      && (disp.Some? ==> |disp.value| == |force.value| == nSamples.value)
      && (dispAll.Some? <==> forceAll.Some?)
      && (dispAll.Some? <==> nSamplesAll.Some?)
      && (dispAll.Some? ==> |dispAll.value| == |forceAll.value| == nSamplesAll.value)
    }

    /** The measured columns and their tags. */
    function Measured(): Readings
      reads this
      requires disp.Some? && force.Some? && dispUnit.Some? && forceUnit.Some?
    {
      Readings(disp.value, force.value, dispUnit.value, forceUnit.value)
    }

    /** A new record; the test machine named is not kept, the list of machines starts empty. */
    constructor(testMachineName: string := "unibz MTS E0.10", title: string := "",
                length0: real := 10.0, area0: real := 10.0)
      ensures Valid()
      ensures this.title == title && this.length0 == length0 && this.area0 == area0
      ensures testMachine == [] && titel.None? && fileFormat.None?
      ensures nSamples.None? && disp.None? && force.None? && dispUnit.None? && forceUnit.None?
      ensures nSamplesAll.None? && dispAll.None? && forceAll.None? && forceRaw.None?
      ensures stressEng.None? && strainEng.None? && stressTrue.None? && area.None?
      ensures elasticModulus.None? && elasticTrend.None? && youngsModulus.None?
      ensures stressUltimate.None? && strainUltimate.None? && stressRp02.None? && strainRp02.None?
      ensures stressLinLimit.None? && strainLinLimit.None? && strain0.None?
    {
      this.area0 := area0;
      testMachine := [];
      this.title := title;
      this.length0 := length0;
      titel := None;
      fileFormat := None;
      nSamples, disp, force, dispUnit, forceUnit := None, None, None, None, None;
      nSamplesAll, dispAll, forceAll, forceRaw := None, None, None, None;
      stressEng, strainEng, stressTrue, area := None, None, None, None;
      elasticModulus, elasticTrend, youngsModulus := None, None, None;
      stressUltimate, strainUltimate, stressRp02, strainRp02 := None, None, None, None;
      stressLinLimit, strainLinLimit, strain0 := None, None, None;
    }

    /** Loads a synthetic test: 10001 samples of a force rising evenly to 1000 N over a
        displacement rising evenly to 1 mm, on a 10 mm gauge of 10 mm² section. The title
        goes to a separate, misspelt attribute. */
    method LoadExample()
      modifies this`area0, this`length0, this`nSamples, this`force, this`disp
      modifies this`forceUnit, this`dispUnit, this`titel
      requires Valid()
      ensures Valid()
      ensures area0 == 10.0 && length0 == 10.0 && nSamples == Some(ExampleSamples)
      ensures force == Some(ExampleForce()) && disp == Some(ExampleDisp())
      ensures forceUnit == Some("N") && dispUnit == Some("mm")
      ensures titel == Some("Simple test case")
    {
      area0 := 10.0;
      length0 := 10.0;
      nSamples := Some(ExampleSamples);
      force := Some(ExampleForce());
      disp := Some(ExampleDisp());
      forceUnit := Some("N");
      dispUnit := Some("mm");
      titel := Some("Simple test case");
    }

    /** Converts the measured columns to the given unit system; only "MPa" has an effect. */
    method ChangeUnits(unitSystem: string := "MPa")
      modifies this`disp, this`force, this`dispUnit
      requires Valid()
      requires unitSystem == "MPa" ==> disp.Some?
      ensures Valid()
      ensures unitSystem != "MPa" ==> disp == old(disp) && force == old(force) && dispUnit == old(dispUnit)
      ensures unitSystem == "MPa" ==> Measured() == ChangedUnits(old(Measured()), unitSystem)
    {
      if unitSystem == "MPa" {
        if dispUnit.value == "m" {
          disp := Some(Scale(disp.value, 1000.0));
          dispUnit := Some("mm");
        }
        if forceUnit.value == "kN" {
          force := Some(Scale(force.value, 1000.0));
          dispUnit := Some("mm");
        }
      }
    }

    /** `Force / Area0`. A zero section would fill the array with infinities; that is
        reported and nothing is stored. */
    method CalcStressEng() returns (o: Outcome)
      modifies this`stressEng
      requires force.Some?
      ensures area0 == 0.0 ==> o == Fail(Failure.NonFinite) && stressEng == old(stressEng)
      ensures area0 != 0.0 ==> o == Pass && stressEng == Some(DivideBy(force.value, area0))
    {
      if area0 == 0.0 {
        return Fail(Failure.NonFinite);
      }
      stressEng := Some(DivideBy(force.value, area0));
      return Pass;
    }

    /** `disp / length0`, with the same treatment of a zero gauge length. */
    method CalcStrainEng() returns (o: Outcome)
      modifies this`strainEng
      requires disp.Some?
      ensures length0 == 0.0 ==> o == Fail(Failure.NonFinite) && strainEng == old(strainEng)
      ensures length0 != 0.0 ==> o == Pass && strainEng == Some(DivideBy(disp.value, length0))
    {
      if length0 == 0.0 {
        return Fail(Failure.NonFinite);
      }
      strainEng := Some(DivideBy(disp.value, length0));
      return Pass;
    }

    /** `stressEng * (1 + strainEng)`; columns of different lengths do not combine and
        nothing is stored. */
    method CalcStressTrue() returns (o: Outcome)
      modifies this`stressTrue
      requires stressEng.Some? && strainEng.Some?
      ensures |stressEng.value| != |strainEng.value| ==> o == Fail(ShapeMismatch) && stressTrue == old(stressTrue)
      ensures |stressEng.value| == |strainEng.value| ==>
                o == Pass && stressTrue == Some(TrueStress(stressEng.value, strainEng.value))
    {
      if |stressEng.value| != |strainEng.value| {
        return Fail(ShapeMismatch);
      }
      stressTrue := Some(TrueStress(stressEng.value, strainEng.value));
      return Pass;
    }

    method CalcArea()
      modifies this`area
      requires strainEng.Some?
      ensures area == Some(CurrentArea(area0, strainEng.value))
    {
      area := Some(CurrentArea(area0, strainEng.value));
    }

    /** The slope between consecutive samples, the elastic trend fitted over the strains
        strictly between `strain0` and `strain1`, and the Young's modulus read off it. The
        modulus array is stored before the fit is attempted. */
    method CalcElasticModulus(strain0: real := 0.0, strain1: real := 0.1) returns (o: Outcome)
      modifies this`elasticModulus, this`elasticTrend, this`youngsModulus
      requires nSamples.Some? && stressEng.Some? && strainEng.Some?
      requires |stressEng.value| == |strainEng.value| && nSamples.value <= |stressEng.value|
      ensures nSamples.value == 0 ==> o == Fail(EmptyData) && elasticModulus == old(elasticModulus)
      ensures nSamples.value > 0 ==>
                elasticModulus == Some(ModulusProfile(stressEng.value, strainEng.value, nSamples.value))
      ensures var fit := ElasticFit(strainEng.value, stressEng.value, strain0, strain1);
              nSamples.value > 0 ==>
                && (fit.Err? ==> o == Fail(fit.error) && elasticTrend == old(elasticTrend)
                                 && youngsModulus == old(youngsModulus))
                && (fit.Ok? ==> o == Pass && strain0 < strain1 && elasticTrend == Some(fit.value)
                                && youngsModulus == Some(fit.value.slope))
      ensures nSamples.value == 0 ==> elasticTrend == old(elasticTrend) && youngsModulus == old(youngsModulus)
    {
      var n, stress, strain := nSamples.value, stressEng.value, strainEng.value;
      if n == 0 {
        return Fail(EmptyData);
      }
      var profile := FiniteDifferences(stress, strain, n);
      elasticModulus := Some(profile);
      var fit := ElasticFit(strain, stress, strain0, strain1);
      if fit.Err? {
        assert strainEng.value == strain && stressEng.value == stress;
        return Fail(fit.error);
      }
      ElasticFitBounds(strain, stress, strain0, strain1);
      var e := YoungsModulus(fit.value, strain0, strain1);
      elasticTrend := Some(fit.value);
      youngsModulus := Some(e);
      assert strainEng.value == strain && stressEng.value == stress;
      return Pass;
    }

    /** The greatest engineering stress and the strains of all samples that reach it. The
        maximum is stored before the strains are looked up, and the lookup fails when the
        strain column is too short for the indices found. */
    method CalcStressUltimate() returns (o: Outcome)
      modifies this`stressUltimate, this`strainUltimate
      requires stressEng.Some? && strainEng.Some?
      ensures |stressEng.value| == 0 ==>
                o == Fail(EmptyData) && stressUltimate == old(stressUltimate) && strainUltimate == old(strainUltimate)
      ensures |stressEng.value| > 0 ==>
              var r := StrainsWhere(strainEng.value, stressEng.value, Max(stressEng.value));
                && stressUltimate == Some(Max(stressEng.value))
                && (r.Err? ==> o == Fail(r.error) && strainUltimate == old(strainUltimate))
                && (r.Ok? ==> o == Pass && strainUltimate == Some(r.value))
      ensures |stressEng.value| > 0 && |stressEng.value| == |strainEng.value| ==>
                o == Pass && strainUltimate == Some(StrainsAt(strainEng.value, stressEng.value, Max(stressEng.value)))
    {
      var stress, strain := stressEng.value, strainEng.value;
      var u := UltimateStress(stress);
      if u.Err? {
        return Fail(u.error);
      }
      stressUltimate := Some(u.value);
      var r := StrainsWhere(strain, stress, u.value);
      if r.Err? {
        return Fail(r.error);
      }
      strainUltimate := Some(r.value);
      return Pass;
    }

    /** The 0.2% proof stress and its strain, from the first sign change of the gap between
        the offset elastic trend and the curve. */
    method CalcRp02() returns (o: Outcome)
      modifies this`stressRp02, this`strainRp02
      requires elasticTrend.Some? && stressEng.Some? && strainEng.Some?
      ensures |stressEng.value| != |strainEng.value| ==>
                o == Fail(ShapeMismatch) && stressRp02 == old(stressRp02) && strainRp02 == old(strainRp02)
      ensures |stressEng.value| == |strainEng.value| ==>
              var r := Rp02(elasticTrend.value, strainEng.value, stressEng.value);
                && (r.Err? ==> o == Fail(r.error) && stressRp02 == old(stressRp02) && strainRp02 == old(strainRp02))
                && (r.Ok? ==> o == Pass && stressRp02 == Some(r.value.stress) && strainRp02 == Some(r.value.strain))
    {
      if |stressEng.value| != |strainEng.value| {
        return Fail(ShapeMismatch);
      }
      var r := Rp02(elasticTrend.value, strainEng.value, stressEng.value);
      if r.Err? {
        return Fail(r.error);
      }
      stressRp02 := Some(r.value.stress);
      strainRp02 := Some(r.value.strain);
      return Pass;
    }

    /** The limit of proportionality. The first pass is stored before the second pass runs,
        so a failing second pass leaves the first pass's sample in place. */
    method CalcLinearLimit(eps: real := 0.025, strainRangeMax: real := 0.02) returns (o: Outcome)
      modifies this`stressLinLimit, this`strainLinLimit
      requires elasticTrend.Some? && stressEng.Some? && strainEng.Some? && stressRp02.Some?
      ensures |stressEng.value| != |strainEng.value| ==>
                o == Fail(ShapeMismatch) && stressLinLimit == old(stressLinLimit) && strainLinLimit == old(strainLinLimit)
      ensures |stressEng.value| == |strainEng.value| ==>
              var first := FirstPass(elasticTrend.value, strainEng.value, stressEng.value, eps);
              first.Err? ==>
                o == Fail(first.error) && stressLinLimit == old(stressLinLimit) && strainLinLimit == old(strainLinLimit)
      ensures |stressEng.value| == |strainEng.value| ==>
              var r := LinearLimit(elasticTrend.value, strainEng.value, stressEng.value, eps,
                                   strainRangeMax, stressRp02.value);
              && (r.Ok? ==> o == Pass && stressLinLimit == Some(r.value.stress) && strainLinLimit == Some(r.value.strain))
              && (r.Err? ==> o == Fail(r.error))
      ensures |stressEng.value| == |strainEng.value| ==>
              var first := FirstPass(elasticTrend.value, strainEng.value, stressEng.value, eps);
              var r := LinearLimit(elasticTrend.value, strainEng.value, stressEng.value, eps,
                                   strainRangeMax, stressRp02.value);
              first.Ok? && r.Err? ==>
                stressLinLimit == Some(first.value.stress) && strainLinLimit == Some(first.value.strain)
    {
      if |stressEng.value| != |strainEng.value| {
        return Fail(ShapeMismatch);
      }
      var t, strain, stress := elasticTrend.value, strainEng.value, stressEng.value;
      var first := FirstPass(t, strain, stress, eps);
      if first.Err? {
        return Fail(first.error);
      }
      stressLinLimit := Some(first.value.stress);
      strainLinLimit := Some(first.value.strain);
      if first.value.stress > stressRp02.value {
        var second := SecondPass(t, strain, stress, eps, strainRangeMax);
        if second.Err? {
          return Fail(second.error);
        }
        stressLinLimit := Some(second.value.stress);
        strainLinLimit := Some(second.value.strain);
      }
      return Pass;
    }

    /** Keeps the unfiltered force and takes the smoothed one; the Savitzky-Golay filter
        itself is supplied by the caller. */
    method SmoothForce(smoothed: seq<real>)
      modifies this`forceRaw, this`force
      requires Valid() && force.Some? && |smoothed| == |force.value|
      ensures Valid()
      ensures forceRaw == old(force) && force == Some(smoothed)
    {
      forceRaw := force;
      force := Some(smoothed);
    }

    /** Cutting by displacement keeps the samples whose displacement is below `value`,
        after saving the uncut columns and count. Any other parameter does nothing. */
    method CutData(parameter: string, value: real)
      modifies this`disp, this`force, this`nSamples, this`dispAll, this`forceAll, this`nSamplesAll
      requires Valid()
      requires parameter == "disp" ==> disp.Some?
      ensures Valid()
      ensures parameter != "disp" ==>
                && disp == old(disp) && force == old(force) && nSamples == old(nSamples)
                && dispAll == old(dispAll) && forceAll == old(forceAll) && nSamplesAll == old(nSamplesAll)
      ensures parameter == "disp" ==>
                && dispAll == old(disp) && forceAll == old(force) && nSamplesAll == old(nSamples)
                && disp == Some(Select(old(disp).value, Less(old(disp).value, value)))
                && force == Some(Select(old(force).value, Less(old(disp).value, value)))
                && (forall i :: 0 <= i < |disp.value| ==> disp.value[i] < value)
    {
      if parameter == "disp" {
        var d, f := disp.value, force.value;
        var keep := Less(d, value);
        SelectLessBelow(d, value);
        dispAll, forceAll, nSamplesAll := disp, force, nSamples;
        disp := Some(Select(d, keep));
        force := Some(Select(f, keep));
        nSamples := Some(|Select(d, keep)|);
      }
    }

    /** Takes the two columns of a test file. The tags are set to "mm" and "kN" whatever
        units the caller names. */
    method ImportTestData(dispColumn: seq<real>, forceColumn: seq<real>, fileFormat: string := "MTScsv",
                          givenForceUnit: string := "N", givenDispUnit: string := "mm")
      modifies this`fileFormat, this`disp, this`force, this`dispUnit, this`forceUnit, this`nSamples
      requires Valid() && |dispColumn| == |forceColumn|
      ensures Valid()
      ensures this.fileFormat == Some(fileFormat) && nSamples == Some(|dispColumn|)
      ensures Measured() == Readings(dispColumn, forceColumn, "mm", "kN")
    {
      this.fileFormat := Some(fileFormat);
      disp := Some(dispColumn);
      dispUnit := Some("mm");
      force := Some(forceColumn);
      forceUnit := Some("kN");
      nSamples := Some(|dispColumn|);
    }

    /** Moves the curve along the strain axis so that the elastic line through the first
        sample starts at zero strain. An empty curve or a zero modulus stores nothing. */
    method ZeroStrain() returns (o: Outcome)
      modifies this`strain0, this`strainEng
      requires stressEng.Some? && strainEng.Some? && youngsModulus.Some?
      ensures var off := StrainOffset(stressEng.value, youngsModulus.value);
              && (off.Err? ==> o == Fail(off.error) && strain0 == old(strain0) && strainEng == old(strainEng))
              && (off.Ok? ==> o == Pass && strain0 == Some(off.value)
                              && strainEng == Some(Shift(old(strainEng).value, off.value)))
      ensures o.Pass? ==>
                |strainEng.value| == |old(strainEng).value| && Differences(strainEng.value) == Differences(old(strainEng).value)
    {
      var off := StrainOffset(stressEng.value, youngsModulus.value);
      if off.Err? {
        return Fail(off.error);
      }
      ShiftKeepsDifferences(strainEng.value, off.value);
      strain0 := Some(off.value);
      strainEng := Some(Shift(strainEng.value, off.value));
      return Pass;
    }
  }

  // The summary table.

  /** One test's line of the summary table. */
  datatype SummaryRow = SummaryRow(test: string, youngsModulus: real, initialStress: real,
                                   linearLimitStress: real, rp02: real, ultimateStress: real,
                                   breakingStress: real, breakingStrain: real)

  /** The summary table column by column, each column listing one value per test. */
  datatype SummaryTable = SummaryTable(test: seq<string>, youngsModulus: seq<real>, initialStress: seq<real>,
                                       linearLimitStress: seq<real>, rp02: seq<real>, ultimateStress: seq<real>,
                                       breakingStress: seq<real>, breakingStrain: seq<real>)

  /** A test whose summary values have all been computed. */
  predicate Assigned(t: UniaxialTensileTest)
    reads t
  {
    && t.youngsModulus.Some? && t.stressLinLimit.Some? && t.stressRp02.Some? && t.stressUltimate.Some?
    && t.stressEng.Some? && t.strainEng.Some?
  }

  /** A test whose curve has a first and a last sample to report. */
  predicate Reportable(t: UniaxialTensileTest)
    reads t
    requires Assigned(t)
  {
    |t.stressEng.value| > 0 && |t.strainEng.value| > 0
  }

  /** What one test contributes: its title, its modulus, its first and last stresses, its last
      strain and its characteristic stresses. */
  function Row(t: UniaxialTensileTest): SummaryRow
    reads t
    requires Assigned(t) && Reportable(t)
  {
    var stress, strain := t.stressEng.value, t.strainEng.value;
    SummaryRow(t.title, t.youngsModulus.value, stress[0], t.stressLinLimit.value, t.stressRp02.value,
               t.stressUltimate.value, stress[|stress| - 1], strain[|strain| - 1])
  }

  /** The `k`-th line of a table read across its columns. */
  function Line(table: SummaryTable, k: nat): SummaryRow
    requires k < |table.test| && k < |table.youngsModulus| && k < |table.initialStress|
    requires k < |table.linearLimitStress| && k < |table.rp02| && k < |table.ultimateStress|
    requires k < |table.breakingStress| && k < |table.breakingStrain|
  {
    SummaryRow(table.test[k], table.youngsModulus[k], table.initialStress[k], table.linearLimitStress[k],
               table.rp02[k], table.ultimateStress[k], table.breakingStress[k], table.breakingStrain[k])
  }

  /** The table built one column at a time: every column has one entry per test, and line
      `k` across the columns is the row of test `k`. A test with an empty curve has no first
      or last sample, and then no table is built. */
  function Summary(tests: seq<UniaxialTensileTest>): (table: Result<SummaryTable>)
    reads set t | t in tests
    requires forall t :: t in tests ==> Assigned(t)
    ensures table.Ok? <==> forall k :: 0 <= k < |tests| ==> Reportable(tests[k])
    ensures table.Err? ==> table == Err(EmptyData)
    ensures table.Ok? ==>
              && |table.value.test| == |table.value.youngsModulus| == |table.value.initialStress| == |tests|
              && |table.value.linearLimitStress| == |table.value.rp02| == |table.value.ultimateStress| == |tests|
              && |table.value.breakingStress| == |table.value.breakingStrain| == |tests|
              && forall k :: 0 <= k < |tests| ==> Line(table.value, k) == Row(tests[k])
  {
    if exists k :: 0 <= k < |tests| && !Reportable(tests[k]) then Err(EmptyData)
    else
      Ok(SummaryTable(
        seq(|tests|, k requires 0 <= k < |tests| && Assigned(tests[k]) && Reportable(tests[k]) reads set t | t in tests => tests[k].title),
        seq(|tests|, k requires 0 <= k < |tests| && Assigned(tests[k]) && Reportable(tests[k]) reads set t | t in tests => tests[k].youngsModulus.value),
        seq(|tests|, k requires 0 <= k < |tests| && Assigned(tests[k]) && Reportable(tests[k]) reads set t | t in tests => tests[k].stressEng.value[0]),
        seq(|tests|, k requires 0 <= k < |tests| && Assigned(tests[k]) && Reportable(tests[k]) reads set t | t in tests => tests[k].stressLinLimit.value),
        seq(|tests|, k requires 0 <= k < |tests| && Assigned(tests[k]) && Reportable(tests[k]) reads set t | t in tests => tests[k].stressRp02.value),
        seq(|tests|, k requires 0 <= k < |tests| && Assigned(tests[k]) && Reportable(tests[k]) reads set t | t in tests => tests[k].stressUltimate.value),
        seq(|tests|, k requires 0 <= k < |tests| && Assigned(tests[k]) && Reportable(tests[k]) reads set t | t in tests =>
          tests[k].stressEng.value[|tests[k].stressEng.value| - 1]),
        seq(|tests|, k requires 0 <= k < |tests| && Assigned(tests[k]) && Reportable(tests[k]) reads set t | t in tests =>
          tests[k].strainEng.value[|tests[k].strainEng.value| - 1])))
  }
}

# pyZiagn tensile-test analysis in Dafny

This project models the computational core of pyZiagn, in `pyZiagn/ziagn.py`. It covers
the class `uniaxialTensileTest` and the row projection done by `export2Excel`.

A tensile test record holds the measured displacement and force columns with their unit
tags. Its methods derive, in place and one step at a time:

- the engineering stress and strain, the true stress and the current cross-section;
- the slope between consecutive samples;
- a least-squares elastic trend over a strain window, and the Young's modulus read off it;
- the ultimate stress with the strains that reach it;
- the 0.2% proof stress (Rp0.2), where the trend offset by 0.002 strain crosses the curve;
- the limit of proportionality, found by a two-pass tolerance search;
- the optional smoothing, cutting and zero-strain corrections.

A summary table lists one row per test.

Files, one module each:

- `errors.dfy` (`Errors`): `Option`, `Result` and `Outcome`, and the `Failure` reasons.
- `arrays.dfy` (`Arrays`): the numpy operations the source uses, on `seq<real>`.
  - Boolean-mask indexing is `Select`, with `Where` as `np.where`.
  - Also: comparisons, elementwise arithmetic, `linspace`, `max` and sums.
  - `Divide` gives a `Quotient` that is `NonFinite` where IEEE division would give inf or NaN.
- `fit.dfy` (`LinearFit`): `np.polyfit(x, y, 1)` in closed form. It proves that the fit solves
  the normal equations, is unique, exists exactly when the abscissae vary, and recovers a line.
- `stress_strain.dfy` (`StressStrain`): every derivation and search as a pure function of the
  arrays, and the lemmas that say what each search finds.
- `ziagn.dfy` (`Ziagn`):
  - the class `UniaxialTensileTest`, with one field per attribute; an attribute the program
    has not yet assigned is `None`;
  - its methods, each specified by the functions of `StressStrain`;
  - the summary table;
  - facts about the built-in example data set.

Reals are exact: the model has no rounding. An elementwise quotient that IEEE
arithmetic would make infinite or NaN is stored as a `NonFinite` entry: the current
cross-section (`CalcArea`) and the slope profile (`CalcElasticModulus`). Where the
source divides a whole column by one zero scalar (`CalcStressEng`, `CalcStrainEng`,
`ZeroStrain`), the method returns `Fail(NonFinite)` and stores nothing; see "Left out".
Columns of different lengths, which numpy refuses to combine, give `Fail(ShapeMismatch)`.

Two behaviours of the source are kept as written:

- `changeUnits` multiplies kilonewton forces by 1000 but retags the displacement rather
  than the force. A second conversion therefore scales the forces again
  (`KilonewtonsScaleEveryTime`).
- `loadExample` stores its title in a separate attribute `Titel`; the model's field is `titel`.

On the example data the offset trend lies 2 MPa below every sample, so the gap never
changes sign and the 0.2% proof-stress search finds no crossing (`ExampleHasNoRp02`). The
source then indexes an empty array and raises an index error; the model returns
`Err(NoMatch)`.

## Model

| member | source | states |
|---|---|---|
| Ziagn.UniaxialTensileTest.constructor | pyZiagn/ziagn.py:8-14 | Title, gauge length and section are stored with their defaults. The machine list starts empty; every other attribute is unset. |
| Ziagn.UniaxialTensileTest.LoadExample | pyZiagn/ziagn.py:16-24 | Stores the example: 10001 samples, force rising evenly to 1000 N, displacement to 1 mm, section and gauge 10, tags "N" and "mm", title in `titel`. |
| Ziagn.ChangedUnits | pyZiagn/ziagn.py:26-33 | Column lengths and the force tag are kept. Any system other than "MPa" changes nothing. Under "MPa", displacements not tagged "m" and forces not tagged "kN" are left as they are, readings tagged neither "m" nor "kN" are left entirely alone, either conversion retags the displacement "mm", and the displacement is never left tagged "m". |
| Ziagn.MetresConvertOnce | pyZiagn/ziagn.py:28-30 | Metre displacements are scaled by 1000 once; converting again leaves them alone. |
| Ziagn.KilonewtonsScaleEveryTime | pyZiagn/ziagn.py:31-33 | A kN force is scaled by 1000 but keeps its "kN" tag, and the displacement is tagged "mm". A second conversion scales the force by 1000 again. |
| Ziagn.UniaxialTensileTest.ChangeUnits | pyZiagn/ziagn.py:26-33 | The record's readings become `ChangedUnits` of the old readings for "MPa"; otherwise they are unchanged. The column/count invariant is kept. |
| Ziagn.UniaxialTensileTest.CalcStressEng | pyZiagn/ziagn.py:35-36 | Stores stress with `stress[i] * Area0 == Force[i]`. A zero section fails with `NonFinite` and stores nothing. |
| Arrays.DivideBy | pyZiagn/ziagn.py:35-36 | Elementwise division: same length, and each quotient times the divisor gives back the entry. |
| Ziagn.UniaxialTensileTest.CalcStrainEng | pyZiagn/ziagn.py:41-42 | Stores strain with `strain[i] * length0 == disp[i]`. A zero gauge length fails with `NonFinite` and stores nothing. |
| Ziagn.UniaxialTensileTest.CalcStressTrue | pyZiagn/ziagn.py:38-39 | Stores the true stress `stressEng * (1 + strainEng)`, with the same length as the curve. Columns of different lengths fail with `ShapeMismatch` and store nothing. |
| StressStrain.TrueStress | pyZiagn/ziagn.py:38-39 | The true stress has one entry per sample. |
| Ziagn.UniaxialTensileTest.CalcArea | pyZiagn/ziagn.py:66-67 | Stores the current cross-section of every sample. |
| StressStrain.CurrentArea | pyZiagn/ziagn.py:66-67 | One entry per sample; an entry is finite exactly when the strain is not -1. |
| StressStrain.TrueStressTimesArea | pyZiagn/ziagn.py:36-39 | Constant volume: true stress times current section gives back the measured force, wherever the section is finite. |
| Ziagn.FiniteDifferences | pyZiagn/ziagn.py:48-51 | The loop over a zeroed array yields exactly `ModulusProfile` (proved through its loop invariant). |
| StressStrain.ModulusProfile | pyZiagn/ziagn.py:48-51 | There are `nSamples - 1` slopes. Entry `i` is finite exactly when strains `i` and `i+1` differ. |
| StressStrain.ModulusOfLinearData | pyZiagn/ziagn.py:48-51 | On data with stress `k * strain + c`, every finite slope is `k`. |
| StressStrain.ShiftKeepsModulus | pyZiagn/ziagn.py:48-51 | Shifting all strains by a constant leaves every slope unchanged. |
| StressStrain.Band | pyZiagn/ziagn.py:52-55 | The window mask holds exactly where `strain0 < strain < strain1`. |
| StressStrain.ElasticWindowIsBand | pyZiagn/ziagn.py:52-55 | The two-step filter equals the single band filter: the same samples, in order, each strain paired with its own stress. |
| StressStrain.ElasticFitBounds | pyZiagn/ziagn.py:52-59 | A successful fit implies `strain0 < strain1`, so the modulus quotient is defined. |
| StressStrain.YoungsModulus | pyZiagn/ziagn.py:58-59 | The trend's rise over the window divided by its width is the fitted slope. |
| LinearFit.FitSolvesNormalEquations | pyZiagn/ziagn.py:56-57 | For the fitted line, the residuals sum to zero and are orthogonal to the abscissae (the least-squares conditions). |
| LinearFit.SolveUnique | pyZiagn/ziagn.py:56-57 | Any line satisfying the normal equations is the one the closed form returns. |
| LinearFit.FitFromNormalEquations | pyZiagn/ziagn.py:56-57 | If a fit exists, every line solving the normal equations on the data is that fit. |
| LinearFit.FitDefinedIffVaries | pyZiagn/ziagn.py:56-57 | The fit exists exactly when two abscissae differ. An empty window fails with `EmptyData`; a constant one fails with `SingularFit`. |
| LinearFit.SpreadSign | pyZiagn/ziagn.py:56-57 | The determinant of the normal equations is non-negative, and zero exactly when all abscissae are equal. |
| LinearFit.FitRecoversLine | pyZiagn/ziagn.py:56-57 | Points on a line `e * x + c` with varying abscissae are fitted by exactly that line. |
| Ziagn.UniaxialTensileTest.CalcElasticModulus | pyZiagn/ziagn.py:47-59 | Stores the slope profile and then the elastic trend and Young's modulus (the slope). A failing fit leaves trend and modulus untouched, and zero samples fail with `EmptyData`. |
| Arrays.Max | pyZiagn/ziagn.py:62 | The maximum is one of the stresses and bounds them all. |
| StressStrain.UltimateStress | pyZiagn/ziagn.py:62 | Fails with `EmptyData` exactly on an empty curve; otherwise it is the greatest stress and occurs in the curve. |
| StressStrain.UltimateStrains | pyZiagn/ziagn.py:63-64 | The strains listed are those of every sample reaching the maximum, in increasing sample order, and there is at least one. |
| Ziagn.UniaxialTensileTest.CalcStressUltimate | pyZiagn/ziagn.py:61-64 | An empty curve fails with `EmptyData` and stores nothing. Otherwise the maximum stress is stored first. Then the strains at the samples reaching it are stored, or, when the strain column is too short for those indices, the lookup fails with `ShapeMismatch`. On columns of one length it always passes with `StrainsAt`. |
| StressStrain.StrainsWhere | pyZiagn/ziagn.py:63-64 | On columns of equal length, the strains indexed by `where(stress == m)` are exactly the mask selection `StrainsAt`; the only failure is `ShapeMismatch`. |
| StressStrain.StrainsWhereInRange | pyZiagn/ziagn.py:63-64 | The lookup succeeds exactly when every sample at stress `m` has an index inside the strain column. |
| StressStrain.OffsetGap | pyZiagn/ziagn.py:70 | The array expression `trend(strain - 0.002) - stress` gives, at each sample, the trend at `strain[i] - 0.002` minus `stress[i]`. |
| StressStrain.SignChanges | pyZiagn/ziagn.py:70 | `diff(sign(g)) != 0`, built from the signs and their differences, has one entry per adjacent pair and is set exactly where the signs of the two samples differ. |
| StressStrain.Rp02IsFirstCrossing | pyZiagn/ziagn.py:69-71 | A proof stress is found exactly when the gap changes sign somewhere; otherwise the result is `NoMatch`. When found, it is the sample at the least crossing index, for strain and stress alike. |
| Ziagn.UniaxialTensileTest.CalcRp02 | pyZiagn/ziagn.py:69-71 | Stores the stress and strain of `Rp02`; on `NoMatch` it stores nothing. Columns of different lengths fail with `ShapeMismatch` and store nothing. |
| StressStrain.WithinTolerance | pyZiagn/ziagn.py:74 | The signed test `(trend - stress) / stress < eps`, with the IEEE outcome at zero stress. A positive stress at or above the trend always passes. |
| StressStrain.LastMatchIsLast | pyZiagn/ziagn.py:74-75 | A sample is found exactly when the mask selects one; it is the greatest selected index; an empty selection gives `NoMatch`. |
| StressStrain.SecondPassInRange | pyZiagn/ziagn.py:76-80 | When every strain below `strainRangeMax` is also below 0.04, the second pass is the last sample below `strainRangeMax` within tolerance. |
| StressStrain.LastMatchSelect | pyZiagn/ziagn.py:77-80 | Searching within a masked sub-curve is searching the whole curve under both masks. |
| StressStrain.InnerKeepsAll | pyZiagn/ziagn.py:77-79 | If no cut strain reaches 0.04, the inner 0.04 filter keeps every cut sample. |
| StressStrain.SelectToleranceMask | pyZiagn/ziagn.py:79-80 | The tolerance test commutes with mask indexing. |
| StressStrain.LinearLimitIsSample | pyZiagn/ziagn.py:73-80 | Whichever pass decides, the linear limit's stress and strain belong to the same sample. |
| Ziagn.UniaxialTensileTest.CalcLinearLimit | pyZiagn/ziagn.py:73-80 | Stores the result of `LinearLimit`. If the first pass fails nothing is stored. If the second pass fails, the first pass's sample stays stored. Columns of different lengths fail with `ShapeMismatch` and store nothing. |
| Ziagn.UniaxialTensileTest.SmoothForce | pyZiagn/ziagn.py:82-85 | The old force is kept as the raw force and the smoothed column replaces it. |
| Arrays.SelectLessBelow | pyZiagn/ziagn.py:92-93 | Every displacement kept by the cut is below the threshold. |
| Ziagn.UniaxialTensileTest.CutData | pyZiagn/ziagn.py:87-94 | For "disp", the uncut columns and count are saved, and both columns are filtered by `disp < value`. Every kept displacement is below `value` and the count is the new length. Any other parameter changes nothing. |
| Ziagn.UniaxialTensileTest.ImportTestData | pyZiagn/ziagn.py:96-106 | Stores the two columns, the file format and the count. The tags are "mm" and "kN" whatever the caller passes. |
| StressStrain.StrainOffset | pyZiagn/ziagn.py:109-110 | Defined exactly when there is a first sample and a non-zero modulus; the offset times the modulus is the first stress. |
| StressStrain.ShiftKeepsDifferences | pyZiagn/ziagn.py:111 | Adding the offset keeps the length and every difference between consecutive strains. |
| Ziagn.UniaxialTensileTest.ZeroStrain | pyZiagn/ziagn.py:108-111 | Stores the offset and shifts every strain by it; the strain increments are unchanged. With no first sample or a zero modulus it fails and stores nothing. |
| Ziagn.Summary | pyZiagn/ziagn.py:302-310 | A table is built exactly when every test has a non-empty stress and strain curve; otherwise the result is `EmptyData`. Every column has one entry per test. Line `k` across the columns is test `k`'s title, modulus, first stress, linear limit, Rp0.2, ultimate stress, last stress and last strain. |
| Ziagn.ExampleStressIsLinear | pyZiagn/ziagn.py:16-24 | In the example, strain `i` is `i / 100000` and stress is 1000 times strain. |
| Ziagn.ExampleUltimate | pyZiagn/ziagn.py:16-24 | The example's ultimate stress is 100 and is reached only at strain 0.1. |
| StressStrain.ElasticFitOfLine | pyZiagn/ziagn.py:52-57 | On samples lying on a line, the elastic trend over any window whose strains vary is that line. |
| StressStrain.SelectOnLine | pyZiagn/ziagn.py:52-55 | Samples on a line stay on it in any mask window. |
| Ziagn.ExampleYoungsModulus | pyZiagn/ziagn.py:16-24 | On the example, the default window 0 < strain < 0.1 fits `1000 * strain`; the Young's modulus is 1000. |
| Ziagn.ExampleHasNoRp02 | pyZiagn/ziagn.py:69-71 | On the example, the offset gap is -2 everywhere, so no proof stress is found. |
| Arrays.WhereComplete | pyZiagn/ziagn.py:63 | `np.where` lists every index whose mask entry is set. |
| Arrays.TakeWhere | pyZiagn/ziagn.py:63 | Indexing by the indices `where` returns is the same as indexing by the mask. |
| Arrays.WhereIncreasing | pyZiagn/ziagn.py:63 | `np.where` lists indices in strictly increasing order. |
| Arrays.SelectSelect | pyZiagn/ziagn.py:52-55 | Masking twice in a row is masking once by the conjunction. |

## Left out

- `calcStrainTrue` (a natural logarithm) is not modelled: the reals here have no logarithm.
- Plotting, the TikZ/PNG/SVG output and writing the spreadsheet are not modelled; `export2Excel` is modelled only as the table it builds.
- Reading the CSV file is not modelled. `ImportTestData` takes the two columns as parameters, and the file name and decimal separator are dropped.
- `SmoothForce`: the Savitzky–Golay filter (scipy) is not modelled. The smoothed column is a parameter of the same length.
- Floating-point rounding, NaN and infinities are not modelled. Arithmetic is on exact reals, so a sign or tolerance test that depends on rounding noise can end differently.
- Ziagn.UniaxialTensileTest.CalcStressEng: with a zero section the source stores an array of infinities or NaN. The model stores nothing and returns `Fail(NonFinite)`.
- Ziagn.UniaxialTensileTest.CalcStrainEng: the same for a zero gauge length.
- Ziagn.UniaxialTensileTest.ZeroStrain: with a zero modulus the source shifts by an infinity. The model fails and stores nothing. An empty curve, where the source raises an index error, fails with `EmptyData`.
- LinearFit.Fit: when all window strains are equal, `polyfit` returns a minimum-norm solution with a rank warning; the model returns `SingularFit` instead. An empty window, which is a `TypeError` in `polyfit`, is `EmptyData`.
- StressStrain.SecondPass: when the trend and stress arrays of the second pass differ in length (other than one), the source raises a broadcast error. The model returns `ShapeMismatch`, and the first pass's values stay stored.
- StressStrain.ModulusProfile: a zero strain step gives `NonFinite` rather than the IEEE inf or NaN value.
- Ziagn.UniaxialTensileTest.CalcElasticModulus requires `nSamples` to be at most the curve length, and the stress and strain arrays to have one length. The source indexes past the end when `nSamples` exceeds the curve length, for example when longer data are loaded or imported after a shorter curve was derived. It masks one column by the other when only one of stress and strain was re-derived after such a change. Neither error path is modelled.
- Ziagn.UniaxialTensileTest.CalcStressTrue: numpy broadcasts a column of length one against a longer one. The model does not broadcast and reports `ShapeMismatch` for every pair of different lengths.
- Ziagn.UniaxialTensileTest.CalcRp02: the same; a length-one column is not broadcast.
- Ziagn.UniaxialTensileTest.CalcLinearLimit: the same; a length-one column is not broadcast.
- Reading an attribute the source has not yet assigned raises `AttributeError`. The model makes it a precondition (`requires x.Some?`) of the method that reads it. `CalcLinearLimit` therefore requires a stored Rp0.2.
- The unused `TestMachine` constructor argument is kept only as the empty machine list the source stores.

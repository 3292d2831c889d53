# BHMcalc core in Dafny

This project models the computational core of BHMcalc, the "binary habitability
mechanism" calculator. BHMcalc does three things:

1. It interpolates stellar properties from Padova isochrone tables.
2. It applies piecewise physical rules for habitable zones, tides, rotation, XUV output
   and stellar winds.
3. It integrates the spin evolution of the two stars in a binary. It then derives the
   continuous habitable zone, the XUV and wind fluences, and the atmospheric mass loss
   of a planet.

Floating-point numbers are modelled as exact `real`s. Transcendental operations (`sqrt`,
`**` with a real exponent, `log10`, `sin`) come in as the fields of a `Numerics.Math`
value. The predicate `Numerics.Lawful` states the few facts about them that the proofs
use. Lemmas require it. Of the operations, only those whose divisions are defined only
because of those facts require it: `IsochroneLookup.GTRLFromLogs`,
`IsochroneLookup.StellarGTRLOf`, `IsochroneLookup.Radii` and
`IsochroneLookup.MinMaxRadius` divide by 10**logg, and `SpinEvolution.MassLossCurves`
divides by the planet radius. No other operation requires it.

Modules:

- `Wrappers`: `Option` and `Result`.
- `Numerics`: the numerical building blocks.
  - `Slinear` models `interp1d(kind='slinear')` and is `None` outside the node range.
  - Also: `Linspace`, `Arange`, Python slicing (`PySlice`), and the first/last-match
    searches that numpy boolean indexing performs.
- `BHM` (`BHM/__init__.py`): the physical constants, `ERROR_CODES`/`errorCode`, the
  `dict2obj` class with its in-place `+`, and `readArgs`.
- `IsochroneGrid` (`loadIsochroneSet`): it groups the rows of one table into age slices
  and cuts each slice to the mass window. It builds an immutable `Grid` value in place of
  the global `SMset`/`Zset`. Tables arrive as a map from metallicity to rows, so reading
  the files is left out.
- `IsochroneLookup` covers:
  - `chooseZsvecSingle` and `chooseZsvec`;
  - `PropertySet` and `StellarProperty`, with the source's sentinels -1 and -1.2345 kept
    exactly;
  - `StellarPropertyNorm`, `StellarRadius`, `StellarGTRL` and `minmaxRadius`.
- `HabitableZone`: `XYfromZ`, `Seff2014`, `HZ`, the `HZbin` geometry, `stellarMoI`,
  `starLuminosity`, `bolometricCorrection` and `mainSequenceDuration`.
- `Rotation`:
  - `tidalAcceleration`, the period fit (`theoProt`, `dtheoProt`, `tfromProt`),
    `totalAcceleration` and `rotationalAcceleration`;
  - `starLXUV`, `starRX`, the `VParker` branch choice, `vnGreissmeier`, `binaryWind` and
    `starProt`.
- `SpinEvolution` (`BHMcalc.py`) covers the `Run` computation:
  - the synchronisation times and the HZ time scan;
  - the continuous-habitable-zone edge search;
  - the clamps on the inner edge, the horizon and `dt`;
  - the forward-Euler tidal loop with its flux sampling every 50 steps;
  - the fluence prefix sums and the mass-loss ensemble.

  The functions that `BHMcalc.py` imports from modules not shown here (`BHM.isochrones`,
  `BHM.BHM`, `BHM.keplerbin`) are the function fields of the `SpinEvolution.Env` value.
  So is the 8-argument `tidalAcceleration` that `BHMcalc.py` calls.

The model follows the code where it differs from the documented intent:

- Age grouping records a new age only when the age column strictly increases
  (BHM/BHMstars.py:199). A decrease is not a new slice.
- The mass window is the half-open slice `data[ini:end]` (BHM/BHMstars.py:252), so the
  last row with mass ≤ 2.0 is left out.
- `PropertySet` takes `log10(age·1e9)`. Age 0 therefore lies below every tabulated age
  and gives -1, and a negative age gives -1 explicitly.
- `Seff2014` keeps its loop variables between criteria. After an unknown criterion,
  `Tst` stays -1 for every later criterion. "runaway greenhouse" with an unlisted planet
  mass reuses the previous criterion's coefficients; when no previous criterion exists,
  the call fails (an unbound variable in the source).
- `starLXUV` computes the EUV part and discards it (BHM/BHMstars.py:937).
- In the tidal loop, `Prot2vec` receives `Prot1` (BHMcalc.py:745).
- `tsync2` divides by the primary's acceleration `acc1` (BHMcalc.py:280).
- `StellarGTRL` computes the radius from the gravity before it replaces a missing
  gravity with -1.

Where numpy would produce `inf` from a division by zero, the model either returns a
failure (`None`/`Failure`) or requires a non-zero divisor. The exception is the edge
search's `eps` ratio, which models IEEE `inf` and `nan` with `SpinEvolution.Ext`: a NaN
never exceeds `epsmax`, and `inf` exceeds every finite value.

## Model

| member | source | states |
|---|---|---|
| BHM.ErrorCode | BHM/__init__.py:236-237 | `errorCode` maps exactly the three known names to a non-zero exit status and fails on any other name |
| BHM.ErrorCodeStatuses | BHM/__init__.py:40-42 | FILE_ERROR→1, INPUT_ERROR→2, DATA_ERROR→3 |
| BHM.Dict2Obj.constructor | BHM/__init__.py:181 | the object's attributes are exactly the dictionary given |
| BHM.Dict2Obj.Add | BHM/__init__.py:182-185 | `a + b` mutates and returns `a` itself: its keys become the union of the keys; each of b's attributes takes b's value; attributes only in a keep their old value |
| BHM.Halt.Status | BHM/__init__.py:220-224 | the `-h` exit is exit status 0 |
| BHM.ContainsSub | BHM/__init__.py:221 | Python's substring test `'-h' in argv[1]`: true iff the pattern occurs at some position |
| BHM.EffectiveArg | BHM/__init__.py:229-232 | position j reads argv[j+1] unless it is missing or `'--'`, in which case it reads defs[j] (or nothing when defs is too short) |
| BHM.FilledArgv | BHM/__init__.py:229-232 | argv after the loop: extended to nvar+1 entries when shorter, positions 1..nvar hold the effective arguments, the rest unchanged |
| BHM.DefaultsOnly | BHM/__init__.py:226-227 | with no arguments every position reads its default |
| BHM.DefaultsValues | BHM/__init__.py:226-233 | with no arguments every converted value is the conversion of the corresponding default |
| BHM.FillArgs | BHM/__init__.py:228-234 | the loop returns exactly len(fmts) values, each the conversion of the effective argument, and leaves the list equal to FilledArgv; a failure stops at the first position that is missing (MissingDefault) or fails to convert (BadConversion), with the list filled up to that point |
| BHM.ReadArgs | BHM/__init__.py:218-234 | the help exit (status 0) happens exactly when the first argument contains `-h`, and then nothing changes; otherwise len(fmts) converted values; with no arguments the values come from the defaults and the caller's list is untouched; otherwise the caller's list becomes FilledArgv in place; a failure with arguments stops at the first missing or unconvertible position and leaves the caller's list filled up to it |
| Numerics.Slinear | BHM/BHMstars.py:256 | the slinear interpolant is defined exactly on [x0, xn] for equal-length, strictly increasing nodes |
| Numerics.SlinearAtNode | BHM/BHMstars.py:256 | at a node the interpolant returns that node's value |
| Numerics.SlinearOnSegment | BHM/BHMstars.py:256 | between two neighbouring nodes the interpolant is the straight line through them |
| Numerics.SlinearBetweenNodes | BHM/BHMstars.py:256 | the interpolated value lies between the two neighbouring node values |
| Numerics.Linspace | BHM/BHMstars.py:330 | `np.linspace(a,b,n)`: n values, first a, last b, strictly increasing and within [a,b] when a<b |
| Numerics.Arange | BHMcalc.py:563 | `np.arange(start,stop,step)`: the values start+k·step that lie below stop |
| Numerics.PySlice | BHM/BHMstars.py:252 | Python's `s[lo:hi]` with clipping, including the empty slice when lo ≥ hi |
| Numerics.SortedSearch | BHM/BHMstars.py:121-126 | on a strictly increasing grid the last ≤ z and the first > z exist exactly when z is inside the grid, and they are the neighbours of z |
| IsochroneGrid.Masses | BHM/BHMstars.py:241 | the mass column of the rows |
| IsochroneGrid.RecordsFacts | BHM/BHMstars.py:195-202 | the recorded ages start at the first age, are strictly increasing, are drawn from the column and end at its maximum |
| IsochroneGrid.AgeGroupsFacts | BHM/BHMstars.py:195-203 | `Ages` is strictly increasing, starts at data[0,1], every entry is an age of the table and the last is the largest age |
| IsochroneGrid.GroupAges | BHM/BHMstars.py:195-203 | the `ageold` loop computes AgeGroups, strictly increasing and non-empty |
| IsochroneGrid.WindowOfBlock | BHM/BHMstars.py:237-252 | for a contiguous age block the window is `data[lo+bot:lo+top]`, where bot is the first row with mass ≥ 0.1 and top the last with mass ≤ 2.0 (that row excluded) |
| IsochroneGrid.CollectFacts | BHM/BHMstars.py:236-290 | the slices load iff every window is loadable, and then each loaded slice is its window |
| IsochroneGrid.MassBoundsOf | BHM/BHMstars.py:287-288 | the running Mmin/Mmax bound every mass of every slice |
| IsochroneGrid.CutSlices | BHM/BHMstars.py:235-290 | the slice loop collects the windows of all ages and its running Mmin/Mmax are the least and greatest mass over the slices |
| IsochroneGrid.IsochroneOfFacts | BHM/BHMstars.py:192-290 | one table loads iff every age window is loadable; the result is a valid isochrone whose k-th slice is the window of its k-th age |
| IsochroneGrid.IsochroneOverParts | BHM/BHMstars.py:203-206 | nAges == len(Ages), tmin/tmax are 10^Ages[0]/1e9 and 10^Ages[-1]/1e9, Mmin/Mmax come from the slices |
| IsochroneGrid.LoadIsochrone | BHM/BHMstars.py:192-292 | loading one table computes IsochroneOf |
| IsochroneGrid.LoadOneFacts | BHM/BHMstars.py:187-191 | a missing file is a MissingFile error, an unusable table a MalformedTable error, otherwise the table's isochrone |
| IsochroneGrid.SequenceFacts | BHM/BHMstars.py:181-305 | the metallicity loop succeeds iff every table loads; otherwise it stops at the first failure |
| IsochroneGrid.GridOfFacts | BHM/BHMstars.py:174-307 | the grid loads iff every metallicity loads, the i-th isochrone is that of the i-th table, and a failure reports the first metallicity that fails |
| IsochroneGrid.LoadIsochroneSet | BHM/BHMstars.py:174-307 | the loader returns the grid over Zs, or the first error; the grid is valid |
| IsochroneLookup.ZsvecIncreasing | BHM/BHMstars.py:42-54 | the metallicity grids are strictly increasing and ZSVEC_full has 35 entries |
| IsochroneLookup.NeighboursFacts | BHM/BHMstars.py:69-74 | on an increasing grid the pair exists iff grid[0] ≤ Z < grid[-1], and it is the largest value ≤ Z and the smallest > Z |
| IsochroneLookup.ChooseZsvecSingleFacts | BHM/BHMstars.py:69-74 | `[Z1,Z2]` exists iff 0.0001 ≤ Z < 0.06, with Z1 ≤ Z < Z2 the neighbours of Z in ZSVEC_full |
| IsochroneLookup.ChooseAmongFacts | BHM/BHMstars.py:76-103 | an exact member of siblings, then of coarse, is chosen; otherwise the default when it brackets Z; otherwise the default is replaced by a different grid that brackets Z, coarse when it does (the last grid scanned wins), else siblings; DATA_ERROR (status 3) iff the default is in the list and no grid brackets Z |
| IsochroneLookup.ChooseZsvecOfValues | BHM/BHMstars.py:76-103 | Z=0.0152 gives siblings; 0.03 and 0.0001 give coarse |
| IsochroneLookup.ChooseZsvec | BHM/BHMstars.py:76-103 | the loop with `qoutdef`/`qoutoth` computes ChooseAmong |
| IsochroneLookup.PropertySetNegative | BHM/BHMstars.py:106 | a non-positive age gives -1 |
| IsochroneLookup.PropertySetAtNode | BHM/BHMstars.py:114-119 | at a tabulated age the slice's own interpolant is used without mixing, -1 when it fails |
| IsochroneLookup.PropertySetBetween | BHM/BHMstars.py:121-132 | between two tabulated ages the result is p1+(p2-p1)/(t2-t1)·(age-t1) and lies between p1 and p2 |
| IsochroneLookup.PropertySetBetweenMissing | BHM/BHMstars.py:129-134 | between two tabulated ages, a mass outside either bracketing slice's range gives -1 |
| IsochroneLookup.PropertySetOutside | BHM/BHMstars.py:121-136 | an age outside the tabulated range gives -1 |
| IsochroneLookup.KeepFacts | BHM/BHMstars.py:156-164 | the kept slices are exactly those whose value is not -1, in grid order, with their own metallicities |
| IsochroneLookup.StellarProperty | BHM/BHMstars.py:151-172 | the loop over SMset computes StellarPropertyOf |
| IsochroneLookup.StellarPropertyMissing | BHM/BHMstars.py:165-171 | fewer than two kept slices, or Z outside their range, gives -1.2345 |
| IsochroneLookup.StellarPropertyAtEntry | BHM/BHMstars.py:151-172 | at a grid metallicity whose value is kept the result is that value |
| IsochroneLookup.StellarPropertyBetween | BHM/BHMstars.py:151-172 | between two neighbouring kept slices the result is the linear interpolation in Z and lies between their values |
| IsochroneLookup.NormalisedValueFacts | BHM/BHMstars.py:140-149 | without norm the value is unchanged; temperature is shifted so the model Sun maps to TSUN; radius and luminosity are divided by the model Sun's; other properties are unchanged |
| IsochroneLookup.StellarRadiusFacts | BHM/BHMstars.py:309-312 | R·RSUN is the non-negative root of g·R² = G·M·MSUN |
| IsochroneLookup.RowRadius | BHM/BHMstars.py:273-274 | a row's tabulated radius is StellarRadius of its mass and 10^logg/100 |
| IsochroneLookup.GTRLFromLogsFacts | BHM/BHMstars.py:314-325 | g, T and L are -1 exactly when their log is -1.2345 and positive otherwise; R is computed from the unreplaced g and satisfies g·R² = G·M·MSUN |
| IsochroneLookup.RadiiAt | BHM/BHMstars.py:330-331 | the k-th sampled radius is StellarGTRL's R at the k-th time |
| IsochroneLookup.MinMaxRadius | BHM/BHMstars.py:327-334 | over the 20 linspace samples Rmin ≤ every radius ≤ Rmax, each attained unless still 1E100 or 0 |
| HabitableZone.XYfromZFacts | BHM/BHMstars.py:336-342 | X+Y+Z = 1, Y(0) = 0.2485, and Y grows while X shrinks with Z |
| HabitableZone.ClampTeffFacts | BHM/BHMstars.py:447-448 | Teff is clamped to [2600, 7200] and left alone inside it |
| HabitableZone.Seff2014 | BHM/BHMstars.py:442-482 | the criteria loop computes Seff2014Of |
| HabitableZone.Seff2014Shape | BHM/BHMstars.py:451-482 | a scalar for one criterion, a list of one entry per criterion otherwise; fails only when the first criterion is runaway greenhouse with an unlisted planet mass |
| HabitableZone.SeffValuesAt | BHM/BHMstars.py:452-479 | each entry is S+aΔ+bΔ²+cΔ³+dΔ⁴ with the coefficients and Δ in force after that criterion |
| HabitableZone.Seff2014Unknown | BHM/BHMstars.py:477-479 | an unknown criterion yields exactly -1 |
| HabitableZone.Seff2014Known | BHM/BHMstars.py:447-479 | a known criterion yields its quartic at Δ = clamp(Teff)-Tsun, or at Δ = -1 once an unknown criterion came before it |
| HabitableZone.HZFacts | BHM/BHMstars.py:484-497 | negative inputs raise; with HZ's defaults Tsun = TSUN and Mp = '1.0' the Seff call never fails; otherwise lin²·Seffin = lout²·Seffout = aHZ² = Ls, all non-negative, and lin ≤ lout when Seffout < Seffin |
| HabitableZone.BinaryRadiiFacts | BHM/BHMstars.py:569-570 | rc1 + rc2 == abin and rc1 == q·rc2, defined whenever q ≠ -1 |
| HabitableZone.StellarMoIFacts | BHM/BHMstars.py:511-541 | above 1.259 Msun the last table entry 0.224²; "Upper" gives 0.25, unknown kinds 0.076729; positive and ≤ 0.25 for non-negative masses |
| HabitableZone.StarLuminosityFacts | BHM/BHMstars.py:954-956 | L(1, TSUN) = 1, L scales as R² and as T⁴, and is non-negative |
| HabitableZone.BCBranchFacts | BHM/BHMstars.py:986-990 | branch 0 below log Teff 3.70, 1 below 3.90, 2 otherwise, monotone in log Teff; the low branches have zero high-order coefficients |
| HabitableZone.MainSequenceDurationFacts | BHM/BHMstars.py:993-1007 | outside the table 13·M^-2.5; inside, a value between the table's extremes that equals the table entry at a tabulated mass |
| Rotation.EccentricityFunctions | BHM/BHMstars.py:783-784 | f2 ≥ 1 and f5 ≥ 1, both 1 for a circular orbit |
| Rotation.TidalAcceleration | BHM/BHMstars.py:765-807 | defined exactly when none of the source's divisors is zero |
| Rotation.TidalFixedPoint | BHM/BHMstars.py:788-803 | the acceleration is exactly 0 at Ω = Omega_min |
| Rotation.TidalSigns | BHM/BHMstars.py:788-803 | with a positive prefactor the acceleration is positive below Omega_min and negative above it |
| Rotation.TfromProt | BHM/BHMstars.py:823-831 | P ≤ c gives age 0 |
| Rotation.TheoProtOfTfromProt | BHM/BHMstars.py:809-831 | for P > c the fitted age is positive and theoProt maps it back to P |
| Rotation.TfromProtOfTheoProt | BHM/BHMstars.py:809-831 | tfromProt inverts theoProt at every positive age |
| Rotation.DtheoProt | BHM/BHMstars.py:816-821 | the slope fails exactly at age 0 with b < 1, where 0**(b-1) diverges; at age 0 it is 0 for b > 1 and a for b = 1 |
| Rotation.DtheoProtSign | BHM/BHMstars.py:816-821 | at a positive age the fitted period derivative exists and has the sign of a·b |
| Rotation.MassLossOpposes | BHM/BHMstars.py:844 | acc_ML = -2π/P²·dP/dt has the opposite sign of the period derivative |
| Rotation.TotalAccelerationFacts | BHM/BHMstars.py:833-850 | the tidal part is tidalAcceleration at the star's current state, and the mass-loss part opposes the fitted period derivative at the rotational age, which exists |
| Rotation.TotalAccelerationAtZeroAge | BHM/BHMstars.py:816-850 | with P ≤ c (rotational age 0), b < 1 gives no result and b > 1 gives zero mass-loss acceleration |
| Rotation.TotalAcceleration | BHM/BHMstars.py:846 | the total is the sum of the tidal and mass-loss parts |
| Rotation.RotAge | BHM/BHMstars.py:860-861 | the age in Gyr is clamped to taums |
| Rotation.WindTorqueAtSaturation | BHM/BHMstars.py:882-885 | the two wind-braking branches agree at Ω = wsat·Ω☉ |
| Rotation.WindTorqueMonotone | BHM/BHMstars.py:882-885 | wind braking is non-positive and grows in strength with Ω |
| Rotation.RotationalGates | BHM/BHMstars.py:860-908 | before taudisk no contraction or wind; after 12 Gyr no contraction; no tide without a companion; ages past taums act as taums |
| Rotation.RotationalAcceleration | BHM/BHMstars.py:908 | the total is the sum of the tide, contraction and wind terms |
| Rotation.SpinDownWind | BHM/BHMstars.py:881-887 | after taudisk the wind term is the torque divided by I·MSUN·RSUN² |
| Rotation.StarLXUV | BHM/BHMstars.py:914-938 | defined for positive luminosity |
| Rotation.StarLXUVFacts | BHM/BHMstars.py:914-938 | the result is the X-ray luminosity alone; saturated at 6.3e-4·L up to taui > 0, then a power law in t independent of L; positive |
| Rotation.StarRXFacts | BHM/BHMstars.py:1020-1040 | RX is RXsat below Ro_sat and at Ro_sat, positive for positive Ro |
| Rotation.ParkerBranchFacts | BHM/BHMstars.py:656-661 | vn=1 iff abs(dn-1) < 1e-3; otherwise the bracket lies on the same side of 1 as dn |
| Rotation.VParker | BHM/BHMstars.py:638-662 | defined iff Tc and M are non-zero |
| Rotation.WindAge | BHM/BHMstars.py:689-691 | with early='constant' ages below 0.7 Gyr are raised to 0.7, otherwise unchanged |
| Rotation.EarlyWindConstant | BHM/BHMstars.py:689-691 | the wind before 0.7 Gyr equals the wind at 0.7 Gyr |
| Rotation.BinaryWindFacts | BHM/BHMstars.py:945-952 | tau2 ≤ 0 drops the companion; the two stars are interchangeable; pressure and flux are non-negative for non-negative winds |
| Rotation.StarProtFacts | BHM/BHMstars.py:966-972 | vsini ≤ 0 is DATA_ERROR (status 3); otherwise P·(vsini/sin i)·DAY = 2πR·RSUN/1e3, positive for positive inputs |
| SpinEvolution.SyncTimes | BHMcalc.py:274-280 | the sync times are undefined exactly when acc1 is 0 |
| SpinEvolution.SyncTimesFacts | BHMcalc.py:274-280 | tsync1·acc1·GYR = -W1o/DAY and tsync2·acc1·GYR = -W2o/DAY, so tsync2 = tsync1·W2o/W1o |
| SpinEvolution.HZScan | BHMcalc.py:424-447 | the scan covers a prefix of linspace(0.1,tauM,200) and stops at the first age whose single-star HZ fails; each list holds one entry per successful age; tausys is the last successful age |
| SpinEvolution.EpsRatio | BHMcalc.py:456 | eps is NaN iff both steps are 0, +inf iff their sum is 0 and they differ, finite and non-negative when their sum is positive |
| SpinEvolution.LogSteps | BHMcalc.py:450-451 | dlins[0] = 0 and dlins[k] = log10 lins[k] - log10 lins[k-1] |
| SpinEvolution.SharpestChangeUnique | BHMcalc.py:452-462 | the index the search selects is unique |
| SpinEvolution.EdgeSearch | BHMcalc.py:452-462 | the search visits n-1, n-4, … down to 10, stops after the first index below tausys/2, and keeps the first index of strictly largest eps (-1 when none exceeds 0) |
| SpinEvolution.ContinuousZone | BHMcalc.py:450-464 | lincont is lins[imax] with Python's negative indexing, and loutcont is the minimum of louts |
| SpinEvolution.ClampInnerEdge | BHMcalc.py:500-502 | lincont ≥ acrit afterwards, unchanged when already ≥ acrit |
| SpinEvolution.ClampHorizon | BHMcalc.py:554-556 | tau1 ≤ tausys afterwards, unchanged when already ≤ tausys |
| SpinEvolution.TimeStep | BHMcalc.py:561 | 0 ≤ dt ≤ 1e-3, dt ≤ a tenth of each sync time and equal to one of the three, 0 iff a sync time is 0 |
| SpinEvolution.StepMassLossSigns | BHMcalc.py:734-739 | each mass-loss acceleration has the opposite sign of its fitted period derivative |
| SpinEvolution.StepAdvances | BHMcalc.py:699-876 | one step sets W ← W + (acc_tid + acc_ML)·dt·GYR, records tau, and records Prot1 for both stars |
| SpinEvolution.RunShape | BHMcalc.py:699-895 | the run records one entry per time, in order, and ends at the spin built by the recorded steps |
| SpinEvolution.RunSpins | BHMcalc.py:845-872 | each step starts from the previous step's spin |
| SpinEvolution.RunSamples | BHMcalc.py:768-770 | flux samples are taken exactly at steps 0, 50, 100, …, at those times and spins |
| SpinEvolution.RunFailureSticks | BHMcalc.py:699-895 | once a step fails (a spin reaches 0), the whole run fails |
| SpinEvolution.Step | BHMcalc.py:699-876 | one loop iteration computes StepAt |
| SpinEvolution.SampleTimes | BHMcalc.py:566-568 | `tau_vec[::ntau/50]` fails (zero slice step) exactly when tau_vec has fewer than 50 ages |
| SpinEvolution.SampleTimesFacts | BHMcalc.py:566-568 | otherwise tvec is tau_vec at every multiple of s = ntau/50 below ntau, and at no other index |
| SpinEvolution.Integrate | BHMcalc.py:566-895 | fewer than 50 ages stop the program at the tvec slice; otherwise the loop computes RunOf over tau_vec |
| SpinEvolution.FluenceFacts | BHMcalc.py:1080-1088 | int[0] = 0, int[i+1] - int[i] = Dt·F[i], and the series is non-decreasing for non-negative fluxes and Dt |
| SpinEvolution.MassLossPressureFacts | BHMcalc.py:1165-1170 | Pl = ALPHA·MLfac·MUATM·MP·gp/2e5: the cross-section Ap cancels and Pl is linear in gp |
| SpinEvolution.MassLossAtClosedForm | BHMcalc.py:1151-1170 | at each planet mass the pressure equals the closed form with Rp = Mp^0.25 |
| SpinEvolution.MassLossCurves | BHMcalc.py:1146-1179 | the loop over linspace(0.1,10,100) fills the four pressure curves, each point on its closed-form curve; the four fluence factors (intFSWin[-1] and the like) are parameters |

## Left out

- Default arguments: every modelled function takes its arguments explicitly. The source's
  defaults are `chooseZsvec(zsdef=ZSVEC_DEF)`, `minmaxRadius(tmin=TAU_MIN, tmax=1.0)`,
  `starRX(regime='middle')`, `Seff2014(crits=['recent venus'], Tsun=TSUN, Mp='1.0')` and
  `HZ(lin='recent venus', lout='early mars')`. Only HZ's call of Seff2014 is fixed to its
  defaults (`HabitableZone.HZOf`), because HZ never passes others.
- Root finding, quadrature and optimisation: `Tcorona` (`newton`), the `brentq` calls in
  `VParker` and `HZbin`, `AverageFlux` and `Flux` (`integrate`), `FeHfromZ`, `ZfromFHe`,
  and the `minimize` period fit in BHMcalc.py. Their results are not exact functions of
  their inputs. `VParker` keeps its branch and bracket choice; the root itself is a
  parameter (`Rotation.WindEnv`).
- Power-law and transcendental formulae that the core only calls: `vn1AUeq`, `EqParker`,
  `EqTcorona`, `Prot`, `maxPeriod`, `convectiveTurnoverTime`, `starDistance`, `FeH2Z`,
  `scaleProp`, `starLXEUV`. They are function parameters where the core uses them.
- The HZ edges inside `HZbin` (the root of the averaged flux). Only its geometry
  rc1 + rc2 = abin is modelled. In the spin-evolution module, `HZ2013` and `HZbin4` are
  parameters.
- Floating-point rounding, overflow and the value of transcendental functions: reals
  are exact, and only the facts in `Numerics.Lawful` are assumed of `sqrt`, `pow`,
  `log10` and `sin`.
- Reading the isochrone files with `np.loadtxt`, and every other file read or write,
  plot and printed report. Tables enter as values; results are returned.
- The exit on a missing isochrone file (status 1) becomes a `MissingFile` error value.
- IsochroneGrid.LoadIsochroneSet: requires the metallicities to be strictly increasing.
  All of the source's grids are.
- The loader treats as malformed an age slice whose window has fewer than two rows or
  non-increasing masses. scipy's `interp1d` would reject the first and sort the second.
- The filter columns U…K are carried in each row but are not interpolated separately.
  They go through the same `slinear` path as every other property.
- `loadConf` (`execfile`), `MD5STR`, `hashObject`, `makeObjectDir`, `PRINTERR`, and the
  `signature`/MD5 caching in BHMcalc.py.
- `findTrack`, `evoFunctions`, `evoInterpFunctions`, `trackFunctions`, and the
  `exec`-built per-property lambdas. An enumerated `Property` tag replaces the dynamic
  attribute dispatch.
- BHMinteraction.py, BHMcat.py and BHMrun.py (orchestration, catalogues and shell calls).
- SpinEvolution.Integrate: takes `tau_vec` as given (the source builds it with
  `np.arange(tau0+dt, tau1, dt)`, see `Numerics.Arange`). It keeps only the series the
  later computations read: the step records and the flux samples.
- The reporting every `iper` steps and the per-step `verbose` output.
- Where numpy divides by zero and continues with `inf`/`nan` (other than in the edge
  search), the model stops with a failure or requires a non-zero divisor.
- SpinEvolution takes `tfromProt` and `dtheoProt` as real-valued parameters. The
  divergence of `dtheoProt` at rotational age 0 with b < 1 (modelled in
  `Rotation.DtheoProt`) is therefore whatever value the parameter gives there.
- Rotation.TfromProt: with a < 0 and P > c the base (P-c)/a is negative, and numpy
  gives `nan` for a fractional exponent. The model leaves the imported `pow` of a
  negative base unconstrained.

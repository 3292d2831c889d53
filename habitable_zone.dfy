/**
 * The stellar rules of BHM/BHMstars.py that feed the habitable-zone computation:
 * helium and hydrogen from metallicity, the effective-flux fits of Kopparapu et al.
 * (2014), the single-star and circumbinary habitable-zone geometry, moments of
 * inertia, luminosity from radius and temperature, the bolometric correction and the
 * main-sequence lifetime.
 */
module HabitableZone {
  import opened Wrappers
  import opened Numerics
  import opened BHM

  // ---------------------------------------------------------------------------
  // XYfromZ.

  /** XYfromZ (BHM/BHMstars.py:336-343): Y = 0.2485 + 1.78 Z and X = 1 - Y - Z. */
  function XYfromZ(z: real): (r: (real, real))
  {
    var y := 0.2485 + 1.78 * z;
    (1.0 - y - z, y)
  }

  /** The three mass fractions add up to one, and helium grows with metallicity. */
  lemma XYfromZFacts(z: real, z': real)
    ensures XYfromZ(z).0 + XYfromZ(z).1 + z == 1.0
    ensures XYfromZ(0.0).1 == 0.2485
    ensures z < z' ==> XYfromZ(z).1 < XYfromZ(z').1 && XYfromZ(z').0 < XYfromZ(z).0
  {
  }

  // ---------------------------------------------------------------------------
  // Seff2014.

  /**
   * The criteria Seff2014 knows, and any other name. OtherCriterion stands for a name other
   * than the five known ones ('runaway greenhouse', 'moist greenhouse', 'recent venus',
   * 'maximum greenhouse', 'early mars'); a known name is always written as its own constructor.
   */
  datatype Criterion =
    | RunawayGreenhouse | MoistGreenhouse | RecentVenus | MaximumGreenhouse | EarlyMars
    | OtherCriterion(name: string)

  /** The planet masses the runaway-greenhouse fit is tabulated for ('1.0', '5.0', '0.1'). */
  datatype PlanetMass = OneEarth | FiveEarths | TenthEarth | OtherMass(text: string)

  /** The coefficients S, a, b, c, d of one fit. */
  datatype Coeffs = Coeffs(s: real, a: real, b: real, c: real, d: real)

  /** S + a*x + b*x**2 + c*x**3 + d*x**4. */
  function Quartic(k: Coeffs, x: real): real {
    k.s + k.a * x + k.b * (x * x) + k.c * (x * x * x) + k.d * (x * x * x * x)
  }

  /** The local variables the loop of Seff2014 carries: the coefficients, unbound at first, and Tst. */
  datatype SeffState = SeffState(k: Option<Coeffs>, tst: real)

  /**
   * One pass of the loop body. A runaway greenhouse for an untabulated mass assigns
   * nothing, so earlier coefficients persist; an unknown criterion sets S=a=b=c=d=Tst=-1,
   * and that Tst persists for later criteria.
   */
  function SeffStep(st: SeffState, crit: Criterion, mp: PlanetMass): SeffState
  {
    match crit
    case RunawayGreenhouse =>
      (match mp
       case OneEarth => SeffState(Some(Coeffs(1.107, 1.332e-4, 1.58e-8, -8.308e-12, -1.931e-15)), st.tst)
       case FiveEarths => SeffState(Some(Coeffs(1.188, 1.433e-4, 1.707e-8, -8.968e-12, -2.048e-15)), st.tst)
       case TenthEarth => SeffState(Some(Coeffs(0.99, 1.209e-4, 1.404e-8, -7.418e-12, -1.713e-15)), st.tst)
       case OtherMass(_) => st)
    case MoistGreenhouse => SeffState(Some(Coeffs(1.0146, 8.1884e-5, 1.9394e-9, -4.3618e-12, -6.8260e-16)), st.tst)
    case RecentVenus => SeffState(Some(Coeffs(1.776, 2.136e-4, 2.533e-8, -1.332e-11, -3.097e-15)), st.tst)
    case MaximumGreenhouse => SeffState(Some(Coeffs(0.356, 6.171e-5, 1.698e-9, -3.198e-12, -5.575e-16)), st.tst)
    case EarlyMars => SeffState(Some(Coeffs(0.32, 5.547e-5, 1.526e-9, -2.874e-12, -5.011e-16)), st.tst)
    case OtherCriterion(_) => SeffState(Some(Coeffs(-1.0, -1.0, -1.0, -1.0, -1.0)), -1.0)
  }

  /** The loop state after the criteria `crits`, from `st`. */
  function StateAfter(st: SeffState, crits: seq<Criterion>, mp: PlanetMass): SeffState
  {
    if |crits| == 0 then st else SeffStep(StateAfter(st, crits[..|crits| - 1], mp), crits[|crits| - 1], mp)
  }

  /** The list Seffs after the criteria `crits`; None where Python raises NameError on unbound S. */
  function SeffValues(st: SeffState, crits: seq<Criterion>, mp: PlanetMass): (r: Option<seq<real>>)
    ensures r.Some? ==> |r.value| == |crits|
  {
    if |crits| == 0 then Some([])
    else
      var prev := SeffValues(st, crits[..|crits| - 1], mp);
      var now := StateAfter(st, crits, mp);
      if prev.None? || now.k.None? then None else Some(prev.value + [Quartic(now.k.value, now.tst)])
  }

  /** `if Teff<2600:Teff=2600.0` and `if Teff>7200:Teff=7200.0`. */
  function ClampTeff(teff: real): (t: real)
  {
    if teff < 2600.0 then 2600.0 else if teff > 7200.0 then 7200.0 else teff
  }

  lemma ClampTeffFacts(teff: real)
    ensures 2600.0 <= ClampTeff(teff) <= 7200.0
    ensures 2600.0 <= teff <= 7200.0 ==> ClampTeff(teff) == teff
  {
  }

  /** What Seff2014 returns: the list, or its single element when it has exactly one. */
  datatype SeffOut = Single(value: real) | Several(values: seq<real>)

  /** Seff2014 (BHM/BHMstars.py:442-482) as a value; None where it raises NameError. */
  function Seff2014Of(teff: real, crits: seq<Criterion>, tsun: real, mp: PlanetMass): Option<SeffOut>
  {
    var vs := SeffValues(SeffState(None, ClampTeff(teff) - tsun), crits, mp);
    if vs.None? then None
    else if |vs.value| == 1 then Some(Single(vs.value[0]))
    else Some(Several(vs.value))
  }

  /** Seff2014: the clamp, then the loop over the criteria. */
  method Seff2014(teff: real, crits: seq<Criterion>, tsun: real, mp: PlanetMass) returns (r: Option<SeffOut>)
    ensures r == Seff2014Of(teff, crits, tsun, mp)
  {
    var t := teff;
    if t < 2600.0 {
      t := 2600.0;
    }
    if t > 7200.0 {
      t := 7200.0;
    }
    var st := SeffState(None, t - tsun);
    ghost var st0 := st;
    var seffs: seq<real> := [];
    var i := 0;
    while i < |crits|
      invariant 0 <= i <= |crits|
      invariant st == StateAfter(st0, crits[..i], mp)
      invariant SeffValues(st0, crits[..i], mp) == Some(seffs)
    {
      assert crits[..i + 1][..i] == crits[..i];
      st := SeffStep(st, crits[i], mp);
      if st.k.None? {
        SeffNoneSticks(st0, crits, mp, i + 1);
        return None;
      }
      seffs := seffs + [Quartic(st.k.value, st.tst)];
      i := i + 1;
    }
    assert crits[..i] == crits;
    if |seffs| == 1 {
      r := Some(Single(seffs[0]));
    } else {
      r := Some(Several(seffs));
    }
  }

  /** Once the list is None it stays None for every longer prefix. */
  lemma {:induction false} SeffNoneSticks(st: SeffState, crits: seq<Criterion>, mp: PlanetMass, n: nat)
    requires n <= |crits| && SeffValues(st, crits[..n], mp).None?
    ensures SeffValues(st, crits, mp).None?
    decreases |crits| - n
  {
    if n < |crits| {
      assert crits[..n + 1][..n] == crits[..n];
      SeffNoneSticks(st, crits, mp, n + 1);
    } else {
      assert crits[..n] == crits;
    }
  }

  /** Bound coefficients stay bound. */
  lemma {:induction false} StateAfterBound(st: SeffState, crits: seq<Criterion>, mp: PlanetMass)
    requires st.k.Some? || (|crits| > 0 && crits[0] != RunawayGreenhouse) || (|crits| > 0 && !mp.OtherMass?)
    ensures |crits| > 0 ==> StateAfter(st, crits, mp).k.Some?
    ensures |crits| == 0 ==> StateAfter(st, crits, mp) == st
  {
    if |crits| > 1 {
      var init := crits[..|crits| - 1];
      assert init[0] == crits[0];
      StateAfterBound(st, init, mp);
    }
  }

  /** Each entry of the list is the quartic of the state right after its own criterion. */
  lemma {:induction false} SeffValuesAt(st: SeffState, crits: seq<Criterion>, mp: PlanetMass, j: nat)
    requires SeffValues(st, crits, mp).Some? && j < |crits|
    ensures |SeffValues(st, crits, mp).value| == |crits|
    ensures StateAfter(st, crits[..j + 1], mp).k.Some?
    ensures var now := StateAfter(st, crits[..j + 1], mp);
      SeffValues(st, crits, mp).value[j] == Quartic(now.k.value, now.tst)
  {
    var n := |crits| - 1;
    var init := crits[..n];
    if j < n {
      assert init[..j + 1] == crits[..j + 1];
      SeffValuesAt(st, init, mp, j);
    } else {
      assert crits[..j + 1] == crits;
      if n > 0 {
        SeffValuesAt(st, init, mp, n - 1);
      }
    }
  }

  /**
   * The failure: Seff2014 raises exactly when the first criterion is a runaway
   * greenhouse for an untabulated mass. Otherwise it returns one value per criterion,
   * a scalar when there is exactly one.
   */
  lemma Seff2014Shape(teff: real, crits: seq<Criterion>, tsun: real, mp: PlanetMass)
    ensures Seff2014Of(teff, crits, tsun, mp).None? <==>
      |crits| > 0 && crits[0] == RunawayGreenhouse && mp.OtherMass?
    ensures |crits| == 1 && Seff2014Of(teff, crits, tsun, mp).Some? ==> Seff2014Of(teff, crits, tsun, mp).value.Single?
    ensures |crits| != 1 && Seff2014Of(teff, crits, tsun, mp).Some? ==>
      Seff2014Of(teff, crits, tsun, mp).value.Several? && |Seff2014Of(teff, crits, tsun, mp).value.values| == |crits|
  {
    var st0 := SeffState(None, ClampTeff(teff) - tsun);
    SeffShape(st0, crits, mp);
  }

  lemma {:induction false} SeffShape(st0: SeffState, crits: seq<Criterion>, mp: PlanetMass)
    requires st0.k.None?
    ensures SeffValues(st0, crits, mp).None? <==> |crits| > 0 && crits[0] == RunawayGreenhouse && mp.OtherMass?
    ensures SeffValues(st0, crits, mp).Some? ==> |SeffValues(st0, crits, mp).value| == |crits|
  {
    if |crits| > 0 {
      var n := |crits| - 1;
      var init := crits[..n];
      SeffShape(st0, init, mp);
      if n > 0 {
        assert init[0] == crits[0];
      }
      if crits[0] == RunawayGreenhouse && mp.OtherMass? {
        if n > 0 {
          assert SeffValues(st0, init, mp).None?;
        } else {
          assert crits == [RunawayGreenhouse];
        }
      } else {
        StateAfterBound(st0, crits, mp);
      }
    }
  }

  /** Tst is Teff - Tsun until an unknown criterion has been seen, and -1 after one. */
  lemma {:induction false} TstAfter(st: SeffState, crits: seq<Criterion>, mp: PlanetMass)
    ensures (forall l :: 0 <= l < |crits| ==> !crits[l].OtherCriterion?) ==> StateAfter(st, crits, mp).tst == st.tst
    ensures (exists l :: 0 <= l < |crits| && crits[l].OtherCriterion?) ==> StateAfter(st, crits, mp).tst == -1.0
  {
    if |crits| > 0 {
      var n := |crits| - 1;
      var init := crits[..n];
      TstAfter(st, init, mp);
      assert forall l :: 0 <= l < n ==> init[l] == crits[l];
    }
  }

  /** An unknown criterion contributes exactly -1 (every coefficient and Tst are -1). */
  lemma Seff2014Unknown(teff: real, crits: seq<Criterion>, tsun: real, mp: PlanetMass, j: nat)
    requires j < |crits| && crits[j].OtherCriterion?
    requires SeffValues(SeffState(None, ClampTeff(teff) - tsun), crits, mp).Some?
    ensures SeffValues(SeffState(None, ClampTeff(teff) - tsun), crits, mp).value[j] == -1.0
  {
    var st0 := SeffState(None, ClampTeff(teff) - tsun);
    SeffValuesAt(st0, crits, mp, j);
    assert crits[..j + 1][..j] == crits[..j];
  }

  /**
   * A tabulated criterion with no unknown criterion up to it is the quartic in
   * Teff - Tsun, Teff clamped to [2600, 7200]; after an unknown criterion the same fit is
   * evaluated at Tst = -1, as the source's variable reuse has it.
   */
  lemma Seff2014Known(teff: real, crits: seq<Criterion>, tsun: real, mp: PlanetMass, j: nat, k: Coeffs)
    requires j < |crits| && !crits[j].OtherCriterion?
    requires SeffStep(SeffState(None, 0.0), crits[j], mp).k == Some(k)
    requires SeffValues(SeffState(None, ClampTeff(teff) - tsun), crits, mp).Some?
    ensures (forall l :: 0 <= l < j ==> !crits[l].OtherCriterion?) ==>
      SeffValues(SeffState(None, ClampTeff(teff) - tsun), crits, mp).value[j] == Quartic(k, ClampTeff(teff) - tsun)
    ensures (exists l :: 0 <= l < j && crits[l].OtherCriterion?) ==>
      SeffValues(SeffState(None, ClampTeff(teff) - tsun), crits, mp).value[j] == Quartic(k, -1.0)
  {
    var st0 := SeffState(None, ClampTeff(teff) - tsun);
    SeffValuesAt(st0, crits, mp, j);
    var pre := crits[..j];
    assert crits[..j + 1][..j] == pre;
    TstAfter(st0, pre, mp);
    assert forall l :: 0 <= l < j ==> pre[l] == crits[l];
  }

  // ---------------------------------------------------------------------------
  // HZ.

  /**
   * Why HZ stops: a negative input is rejected; a zero flux or a negative ratio makes Python
   * raise. SeffFailed (Seff2014 not giving two values) never happens with HZ's defaults (HZFacts).
   */
  datatype HZError = NegativeInput | SeffFailed | ZeroFlux | NegativeRatio

  /** The three distances HZ returns: inner edge, Earth-equivalent distance, outer edge (AU). */
  datatype HZLimits = HZLimits(lin: real, aHZ: real, lout: real)

  /**
   * HZ (BHM/BHMstars.py:484-497) with Seff2014: sqrt(Ls/Seff) for the inner and outer
   * criterion and for the Sun's flux 1. HZ calls Seff2014 with its defaults Tsun = TSUN
   * and Mp = '1.0'.
   */
  function HZOf(m: Math, ls: real, teff: real, lin: Criterion, lout: Criterion): Result<HZLimits, HZError>
  {
    if ls < 0.0 || teff < 0.0 then Failure(NegativeInput)
    else
      var seffs := Seff2014Of(teff, [lin, lout], TSUN, OneEarth);
      if seffs.None? || !seffs.value.Several? || |seffs.value.values| != 2 then Failure(SeffFailed)
      else
        var sin, sout := seffs.value.values[0], seffs.value.values[1];
        if sin == 0.0 || sout == 0.0 then Failure(ZeroFlux)
        else if ls / sin < 0.0 || ls / sout < 0.0 then Failure(NegativeRatio)
        else Success(HZLimits(m.sqrt(ls / sin), m.sqrt(ls / 1.0), m.sqrt(ls / sout)))
  }

  /** sqrt is monotone on the non-negative reals. */
  lemma SqrtMonotone(m: Math, x: real, y: real)
    requires Lawful(m) && 0.0 <= x <= y
    ensures m.sqrt(x) <= m.sqrt(y)
  {
    var a, b := m.sqrt(x), m.sqrt(y);
    assert 0.0 <= a && a * a == x;
    assert 0.0 <= b && b * b == y;
    SquaresOrdered(a, b, x, y);
  }

  /** Of two non-negative reals, the one with the smaller square is the smaller. */
  lemma SquaresOrdered(a: real, b: real, x: real, y: real)
    requires 0.0 <= a && 0.0 <= b && a * a == x && b * b == y && x <= y
    ensures a <= b
  {
    if a > b {
      PositiveProduct(a - b, a + b);
      DifferenceOfSquares(a, b);
    }
  }

  lemma DifferenceOfSquares(a: real, b: real)
    ensures (a - b) * (a + b) == a * a - b * b
  {
  }

  lemma PositiveProduct(x: real, y: real)
    requires 0.0 < x && 0.0 < y
    ensures 0.0 < x * y
  {
  }

  lemma Quotients(ls: real, sin: real, sout: real)
    requires 0.0 <= ls && 0.0 < sout < sin
    ensures 0.0 <= ls / sin <= ls / sout
  {
  }

  /**
   * Negative inputs raise; otherwise each edge l satisfies l**2 * Seff == Ls, the
   * Earth-equivalent distance is sqrt(Ls), and a larger inner flux puts the inner edge
   * inside the outer one.
   */
  lemma HZFacts(m: Math, ls: real, teff: real, lin: Criterion, lout: Criterion)
    requires Lawful(m)
    ensures ls < 0.0 || teff < 0.0 ==> HZOf(m, ls, teff, lin, lout) == Failure(NegativeInput)
    ensures HZOf(m, ls, teff, lin, lout) != Failure(SeffFailed)
    ensures HZOf(m, ls, teff, lin, lout).Success? ==>
      var h := HZOf(m, ls, teff, lin, lout).value;
      var vs := Seff2014Of(teff, [lin, lout], TSUN, OneEarth).value.values;
      && h.lin * h.lin * vs[0] == ls && h.lout * h.lout * vs[1] == ls
      && h.aHZ * h.aHZ == ls && 0.0 <= h.lin && 0.0 <= h.lout
      && (0.0 < vs[1] < vs[0] ==> h.lin <= h.lout)
  {
    Seff2014Shape(teff, [lin, lout], TSUN, OneEarth);
    var r := HZOf(m, ls, teff, lin, lout);
    if r.Success? {
      var vs := Seff2014Of(teff, [lin, lout], TSUN, OneEarth).value.values;
      var qin, qout := ls / vs[0], ls / vs[1];
      assert r.value.lin == m.sqrt(qin) && r.value.lout == m.sqrt(qout);
      assert m.sqrt(qin) * m.sqrt(qin) == qin;
      assert m.sqrt(qout) * m.sqrt(qout) == qout;
      assert ls / 1.0 == ls;
      if 0.0 < vs[1] < vs[0] {
        Quotients(ls, vs[0], vs[1]);
        SqrtMonotone(m, qin, qout);
      }
    }
  }

  // ---------------------------------------------------------------------------
  // HZbin: the geometry of the pair.

  /**
   * HZbin (BHM/BHMstars.py:563-570): the distances of the two stars from the centre of
   * mass, rc2 = abin/(q+1) and rc1 = q*rc2; None where q+1 is 0 and Python raises.
   */
  function BinaryRadii(q: real, abin: real): Option<(real, real)>
  {
    if q + 1.0 == 0.0 then None
    else
      var rc2 := abin / (q + 1.0);
      Some((q * rc2, rc2))
  }

  /** The two distances add up to the separation and stand in the mass ratio q. */
  lemma BinaryRadiiFacts(q: real, abin: real)
    ensures BinaryRadii(q, abin).Some? <==> q != -1.0
    ensures BinaryRadii(q, abin).Some? ==>
      var (rc1, rc2) := BinaryRadii(q, abin).value;
      rc1 + rc2 == abin && rc1 == q * rc2
  {
    if q != -1.0 {
      var rc2 := abin / (q + 1.0);
      assert q * rc2 + rc2 == (q + 1.0) * rc2;
    }
  }

  // ---------------------------------------------------------------------------
  // stellarMoI.

  /** The fit stellarMoI uses: the regression, the upper limit, or (any other name) the lower one. */
  datatype MoIKind = Regression | Upper | OtherKind(name: string)

  /** The last row of STELLAR_MOI: mass 1.259 and moment 0.224**2. */
  const MOI_LAST_MASS: real := 1.259
  const MOI_LAST: real := 0.224 * 0.224

  /** stellarMoI (BHM/BHMstars.py:511-540). */
  function StellarMoI(ms: real, kind: MoIKind): real
  {
    if ms > MOI_LAST_MASS then MOI_LAST
    else
      match kind
      case Regression => -1.577705e-01 * ms + 2.339366e-01
      case Upper => 0.25
      case OtherKind(_) => 0.076729
  }

  /**
   * Above the last tabulated mass every kind gives 0.224**2; below it the kind decides,
   * and for masses from 0 to 1.259 the result lies between the regression's value at
   * 1.259 and 0.25, so it is always positive there.
   */
  lemma StellarMoIFacts(ms: real, kind: MoIKind)
    ensures ms > MOI_LAST_MASS ==> StellarMoI(ms, kind) == 0.050176
    ensures ms <= MOI_LAST_MASS && kind == Upper ==> StellarMoI(ms, kind) == 0.25
    ensures ms <= MOI_LAST_MASS && kind.OtherKind? ==> StellarMoI(ms, kind) == 0.076729
    ensures 0.0 <= ms ==> 0.0 < StellarMoI(ms, kind) <= 0.25
  {
  }

  // ---------------------------------------------------------------------------
  // starLuminosity.

  /** starLuminosity (BHM/BHMstars.py:954-956): L = R**2 (T/TSUN)**4, in solar units. */
  function StarLuminosity(r: real, t: real): real
  {
    var x := t / TSUN;
    r * r * (x * x * x * x)
  }

  /** The Sun has luminosity 1; L scales with R**2 and with T**4. */
  lemma StarLuminosityFacts(r: real, t: real, k: real)
    ensures StarLuminosity(1.0, TSUN) == 1.0
    ensures StarLuminosity(k * r, t) == k * k * StarLuminosity(r, t)
    ensures StarLuminosity(r, k * t) == k * k * k * k * StarLuminosity(r, t)
    ensures 0.0 <= StarLuminosity(r, t)
  {
    var x := t / TSUN;
    assert (k * t) / TSUN == k * x;
    assert (k * x) * (k * x) * (k * x) * (k * x) == k * k * k * k * (x * x * x * x);
    assert 0.0 <= x * x && 0.0 <= (x * x) * (x * x);
  }

  // ---------------------------------------------------------------------------
  // bolometricCorrection.

  /** The three polynomial fits of Torres (2010) and Flower (1996), coefficients a..f by fit. */
  const BC_FITS: seq<seq<real>> := [
    [-0.190537291496456e5, 0.155144866764412e5, -0.421278819301717e4, 0.381476328422343e3, 0.0, 0.0],
    [-0.370510203809015e5, 0.385672629965804e5, -0.150651486316025e5, 0.261724637119416e4,
     -0.170623810323864e3, 0.0],
    [-0.118115450538963e6, 0.137145973583929e6, -0.636233812100225e5, 0.147412923562646e5,
     -0.170587278406872e4, 0.788731721804990e2]]

  /** The fit index: 0 below log Teff 3.70, 1 below 3.90, 2 above. */
  function BCBranch(logTeff: real): (i: nat)
    ensures i < 3
  {
    if logTeff < 3.70 then 0 else if logTeff < 3.90 then 1 else 2
  }

  /** a + b*x + c*x**2 + d*x**3 + e*x**4 + f*x**5. */
  function Quintic(cs: seq<real>, x: real): real
    requires |cs| == 6
  {
    cs[0] + cs[1] * x + cs[2] * (x * x) + cs[3] * (x * x * x) + cs[4] * (x * x * x * x) + cs[5] * (x * x * x * x * x)
  }

  /** bolometricCorrection (BHM/BHMstars.py:974-991). */
  function BolometricCorrection(m: Math, teff: real): real
  {
    var lt := m.log10(teff);
    var i := BCBranch(lt);
    assert |BC_FITS[i]| == 6;
    Quintic(BC_FITS[i], lt)
  }

  /**
   * The fit is chosen by log Teff alone, with the boundaries 3.70 and 3.90 belonging to the
   * hotter fit, and the coolest fit is a cubic.
   */
  lemma BCBranchFacts(x: real, y: real)
    ensures BCBranch(x) == 0 <==> x < 3.70
    ensures BCBranch(x) == 1 <==> 3.70 <= x < 3.90
    ensures BCBranch(x) == 2 <==> 3.90 <= x
    ensures x <= y ==> BCBranch(x) <= BCBranch(y)
    ensures BC_FITS[0][4] == 0.0 && BC_FITS[0][5] == 0.0 && BC_FITS[1][5] == 0.0
  {
  }

  // ---------------------------------------------------------------------------
  // mainSequenceDuration.

  /** The Zombeck table read in increasing log M: log M nodes and log t_MS values. */
  const TMS_LOGM: seq<real> := [-0.11, -0.02, 0.08, 0.17, 0.26, 0.36]
  const TMS_LOGT: seq<real> := [10.28, 9.83, 9.60, 9.24, 8.93, 8.62]

  /**
   * mainSequenceDuration (BHM/BHMstars.py:993-1008): outside the table 13*Ms**(-2.5), inside
   * numpy's interp on the reversed table.
   */
  function MainSequenceDuration(m: Math, ms: real): real
  {
    var logM := m.log10(ms);
    if logM < TMS_LOGM[0] || logM > TMS_LOGM[5] then 13.0 * m.pow(ms, -2.5)
    else
      TmsIncreasing();
      Slinear(TMS_LOGM, TMS_LOGT, logM).value
  }

  lemma TmsIncreasing()
    ensures StrictlyIncreasing(TMS_LOGM) && |TMS_LOGM| == |TMS_LOGT| == 6
  {
    IncreasingFromNeighbours(TMS_LOGM);
  }

  /**
   * Inside the table the result lies between 8.62 and 10.28 and equals the tabulated value
   * at a node; outside it is the power-law fallback.
   */
  lemma MainSequenceDurationFacts(m: Math, ms: real, k: nat)
    ensures var logM := m.log10(ms);
      logM < -0.11 || logM > 0.36 ==> MainSequenceDuration(m, ms) == 13.0 * m.pow(ms, -2.5)
    ensures var logM := m.log10(ms);
      -0.11 <= logM <= 0.36 ==> 8.62 <= MainSequenceDuration(m, ms) <= 10.28
    ensures k < 6 && m.log10(ms) == TMS_LOGM[k] ==> MainSequenceDuration(m, ms) == TMS_LOGT[k]
  {
    TmsIncreasing();
    var logM := m.log10(ms);
    if -0.11 <= logM <= 0.36 {
      SlinearBounded(TMS_LOGM, TMS_LOGT, logM, 8.62, 10.28);
      if k < 6 && logM == TMS_LOGM[k] {
        SlinearAtNode(TMS_LOGM, TMS_LOGT, k);
      }
    }
  }
}

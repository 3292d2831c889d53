/**
 * The rotation and wind rules of BHM/BHMstars.py: tidal spin-up or spin-down (Zahn's
 * dissipation time and Hut's eccentricity functions), the fitted rotation-period law and
 * its inverse, the total and the rotational accelerations, the X-ray luminosity, the
 * Rossby-number X-ray ratio, the Parker wind branch choice, the Griessmeier wind and its
 * early-age clamp, the circumbinary wind, and the period from v sin i.
 *
 * A division by zero, which Python reports as ZeroDivisionError, is a failure (None or
 * Failure) of the modelled function.
 */
module Rotation {
  import opened Wrappers
  import opened Numerics
  import opened BHM

  // ---------------------------------------------------------------------------
  // Small facts of real arithmetic.

  lemma ProductPositive(x: real, y: real)
    requires 0.0 < x && 0.0 < y
    ensures 0.0 < x * y
  {
  }

  lemma ProductNegative(x: real, y: real)
    requires 0.0 < x && y < 0.0
    ensures x * y < 0.0
  {
  }

  lemma QuotientPositive(x: real, y: real)
    requires 0.0 < x && 0.0 < y
    ensures 0.0 < x / y
  {
  }


  /** a * (n * f / a) / n == f for nonzero a and n. */
  lemma CancelRatio(a: real, n: real, f: real)
    requires a != 0.0 && n != 0.0
    ensures a * (n * f / a) / n == f
  {
    assert a * (n * f / a) == n * f;
  }

  // ---------------------------------------------------------------------------
  // tidalAcceleration.

  /** Hut's f2(e) = 1 + 15/2 e**2 + 45/8 e**4 + 5/16 e**6. */
  function F2(e: real): real {
    var e2 := e * e;
    1.0 + 7.5 * e2 + 5.625 * (e2 * e2) + 0.3125 * (e2 * e2 * e2)
  }

  /** Hut's f5(e) = 1 + 3 e**2 + 3/8 e**4. */
  function F5(e: real): real {
    var e2 := e * e;
    1.0 + 3.0 * e2 + 0.375 * (e2 * e2)
  }

  /** Both eccentricity functions are at least 1, and exactly 1 on a circular orbit. */
  lemma EccentricityFunctions(e: real)
    ensures 1.0 <= F2(e) && 1.0 <= F5(e)
    ensures e == 0.0 ==> F2(e) == 1.0 && F5(e) == 1.0
  {
    assert 0.0 <= e * e;
    assert 0.0 <= e * e * (e * e);
    assert 0.0 <= e * e * (e * e) * (e * e);
  }

  /** (1-e**2)**1.5, a real-exponent power. */
  function OrbitFactor(m: Math, e: real): real {
    m.pow(1.0 - e * e, 1.5)
  }

  /** Omega_min = n f2 / ((1-e**2)**1.5 f5), None where that divisor is zero. */
  function OmegaMin(m: Math, e: real, n: real): Option<real> {
    var d := OrbitFactor(m, e) * F5(e);
    if d == 0.0 then None else Some(n * F2(e) / d)
  }

  /** Zahn's dissipation time 3.48 ((M R**2)/L)**(1/3) in SI units; L must be nonzero. */
  function DissipationTime(m: Math, mt: real, rt: real, lt: real): real
    requires lt != 0.0
  {
    3.48 * m.pow((mt * MSUN * ((rt * RSUN) * (rt * RSUN))) / (lt * LSUN), 1.0 / 3.0)
  }

  /** The divisors of tidalAcceleration are all nonzero. */
  predicate TidalDefined(m: Math, mt: real, lt: real, moi: real, abin: real, e: real, n: real) {
    && OrbitFactor(m, e) * F5(e) != 0.0 && lt != 0.0
    && moi * moi != 0.0 && mt != 0.0 && abin != 0.0 && n != 0.0
    && (1.0 - e * e) * (1.0 - e * e) * (1.0 - e * e) * (1.0 - e * e) * (1.0 - e * e) * (1.0 - e * e) != 0.0
  }

  /**
   * The prefactor kdiss/rg2 (Mf/Mt)**2 (R/a)**6 n/(1-e**2)**6 of the tidal acceleration,
   * with kdiss = 1/tdiss and rg2 = MoI**2.
   */
  function TidalPrefactor(m: Math, mt: real, rt: real, lt: real, moi: real,
                          mf: real, abin: real, e: real, n: real): real
    requires TidalDefined(m, mt, lt, moi, abin, e, n) && DissipationTime(m, mt, rt, lt) != 0.0
  {
    var ratio := (rt * RSUN) / (abin * AU);
    var u := 1.0 - e * e;
    1.0 / DissipationTime(m, mt, rt, lt) / (moi * moi) * ((mf / mt) * (mf / mt))
    * (ratio * ratio * ratio * ratio * ratio * ratio) * (n / (u * u * u * u * u * u))
  }

  /** The factor f2 - (1-e**2)**1.5 f5 Omega/n, which changes sign at Omega_min. */
  function Bracket(m: Math, e: real, n: real, omega: real): real
    requires n != 0.0
  {
    F2(e) - OrbitFactor(m, e) * F5(e) * omega / n
  }

  /**
   * tidalAcceleration(Mtarg, Rtarg, Ltarg, MoItarg, Mfield, abin, e, n, Omega)
   * (BHM/BHMstars.py:765-807): the angular acceleration of a star of mass Mtarg, radius
   * Rtarg and luminosity Ltarg (solar units) raised by a companion Mfield on an orbit of
   * semimajor axis abin (AU), eccentricity e and mean motion n, while the star spins at
   * Omega: the prefactor times f2 - (1-e**2)**1.5 f5 Omega/n. None where a divisor
   * (Omega_min's, L, tdiss, MoI, Mtarg, abin, (1-e**2)**6 or n) is zero.
   */
  function TidalAcceleration(m: Math, mt: real, rt: real, lt: real, moi: real,
                             mf: real, abin: real, e: real, n: real, omega: real): (r: Option<real>)
    ensures r.Some? <==> TidalDefined(m, mt, lt, moi, abin, e, n) && DissipationTime(m, mt, rt, lt) != 0.0
  {
    if !TidalDefined(m, mt, lt, moi, abin, e, n) || DissipationTime(m, mt, rt, lt) == 0.0 then None
    else Some(TidalPrefactor(m, mt, rt, lt, moi, mf, abin, e, n) * Bracket(m, e, n, omega))
  }

  /** At Omega_min the bracket is zero: (q f5) (n f2/(q f5))/n == f2. */
  lemma BracketAtOmegaMin(m: Math, e: real, n: real)
    requires OmegaMin(m, e, n).Some? && n != 0.0
    ensures Bracket(m, e, n, OmegaMin(m, e, n).value) == 0.0
  {
    CancelRatio(OrbitFactor(m, e) * F5(e), n, F2(e));
  }

  /** f2 - q f5 Omega/n == (q f5/n) (Omega_min - Omega). */
  lemma BracketForm(m: Math, e: real, n: real, omega: real)
    requires OmegaMin(m, e, n).Some? && n != 0.0
    ensures Bracket(m, e, n, omega) == (OrbitFactor(m, e) * F5(e) / n) * (OmegaMin(m, e, n).value - omega)
  {
    var a := OrbitFactor(m, e) * F5(e);
    CancelRatio(a, n, F2(e));
    assert (a / n) * (n * F2(e) / a) == a * (n * F2(e) / a) / n;
  }

  /**
   * The tidal acceleration vanishes when the star spins at Omega_min: the
   * pseudo-synchronous rate is a fixed point of the tidal torque.
   */
  lemma TidalFixedPoint(m: Math, mt: real, rt: real, lt: real, moi: real,
                        mf: real, abin: real, e: real, n: real, omega: real)
    requires TidalAcceleration(m, mt, rt, lt, moi, mf, abin, e, n, omega).Some?
    ensures OmegaMin(m, e, n).Some?
    ensures TidalAcceleration(m, mt, rt, lt, moi, mf, abin, e, n, OmegaMin(m, e, n).value) == Some(0.0)
  {
    BracketAtOmegaMin(m, e, n);
  }

  lemma SignOfScaled(k: real, c: real, w: real, omega: real)
    requires 0.0 < k && 0.0 < c
    ensures omega < w ==> 0.0 < k * (c * (w - omega))
    ensures w < omega ==> k * (c * (w - omega)) < 0.0
  {
    if omega < w {
      ProductPositive(c, w - omega);
      ProductPositive(k, c * (w - omega));
    } else if w < omega {
      ProductNegative(c, w - omega);
      ProductNegative(k, c * (w - omega));
    }
  }

  /**
   * On a bound orbit (e**2 < 1) with positive mean motion and a positive prefactor, the
   * tide spins the star up below Omega_min and down above it.
   */
  lemma TidalSigns(m: Math, mt: real, rt: real, lt: real, moi: real,
                   mf: real, abin: real, e: real, n: real, omega: real)
    requires Lawful(m) && e * e < 1.0 && 0.0 < n
    requires TidalAcceleration(m, mt, rt, lt, moi, mf, abin, e, n, omega).Some?
    requires 0.0 < TidalPrefactor(m, mt, rt, lt, moi, mf, abin, e, n)
    ensures OmegaMin(m, e, n).Some?
    ensures omega < OmegaMin(m, e, n).value ==> TidalAcceleration(m, mt, rt, lt, moi, mf, abin, e, n, omega).value > 0.0
    ensures omega > OmegaMin(m, e, n).value ==> TidalAcceleration(m, mt, rt, lt, moi, mf, abin, e, n, omega).value < 0.0
  {
    EccentricityFunctions(e);
    var q := OrbitFactor(m, e);
    assert 0.0 < q;
    ProductPositive(q, F5(e));
    QuotientPositive(q * F5(e), n);
    BracketForm(m, e, n, omega);
    SignOfScaled(TidalPrefactor(m, mt, rt, lt, moi, mf, abin, e, n), q * F5(e) / n,
                 OmegaMin(m, e, n).value, omega);
  }

  // ---------------------------------------------------------------------------
  // theoProt, dtheoProt and tfromProt: the fitted law P(t) = a t**b + c.

  /** The fit parameters x = [a, b, c]. */
  datatype Fit = Fit(a: real, b: real, c: real)

  /** theoProt (BHM/BHMstars.py:809-814): a t**b + c. */
  function TheoProt(m: Math, t: real, x: Fit): real {
    x.a * m.pow(t, x.b) + x.c
  }

  /**
   * t**y as numpy evaluates it on float64: at base 0 it is 1 for y = 0, 0 for y > 0 and
   * inf for y < 0 (None here); elsewhere the imported pow.
   */
  function PowAt(m: Math, t: real, y: real): Option<real> {
    if t != 0.0 then Some(m.pow(t, y))
    else if y < 0.0 then None
    else if y == 0.0 then Some(1.0)
    else Some(0.0)
  }

  /**
   * dtheoProt (BHM/BHMstars.py:816-821): a b t**(b-1), the derivative of theoProt; None at
   * t = 0 when b < 1, where the power diverges.
   */
  function DtheoProt(m: Math, t: real, x: Fit): (r: Option<real>)
    ensures r.None? <==> t == 0.0 && x.b < 1.0
    ensures t == 0.0 && 1.0 < x.b ==> r == Some(0.0)
    ensures t == 0.0 && x.b == 1.0 ==> r == Some(x.a)
  {
    match PowAt(m, t, x.b - 1.0)
    case None => None
    case Some(v) => Some(x.a * x.b * v)
  }

  /**
   * tfromProt (BHM/BHMstars.py:823-831): the age ((P-c)/a)**(1/b) at which the fit
   * reaches period P, clamped to 0 when P <= c; None where a or b is zero.
   */
  function TfromProt(m: Math, p: real, x: Fit): (r: Option<real>)
    ensures p - x.c <= 0.0 ==> r == Some(0.0)
    ensures r.None? <==> 0.0 < p - x.c && (x.a == 0.0 || x.b == 0.0)
  {
    if p - x.c > 0.0 then
      if x.a == 0.0 || x.b == 0.0 then None else Some(m.pow((p - x.c) / x.a, 1.0 / x.b))
    else Some(0.0)
  }

  /** Above the asymptote c, tfromProt inverts theoProt: the age found reproduces the period. */
  lemma TheoProtOfTfromProt(m: Math, p: real, x: Fit)
    requires Lawful(m) && 0.0 < x.a && x.b != 0.0 && x.c < p
    ensures TfromProt(m, p, x).Some? && 0.0 < TfromProt(m, p, x).value
    ensures TheoProt(m, TfromProt(m, p, x).value, x) == p
  {
    var u := (p - x.c) / x.a;
    QuotientPositive(p - x.c, x.a);
    assert (1.0 / x.b) * x.b == 1.0;
    assert m.pow(m.pow(u, 1.0 / x.b), x.b) == u;
    assert x.a * u == p - x.c;
  }

  /** For a positive age and a > 0, tfromProt recovers the age from theoProt's period. */
  lemma TfromProtOfTheoProt(m: Math, t: real, x: Fit)
    requires Lawful(m) && 0.0 < x.a && x.b != 0.0 && 0.0 < t
    ensures TfromProt(m, TheoProt(m, t, x), x) == Some(t)
  {
    FitBack(x.a, m.pow(t, x.b), x.c);
    assert 0.0 < m.pow(t, x.b);
    ProductPositive(x.a, m.pow(t, x.b));
    assert x.b * (1.0 / x.b) == 1.0;
    assert m.pow(m.pow(t, x.b), 1.0 / x.b) == t;
    var p := TheoProt(m, t, x);
    assert p - x.c > 0.0;
    assert (p - x.c) / x.a == m.pow(t, x.b);
    assert TfromProt(m, p, x) == Some(m.pow((p - x.c) / x.a, 1.0 / x.b));
  }

  lemma FitBack(a: real, y: real, c: real)
    requires a != 0.0
    ensures ((a * y + c) - c) / a == y
  {
  }

  /** At a positive age the slope of the fit has the sign of a b. */
  lemma DtheoProtSign(m: Math, t: real, x: Fit)
    requires Lawful(m) && 0.0 < t
    ensures DtheoProt(m, t, x).Some?
    ensures 0.0 < x.a * x.b ==> 0.0 < DtheoProt(m, t, x).value
    ensures x.a * x.b < 0.0 ==> DtheoProt(m, t, x).value < 0.0
    ensures x.a * x.b == 0.0 <==> DtheoProt(m, t, x).value == 0.0
  {
    var pt := m.pow(t, x.b - 1.0);
    assert DtheoProt(m, t, x) == Some(x.a * x.b * pt);
    assert 0.0 < pt;
    if 0.0 < x.a * x.b {
      ProductPositive(x.a * x.b, pt);
    } else if x.a * x.b < 0.0 {
      ProductNegative(pt, x.a * x.b);
    }
  }

  // ---------------------------------------------------------------------------
  // totalAcceleration.

  /**
   * The attributes of a star object the rotational rules read: its mass, the radius,
   * luminosity, moment-of-inertia and moment-derivative tracks as functions of age (Gyr),
   * its moment-of-inertia coefficient, spin rate W, period P (s), period fit and
   * main-sequence age (Gyr).
   */
  datatype Star = Star(mass: real, rfunc: real -> real, lfunc: real -> real,
                       ifunc: real -> real, didtfunc: real -> real, moi: real,
                       w: real, p: real, protfit: Fit, taums: real)

  /** The orbit of the binary: semimajor axis (AU), eccentricity and mean motion (rad/day). */
  datatype Binary = Binary(abin: real, ebin: real, nbin: real)

  /** The tidal, mass-loss and total accelerations (qreturn=True). */
  datatype Accelerations = Accelerations(tid: real, ml: real, total: real)

  /** The mass-loss acceleration -2 pi/P**2 dP/dt of a star of period P (s) whose period grows at dP/dt. */
  function MassLossAcceleration(p: real, dProtdt: real): real
    requires p != 0.0
  {
    -2.0 * PI / (p * p) * dProtdt
  }

  /**
   * totalAcceleration (BHM/BHMstars.py:833-850) at age t: the tidal acceleration at the
   * star's spin W plus the mass-loss acceleration from the fitted period law at the
   * rotational age tfromProt(P/DAY).
   */
  function TotalAcceleration(m: Math, t: real, star: Star, mf: real, binary: Binary): (r: Option<Accelerations>)
    ensures r.Some? ==> r.value.total == r.value.tid + r.value.ml
  {
    var tid := TidalAcceleration(m, star.mass, star.rfunc(t), star.lfunc(t), star.moi, mf,
                                 binary.abin, binary.ebin, binary.nbin / DAY, star.w);
    var tauRot := TfromProt(m, star.p / DAY, star.protfit);
    if tid.None? || tauRot.None? || star.p == 0.0 then None
    else
      var slope := DtheoProt(m, tauRot.value, star.protfit);
      if slope.None? then None
      else
        var dProtdt := slope.value * DAY / GYR;
        var ml := MassLossAcceleration(star.p, dProtdt);
        Some(Accelerations(tid.value, ml, tid.value + ml))
  }

  lemma InverseSquareScale(p: real)
    requires p != 0.0
    ensures 0.0 < 2.0 * PI / (p * p)
  {
  }

  lemma NegatedScale(c: real, d: real)
    requires 0.0 < c
    ensures (0.0 < d ==> -c * d < 0.0) && (d < 0.0 ==> 0.0 < -c * d) && (d == 0.0 <==> -c * d == 0.0)
  {
  }

  /** The mass-loss acceleration always opposes the period derivative. */
  lemma MassLossOpposes(p: real, d: real)
    requires p != 0.0
    ensures 0.0 < d ==> MassLossAcceleration(p, d) < 0.0
    ensures d < 0.0 ==> 0.0 < MassLossAcceleration(p, d)
    ensures d == 0.0 <==> MassLossAcceleration(p, d) == 0.0
  {
    InverseSquareScale(p);
    NegatedScale(2.0 * PI / (p * p), d);
  }

  /**
   * The tidal part is tidalAcceleration at the star's spin, and the mass-loss part has the
   * opposite sign of the fitted period derivative at the rotational age (zero with it).
   */
  lemma TotalAccelerationFacts(m: Math, t: real, star: Star, mf: real, binary: Binary)
    requires TotalAcceleration(m, t, star, mf, binary).Some?
    ensures TfromProt(m, star.p / DAY, star.protfit).Some?
    ensures TidalAcceleration(m, star.mass, star.rfunc(t), star.lfunc(t), star.moi, mf,
                              binary.abin, binary.ebin, binary.nbin / DAY, star.w)
         == Some(TotalAcceleration(m, t, star, mf, binary).value.tid)
    ensures DtheoProt(m, TfromProt(m, star.p / DAY, star.protfit).value, star.protfit).Some?
    ensures var d := DtheoProt(m, TfromProt(m, star.p / DAY, star.protfit).value, star.protfit).value;
            var ml := TotalAcceleration(m, t, star, mf, binary).value.ml;
            (0.0 < d ==> ml < 0.0) && (d < 0.0 ==> 0.0 < ml) && (d == 0.0 <==> ml == 0.0)
  {
    var d := DtheoProt(m, TfromProt(m, star.p / DAY, star.protfit).value, star.protfit).value;
    MassLossOpposes(star.p, d * DAY / GYR);
  }

  /**
   * At or below the asymptote c the rotational age is 0: there the slope a b 0**(b-1)
   * diverges for b < 1, so no acceleration is returned, and vanishes for b > 1, leaving
   * no mass-loss acceleration.
   */
  lemma TotalAccelerationAtZeroAge(m: Math, t: real, star: Star, mf: real, binary: Binary)
    requires star.p / DAY <= star.protfit.c
    ensures star.protfit.b < 1.0 ==> TotalAcceleration(m, t, star, mf, binary).None?
    ensures 1.0 < star.protfit.b && TotalAcceleration(m, t, star, mf, binary).Some? ==>
              TotalAcceleration(m, t, star, mf, binary).value.ml == 0.0
  {
    assert TfromProt(m, star.p / DAY, star.protfit) == Some(0.0);
    if 1.0 < star.protfit.b && TotalAcceleration(m, t, star, mf, binary).Some? {
      assert DtheoProt(m, 0.0, star.protfit) == Some(0.0);
      MassLossOpposes(star.p, 0.0 * DAY / GYR);
    }
  }

  // ---------------------------------------------------------------------------
  // rotationalAcceleration.

  /** The entries of the params dictionary; starf is None for a single star. */
  datatype RotParams = RotParams(star: Star, starf: Option<real>, binary: Binary,
                                 taudisk: real, kw: real, wsat: real)

  /** The three contributions to dOmega/dt. */
  datatype RotTerms = RotTerms(tide: real, cont: real, wind: real)

  /** The age in Gyr at which the star is evaluated: t (s) converted, clamped to taums. */
  function RotAge(t: real, taums: real): (a: real)
    ensures a <= taums
    ensures t / GYR <= taums ==> a == t / GYR
  {
    var a := t / GYR;
    if a > taums then taums else a
  }

  /**
   * The magnetic-braking torque -Kw Omega**3 facw below the saturation rate sat =
   * wsat*OMEGASUN and -Kw Omega sat**2 facw above it.
   */
  function WindTorque(omega: real, facw: real, kw: real, sat: real): real {
    if omega <= sat then -kw * (omega * omega * omega) * facw
    else -kw * omega * (sat * sat) * facw
  }

  /** Both braking laws give the same torque at the saturation rate. */
  lemma WindTorqueAtSaturation(facw: real, kw: real, sat: real)
    ensures -kw * (sat * sat * sat) * facw == -kw * sat * (sat * sat) * facw
    ensures WindTorque(sat, facw, kw, sat) == -kw * sat * (sat * sat) * facw
  {
  }

  /** x**3 is monotone. */
  lemma CubeMonotone(x: real, y: real)
    requires 0.0 <= x <= y
    ensures x * x * x <= y * y * y
  {
    assert x * x <= y * y by {
      assert x * x <= x * y;
      assert x * y <= y * y;
    }
    assert x * x * x <= y * y * x;
    assert y * y * x <= y * y * y;
  }

  /**
   * For non-negative Kw, facw and saturation rate the torque brakes (is never positive)
   * and brakes harder the faster the star spins, across the switch between the laws.
   */
  lemma WindTorqueMonotone(w1: real, w2: real, facw: real, kw: real, sat: real)
    requires 0.0 <= w1 <= w2 && 0.0 <= facw && 0.0 <= kw && 0.0 <= sat
    ensures WindTorque(w2, facw, kw, sat) <= WindTorque(w1, facw, kw, sat) <= 0.0
  {
    var c := kw * facw;
    assert 0.0 <= c;
    assert 0.0 <= w1 * w1 * w1;
    assert WindTorque(w1, facw, kw, sat) <= 0.0 by {
      if w1 <= sat {
        assert 0.0 <= c * (w1 * w1 * w1);
        assert WindTorque(w1, facw, kw, sat) == -(c * (w1 * w1 * w1));
      } else {
        assert 0.0 <= c * (w1 * (sat * sat));
        assert WindTorque(w1, facw, kw, sat) == -(c * (w1 * (sat * sat)));
      }
    }
    if w2 <= sat {
      CubeMonotone(w1, w2);
      assert c * (w1 * w1 * w1) <= c * (w2 * w2 * w2);
      assert WindTorque(w1, facw, kw, sat) == -(c * (w1 * w1 * w1));
      assert WindTorque(w2, facw, kw, sat) == -(c * (w2 * w2 * w2));
    } else if w1 <= sat {
      CubeMonotone(w1, sat);
      assert sat * sat * sat <= w2 * (sat * sat);
      assert c * (w1 * w1 * w1) <= c * (w2 * (sat * sat));
      assert WindTorque(w1, facw, kw, sat) == -(c * (w1 * w1 * w1));
      assert WindTorque(w2, facw, kw, sat) == -(c * (w2 * (sat * sat)));
    } else {
      assert w1 * (sat * sat) <= w2 * (sat * sat);
      assert c * (w1 * (sat * sat)) <= c * (w2 * (sat * sat));
      assert WindTorque(w1, facw, kw, sat) == -(c * (w1 * (sat * sat)));
      assert WindTorque(w2, facw, kw, sat) == -(c * (w2 * (sat * sat)));
    }
  }

  /**
   * The contraction and wind terms at clamped age a: both zero before taudisk; from then
   * on the contraction -Omega dI/dt / I / GYR (zero after 12 Gyr) and the braking torque
   * over I MSUN RSUN**2, with facw = R**0.5/M**0.5. None where I or M**0.5 is zero.
   */
  function SpinDownTerms(m: Math, omega: real, a: real, p: RotParams, omegasun: real): Option<(real, real)> {
    if a < p.taudisk then Some((0.0, 0.0))
    else
      var i := p.star.ifunc(a);
      var sm := m.sqrt(p.star.mass);
      if i == 0.0 || sm == 0.0 then None
      else
        var cont := if a > 12.0 then 0.0 else -omega * p.star.didtfunc(a) / i / GYR;
        var facw := m.sqrt(p.star.rfunc(a)) / sm;
        var torque := WindTorque(omega, facw, p.kw, p.wsat * omegasun);
        Some((cont, torque / (i * MSUN * RSUN * RSUN)))
  }

  /** The tidal term at clamped age a: zero without a companion, tidalAcceleration otherwise. */
  function TideTerm(m: Math, omega: real, a: real, p: RotParams): Option<real> {
    match p.starf
    case None => Some(0.0)
    case Some(mf) =>
      TidalAcceleration(m, p.star.mass, p.star.rfunc(a), p.star.lfunc(a), p.star.moi, mf,
                        p.binary.abin, p.binary.ebin, p.binary.nbin / DAY, omega)
  }

  /** The three terms of rotationalAcceleration (BHM/BHMstars.py:852-912) at spin Omega and time t (s). */
  function RotationalTerms(m: Math, omega: real, t: real, p: RotParams, omegasun: real): Option<RotTerms> {
    var a := RotAge(t, p.star.taums);
    var sd := SpinDownTerms(m, omega, a, p, omegasun);
    var tide := TideTerm(m, omega, a, p);
    if sd.None? || tide.None? then None
    else Some(RotTerms(tide.value, sd.value.0, sd.value.1))
  }

  /** rotationalAcceleration (BHM/BHMstars.py:852-912): dOmega/dt = tide + contraction + wind. */
  function RotationalAcceleration(m: Math, omega: real, t: real, p: RotParams, omegasun: real): (r: Option<real>)
    ensures r.Some? <==> RotationalTerms(m, omega, t, p, omegasun).Some?
    ensures r.Some? ==> var k := RotationalTerms(m, omega, t, p, omegasun).value;
                        r.value == k.tide + k.cont + k.wind
  {
    var k := RotationalTerms(m, omega, t, p, omegasun);
    if k.None? then None else Some(k.value.tide + k.value.cont + k.value.wind)
  }

  /**
   * The gates of rotationalAcceleration: nothing but tides before the disk is released,
   * no contraction after 12 Gyr, no tides without a companion, and a star past taums
   * behaves as at taums.
   */
  lemma RotationalGates(m: Math, omega: real, t: real, p: RotParams, omegasun: real)
    ensures var k := RotationalTerms(m, omega, t, p, omegasun);
            var a := RotAge(t, p.star.taums);
            && (k.Some? && a < p.taudisk ==> k.value.cont == 0.0 && k.value.wind == 0.0)
            && (k.Some? && 12.0 < a ==> k.value.cont == 0.0)
            && (k.Some? && p.starf.None? ==> k.value.tide == 0.0)
            && (a < p.taudisk && p.starf.None? ==> k == Some(RotTerms(0.0, 0.0, 0.0)))
    ensures p.star.taums < t / GYR ==>
              RotationalTerms(m, omega, t, p, omegasun) == RotationalTerms(m, omega, p.star.taums * GYR, p, omegasun)
  {
    assert p.star.taums * GYR / GYR == p.star.taums;
  }

  /**
   * Spinning a star with no companion faster never weakens its braking: with positive
   * I, Kw, saturation rate and facw, the wind term does not increase with Omega.
   */
  lemma WindTermMonotone(m: Math, w1: real, w2: real, a: real, p: RotParams, omegasun: real)
    requires Lawful(m)
    requires 0.0 <= w1 <= w2 && 0.0 <= p.kw && 0.0 <= p.wsat * omegasun
    requires 0.0 < p.star.ifunc(a) && 0.0 < p.star.mass && 0.0 <= p.star.rfunc(a)
    requires p.taudisk <= a
    ensures SpinDownTerms(m, w1, a, p, omegasun).Some? && SpinDownTerms(m, w2, a, p, omegasun).Some?
    ensures SpinDownTerms(m, w2, a, p, omegasun).value.1 <= SpinDownTerms(m, w1, a, p, omegasun).value.1 <= 0.0
  {
    SqrtPositive(m, p.star.mass);
    var facw := m.sqrt(p.star.rfunc(a)) / m.sqrt(p.star.mass);
    var d := p.star.ifunc(a) * MSUN * RSUN * RSUN;
    assert 0.0 <= m.sqrt(p.star.rfunc(a));
    QuotientNonNegative(m.sqrt(p.star.rfunc(a)), m.sqrt(p.star.mass));
    WindTorqueMonotone(w1, w2, facw, p.kw, p.wsat * omegasun);
    DivideNonPositive(WindTorque(w2, facw, p.kw, p.wsat * omegasun), WindTorque(w1, facw, p.kw, p.wsat * omegasun), d);
    SpinDownWind(m, w1, a, p, omegasun);
    SpinDownWind(m, w2, a, p, omegasun);
  }

  /** Past the disk, with I and M**0.5 non-zero, the braking term is the torque over I MSUN RSUN**2. */
  lemma SpinDownWind(m: Math, omega: real, a: real, p: RotParams, omegasun: real)
    requires p.taudisk <= a && p.star.ifunc(a) != 0.0 && m.sqrt(p.star.mass) != 0.0
    ensures SpinDownTerms(m, omega, a, p, omegasun).Some?
    ensures SpinDownTerms(m, omega, a, p, omegasun).value.1 ==
              WindTorque(omega, m.sqrt(p.star.rfunc(a)) / m.sqrt(p.star.mass), p.kw, p.wsat * omegasun) /
              (p.star.ifunc(a) * MSUN * RSUN * RSUN)
  {
  }

  lemma SqrtPositive(m: Math, x: real)
    requires Lawful(m) && 0.0 < x
    ensures 0.0 < m.sqrt(x)
  {
    assert 0.0 <= m.sqrt(x) && m.sqrt(x) * m.sqrt(x) == x;
  }

  lemma QuotientNonNegative(x: real, y: real)
    requires 0.0 <= x && 0.0 < y
    ensures 0.0 <= x / y
  {
  }

  lemma DivideNonPositive(t2: real, t1: real, d: real)
    requires t2 <= t1 <= 0.0 && 0.0 < d
    ensures t2 / d <= t1 / d <= 0.0
  {
  }

  // ---------------------------------------------------------------------------
  // starLXUV.

  /** The saturation time taui = 2.03e15 (1.8 Ls)**-0.65 / (1e9 YEAR) in Gyr. */
  function SaturationTime(m: Math, ls: real): real {
    2.03e15 * m.pow(ls * 1.8, -0.65) / (1.0e9 * YEAR)
  }

  /** The X-ray luminosity (erg/s): 6.3e-4 L in the saturated phase t <= taui, 1.8928e28 t**-1.34 after. */
  function XRayLuminosity(m: Math, ls: real, t: real): real {
    if t <= SaturationTime(m, ls) then 6.3e-4 * (ls * LSUN * 1.0e7)
    else 1.8928e28 * m.pow(t, -1.34)
  }

  /** LX and the EUV luminosity 10**(4.8 + 0.86 log10 LX) the source derives from it. */
  function XUVComponents(m: Math, ls: real, t: real): (real, real) {
    var lx := XRayLuminosity(m, ls, t);
    (lx, m.pow(10.0, 4.8 + 0.86 * m.log10(lx)))
  }

  /**
   * starLXUV (BHM/BHMstars.py:914-938): the value returned is LX alone, the EUV part
   * being computed and then overwritten. None for Ls <= 0, where (1.8 Ls)**-0.65 raises.
   */
  function StarLXUV(m: Math, ls: real, t: real): (r: Option<real>)
    ensures r.Some? <==> 0.0 < ls
  {
    if ls <= 0.0 then None else Some(XUVComponents(m, ls, t).0)
  }

  /**
   * The XUV luminosity is the X-ray part alone: proportional to Ls while saturated,
   * independent of Ls afterwards, and positive.
   */
  lemma StarLXUVFacts(m: Math, ls: real, ls': real, t: real)
    requires Lawful(m) && 0.0 < ls && 0.0 < ls'
    ensures StarLXUV(m, ls, t) == Some(XRayLuminosity(m, ls, t))
    ensures 0.0 < SaturationTime(m, ls)
    ensures t <= SaturationTime(m, ls) ==> StarLXUV(m, ls, t) == Some(6.3e-4 * LSUN * 1.0e7 * ls)
    ensures SaturationTime(m, ls) < t && SaturationTime(m, ls') < t ==> StarLXUV(m, ls, t) == StarLXUV(m, ls', t)
    ensures 0.0 < StarLXUV(m, ls, t).value
  {
    assert 0.0 < m.pow(ls * 1.8, -0.65);
    if SaturationTime(m, ls) < t {
      assert 0.0 < m.pow(t, -1.34);
    }
  }

  // ---------------------------------------------------------------------------
  // starRX.

  /** The activity regime of starRX. */
  datatype Regime = Middle | High | OtherRegime(name: string)

  /** The saturation Rossby number of each regime: 0.13, 0.13+2*0.02, 0.13-2*0.02. */
  function RoSat(regime: Regime): real {
    match regime
    case Middle => 0.13
    case High => 0.13 + 2.0 * 0.02
    case OtherRegime(_) => 0.13 - 2.0 * 0.02
  }

  /** The saturated ratio of each regime: 10**-3.13, 10**(-3.13+2*0.08), 10**(-3.13-2*0.08). */
  function RXSat(m: Math, regime: Regime): real {
    match regime
    case Middle => m.pow(10.0, -3.13)
    case High => m.pow(10.0, -3.13 + 2.0 * 0.08)
    case OtherRegime(_) => m.pow(10.0, -3.13 - 2.0 * 0.08)
  }

  /** starRX (BHM/BHMstars.py:1020-1038): X-ray to bolometric ratio of Wright et al. (2013). */
  function StarRX(m: Math, ro: real, regime: Regime): real {
    if ro < RoSat(regime) then RXSat(m, regime)
    else RXSat(m, regime) * m.pow(ro / RoSat(regime), -2.70)
  }

  /**
   * The ratio is saturated (constant) below the regime's Rossby number, the power law
   * meets the saturated value at the knee, and the ratio is positive.
   */
  lemma StarRXFacts(m: Math, ro: real, regime: Regime)
    requires Lawful(m)
    ensures 0.0 < RoSat(regime) && 0.0 < RXSat(m, regime)
    ensures ro < RoSat(regime) ==> StarRX(m, ro, regime) == RXSat(m, regime)
    ensures StarRX(m, RoSat(regime), regime) == RXSat(m, regime)
    ensures 0.0 < ro ==> 0.0 < StarRX(m, ro, regime)
  {
    var rs := RoSat(regime);
    assert rs / rs == 1.0;
    if rs <= ro {
      QuotientPositive(ro, rs);
      ProductPositive(RXSat(m, regime), m.pow(ro / rs, -2.70));
    }
  }

  // ---------------------------------------------------------------------------
  // VParker, vnGreissmeier and binaryWind.

  /** Which solution of Parker's equation VParker takes. */
  datatype ParkerBranch = Sonic | Bracketed(lo: real, hi: real)

  /**
   * VParker's branch (BHM/BHMstars.py:655-661) for the distance dn in units of the
   * critical radius: vn = 1 within 1e-3 of the sonic point, otherwise a root bracketed
   * in [1.001, 10] beyond it or in [0.0001, 0.9998] inside it.
   */
  function ParkerBranchOf(dn: real): ParkerBranch {
    if Abs(dn - 1.0) < 1.0e-3 then Sonic
    else if dn > 1.0 then Bracketed(1.001, 10.0)
    else Bracketed(0.0001, 0.9998)
  }

  /**
   * Near the sonic point the sonic solution is taken; elsewhere the bracket lies
   * entirely on dn's side of 1, supersonic beyond the critical radius and subsonic inside.
   */
  lemma ParkerBranchFacts(dn: real)
    ensures ParkerBranchOf(dn).Sonic? <==> 0.999 < dn < 1.001
    ensures ParkerBranchOf(dn).Bracketed? ==>
              var b := ParkerBranchOf(dn);
              b.lo < b.hi && (1.0 < b.lo <==> 1.0 < dn) && (b.hi < 1.0 <==> dn < 1.0)
  {
  }

  /**
   * The routines the wind model calls whose results cannot be stated exactly: the
   * reference solar wind vn1AUeq (v, n) at an age in seconds, scaleProp, the coronal
   * temperature Tcorona(t, M) (a Newton iteration) and brentq's root of Parker's equation
   * for dn inside a bracket.
   */
  datatype WindEnv = WindEnv(vn1AU: real -> (real, real), scaleProp: (real, real, real) -> real,
                             tcorona: (real, real) -> real, parkerRoot: (real, real, real) -> real)

  /**
   * VParker (BHM/BHMstars.py:637-661): the wind speed vn vc at d AU from a star of M solar
   * masses with a corona at Tc, with vc = (KB Tc/MP)**0.5 and the critical radius
   * dc = MP G M/(4 KB Tc); None where Tc or M is zero.
   */
  function VParker(m: Math, env: WindEnv, d: real, ms: real, tc: real): (r: Option<real>)
    ensures r.Some? <==> tc != 0.0 && ms != 0.0
  {
    if tc == 0.0 || ms == 0.0 then None
    else
      var vc := m.sqrt(KB * tc / MP);
      var dc := MP * GCONST * (ms * MSUN) / (4.0 * KB * tc);
      assert dc != 0.0 by {
        ProductPositive(MP * GCONST, 1.0);
        assert MP * GCONST * (ms * MSUN) == (MP * GCONST * MSUN) * ms;
      }
      var dn := d * AU / dc;
      var vn := match ParkerBranchOf(dn)
                case Sonic => 1.0
                case Bracketed(lo, hi) => env.parkerRoot(dn, lo, hi);
      Some(vn * vc)
  }

  /** Which early wind vnGreissmeier assumes ('constant' holds the wind fixed before 0.7 Gyr). */
  function WindAge(t: real, early: string): (a: real)
    ensures early == "constant" ==> 0.7 <= a && (0.7 <= t ==> a == t)
    ensures early != "constant" ==> a == t
  {
    if t < 0.7 && early == "constant" then 0.7 else t
  }

  /**
   * The wind of a star of mass M and radius R at d AU once the age a (Gyr) is fixed:
   * the solar reference wind at a scaled to the star's mass-loss rate, the Parker speed
   * vr for the coronal temperature, the density dMstar/(4 pi (d AU)**2 vr MP) and the
   * effective speed (vr**2 + vkep**2)**0.5. None where the Parker speed fails or a
   * divisor (d, the Parker speed) is zero.
   */
  function WindAtAge(m: Math, env: WindEnv, d: real, a: real, ms: real, rs: real): Option<(real, real)> {
    var (vref, nref) := env.vn1AU(a * GIGA * YEAR);
    var dMsun := 4.0 * PI * (AU * AU) * nref * vref * MP;
    var dMstar := env.scaleProp(rs, dMsun, 2.0);
    var tc := env.tcorona(a, ms);
    var vr := VParker(m, env, d, ms, tc);
    if vr.None? || d == 0.0 || vr.value == 0.0 then None
    else
      var n := dMstar / (4.0 * PI * ((d * AU) * (d * AU)) * vr.value * MP);
      var vkep := m.sqrt(GCONST * ms * MSUN / (d * AU));
      Some((m.sqrt(vr.value * vr.value + vkep * vkep), n))
  }

  /**
   * vnGreissmeier (BHM/BHMstars.py:671-725): the effective wind velocity and number
   * density at d AU from a star of mass M and radius R at age t (Gyr), taken at the
   * clamped age.
   */
  function VnGreissmeier(m: Math, env: WindEnv, d: real, t: real, ms: real, rs: real, early: string)
    : Option<(real, real)>
  {
    WindAtAge(m, env, d, WindAge(t, early), ms, rs)
  }

  /** With the constant early wind, every age before 0.7 Gyr has the wind of 0.7 Gyr. */
  lemma EarlyWindConstant(m: Math, env: WindEnv, d: real, t: real, ms: real, rs: real)
    requires t < 0.7
    ensures VnGreissmeier(m, env, d, t, ms, rs, "constant") == VnGreissmeier(m, env, d, 0.7, ms, rs, "constant")
    ensures WindAge(t, "trend") == t
  {
    assert WindAge(t, "constant") == 0.7 == WindAge(0.7, "constant");
  }

  /**
   * binaryWind (BHM/BHMstars.py:945-952): the ram pressure n1 v1**2 + n2 v2**2 and the
   * particle flux n1 v1 + n2 v2 of both winds at a AU; the companion contributes nothing
   * when tau2 <= 0. The wind of one star is the parameter `wind(a, tau, M, R)`.
   */
  function BinaryWind(wind: (real, real, real, real) -> Option<(real, real)>,
                      a: real, tau1: real, m1: real, r1: real, tau2: real, m2: real, r2: real)
    : Option<(real, real)>
  {
    var w1 := wind(a, tau1, m1, r1);
    var w2 := if tau2 > 0.0 then wind(a, tau2, m2, r2) else Some((0.0, 0.0));
    if w1.None? || w2.None? then None
    else Combine(w1.value, w2.value)
  }

  /** The ram pressure and particle flux of two winds, each given as (speed, density). */
  function Combine(w1: (real, real), w2: (real, real)): Option<(real, real)> {
    Some((w1.1 * (w1.0 * w1.0) + w2.1 * (w2.0 * w2.0), w1.1 * w1.0 + w2.1 * w2.0))
  }

  /**
   * Without a companion wind (tau2 <= 0) the result is the primary's wind alone, whatever
   * M2 and R2 are; with two winds the result does not depend on which star is first, and
   * non-negative densities and speeds give non-negative pressure and flux.
   */
  lemma BinaryWindFacts(wind: (real, real, real, real) -> Option<(real, real)>,
                        a: real, tau1: real, m1: real, r1: real, tau2: real, m2: real, r2: real)
    ensures tau2 <= 0.0 && wind(a, tau1, m1, r1).Some? ==>
              var (v1, n1) := wind(a, tau1, m1, r1).value;
              BinaryWind(wind, a, tau1, m1, r1, tau2, m2, r2) == Some((n1 * (v1 * v1), n1 * v1))
    ensures tau2 <= 0.0 ==> BinaryWind(wind, a, tau1, m1, r1, tau2, m2, r2) == BinaryWind(wind, a, tau1, m1, r1, -1.0, -1.0, -1.0)
    ensures 0.0 < tau1 && 0.0 < tau2 ==>
              BinaryWind(wind, a, tau1, m1, r1, tau2, m2, r2) == BinaryWind(wind, a, tau2, m2, r2, tau1, m1, r1)
    ensures var b := BinaryWind(wind, a, tau1, m1, r1, tau2, m2, r2);
            b.Some? && NonNegativeWind(wind(a, tau1, m1, r1)) && (tau2 > 0.0 ==> NonNegativeWind(wind(a, tau2, m2, r2)))
            ==> 0.0 <= b.value.0 && 0.0 <= b.value.1
  {
    var b := BinaryWind(wind, a, tau1, m1, r1, tau2, m2, r2);
    if 0.0 < tau1 && 0.0 < tau2 && b.Some? {
      var w1, w2 := wind(a, tau1, m1, r1).value, wind(a, tau2, m2, r2).value;
      WindSumSymmetric(w1.1, w1.0, w2.1, w2.0);
      assert Combine(w1, w2) == Combine(w2, w1);
    }
    if b.Some? && NonNegativeWind(wind(a, tau1, m1, r1)) && (tau2 > 0.0 ==> NonNegativeWind(wind(a, tau2, m2, r2))) {
      var w2 := if tau2 > 0.0 then wind(a, tau2, m2, r2).value else (0.0, 0.0);
      WindSumNonNegative(wind(a, tau1, m1, r1).value.1, wind(a, tau1, m1, r1).value.0, w2.1, w2.0);
    }
  }

  lemma WindSumSymmetric(n1: real, v1: real, n2: real, v2: real)
    ensures (n1 * (v1 * v1) + n2 * (v2 * v2), n1 * v1 + n2 * v2) == (n2 * (v2 * v2) + n1 * (v1 * v1), n2 * v2 + n1 * v1)
  {
  }

  lemma WindSumNonNegative(n1: real, v1: real, n2: real, v2: real)
    requires 0.0 <= n1 && 0.0 <= v1 && 0.0 <= n2 && 0.0 <= v2
    ensures 0.0 <= n1 * (v1 * v1) + n2 * (v2 * v2) && 0.0 <= n1 * v1 + n2 * v2
  {
  }

  predicate NonNegativeWind(w: Option<(real, real)>) {
    w.Some? ==> 0.0 <= w.value.0 && 0.0 <= w.value.1
  }

  // ---------------------------------------------------------------------------
  // starProt.

  /** Why starProt stops: a star without rotation (errorCode("DATA_ERROR")) or sin(i) == 0. */
  datatype ProtError = DataError | ZeroSine

  /**
   * starProt (BHM/BHMstars.py:966-972): the rotation period in days 2 pi R/(v sin i/sin i)
   * of a star of radius R (solar radii) with projected speed vsini (km/s) at inclination
   * i (degrees).
   */
  function StarProt(m: Math, vsini: real, i: real, r: real): (p: Result<real, ProtError>)
    ensures vsini <= 0.0 ==> p == Failure(DataError)
  {
    if vsini > 0.0 then
      var s := m.sin(i * DEG);
      if s == 0.0 then Failure(ZeroSine)
      else Success(2.0 * PI * r * (RSUN / 1.0e3) / (vsini / s) / DAY)
  else Failure(DataError)
  }

  /**
   * A star without rotation stops with the exit status of DATA_ERROR; otherwise the
   * period times the equatorial speed vsini/sin(i) is the circumference in km, in days,
   * and a positive radius and sine give a positive period.
   */
  lemma StarProtFacts(m: Math, vsini: real, i: real, r: real)
    ensures vsini <= 0.0 ==> StarProt(m, vsini, i, r) == Failure(DataError) && ErrorCode("DATA_ERROR") == Some(3)
    ensures 0.0 < vsini && m.sin(i * DEG) != 0.0 ==>
              StarProt(m, vsini, i, r).Success? &&
              StarProt(m, vsini, i, r).value * (vsini / m.sin(i * DEG)) * DAY == 2.0 * PI * r * (RSUN / 1.0e3)
    ensures 0.0 < vsini && 0.0 < m.sin(i * DEG) && 0.0 < r ==> 0.0 < StarProt(m, vsini, i, r).value
  {
    if 0.0 < vsini && m.sin(i * DEG) != 0.0 {
      var v := vsini / m.sin(i * DEG);
      assert v != 0.0;
      var c := 2.0 * PI * r * (RSUN / 1.0e3);
      assert c / v / DAY * v * DAY == c;
      if 0.0 < m.sin(i * DEG) && 0.0 < r {
        QuotientPositive(vsini, m.sin(i * DEG));
        assert 0.0 < c;
        QuotientPositive(c, v);
        QuotientPositive(c / v, DAY);
      }
    }
  }
}

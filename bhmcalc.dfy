/**
 * The computation of BHMcalc.py for one binary: the tidal synchronisation times, the scan
 * of the habitable zone over the system's age, the search for the edges of the continuous
 * habitable zone, the clamps on the inner edge, the horizon and the time step, the
 * forward-Euler spin integration of both stars with its flux samples, the fluence prefix
 * sums and the atmospheric mass-loss ensemble.
 *
 * BHMcalc.py takes its stellar, tidal, wind and habitable-zone functions from modules
 * that are not part of this model (BHMcalc.py:1-4); they enter as the fields of `Env`.
 */
module SpinEvolution {
  import opened Wrappers
  import opened Numerics
  import opened BHM
  import Rotation

  /** Entrapment factor of the atmosphere (BHMcalc.py:45). */
  const ALPHA: real := 0.3
  /** Mean molecular weight of the atmosphere (BHMcalc.py:46). */
  const MUATM: real := 44.0
  /** First age of the isochrone range, in Gyr (BHMcalc.py:151). */
  const TAU0: real := 0.01
  /** Last age of the isochrone range, in Gyr (BHMcalc.py:152). */
  const TAUM: real := 12.5
  /** Number of ages of the habitable-zone scan (BHMcalc.py:424). */
  const HZ_SAMPLES: nat := 200
  /** First age of the habitable-zone scan (BHMcalc.py:424). */
  const HZ_START: real := 0.1
  /** The time step never exceeds 1e-3 Gyr (BHMcalc.py:561). */
  const DT_MAX: real := 1.0e-3
  /** Fluxes are sampled every 50 integration steps (BHMcalc.py:566). */
  const RATE_FLUX_INTEGRATE: nat := 50
  /** Number of planet masses of the mass-loss ensemble (BHMcalc.py:1149). */
  const MP_SAMPLES: nat := 100

  /**
   * The functions and constants BHMcalc.py imports from modules outside this model:
   * StellarGTRL(Z, M, tau) = (g, T, R, L); the 8-argument tidalAcceleration(M, R, L, M',
   * abin, e, n, W); tfromProt and dtheoProt for a period fit; starLXUV(L, tau);
   * binaryWind(a, tau1, M1, R1, tau2, M2, R2, early) = (pressure, flux); HZ2013(L, T,
   * lin, lout) = (lin, aE, lout), None where it raises; HZbin4(q, L1, L2, T1, abin, lin,
   * lout) = (lin, aE, lout); the flux unit PEL and the Earth radius Rp_E.
   */
  datatype Env = Env(
    gtrl: (real, real, real) -> (real, real, real, real),
    tidal: (real, real, real, real, real, real, real, real) -> real,
    tfromProt: (real, Rotation.Fit) -> real,
    dtheoProt: (real, Rotation.Fit) -> real,
    starLXUV: (real, real) -> real,
    binaryWind: (real, real, real, real, real, real, real, string) -> (real, real),
    hz2013: (real, real, string, string) -> Option<(real, real, real)>,
    hzbin4: (real, real, real, real, real, string, string) -> (real, real, real),
    pel: real,
    rpE: real)

  /**
   * The binary: metallicity Z, masses M1 and M2, eccentricity e, semimajor axis abin (AU),
   * mean motion nbin (rad/day), initial spins W1o and W2o (rad/day), the early-wind mode
   * and the habitable-zone criteria for the inner and the outer edge.
   */
  datatype System = System(z: real, m1: real, m2: real, e: real, abin: real, nbin: real,
                           w1o: real, w2o: real, early: string, incrit: string, outcrit: string)

  // ---------------------------------------------------------------------------
  // Synchronisation times (BHMcalc.py:273-280).

  /** The primary's tidal acceleration at age 0.1 Gyr and its initial spin, in rad/s. */
  function InitialTidalAcceleration(env: Env, sys: System): real {
    var s1 := env.gtrl(sys.z, sys.m1, 0.1);
    env.tidal(sys.m1, s1.2, s1.3, sys.m2, sys.abin, sys.e, sys.nbin / DAY, sys.w1o / DAY)
  }

  /**
   * tsync1 = -(W1o/DAY)/acc1/GYR and tsync2 = -(W2o/DAY)/acc1/GYR: both times divide by
   * the primary's acceleration acc1, as the source does; None where acc1 is zero.
   */
  function SyncTimes(env: Env, sys: System): (r: Option<(real, real)>)
    ensures r.None? <==> InitialTidalAcceleration(env, sys) == 0.0
  {
    var acc1 := InitialTidalAcceleration(env, sys);
    if acc1 == 0.0 then None
    else Some((-(sys.w1o / DAY) / acc1 / GYR, -(sys.w2o / DAY) / acc1 / GYR))
  }

  /**
   * Each time, multiplied by acc1 (in 1/Gyr), gives minus the initial spin: the time the
   * primary's tidal acceleration needs to cancel the spin. The secondary's time is the
   * primary's scaled by W2o/W1o, so it does not depend on the secondary's own tides.
   */
  lemma SyncTimesFacts(env: Env, sys: System)
    ensures var r := SyncTimes(env, sys);
            var acc1 := InitialTidalAcceleration(env, sys);
            r.Some? ==> r.value.0 * (acc1 * GYR) == -(sys.w1o / DAY) && r.value.1 * (acc1 * GYR) == -(sys.w2o / DAY)
    ensures var r := SyncTimes(env, sys);
            r.Some? && sys.w1o != 0.0 ==> r.value.1 == r.value.0 * (sys.w2o / sys.w1o)
  {
    var acc1 := InitialTidalAcceleration(env, sys);
    if acc1 != 0.0 {
      QuotientTimes(-(sys.w1o / DAY), acc1);
      QuotientTimes(-(sys.w2o / DAY), acc1);
      if sys.w1o != 0.0 {
        RatioOfQuotients(sys.w1o, sys.w2o, acc1 * GYR * DAY);
      }
    }
  }

  lemma QuotientTimes(x: real, a: real)
    requires a != 0.0
    ensures x / a / GYR * (a * GYR) == x
  {
  }

  lemma RatioOfQuotients(w1: real, w2: real, k: real)
    requires w1 != 0.0 && k != 0.0
    ensures -(w2 / DAY) / (k / DAY / GYR) / GYR == -(w1 / DAY) / (k / DAY / GYR) / GYR * (w2 / w1)
  {
  }

  // ---------------------------------------------------------------------------
  // The habitable zone over the system's age (BHMcalc.py:424-447).

  /** The binary's inner and outer edge and the primary's alone, at one age. */
  datatype HZPoint = HZPoint(lin: real, lout: real, slin: real, slout: real)

  /**
   * One age of the scan: the properties of both stars, the primary's single-star zone
   * (None where HZ2013 raises) and the binary zone for the mass ratio M2/M1.
   */
  function HZAt(env: Env, sys: System, tau: real): Option<HZPoint>
    requires sys.m1 != 0.0
  {
    var s1 := env.gtrl(sys.z, sys.m1, tau);
    var s2 := env.gtrl(sys.z, sys.m2, tau);
    var single := env.hz2013(s1.3, s1.1, sys.incrit, sys.outcrit);
    if single.None? then None
    else
      var bin := env.hzbin4(sys.m2 / sys.m1, s1.3, s2.3, s1.1, sys.abin, sys.incrit, sys.outcrit);
      Some(HZPoint(bin.0, bin.2, single.value.0, single.value.2))
  }

  /**
   * The scan over tauvec = linspace(0.1, tauM, 200): it records the zones at the ages
   * before the first one where HZ2013 raises, truncates tauvec to those ages, and reports
   * the last of them as the system's age (None where the first age already fails, where
   * the source leaves tausys unbound).
   */
  method HZScan(env: Env, sys: System, tauM: real)
    returns (taus: seq<real>, lins: seq<real>, louts: seq<real>, slins: seq<real>, slouts: seq<real>,
             tausys: Option<real>)
    requires sys.m1 != 0.0
    ensures var grid := Linspace(HZ_START, tauM, HZ_SAMPLES);
            |taus| <= HZ_SAMPLES && taus == grid[..|taus|] &&
            (|taus| < HZ_SAMPLES ==> HZAt(env, sys, grid[|taus|]).None?)
    ensures |lins| == |taus| && |louts| == |taus| && |slins| == |taus| && |slouts| == |taus|
    ensures forall k :: 0 <= k < |taus| ==>
              HZAt(env, sys, taus[k]) == Some(HZPoint(lins[k], louts[k], slins[k], slouts[k]))
    ensures tausys == if |taus| == 0 then None else Some(taus[|taus| - 1])
    ensures HZ_START < tauM && tausys.Some? ==> forall k :: 0 <= k < |taus| ==> taus[k] <= tausys.value
  {
    var tauvec := Linspace(HZ_START, tauM, HZ_SAMPLES);
    lins, louts, slins, slouts := [], [], [], [];
    tausys := None;
    var i := 0;
    while i < |tauvec|
      invariant 0 <= i <= |tauvec|
      invariant |lins| == i && |louts| == i && |slins| == i && |slouts| == i
      invariant forall k :: 0 <= k < i ==>
                  HZAt(env, sys, tauvec[k]) == Some(HZPoint(lins[k], louts[k], slins[k], slouts[k]))
      invariant tausys == if i == 0 then None else Some(tauvec[i - 1])
    {
      var tau := tauvec[i];
      var s1 := env.gtrl(sys.z, sys.m1, tau);
      var s2 := env.gtrl(sys.z, sys.m2, tau);
      var single := env.hz2013(s1.3, s1.1, sys.incrit, sys.outcrit);
      if single.None? {
        break;
      }
      var bin := env.hzbin4(sys.m2 / sys.m1, s1.3, s2.3, s1.1, sys.abin, sys.incrit, sys.outcrit);
      tausys := Some(tau);
      lins := lins + [bin.0];
      louts := louts + [bin.2];
      slins := slins + [single.value.0];
      slouts := slouts + [single.value.2];
      i := i + 1;
    }
    taus := tauvec[..i];
  }

  // ---------------------------------------------------------------------------
  // The edges of the continuous habitable zone (BHMcalc.py:450-479).

  /** A float as the edge search can meet it: finite, +inf (x/0 with x > 0) or NaN (0/0). */
  datatype Ext = Finite(value: real) | PosInf | NaN

  /** IEEE `a > b`: false whenever NaN takes part. */
  predicate Above(a: Ext, b: Ext) {
    match a
    case NaN => false
    case PosInf => b.Finite?
    case Finite(x) => b.Finite? && x > b.value
  }

  /**
   * Above is a strict order on the values that are not NaN: when a exceeds b and c does
   * not, a exceeds c.
   */
  lemma AboveThrough(a: Ext, b: Ext, c: Ext)
    requires Above(a, b) && !Above(c, b) && !c.NaN?
    ensures Above(a, c)
  {
  }

  /** eps = 2|x - y|/(x + y), with IEEE division by zero. */
  function EpsRatio(x: real, y: real): (r: Ext)
    ensures r.NaN? <==> x == 0.0 && y == 0.0
    ensures r.PosInf? <==> x + y == 0.0 && x != y
    ensures x + y > 0.0 ==> r.Finite? && 0.0 <= r.value
  {
    if x + y != 0.0 then Finite(2.0 * Abs(x - y) / (x + y))
    else if x - y == 0.0 then NaN
    else PosInf
  }

  /** dlins = [0] + (log10(lins[1:]) - log10(lins[:-1])). */
  function LogSteps(m: Math, xs: seq<real>): (d: seq<real>)
    requires |xs| >= 1
    ensures |d| == |xs| && d[0] == 0.0
    ensures forall k :: 1 <= k < |xs| ==> d[k] == m.log10(xs[k]) - m.log10(xs[k - 1])
  {
    [0.0] + seq(|xs| - 1, k requires 0 <= k < |xs| - 1 => m.log10(xs[k + 1]) - m.log10(xs[k]))
  }

  /** The indices of `arange(10, n)[::-3]`: n-1, n-4, ... down to 10 at the least. */
  predicate Visited(n: nat, j: int) {
    10 <= j < n && (n - 1 - j) % 3 == 0
  }

  /** The loop reaches j: it visits j and stops at no index visited before. */
  predicate Reached(taus: seq<real>, tausys: real, j: int)
    requires |taus| > 0
  {
    Visited(|taus|, j) &&
    forall j' {:trigger Visited(|taus|, j')} :: j < j' < |taus| && Visited(|taus|, j') ==> !(taus[j'] < tausys / 2.0)
  }

  /** The eps of a visited index: against the index visited before it, or dlins[-1] first. */
  function EpsAt(d: seq<real>, j: int): Ext
    requires 0 <= j < |d|
  {
    var before := if j + 3 < |d| then d[j + 3] else d[|d| - 1];
    EpsRatio(d[j], before)
  }

  /**
   * imax is the index the backward scan for the sharpest change of slope settles on:
   * among the indices the loop reaches, the first (in the order of the scan) whose eps
   * exceeds 0 and every earlier eps, and that no later eps exceeds; -1 when no eps exceeds
   * 0 (NaN never does).
   */
  predicate SharpestChange(d: seq<real>, taus: seq<real>, tausys: real, imax: int)
    requires |d| == |taus| && |d| >= 1
  {
    (imax == -1 || Reached(taus, tausys, imax)) &&
    (imax == -1 <==> forall j :: 0 <= j < |d| && Reached(taus, tausys, j) ==> !Above(EpsAt(d, j), Finite(0.0))) &&
    (imax != -1 ==> Above(EpsAt(d, imax), Finite(0.0))) &&
    (imax != -1 ==> forall j :: imax < j < |d| && Reached(taus, tausys, j) ==>
       EpsAt(d, j).NaN? || Above(EpsAt(d, imax), EpsAt(d, j))) &&
    (imax != -1 ==> forall j :: 0 <= j < imax && Reached(taus, tausys, j) ==>
       !Above(EpsAt(d, j), EpsAt(d, imax)))
  }

  /** At most one index is the sharpest change: the search has a single answer. */
  lemma SharpestChangeUnique(d: seq<real>, taus: seq<real>, tausys: real, i1: int, i2: int)
    requires |d| == |taus| && |d| >= 1
    requires SharpestChange(d, taus, tausys, i1) && SharpestChange(d, taus, tausys, i2)
    ensures i1 == i2
  {
  }

  /**
   * The scan's position: i is the next index to visit (or below 10), every visited index
   * above i was reached, and done says the last one visited was younger than tausys/2.
   */
  predicate Frontier(taus: seq<real>, tausys: real, i: int, done: bool) {
    var n := |taus|;
    n >= 1 && -3 <= i <= n - 1 && (n - 1 - i) % 3 == 0 &&
    (done ==> i + 3 < n && Visited(n, i + 3) && taus[i + 3] < tausys / 2.0) &&
    (forall j :: i < j < n && Visited(n, j) ==> Reached(taus, tausys, j)) &&
    (!done ==> forall j :: i < j < n && Visited(n, j) ==> !(taus[j] < tausys / 2.0))
  }

  /**
   * The scan's best index so far: epsmax is the eps at imax (0 before any), no visited index
   * above i exceeds it, the ones visited before imax are below it (or NaN) and the ones
   * visited after imax do not exceed it.
   */
  predicate Best(d: seq<real>, i: int, imax: int, epsmax: Ext) {
    var n := |d|;
    (imax == -1 || (i < imax && Visited(n, imax))) &&
    epsmax == (if imax == -1 then Finite(0.0) else EpsAt(d, imax)) &&
    (imax != -1 ==> Above(epsmax, Finite(0.0))) &&
    (forall j :: i < j < n && Visited(n, j) ==> !Above(EpsAt(d, j), epsmax)) &&
    (imax != -1 ==> forall j :: imax < j < n && Visited(n, j) ==> EpsAt(d, j).NaN? || Above(epsmax, EpsAt(d, j)))
  }

  lemma FrontierStep(taus: seq<real>, tausys: real, i: int)
    requires Frontier(taus, tausys, i, false) && i >= 10
    ensures Frontier(taus, tausys, i - 3, taus[i] < tausys / 2.0)
  {
    var n := |taus|;
    assert Visited(n, i);
    assert Reached(taus, tausys, i);
  }

  lemma BestKeep(d: seq<real>, i: int, imax: int, epsmax: Ext)
    requires Best(d, i, imax, epsmax) && 10 <= i < |d| && Visited(|d|, i)
    requires !Above(EpsAt(d, i), epsmax)
    ensures Best(d, i - 3, imax, epsmax)
  {
  }

  lemma BestUpdate(d: seq<real>, i: int, imax: int, epsmax: Ext)
    requires Best(d, i, imax, epsmax) && 10 <= i < |d| && Visited(|d|, i)
    requires Above(EpsAt(d, i), epsmax)
    ensures Best(d, i - 3, i, EpsAt(d, i))
  {
    var eps := EpsAt(d, i);
    forall j | i < j < |d| && Visited(|d|, j) && !EpsAt(d, j).NaN? ensures Above(eps, EpsAt(d, j)) {
      AboveThrough(eps, epsmax, EpsAt(d, j));
    }
  }

  /** When the scan stops, what it has seen is what SharpestChange speaks of. */
  lemma ScanEnd(d: seq<real>, taus: seq<real>, tausys: real, i: int, done: bool, imax: int, epsmax: Ext)
    requires |d| == |taus| && Frontier(taus, tausys, i, done) && Best(d, i, imax, epsmax)
    requires i < 10 || done
    ensures SharpestChange(d, taus, tausys, imax)
  {
    ReachedBelow(d, taus, tausys, i, done);
    assert forall j :: 0 <= j < |d| ==> (Reached(taus, tausys, j) <==> i < j && Visited(|d|, j));
  }

  /** The loop of BHMcalc.py:455-462 over the visited indices, with its break. */
  method EdgeSearch(d: seq<real>, taus: seq<real>, tausys: real) returns (imax: int)
    requires |d| == |taus| && |d| >= 1
    ensures SharpestChange(d, taus, tausys, imax)
  {
    var n := |d|;
    imax := -1;
    var epsmax := Finite(0.0);
    var dlinold := d[n - 1];
    var i := n - 1;
    var done := false;
    while i >= 10 && !done
      invariant Frontier(taus, tausys, i, done) && Best(d, i, imax, epsmax)
      invariant !done ==> dlinold == (if i + 3 < n then d[i + 3] else d[n - 1])
      decreases i + 3, if done then 0 else 1
    {
      var eps := EpsRatio(d[i], dlinold);
      assert Visited(n, i);
      assert eps == EpsAt(d, i);
      if Above(eps, epsmax) {
        BestUpdate(d, i, imax, epsmax);
        imax := i;
        epsmax := eps;
      } else {
        BestKeep(d, i, imax, epsmax);
      }
      dlinold := d[i];
      FrontierStep(taus, tausys, i);
      done := taus[i] < tausys / 2.0;
      i := i - 3;
    }
    ScanEnd(d, taus, tausys, i, done, imax, epsmax);
  }

  /** When the scan ends, the reached indices are exactly the visited ones above i. */
  lemma ReachedBelow(d: seq<real>, taus: seq<real>, tausys: real, i: int, done: bool)
    requires |d| == |taus| && |d| >= 1
    requires i < 10 || done
    requires done ==> -3 <= i && i + 3 < |taus| && Visited(|taus|, i + 3) && taus[i + 3] < tausys / 2.0
    ensures forall j :: Reached(taus, tausys, j) ==> i < j
  {
  }

  /** Python's `s[i]` for i in [-|s|, |s|): negative indices count from the end. */
  function PyAt(s: seq<real>, i: int): real
    requires -|s| <= i < |s|
  {
    if i < 0 then s[|s| + i] else s[i]
  }

  /**
   * The continuous zone of one scan: the inner edge at the sharpest change of slope of
   * log10 lin (the last one when there is none) and the smallest outer edge.
   */
  method ContinuousZone(m: Math, taus: seq<real>, lins: seq<real>, louts: seq<real>, tausys: real)
    returns (lincont: real, loutcont: real, imax: int)
    requires |lins| == |taus| && |louts| == |taus| && |taus| >= 1
    ensures SharpestChange(LogSteps(m, lins), taus, tausys, imax) && -1 <= imax < |lins|
    ensures lincont == PyAt(lins, imax)
    ensures loutcont in louts && forall k :: 0 <= k < |louts| ==> loutcont <= louts[k]
  {
    var dlins := LogSteps(m, lins);
    imax := EdgeSearch(dlins, taus, tausys);
    lincont := PyAt(lins, imax);
    loutcont := MinOf(louts);
  }

  // ---------------------------------------------------------------------------
  // Clamps on the inner edge, the horizon and the time step (BHMcalc.py:500-502, 554-556, 561).

  /** The inner edge of the continuous habitable zone is moved out to the critical distance. */
  function ClampInnerEdge(lincont: real, acrit: real): (r: real)
    ensures acrit <= r
    ensures lincont >= acrit ==> r == lincont
    ensures lincont < acrit ==> r == acrit
  {
    if lincont < acrit then acrit else lincont
  }

  /** The requested integration time is cut to the system's lifetime. */
  function ClampHorizon(tau1: real, tausys: real): (r: real)
    ensures r <= tausys
    ensures tau1 <= tausys ==> r == tau1
    ensures tau1 > tausys ==> r == tausys
  {
    if tau1 > tausys then tausys else tau1
  }

  /** dt = min(1e-3, min(|tsync1|, |tsync2|)/10). */
  function TimeStep(tsync1: real, tsync2: real): (dt: real)
    ensures 0.0 <= dt <= DT_MAX
    ensures dt <= Abs(tsync1) / 10.0 && dt <= Abs(tsync2) / 10.0
    ensures dt == DT_MAX || dt == Abs(tsync1) / 10.0 || dt == Abs(tsync2) / 10.0
    ensures dt == 0.0 <==> tsync1 == 0.0 || tsync2 == 0.0
  {
    Min(DT_MAX, Min(Abs(tsync1), Abs(tsync2)) / 10.0)
  }

  // ---------------------------------------------------------------------------
  // The tidal integration (BHMcalc.py:639-895).

  /** The spins W1 and W2 of both stars, in rad/s. */
  datatype Spin = Spin(w1: real, w2: real)

  /**
   * What the integration uses besides the binary: the period fits of both stars, the
   * primary's present period Prot1 (days), the planet's distance ap and the edges of the
   * binary and the single-star continuous zones (AU), and the time step dt (Gyr).
   */
  datatype Setup = Setup(sys: System, fit1: Rotation.Fit, fit2: Rotation.Fit, prot1: real, ap: real,
                         lincont: real, loutcont: real, slincont: real, sloutcont: real, dt: real)

  /**
   * The entries one step appends to the source's lists (acceleration, Prot and period
   * lists, tvec), with the spins after the step.
   */
  datatype StepRecord = StepRecord(tau: real, acc1Tid: real, acc2Tid: real, acc1ML: real, acc2ML: real,
                                   prot1: real, prot2: real, acc1: real, acc2: real,
                                   w1: real, w2: real)

  /** One flux at the optimum distance (the outer edge), at the planet and at the inner edge. */
  datatype Exposure = Exposure(opt: real, planet: real, inner: real)

  /**
   * The entries of one flux sample: XUV fluxes and wind fluxes with tides, without tides
   * and for the primary alone.
   */
  datatype FluxSample = FluxSample(tau: real, xuv: Exposure, ntXuv: Exposure, sXuv: Exposure,
                                   sw: Exposure, ntSw: Exposure, sSw: Exposure)

  /** The sphere 4 pi (d AU 1e2)**2, in cm**2, over which a luminosity spreads at d AU. */
  function Sphere(d: real): real {
    4.0 * PI * ((d * AU * 1.0e2) * (d * AU * 1.0e2))
  }

  lemma SpherePositive(d: real)
    requires d != 0.0
    ensures 0.0 < Sphere(d)
  {
    calc {
      Sphere(d);
      == 4.0 * PI * ((d * AU * 1.0e2) * (d * AU * 1.0e2));
      > { SquareNonZero(d * AU * 1.0e2); } 0.0;
    }
  }

  /** The flux L/(4 pi (d AU 1e2)**2)/PEL of luminosity l at d AU, in units of PEL. */
  function XUVFlux(env: Env, l: real, d: real): real
    requires d != 0.0 && env.pel != 0.0
  {
    SpherePositive(d);
    l / Sphere(d) / env.pel
  }

  /** Every distance of a flux sample is non-zero, and so is PEL. */
  predicate FluxDefined(env: Env, su: Setup) {
    env.pel != 0.0 && su.ap != 0.0 && su.lincont != 0.0 && su.loutcont != 0.0 &&
    su.slincont != 0.0 && su.sloutcont != 0.0
  }

  /** The period 2 pi/W of spin W, in seconds. */
  function Period(w: real): (p: real)
    requires w != 0.0
    ensures p != 0.0
  {
    2.0 * PI / w
  }

  /** The rotational age of a star with spin w under fit x: tfromProt(P/DAY, x). */
  function RotationalAge(env: Env, w: real, x: Rotation.Fit): real
    requires w != 0.0
  {
    env.tfromProt(Period(w) / DAY, x)
  }

  /** The fitted period derivative at the rotational age, in s/s: dtheoProt DAY/GYR. */
  function PeriodDerivative(env: Env, w: real, x: Rotation.Fit): real
    requires w != 0.0
  {
    env.dtheoProt(RotationalAge(env, w, x), x) * DAY / GYR
  }

  /**
   * One step at age tau from spins s: both stars' properties, the tidal accelerations
   * (8-argument tidalAcceleration), the mass-loss accelerations -2 pi/P**2 dProtdt, their
   * sums, the new spins W + acc dt GYR and the new periods 2 pi/W. None where a new spin is
   * zero (the period divides by it).
   */
  function StepAt(env: Env, su: Setup, s: Spin, tau: real): (r: Option<(StepRecord, Spin)>)
    requires s.w1 != 0.0 && s.w2 != 0.0
    ensures r.Some? ==> r.value.1.w1 != 0.0 && r.value.1.w2 != 0.0
  {
    var sys := su.sys;
    var st1 := env.gtrl(sys.z, sys.m1, tau);
    var st2 := env.gtrl(sys.z, sys.m2, tau);
    var tid1 := env.tidal(sys.m1, st1.2, st1.3, sys.m2, sys.abin, sys.e, sys.nbin / DAY, s.w1);
    var tid2 := env.tidal(sys.m2, st2.2, st2.3, sys.m1, sys.abin, sys.e, sys.nbin / DAY, s.w2);
    var ml1 := Rotation.MassLossAcceleration(Period(s.w1), PeriodDerivative(env, s.w1, su.fit1));
    var ml2 := Rotation.MassLossAcceleration(Period(s.w2), PeriodDerivative(env, s.w2, su.fit2));
    var acc1 := tid1 + ml1;
    var acc2 := tid2 + ml2;
    var w1 := s.w1 + acc1 * (su.dt * GYR);
    var w2 := s.w2 + acc2 * (su.dt * GYR);
    if w1 == 0.0 || w2 == 0.0 then None
    else
      Some((StepRecord(tau, tid1, tid2, ml1, ml2, su.prot1, su.prot1, acc1, acc2, w1, w2), Spin(w1, w2)))
  }

  /**
   * The mass-loss acceleration of each star has the opposite sign of its fitted period
   * derivative: a star whose period grows is spun down.
   */
  lemma StepMassLossSigns(env: Env, su: Setup, s: Spin, tau: real)
    requires s.w1 != 0.0 && s.w2 != 0.0
    ensures var r := StepAt(env, su, s, tau);
            var d1 := PeriodDerivative(env, s.w1, su.fit1);
            r.Some? ==>
              (0.0 < d1 ==> r.value.0.acc1ML < 0.0) && (d1 < 0.0 ==> 0.0 < r.value.0.acc1ML) &&
              (d1 == 0.0 <==> r.value.0.acc1ML == 0.0)
    ensures var r := StepAt(env, su, s, tau);
            var d2 := PeriodDerivative(env, s.w2, su.fit2);
            r.Some? ==>
              (0.0 < d2 ==> r.value.0.acc2ML < 0.0) && (d2 < 0.0 ==> 0.0 < r.value.0.acc2ML) &&
              (d2 == 0.0 <==> r.value.0.acc2ML == 0.0)
  {
    Rotation.MassLossOpposes(Period(s.w1), PeriodDerivative(env, s.w1, su.fit1));
    Rotation.MassLossOpposes(Period(s.w2), PeriodDerivative(env, s.w2, su.fit2));
  }

  /**
   * A step advances the spins it starts from, ends at the spins it records, is taken at
   * its age and records the primary's initial period for both stars.
   */
  lemma StepAdvances(env: Env, su: Setup, s: Spin, tau: real)
    requires s.w1 != 0.0 && s.w2 != 0.0
    ensures var r := StepAt(env, su, s, tau);
            r.Some? ==>
              Advances(su, s, r.value.0) && r.value.1 == Spin(r.value.0.w1, r.value.0.w2) &&
              r.value.0.tau == tau && r.value.0.prot1 == su.prot1 && r.value.0.prot2 == su.prot1
  {
  }

  /** The wind flux of binaryWind at d AU (the pressure it also returns is not kept). */
  function WindFlux(env: Env, d: real, tau1: real, m1: real, r1: real, tau2: real, m2: real, r2: real,
                    early: string): real
  {
    env.binaryWind(d, tau1, m1, r1, tau2, m2, r2, early).1
  }

  /**
   * The flux sample at age tau from spins s: XUV and wind fluxes at the outer edge, at the
   * planet and at the inner edge, with the rotational ages (tides), with the true age (no
   * tides) and for the primary alone at the single-star edges.
   */
  function SampleAt(env: Env, su: Setup, s: Spin, tau: real): FluxSample
    requires s.w1 != 0.0 && s.w2 != 0.0 && FluxDefined(env, su)
  {
    var sys := su.sys;
    var st1 := env.gtrl(sys.z, sys.m1, tau);
    var st2 := env.gtrl(sys.z, sys.m2, tau);
    var rot1 := RotationalAge(env, s.w1, su.fit1);
    var rot2 := RotationalAge(env, s.w2, su.fit2);
    var lx := env.starLXUV(st1.3, rot1) + env.starLXUV(st2.3, rot2);
    var ntLx := env.starLXUV(st1.3, tau) + env.starLXUV(st2.3, tau);
    var sLx := env.starLXUV(st1.3, tau);
    FluxSample(
      tau,
      Exposure(XUVFlux(env, lx, su.loutcont), XUVFlux(env, lx, su.ap), XUVFlux(env, lx, su.lincont)),
      Exposure(XUVFlux(env, ntLx, su.loutcont), XUVFlux(env, ntLx, su.ap), XUVFlux(env, ntLx, su.lincont)),
      Exposure(XUVFlux(env, sLx, su.sloutcont), XUVFlux(env, sLx, su.ap), XUVFlux(env, sLx, su.slincont)),
      Exposure(WindFlux(env, su.loutcont, rot1, sys.m1, st1.2, rot2, sys.m2, st2.2, sys.early),
               WindFlux(env, su.ap, rot1, sys.m1, st1.2, rot2, sys.m2, st2.2, sys.early),
               WindFlux(env, su.lincont, rot1, sys.m1, st1.2, rot2, sys.m2, st2.2, sys.early)),
      Exposure(WindFlux(env, su.loutcont, tau, sys.m1, st1.2, tau, sys.m2, st2.2, sys.early),
               WindFlux(env, su.ap, tau, sys.m1, st1.2, tau, sys.m2, st2.2, sys.early),
               WindFlux(env, su.lincont, tau, sys.m1, st1.2, tau, sys.m2, st2.2, sys.early)),
      Exposure(WindFlux(env, su.sloutcont, tau, sys.m1, st1.2, -1.0, -1.0, -1.0, sys.early),
               WindFlux(env, su.ap, tau, sys.m1, st1.2, -1.0, -1.0, -1.0, sys.early),
               WindFlux(env, su.slincont, tau, sys.m1, st1.2, -1.0, -1.0, -1.0, sys.early)))
  }

  /** The lists after some steps, and the spins they end at. */
  datatype Trace = Trace(steps: seq<StepRecord>, samples: seq<FluxSample>, spin: Spin)

  /**
   * The integration over the ages taus: the spins start at W1o/DAY and W2o/DAY, each age
   * appends one step, and the steps whose counter is a multiple of 50 also append a flux
   * sample taken before the spins change. None where a spin is zero.
   */
  function RunOf(env: Env, su: Setup, taus: seq<real>): (r: Option<Trace>)
    requires FluxDefined(env, su)
    ensures r.Some? ==> r.value.spin.w1 != 0.0 && r.value.spin.w2 != 0.0
    decreases |taus|
  {
    if taus == [] then
      if su.sys.w1o == 0.0 || su.sys.w2o == 0.0 then None
      else Some(Trace([], [], Spin(su.sys.w1o / DAY, su.sys.w2o / DAY)))
    else
      var k := |taus| - 1;
      var before := RunOf(env, su, taus[..k]);
      if before.None? then None
      else
        var t := before.value;
        var step := StepAt(env, su, t.spin, taus[k]);
        if step.None? then None
        else
          var samples := if k % RATE_FLUX_INTEGRATE == 0 then t.samples + [SampleAt(env, su, t.spin, taus[k])]
                         else t.samples;
          Some(Trace(t.steps + [step.value.0], samples, step.value.1))
  }

  /**
   * StepAt in terms of a record of the accelerations it computes: a record at age tau
   * with the tidal and mass-loss accelerations of spins s, the primary's initial period
   * for both stars, and advancing s, is the step StepAt takes, unless a new spin is zero.
   */
  lemma StepAtUnfold(env: Env, su: Setup, s: Spin, tau: real, rec: StepRecord)
    requires s.w1 != 0.0 && s.w2 != 0.0
    requires var sys := su.sys;
             var st1 := env.gtrl(sys.z, sys.m1, tau);
             var st2 := env.gtrl(sys.z, sys.m2, tau);
             rec.acc1Tid == env.tidal(sys.m1, st1.2, st1.3, sys.m2, sys.abin, sys.e, sys.nbin / DAY, s.w1) &&
             rec.acc2Tid == env.tidal(sys.m2, st2.2, st2.3, sys.m1, sys.abin, sys.e, sys.nbin / DAY, s.w2)
    requires rec.acc1ML == Rotation.MassLossAcceleration(Period(s.w1), PeriodDerivative(env, s.w1, su.fit1))
    requires rec.acc2ML == Rotation.MassLossAcceleration(Period(s.w2), PeriodDerivative(env, s.w2, su.fit2))
    requires rec.tau == tau && rec.prot1 == su.prot1 && rec.prot2 == su.prot1 && Advances(su, s, rec)
    ensures StepAt(env, su, s, tau).Some? <==> rec.w1 != 0.0 && rec.w2 != 0.0
    ensures StepAt(env, su, s, tau).Some? ==> StepAt(env, su, s, tau).value == (rec, Spin(rec.w1, rec.w2))
  {
    if StepAt(env, su, s, tau).Some? {
      var r := StepAt(env, su, s, tau).value.0;
      assert r.acc1 == rec.acc1 && r.acc2 == rec.acc2;
      assert r.w1 == rec.w1 && r.w2 == rec.w2;
    }
  }

  /** One more age extends the lists of the shorter integration by the step it takes. */
  lemma RunStep(env: Env, su: Setup, taus: seq<real>, k: nat, t: Trace)
    requires FluxDefined(env, su) && k < |taus| && RunOf(env, su, taus[..k]) == Some(t)
    ensures var step := StepAt(env, su, t.spin, taus[k]);
            RunOf(env, su, taus[..k + 1]) ==
              if step.None? then None
              else Some(Trace(t.steps + [step.value.0],
                              if k % RATE_FLUX_INTEGRATE == 0 then t.samples + [SampleAt(env, su, t.spin, taus[k])]
                              else t.samples,
                              step.value.1))
  {
    assert taus[..k + 1][..k] == taus[..k];
  }

  /** Once the integration fails, every longer one fails too. */
  lemma {:induction false} RunFailureSticks(env: Env, su: Setup, taus: seq<real>, k: nat)
    requires FluxDefined(env, su) && k <= |taus|
    requires RunOf(env, su, taus[..k]).None?
    ensures RunOf(env, su, taus).None?
    decreases |taus| - k
  {
    if k < |taus| {
      assert taus[..k + 1][..k] == taus[..k];
      RunFailureSticks(env, su, taus, k + 1);
    } else {
      assert taus[..k] == taus;
    }
  }

  /** The spins before step k: the initial W1o/DAY, W2o/DAY, or those step k - 1 ended at. */
  function SpinBefore(su: Setup, steps: seq<StepRecord>, k: nat): Spin
    requires k <= |steps|
  {
    if k == 0 then Spin(su.sys.w1o / DAY, su.sys.w2o / DAY) else Spin(steps[k - 1].w1, steps[k - 1].w2)
  }

  /** A completed integration over a non-empty taus is the shorter one extended by its last step. */
  lemma RunLast(env: Env, su: Setup, taus: seq<real>)
    requires FluxDefined(env, su) && taus != [] && RunOf(env, su, taus).Some?
    ensures var k := |taus| - 1;
            var b := RunOf(env, su, taus[..k]);
            b.Some? && StepAt(env, su, b.value.spin, taus[k]).Some? &&
            var step := StepAt(env, su, b.value.spin, taus[k]).value;
            RunOf(env, su, taus).value ==
              Trace(b.value.steps + [step.0],
                    if k % RATE_FLUX_INTEGRATE == 0 then b.value.samples + [SampleAt(env, su, b.value.spin, taus[k])]
                    else b.value.samples,
                    step.1)
  {
  }

  /** One step per age, each at its age and recording the primary's initial period twice. */
  predicate Recorded(su: Setup, taus: seq<real>, steps: seq<StepRecord>) {
    |steps| == |taus| &&
    forall k :: 0 <= k < |steps| ==>
      steps[k].tau == taus[k] && steps[k].prot1 == su.prot1 && steps[k].prot2 == su.prot1
  }

  lemma RecordedExtend(su: Setup, taus: seq<real>, steps: seq<StepRecord>, rec: StepRecord)
    requires taus != [] && Recorded(su, taus[..|taus| - 1], steps)
    requires rec.tau == taus[|taus| - 1] && rec.prot1 == su.prot1 && rec.prot2 == su.prot1
    ensures Recorded(su, taus, steps + [rec])
  {
    var steps' := steps + [rec];
    forall k | 0 <= k < |steps'|
      ensures steps'[k].tau == taus[k] && steps'[k].prot1 == su.prot1 && steps'[k].prot2 == su.prot1
    {
      if k < |steps| {
        assert steps'[k] == steps[k] && taus[..|taus| - 1][k] == taus[k];
      }
    }
  }

  /**
   * A completed integration has one step per age, each at its age and with both recorded
   * periods the primary's initial period, and it ends at the spins of its last step.
   */
  lemma {:induction false} RunShape(env: Env, su: Setup, taus: seq<real>)
    requires FluxDefined(env, su) && RunOf(env, su, taus).Some?
    ensures var t := RunOf(env, su, taus).value;
            Recorded(su, taus, t.steps) && t.spin == SpinBefore(su, t.steps, |taus|)
    decreases |taus|
  {
    if taus != [] {
      var k := |taus| - 1;
      RunLast(env, su, taus);
      var b := RunOf(env, su, taus[..k]).value;
      RunShape(env, su, taus[..k]);
      StepAdvances(env, su, b.spin, taus[k]);
      var rec := StepAt(env, su, b.spin, taus[k]).value.0;
      RecordedExtend(su, taus, b.steps, rec);
      assert SpinBefore(su, b.steps + [rec], k + 1) == Spin(rec.w1, rec.w2);
    }
  }

  /**
   * Step r from spins s sums its tidal and mass-loss accelerations and moves each spin by
   * acc dt GYR.
   */
  predicate Advances(su: Setup, s: Spin, r: StepRecord) {
    r.acc1 == r.acc1Tid + r.acc1ML && r.acc2 == r.acc2Tid + r.acc2ML &&
    r.w1 == s.w1 + r.acc1 * (su.dt * GYR) && r.w2 == s.w2 + r.acc2 * (su.dt * GYR)
  }

  /** Steps that each advance the spins they start from. */
  predicate Chain(su: Setup, steps: seq<StepRecord>) {
    forall k :: 0 <= k < |steps| ==> Advances(su, SpinBefore(su, steps, k), steps[k])
  }

  /** A chain extended by a step from the spins it ends at is still a chain. */
  lemma ChainExtend(su: Setup, steps: seq<StepRecord>, rec: StepRecord)
    requires Chain(su, steps) && Advances(su, SpinBefore(su, steps, |steps|), rec)
    ensures Chain(su, steps + [rec])
  {
    var steps' := steps + [rec];
    forall k | 0 <= k < |steps'| ensures Advances(su, SpinBefore(su, steps', k), steps'[k]) {
      assert SpinBefore(su, steps', k) == SpinBefore(su, steps, k);
      if k < |steps| {
        assert steps'[k] == steps[k];
      }
    }
  }

  /**
   * Every step of a completed integration sums its tidal and mass-loss accelerations and
   * moves the spins it starts from by acc dt GYR.
   */
  lemma {:induction false} RunSpins(env: Env, su: Setup, taus: seq<real>)
    requires FluxDefined(env, su) && RunOf(env, su, taus).Some?
    ensures Chain(su, RunOf(env, su, taus).value.steps)
    decreases |taus|
  {
    if taus != [] {
      var k := |taus| - 1;
      RunLast(env, su, taus);
      var b := RunOf(env, su, taus[..k]).value;
      RunSpins(env, su, taus[..k]);
      RunShape(env, su, taus[..k]);
      StepAdvances(env, su, b.spin, taus[k]);
      ChainExtend(su, b.steps, StepAt(env, su, b.spin, taus[k]).value.0);
    }
  }

  /** No spin along the steps is zero, the initial ones included. */
  predicate NonZeroSpins(su: Setup, steps: seq<StepRecord>) {
    forall k :: 0 <= k <= |steps| ==> SpinBefore(su, steps, k).w1 != 0.0 && SpinBefore(su, steps, k).w2 != 0.0
  }

  lemma NonZeroExtend(su: Setup, steps: seq<StepRecord>, rec: StepRecord)
    requires NonZeroSpins(su, steps) && rec.w1 != 0.0 && rec.w2 != 0.0
    ensures NonZeroSpins(su, steps + [rec])
  {
    var steps' := steps + [rec];
    forall k | 0 <= k <= |steps'| ensures SpinBefore(su, steps', k).w1 != 0.0 && SpinBefore(su, steps', k).w2 != 0.0 {
      if k <= |steps| {
        assert SpinBefore(su, steps', k) == SpinBefore(su, steps, k);
      }
    }
  }

  /** No spin of a completed integration is zero. */
  lemma {:induction false} RunNonZero(env: Env, su: Setup, taus: seq<real>)
    requires FluxDefined(env, su) && RunOf(env, su, taus).Some?
    ensures NonZeroSpins(su, RunOf(env, su, taus).value.steps)
    decreases |taus|
  {
    if taus != [] {
      var k := |taus| - 1;
      RunLast(env, su, taus);
      var b := RunOf(env, su, taus[..k]).value;
      RunNonZero(env, su, taus[..k]);
      NonZeroExtend(su, b.steps, StepAt(env, su, b.spin, taus[k]).value.0);
    } else {
      assert SpinBefore(su, [], 0) == Spin(su.sys.w1o / DAY, su.sys.w2o / DAY);
    }
  }

  /** One flux sample per 50 ages: sample j at age 50 j from the spins before that step. */
  predicate Sampled(env: Env, su: Setup, taus: seq<real>, steps: seq<StepRecord>, samples: seq<FluxSample>)
    requires FluxDefined(env, su) && |steps| == |taus| && NonZeroSpins(su, steps)
  {
    |samples| == (|taus| + RATE_FLUX_INTEGRATE - 1) / RATE_FLUX_INTEGRATE &&
    forall j :: 0 <= j < |samples| ==>
      RATE_FLUX_INTEGRATE * j < |taus| &&
      samples[j] == SampleAt(env, su, SpinBefore(su, steps, RATE_FLUX_INTEGRATE * j), taus[RATE_FLUX_INTEGRATE * j])
  }

  lemma SampledExtend(env: Env, su: Setup, taus: seq<real>, steps: seq<StepRecord>, samples: seq<FluxSample>,
                      rec: StepRecord)
    requires FluxDefined(env, su) && taus != [] && |steps| == |taus| - 1
    requires NonZeroSpins(su, steps + [rec]) && NonZeroSpins(su, steps)
    requires Sampled(env, su, taus[..|taus| - 1], steps, samples)
    ensures var k := |taus| - 1;
            Sampled(env, su, taus, steps + [rec],
                    if k % RATE_FLUX_INTEGRATE == 0 then samples + [SampleAt(env, su, SpinBefore(su, steps, k), taus[k])]
                    else samples)
  {
    var k := |taus| - 1;
    var steps' := steps + [rec];
    var samples' := if k % RATE_FLUX_INTEGRATE == 0 then samples + [SampleAt(env, su, SpinBefore(su, steps, k), taus[k])]
                    else samples;
    var n := |samples|;
    if k % RATE_FLUX_INTEGRATE == 0 {
      assert RATE_FLUX_INTEGRATE * n == k;
    }
    forall j | 0 <= j < |samples'|
      ensures RATE_FLUX_INTEGRATE * j < |taus|
      ensures samples'[j] == SampleAt(env, su, SpinBefore(su, steps', RATE_FLUX_INTEGRATE * j), taus[RATE_FLUX_INTEGRATE * j])
    {
      assert SpinBefore(su, steps', RATE_FLUX_INTEGRATE * j) == SpinBefore(su, steps, RATE_FLUX_INTEGRATE * j);
      if j < n {
        assert taus[RATE_FLUX_INTEGRATE * j] == taus[..k][RATE_FLUX_INTEGRATE * j];
      }
    }
  }

  /**
   * A completed integration holds one flux sample per 50 ages: sample j is taken at age
   * 50 j from the spins before that step.
   */
  lemma {:induction false} RunSamples(env: Env, su: Setup, taus: seq<real>)
    requires FluxDefined(env, su) && RunOf(env, su, taus).Some?
    ensures var t := RunOf(env, su, taus).value;
            |t.steps| == |taus| && NonZeroSpins(su, t.steps) && Sampled(env, su, taus, t.steps, t.samples)
    decreases |taus|
  {
    RunShape(env, su, taus);
    RunNonZero(env, su, taus);
    if taus != [] {
      var k := |taus| - 1;
      RunLast(env, su, taus);
      var b := RunOf(env, su, taus[..k]).value;
      RunSamples(env, su, taus[..k]);
      RunShape(env, su, taus[..k]);
      SampledExtend(env, su, taus, b.steps, b.samples, StepAt(env, su, b.spin, taus[k]).value.0);
    }
  }

  /**
   * The body of the forward-Euler loop at age tau (BHMcalc.py:717-872): the tidal and
   * mass-loss accelerations from the current spins and periods, their sums and the new
   * spins; ok is false where a new spin is zero.
   */
  method Step(env: Env, su: Setup, w1: real, w2: real, p1: real, p2: real, tau: real)
    returns (ok: bool, rec: StepRecord, w1': real, w2': real)
    requires w1 != 0.0 && w2 != 0.0 && p1 == Period(w1) && p2 == Period(w2)
    ensures var step := StepAt(env, su, Spin(w1, w2), tau);
            ok == step.Some? && (ok ==> rec == step.value.0 && Spin(w1', w2') == step.value.1)
  {
    var sys := su.sys;
    var st1 := env.gtrl(sys.z, sys.m1, tau);
    var st2 := env.gtrl(sys.z, sys.m2, tau);
    var acc1Tid := env.tidal(sys.m1, st1.2, st1.3, sys.m2, sys.abin, sys.e, sys.nbin / DAY, w1);
    var acc2Tid := env.tidal(sys.m2, st2.2, st2.3, sys.m1, sys.abin, sys.e, sys.nbin / DAY, w2);
    var tauRot1 := env.tfromProt(p1 / DAY, su.fit1);
    var tauRot2 := env.tfromProt(p2 / DAY, su.fit2);
    var dProtdt1 := env.dtheoProt(tauRot1, su.fit1) * DAY / GYR;
    var dProtdt2 := env.dtheoProt(tauRot2, su.fit2) * DAY / GYR;
    var acc1ML := Rotation.MassLossAcceleration(p1, dProtdt1);
    var acc2ML := Rotation.MassLossAcceleration(p2, dProtdt2);
    var acc1 := acc1Tid + acc1ML;
    var acc2 := acc2Tid + acc2ML;
    w1' := w1 + acc1 * (su.dt * GYR);
    w2' := w2 + acc2 * (su.dt * GYR);
    ok := w1' != 0.0 && w2' != 0.0;
    rec := StepRecord(tau, acc1Tid, acc2Tid, acc1ML, acc2ML, su.prot1, su.prot1, acc1, acc2, w1', w2');
    StepAtUnfold(env, su, Spin(w1, w2), tau, rec);
  }

  /**
   * `tvec=tau_vec[::ntau/50]` (BHMcalc.py:566-568): every s-th age with s = ntau/50 in
   * Python 2's integer division. A slice step of 0 raises ValueError, so fewer than 50
   * ages stop the program there (None).
   */
  function SampleTimes(tauVec: seq<real>): (r: Option<seq<real>>)
    ensures r.None? <==> |tauVec| < RATE_FLUX_INTEGRATE
  {
    var s := |tauVec| / RATE_FLUX_INTEGRATE;
    if s == 0 then None
    else
      var n := (|tauVec| + s - 1) / s;
      StrideBounds(|tauVec|, s);
      Some(seq(n, j requires 0 <= j < n => tauVec[StrideIndex(s, j, n, |tauVec|)]))
  }

  /**
   * The sampled ages are tau_vec[0], tau_vec[s], tau_vec[2 s], …: all multiples of the
   * step s = ntau/50 below ntau, and no other.
   */
  lemma SampleTimesFacts(tauVec: seq<real>)
    requires SampleTimes(tauVec).Some?
    ensures var r, s := SampleTimes(tauVec).value, |tauVec| / RATE_FLUX_INTEGRATE;
            && 0 < |r| && s * (|r| - 1) < |tauVec| <= s * |r|
            && forall j :: 0 <= j < |r| ==> s * j < |tauVec| && r[j] == tauVec[s * j]
  {
    var s := |tauVec| / RATE_FLUX_INTEGRATE;
    StrideBounds(|tauVec|, s);
    var r := SampleTimes(tauVec).value;
    assert |r| == (|tauVec| + s - 1) / s;
    forall j | 0 <= j < |r| ensures s * j < |tauVec| && r[j] == tauVec[s * j] {
      var i := StrideIndex(s, j, |r|, |tauVec|);
    }
  }

  /** The number n of multiples of s below len: s (n - 1) < len <= s n. */
  lemma StrideBounds(len: nat, s: nat)
    requires 0 < s <= len
    ensures 0 < (len + s - 1) / s
    ensures s * ((len + s - 1) / s - 1) < len <= s * ((len + s - 1) / s)
  {
    var n := (len + s - 1) / s;
    var q := (len + s - 1) % s;
    assert len + s - 1 == s * n + q;
    assert 0 <= q < s;
  }

  /** The index s j of the j-th sampled age, inside the list for j < n. */
  function StrideIndex(s: nat, j: nat, n: nat, len: nat): (i: nat)
    requires 0 < s && j < n && s * (n - 1) < len
    ensures i == s * j && i < len
  {
    MulMonotone(s, j, n - 1);
    s * j
  }

  lemma MulMonotone(s: nat, j: nat, k: nat)
    requires j <= k
    ensures s * j <= s * k
  {
  }

  /**
   * The forward-Euler loop of BHMcalc.py:699-895: every age appends one entry to each
   * list and moves the spins by acc dt GYR; every 50th step appends the flux samples,
   * taken before the spins move.
   */
  method Integrate(env: Env, su: Setup, tauVec: seq<real>) returns (r: Option<Trace>)
    requires FluxDefined(env, su)
    ensures SampleTimes(tauVec).None? ==> r.None?
    ensures SampleTimes(tauVec).Some? ==> r == RunOf(env, su, tauVec)
  {
    var tvec := SampleTimes(tauVec);
    if tvec.None? {
      return None;
    }
    var sys := su.sys;
    if sys.w1o == 0.0 || sys.w2o == 0.0 {
      RunFailureSticks(env, su, tauVec, 0);
      return None;
    }
    var w1 := sys.w1o / DAY;
    var w2 := sys.w2o / DAY;
    var p1 := 2.0 * PI / w1;
    var p2 := 2.0 * PI / w2;
    var steps: seq<StepRecord> := [];
    var samples: seq<FluxSample> := [];
    var i := 0;
    assert tauVec[..0] == [];
    while i < |tauVec|
      invariant 0 <= i <= |tauVec|
      invariant w1 != 0.0 && w2 != 0.0 && p1 == Period(w1) && p2 == Period(w2)
      invariant RunOf(env, su, tauVec[..i]) == Some(Trace(steps, samples, Spin(w1, w2)))
    {
      var tau := tauVec[i];
      RunStep(env, su, tauVec, i, Trace(steps, samples, Spin(w1, w2)));
      if i % RATE_FLUX_INTEGRATE == 0 {
        samples := samples + [SampleAt(env, su, Spin(w1, w2), tau)];
      }
      var ok, rec, w1', w2' := Step(env, su, w1, w2, p1, p2, tau);
      if !ok {
        RunFailureSticks(env, su, tauVec, i + 1);
        return None;
      }
      w1, w2 := w1', w2';
      p1, p2 := 2.0 * PI / w1, 2.0 * PI / w2;
      steps := steps + [rec];
      i := i + 1;
    }
    assert tauVec[..i] == tauVec;
    r := Some(Trace(steps, samples, Spin(w1, w2)));
  }

  // ---------------------------------------------------------------------------
  // Fluence (BHMcalc.py:1083-1091, 1118-1126).

  /** `[F[:i].sum() for i in xrange(len(F))]*Dt`: the flux accumulated before each sample. */
  function Fluence(f: seq<real>, dT: real): (r: seq<real>)
    ensures |r| == |f|
  {
    seq(|f|, i requires 0 <= i < |f| => Sum(f[..i]) * dT)
  }

  lemma SumStep(f: seq<real>, i: nat)
    requires i < |f|
    ensures Sum(f[..i + 1]) == Sum(f[..i]) + f[i]
  {
    assert f[..i + 1][..i] == f[..i];
  }

  lemma {:induction false} SumNonNegative(f: seq<real>, i: nat)
    requires i <= |f|
    requires forall k :: 0 <= k < |f| ==> 0.0 <= f[k]
    ensures 0.0 <= Sum(f[..i])
  {
    if i > 0 {
      SumNonNegative(f, i - 1);
      SumStep(f, i - 1);
    }
  }

  /**
   * The fluence starts at zero, each sample adds Dt times the previous flux, and with
   * non-negative fluxes and Dt it never decreases.
   */
  lemma FluenceFacts(f: seq<real>, dT: real)
    ensures |f| > 0 ==> Fluence(f, dT)[0] == 0.0
    ensures forall i :: 0 <= i < |f| - 1 ==> Fluence(f, dT)[i + 1] - Fluence(f, dT)[i] == dT * f[i]
    ensures (forall k :: 0 <= k < |f| ==> 0.0 <= f[k]) && 0.0 <= dT ==>
              forall i, j :: 0 <= i <= j < |f| ==> Fluence(f, dT)[i] <= Fluence(f, dT)[j]
  {
    var r := Fluence(f, dT);
    if |f| > 0 {
      assert f[..0] == [];
    }
    forall i | 0 <= i < |f| - 1 ensures r[i + 1] - r[i] == dT * f[i] {
      SumStep(f, i);
    }
    if (forall k :: 0 <= k < |f| ==> 0.0 <= f[k]) && 0.0 <= dT {
      forall i, j | 0 <= i <= j < |f| ensures r[i] <= r[j] {
        FluenceMonotone(f, dT, i, j);
      }
    }
  }

  lemma FluenceMonotone(f: seq<real>, dT: real, i: nat, j: nat)
    requires i <= j < |f| && 0.0 <= dT
    requires forall k :: 0 <= k < |f| ==> 0.0 <= f[k]
    ensures Fluence(f, dT)[i] <= Fluence(f, dT)[j]
  {
    SumSplit(f, i, j);
    var g := f[i..j];
    assert forall k :: 0 <= k < |g| ==> 0.0 <= g[k];
    SumNonNegative(g, |g|);
    assert g[..|g|] == g;
    NonNegativeScale(Sum(g), dT);
    assert Sum(f[..j]) * dT == Sum(f[..i]) * dT + Sum(g) * dT;
  }

  lemma NonNegativeScale(x: real, k: real)
    requires 0.0 <= x && 0.0 <= k
    ensures 0.0 <= x * k
  {
  }

  lemma {:induction false} SumSplit(f: seq<real>, i: nat, j: nat)
    requires i <= j <= |f|
    ensures Sum(f[..j]) == Sum(f[..i]) + Sum(f[i..j])
    decreases j - i
  {
    if i < j {
      SumSplit(f, i, j - 1);
      SumStep(f, j - 1);
      assert f[i..j][..j - 1 - i] == f[i..j - 1];
      assert f[i..j][j - 1 - i] == f[j - 1];
    } else {
      assert f[i..j] == [];
    }
  }

  // ---------------------------------------------------------------------------
  // Atmospheric mass loss against planet mass (BHMcalc.py:1149-1175).

  /** The planet radius Mp**0.25 in Earth radii (BHMcalc.py:1158). */
  function PlanetRadius(m: Math, mp: real): real {
    m.pow(mp, 0.25)
  }

  /** The surface gravity G Mp MEARTH/(Rp Rp_E)**2 (BHMcalc.py:1159). */
  function SurfaceGravity(mp: real, rp: real, rpE: real): real
    requires rp * rpE != 0.0
  {
    GCONST * (mp * MEARTH) / ((rp * rpE) * (rp * rpE))
  }

  /** The cross-section 2 pi (Rp Rp_E)**2 (BHMcalc.py:1160). */
  function CrossSection(rp: real, rpE: real): real {
    2.0 * PI * ((rp * rpE) * (rp * rpE))
  }

  /**
   * Ml = ALPHA MLfac Ap MUATM MP and the pressure Ml gp/(2 Ap)/1e5 it exerts
   * (BHMcalc.py:1169-1170).
   */
  function MassLossPressure(mlfac: real, ap: real, gp: real): real
    requires ap != 0.0
  {
    var ml := ALPHA * mlfac * ap * MUATM * MP;
    ml * gp / (2.0 * ap) / 1.0e5
  }

  /**
   * The cross-section cancels: the pressure is ALPHA MLfac MUATM MP gp/(2e5), whatever
   * Ap is, and it scales linearly with gp.
   */
  lemma MassLossPressureFacts(mlfac: real, ap: real, gp: real, ap': real, k: real)
    requires ap != 0.0 && ap' != 0.0
    ensures MassLossPressure(mlfac, ap, gp) == ALPHA * mlfac * MUATM * MP * gp / 2.0e5
    ensures MassLossPressure(mlfac, ap, gp) == MassLossPressure(mlfac, ap', gp)
    ensures MassLossPressure(mlfac, ap, k * gp) == k * MassLossPressure(mlfac, ap, gp)
  {
    CrossSectionCancels(ALPHA * mlfac, MUATM * MP, ap, gp);
    CrossSectionCancels(ALPHA * mlfac, MUATM * MP, ap', gp);
    CrossSectionCancels(ALPHA * mlfac, MUATM * MP, ap, k * gp);
  }

  lemma CrossSectionCancels(a: real, b: real, ap: real, gp: real)
    requires ap != 0.0
    ensures a * ap * b * gp / (2.0 * ap) / 1.0e5 == a * b * gp / 2.0e5
  {
    assert a * ap * b * gp == (a * b * gp) * ap;
    assert (a * b * gp) * ap / (2.0 * ap) == a * b * gp / 2.0;
  }

  lemma SquareNonZero(x: real)
    requires x != 0.0
    ensures 0.0 < x * x
  {
    if x < 0.0 {
      assert 0.0 < (-x) * (-x);
    }
  }

  lemma CrossSectionPositive(rp: real, rpE: real)
    requires rp * rpE != 0.0
    ensures 0.0 < CrossSection(rp, rpE)
  {
    calc {
      CrossSection(rp, rpE);
      == 2.0 * PI * ((rp * rpE) * (rp * rpE));
      > { SquareNonZero(rp * rpE); } 0.0;
    }
  }

  /** The pressure in the closed form, with the cross-section cancelled. */
  function PlanetPressure(m: Math, rpE: real, mlfac: real, mp: real): real
    requires PlanetRadius(m, mp) * rpE != 0.0
  {
    ALPHA * mlfac * MUATM * MP * SurfaceGravity(mp, PlanetRadius(m, mp), rpE) / 2.0e5
  }

  /** One planet of the ensemble, as the source computes it: Rp, gp, Ap, Ml and then Pl. */
  function MassLossAt(m: Math, rpE: real, mlfac: real, mp: real): real
    requires PlanetRadius(m, mp) * rpE != 0.0
  {
    CrossSectionPositive(PlanetRadius(m, mp), rpE);
    MassLossPressure(mlfac, CrossSection(PlanetRadius(m, mp), rpE), SurfaceGravity(mp, PlanetRadius(m, mp), rpE))
  }

  /** Whatever the planet mass, the source's pressure is the closed form. */
  lemma MassLossAtClosedForm(m: Math, rpE: real, mlfac: real, mp: real)
    requires PlanetRadius(m, mp) * rpE != 0.0
    ensures MassLossAt(m, rpE, mlfac, mp) == PlanetPressure(m, rpE, mlfac, mp)
  {
    CrossSectionPositive(PlanetRadius(m, mp), rpE);
    var ap := CrossSection(PlanetRadius(m, mp), rpE);
    MassLossPressureFacts(mlfac, ap, SurfaceGravity(mp, PlanetRadius(m, mp), rpE), ap, 1.0);
  }

  /** A positive planet mass has a positive radius under the power-law axioms. */
  lemma RadiusDefined(m: Math, rpE: real, mp: real)
    requires Lawful(m) && 0.0 < mp && 0.0 < rpE
    ensures PlanetRadius(m, mp) * rpE != 0.0
  {
    Rotation.ProductPositive(PlanetRadius(m, mp), rpE);
  }

  /**
   * The four mass-loss curves Pl, ntPl, sPl and sPlp over Mp = linspace(0.1, 10, 100),
   * for the fluences at the end of the integration (with tides, without tides, single
   * primary at the inner edge, single primary at the planet); each is the closed form.
   * The factors mlfac, ntMlfac, sMlfac and sMlfacp are the last entries of the integrated
   * wind fluences intFSWin, intntFSWin, intsFSWin and intsFSWp (BHMcalc.py:1163-1166),
   * that is Fluence(f, Dt)[|f| - 1] of the matching wind-flux series; the caller supplies them.
   */
  method MassLossCurves(m: Math, rpE: real, mlfac: real, ntMlfac: real, sMlfac: real, sMlfacp: real)
    returns (pl: seq<real>, ntPl: seq<real>, sPl: seq<real>, sPlp: seq<real>)
    requires Lawful(m) && 0.0 < rpE
    ensures |pl| == MP_SAMPLES && |ntPl| == MP_SAMPLES && |sPl| == MP_SAMPLES && |sPlp| == MP_SAMPLES
    ensures var mps := Linspace(0.1, 10.0, MP_SAMPLES);
            forall k :: 0 <= k < MP_SAMPLES ==>
              OnCurve(m, rpE, mlfac, mps[k], pl[k]) && OnCurve(m, rpE, ntMlfac, mps[k], ntPl[k]) &&
              OnCurve(m, rpE, sMlfac, mps[k], sPl[k]) && OnCurve(m, rpE, sMlfacp, mps[k], sPlp[k])
  {
    var mps := Linspace(0.1, 10.0, MP_SAMPLES);
    pl, ntPl, sPl, sPlp := [], [], [], [];
    var k := 0;
    while k < MP_SAMPLES
      invariant 0 <= k <= MP_SAMPLES
      invariant |pl| == k && |ntPl| == k && |sPl| == k && |sPlp| == k
      invariant forall j :: 0 <= j < k ==>
                  OnCurve(m, rpE, mlfac, mps[j], pl[j]) && OnCurve(m, rpE, ntMlfac, mps[j], ntPl[j]) &&
                  OnCurve(m, rpE, sMlfac, mps[j], sPl[j]) && OnCurve(m, rpE, sMlfacp, mps[j], sPlp[j])
    {
      var mp := mps[k];
      RadiusDefined(m, rpE, mp);
      MassLossAtClosedForm(m, rpE, mlfac, mp);
      MassLossAtClosedForm(m, rpE, ntMlfac, mp);
      MassLossAtClosedForm(m, rpE, sMlfac, mp);
      MassLossAtClosedForm(m, rpE, sMlfacp, mp);
      pl := pl + [MassLossAt(m, rpE, mlfac, mp)];
      ntPl := ntPl + [MassLossAt(m, rpE, ntMlfac, mp)];
      sPl := sPl + [MassLossAt(m, rpE, sMlfac, mp)];
      sPlp := sPlp + [MassLossAt(m, rpE, sMlfacp, mp)];
      k := k + 1;
    }
  }

  /** A point of a curve: the planet's radius is defined and p is the closed-form pressure. */
  predicate OnCurve(m: Math, rpE: real, mlfac: real, mp: real, p: real) {
    PlanetRadius(m, mp) * rpE != 0.0 && p == PlanetPressure(m, rpE, mlfac, mp)
  }
}

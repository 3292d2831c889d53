/**
 * The isochrone grid (BHM/BHMstars.py, loadIsochroneSet): per metallicity, a table
 * of rows is grouped into age slices by watching the age column increase, and each
 * slice is cut to the mass window [0.1, 2.0] with Python's half-open slice. The grid
 * is an immutable value instead of the module-global SMset/Zset pair; reading the
 * table files is left out, a table is given as its parsed rows.
 */
module IsochroneGrid {
  import opened Wrappers
  import opened Numerics
  import opened BHM

  /** One line of a Padova table: log10 age, initial mass, actual mass, log L, log Teff, log g, Mbol, UBVRIJHK. */
  datatype Row = Row(logAge: real, mass: real, mr: real, logL: real, logT: real, logg: real, mbol: real,
                     magU: real, magB: real, magV: real, magR: real, magI: real, magJ: real, magH: real, magK: real)

  /** The properties an isochrone interpolates, named as the grid's accessor attributes. */
  datatype Property =
    | Mactual | Luminosity | LogLuminosity | Radius | LogGravitation | Temperature | LogTemperature | Mbol
    | MagU | MagB | MagV | MagR | MagI | MagJ | MagH | MagK

  /** The value a row contributes to a property's vector (the `SMiso.*vec` lists). */
  function RowValue(m: Math, row: Row, prop: Property): real
  {
    match prop
    case Mactual => row.mr
    case Luminosity => m.pow(10.0, row.logL)
    case LogLuminosity => row.logL
    case Radius => RadiusOfRow(m, row)
    case LogGravitation => row.logg
    case Temperature => m.pow(10.0, row.logT)
    case LogTemperature => row.logT
    case Mbol => row.mbol
    case MagU => row.magU
    case MagB => row.magB
    case MagV => row.magV
    case MagR => row.magR
    case MagI => row.magI
    case MagJ => row.magJ
    case MagH => row.magH
    case MagK => row.magK
  }

  /**
   * `sqrt(GCONST*(Ms*MSUN)/gs)/RSUN` with gs = 10**logg/100. A zero gs cannot arise from a
   * finite logg; the model gives 0 there, where numpy would give infinity.
   */
  function RadiusOfRow(m: Math, row: Row): real
  {
    var gs := m.pow(10.0, row.logg) / 100.0;
    if gs == 0.0 then 0.0 else m.sqrt(GCONST * (row.mass * MSUN) / gs) / RSUN
  }

  function Masses(rows: seq<Row>): (ms: seq<real>)
    ensures |ms| == |rows| && forall k :: 0 <= k < |rows| ==> ms[k] == rows[k].mass
  {
    seq(|rows|, k requires 0 <= k < |rows| => rows[k].mass)
  }

  function Column(m: Math, rows: seq<Row>, prop: Property): (vs: seq<real>)
    ensures |vs| == |rows| && forall k :: 0 <= k < |rows| ==> vs[k] == RowValue(m, rows[k], prop)
  {
    seq(|rows|, k requires 0 <= k < |rows| => RowValue(m, rows[k], prop))
  }

  /** A slice on which every property's slinear interpolant can be built. */
  predicate ValidSlice(rows: seq<Row>) {
    |rows| >= 2 && StrictlyIncreasing(Masses(rows))
  }

  /** One metallicity's isochrone set: the log ages, their mass slices and the running mass bounds. */
  datatype Isochrone = Isochrone(ages: seq<real>, nAges: nat, tmin: real, tmax: real,
                                 slices: seq<seq<Row>>, mmin: real, mmax: real)

  predicate ValidIsochrone(iso: Isochrone) {
    && |iso.ages| >= 1
    && iso.nAges == |iso.ages| == |iso.slices|
    && StrictlyIncreasing(iso.ages)
    && forall k :: 0 <= k < |iso.slices| ==> ValidSlice(iso.slices[k])
  }

  /** The metallicities and, in the same order, their isochrones. */
  datatype Grid = Grid(zs: seq<real>, isos: seq<Isochrone>)

  predicate ValidGrid(g: Grid) {
    && |g.zs| == |g.isos|
    && StrictlyIncreasing(g.zs)
    && forall i :: 0 <= i < |g.isos| ==> ValidIsochrone(g.isos[i])
  }

  // ---------------------------------------------------------------------------
  // Age grouping.

  function AgeColumn(data: seq<Row>): (col: seq<real>)
    ensures |col| == |data| && forall k :: 0 <= k < |data| ==> col[k] == data[k].logAge
  {
    seq(|data|, k requires 0 <= k < |data| => data[k].logAge)
  }

  /** The ages recorded while scanning `rest` with `ageold` as the candidate not yet recorded. */
  function Records(ageold: real, rest: seq<real>): seq<real>
    decreases |rest|
  {
    if rest == [] then [ageold]
    else if rest[0] > ageold then [ageold] + Records(rest[0], rest[1..])
    else Records(ageold, rest[1..])
  }

  /** The `Ages` list the loader builds from a non-empty table. */
  function AgeGroups(data: seq<Row>): seq<real>
    requires |data| > 0
  {
    Records(data[0].logAge, AgeColumn(data))
  }

  /**
   * The recorded ages start at the first candidate, increase strictly, are all taken
   * from the scanned column, and end at its maximum.
   */
  lemma {:induction false} RecordsFacts(a: real, rest: seq<real>)
    ensures var rs := Records(a, rest);
      && |rs| >= 1 && rs[0] == a
      && StrictlyIncreasing(rs)
      && (forall k :: 0 <= k < |rs| ==> rs[k] == a || rs[k] in rest)
      && a <= rs[|rs| - 1]
      && (forall k :: 0 <= k < |rest| ==> rest[k] <= rs[|rs| - 1])
  {
    RecordsEnds(a, rest);
    RecordsIncreasing(a, rest);
    RecordsFrom(a, rest);
  }

  /** The recorded ages start at the candidate and end at the maximum of it and the column. */
  lemma {:induction false} RecordsEnds(a: real, rest: seq<real>)
    ensures var rs := Records(a, rest);
      && |rs| >= 1 && rs[0] == a && a <= rs[|rs| - 1]
      && (forall k :: 0 <= k < |rest| ==> rest[k] <= rs[|rs| - 1])
    decreases |rest|
  {
    if rest != [] {
      var tail := rest[1..];
      var rs := Records(a, rest);
      if rest[0] > a {
        RecordsEnds(rest[0], tail);
        var r1 := Records(rest[0], tail);
        assert rs == [a] + r1;
        assert rs[|rs| - 1] == r1[|r1| - 1];
      } else {
        RecordsEnds(a, tail);
      }
      forall k | 0 <= k < |rest| ensures rest[k] <= rs[|rs| - 1] {
        if k > 0 {
          assert rest[k] == tail[k - 1];
        }
      }
    }
  }

  lemma {:induction false} RecordsIncreasing(a: real, rest: seq<real>)
    ensures StrictlyIncreasing(Records(a, rest))
    decreases |rest|
  {
    if rest != [] {
      var tail := rest[1..];
      if rest[0] > a {
        RecordsIncreasing(rest[0], tail);
        RecordsEnds(rest[0], tail);
        var r1 := Records(rest[0], tail);
        var rs := [a] + r1;
        assert Records(a, rest) == rs;
        forall i, j | 0 <= i < j < |rs| ensures rs[i] < rs[j] {
          assert rs[j] == r1[j - 1];
          if i > 0 {
            assert rs[i] == r1[i - 1];
          } else if j > 1 {
            assert r1[0] < r1[j - 1];
          }
        }
      } else {
        RecordsIncreasing(a, tail);
      }
    }
  }

  lemma {:induction false} RecordsFrom(a: real, rest: seq<real>)
    ensures forall k :: 0 <= k < |Records(a, rest)| ==> Records(a, rest)[k] == a || Records(a, rest)[k] in rest
    decreases |rest|
  {
    if rest != [] {
      var tail := rest[1..];
      if rest[0] > a {
        RecordsFrom(rest[0], tail);
        var r1 := Records(rest[0], tail);
        var rs := [a] + r1;
        assert Records(a, rest) == rs;
        forall k | 0 <= k < |rs| ensures rs[k] == a || rs[k] in rest {
          if k > 0 {
            assert rs[k] == r1[k - 1];
            assert r1[k - 1] == rest[0] || r1[k - 1] in tail;
            if r1[k - 1] != rest[0] {
              var i :| 0 <= i < |tail| && tail[i] == r1[k - 1];
              assert rest[i + 1] == r1[k - 1];
            }
          }
        }
      } else {
        RecordsFrom(a, tail);
        var rs := Records(a, rest);
        assert rs == Records(a, tail);
        forall k | 0 <= k < |rs| ensures rs[k] == a || rs[k] in rest {
          assert rs[k] == Records(a, tail)[k];
          if rs[k] != a {
            assert rs[k] in tail;
            var i :| 0 <= i < |tail| && tail[i] == rs[k];
            assert rest[i + 1] == rs[k];
          }
        }
      }
    }
  }

  /** The grouped ages of a table are strictly increasing, start at its first row and end at its largest age. */
  lemma AgeGroupsFacts(data: seq<Row>)
    requires |data| > 0
    ensures var ages := AgeGroups(data);
      && |ages| >= 1 && ages[0] == data[0].logAge
      && StrictlyIncreasing(ages)
      && (forall k :: 0 <= k < |ages| ==> exists i :: 0 <= i < |data| && ages[k] == data[i].logAge)
      && (forall i :: 0 <= i < |data| ==> data[i].logAge <= ages[|ages| - 1])
  {
    var col := AgeColumn(data);
    RecordsFacts(data[0].logAge, col);
    var ages := AgeGroups(data);
    forall k | 0 <= k < |ages| ensures exists i :: 0 <= i < |data| && ages[k] == data[i].logAge {
      if ages[k] == data[0].logAge {
        assert ages[k] == data[0].logAge;
      } else {
        var i :| 0 <= i < |col| && col[i] == ages[k];
        assert ages[k] == data[i].logAge;
      }
    }
    forall i | 0 <= i < |data| ensures data[i].logAge <= ages[|ages| - 1] {
      assert col[i] == data[i].logAge;
    }
  }

  /** The loop over the rows that builds `Ages` (BHM/BHMstars.py:195-204). */
  method GroupAges(data: seq<Row>) returns (ages: seq<real>)
    requires |data| > 0
    ensures ages == AgeGroups(data)
    ensures StrictlyIncreasing(ages) && |ages| >= 1
  {
    var col := AgeColumn(data);
    ages := [];
    var ageold := data[0].logAge;
    var i := 0;
    assert col[0..] == col;
    while i < |data|
      invariant 0 <= i <= |data|
      invariant ages + Records(ageold, col[i..]) == AgeGroups(data)
    {
      var age := data[i].logAge;
      assert col[i..][0] == age && col[i..][1..] == col[i + 1..];
      if age > ageold {
        ages := ages + [ageold];
        ageold := age;
      }
      i := i + 1;
    }
    assert col[|data|..] == [];
    ages := ages + [ageold];
    AgeGroupsFacts(data);
  }

  // ---------------------------------------------------------------------------
  // The mass window of one age slice.

  const MASS_MIN: real := 0.1
  const MASS_MAX: real := 2.0

  /** `idata[ages == age]` restricted to indices from i on: the rows of one age, in table order. */
  function IndicesFrom(data: seq<Row>, age: real, i: nat): (r: seq<nat>)
    requires i <= |data|
    ensures forall k :: 0 <= k < |r| ==> i <= r[k] < |data| && data[r[k]].logAge == age
    decreases |data| - i
  {
    if i == |data| then []
    else (if data[i].logAge == age then [i] else []) + IndicesFrom(data, age, i + 1)
  }

  predicate AboveMin(x: real) { x >= MASS_MIN }
  predicate BelowMax(x: real) { x <= MASS_MAX }

  /** `masses[ies]`: the masses of the rows at the given indices. */
  function MassesAt(data: seq<Row>, ies: seq<nat>): (ms: seq<real>)
    requires forall k :: 0 <= k < |ies| ==> ies[k] < |data|
    ensures |ms| == |ies| && forall k :: 0 <= k < |ies| ==> ms[k] == data[ies[k]].mass
  {
    seq(|ies|, k requires 0 <= k < |ies| => data[ies[k]].mass)
  }

  /** The positions `ini` and `end` of BHM/BHMstars.py:236-252, None where numpy raises IndexError. */
  function WindowBounds(data: seq<Row>, age: real): Option<(nat, nat)>
  {
    var ies := IndicesFrom(data, age, 0);
    if |ies| == 0 then None else CutBounds(ies[0], MassesAt(data, ies))
  }

  /** `ini` and `end` for a slice starting at `first` with masses `ms`. */
  function CutBounds(first: nat, ms: seq<real>): Option<(nat, nat)>
  {
    var bot := FirstWhere(ms, AboveMin);
    var top := LastWhere(ms, BelowMax);
    if bot.None? || top.None? then None else Some((first + bot.value, first + top.value))
  }

  /** `data[ini:end]`: the rows kept for one age slice. */
  function WindowRows(data: seq<Row>, age: real): Option<seq<Row>>
  {
    CutRows(data, WindowBounds(data, age))
  }

  function CutRows(data: seq<Row>, bounds: Option<(nat, nat)>): Option<seq<Row>>
  {
    if bounds.None? then None else Some(PySlice(data, bounds.value.0, bounds.value.1))
  }

  lemma {:induction false} IndicesOfBlock(data: seq<Row>, age: real, lo: nat, hi: nat, i: nat)
    requires lo < hi <= |data| && i <= |data|
    requires forall j :: 0 <= j < |data| ==> (data[j].logAge == age <==> lo <= j < hi)
    ensures var r := IndicesFrom(data, age, i); var s := if i <= lo then lo else i;
      |r| == (if hi <= i then 0 else hi - s) && forall k :: 0 <= k < |r| ==> r[k] == s + k
    decreases |data| - i
  {
    if i < |data| {
      IndicesOfBlock(data, age, lo, hi, i + 1);
    }
  }

  /**
   * Row b of a block is its first row with mass >= 0.1 and row t its last row with
   * mass <= 2.0.
   */
  predicate CutAt(block: seq<Row>, b: int, t: int) {
    && 0 <= b < |block| && 0 <= t < |block|
    && block[b].mass >= MASS_MIN && (forall j :: 0 <= j < b ==> block[j].mass < MASS_MIN)
    && block[t].mass <= MASS_MAX && (forall j :: t < j < |block| ==> block[j].mass > MASS_MAX)
  }

  /**
   * When the rows of one age form a contiguous block, the window runs from the first
   * row of the block with mass >= 0.1 up to, but excluding, the last row of the
   * block with mass <= 2.0: the half-open Python slice drops that last row.
   */
  lemma WindowOfBlock(data: seq<Row>, age: real, lo: nat, hi: nat) returns (bot: nat, top: nat)
    requires lo < hi <= |data|
    requires forall j :: 0 <= j < |data| ==> (data[j].logAge == age <==> lo <= j < hi)
    requires WindowRows(data, age).Some?
    ensures CutAt(data[lo..hi], bot, top)
    ensures WindowRows(data, age) == Some(PySlice(data, lo + bot, lo + top))
  {
    WindowBoundsOfBlock(data, age, lo, hi);
    bot, top := WindowOfBounds(data, age, lo, data[lo..hi]);
  }

  lemma WindowOfBounds(data: seq<Row>, age: real, lo: nat, block: seq<Row>) returns (bot: nat, top: nat)
    requires WindowBounds(data, age) == CutBounds(lo, Masses(block)) && WindowRows(data, age).Some?
    ensures CutAt(block, bot, top)
    ensures WindowRows(data, age) == Some(PySlice(data, lo + bot, lo + top))
  {
    bot, top := CutOfBlock(block, lo);
    WindowRowsAt(data, age, lo + bot, lo + top);
  }

  lemma WindowRowsAt(data: seq<Row>, age: real, ini: nat, end: nat)
    requires WindowBounds(data, age) == Some((ini, end))
    ensures WindowRows(data, age) == Some(PySlice(data, ini, end))
  {
    CutRowsOf(data, ini, end);
  }

  lemma CutRowsOf(data: seq<Row>, ini: nat, end: nat)
    ensures CutRows(data, Some((ini, end))) == Some(PySlice(data, ini, end))
  {
  }

  lemma CutOfBlock(block: seq<Row>, lo: nat) returns (bot: nat, top: nat)
    requires CutBounds(lo, Masses(block)).Some?
    ensures CutAt(block, bot, top) && CutBounds(lo, Masses(block)) == Some((lo + bot, lo + top))
  {
    bot := FirstWhere(Masses(block), AboveMin).value;
    top := LastWhere(Masses(block), BelowMax).value;
    CutOfMasses(block, bot, top);
  }

  lemma WindowBoundsOfBlock(data: seq<Row>, age: real, lo: nat, hi: nat)
    requires lo < hi <= |data|
    requires forall j :: 0 <= j < |data| ==> (data[j].logAge == age <==> lo <= j < hi)
    ensures WindowBounds(data, age) == CutBounds(lo, Masses(data[lo..hi]))
  {
    IndicesOfBlock(data, age, lo, hi, 0);
    var ies := IndicesFrom(data, age, 0);
    var block := data[lo..hi];
    assert |ies| == hi - lo;
    assert forall k :: 0 <= k < |ies| ==> ies[k] == lo + k;
    var ms, bms := MassesAt(data, ies), Masses(block);
    assert |ms| == |bms|;
    forall k | 0 <= k < |ms| ensures ms[k] == bms[k] {
      assert ies[k] == lo + k;
      assert block[k] == data[lo + k];
    }
    assert ms == bms;
  }

  lemma CutOfMasses(block: seq<Row>, bot: nat, top: nat)
    requires FirstWhere(Masses(block), AboveMin) == Some(bot)
    requires LastWhere(Masses(block), BelowMax) == Some(top)
    ensures CutAt(block, bot, top)
  {
    var ms := Masses(block);
    forall j | 0 <= j < bot ensures block[j].mass < MASS_MIN {
      assert !AboveMin(ms[j]);
    }
    forall j | top < j < |block| ensures block[j].mass > MASS_MAX {
      assert !BelowMax(ms[j]);
    }
    assert AboveMin(ms[bot]) && BelowMax(ms[top]);
  }

  // ---------------------------------------------------------------------------
  // Loading one table and the whole grid.

  /** The slice of one age can be cut and interpolated. */
  predicate SliceLoads(data: seq<Row>, age: real) {
    Loadable(WindowRows(data, age))
  }

  /** A table loads when it is non-empty and every age slice can be cut and interpolated. */
  predicate TableLoads(data: seq<Row>) {
    |data| > 0 && forall k :: 0 <= k < |AgeGroups(data)| ==> SliceLoads(data, AgeGroups(data)[k])
  }

  /** A window that was cut and can be interpolated. */
  predicate Loadable(w: Option<seq<Row>>) {
    w.Some? && ValidSlice(w.value)
  }

  /** The window of each age, in order. */
  function Windows(data: seq<Row>, ages: seq<real>): (ws: seq<Option<seq<Row>>>)
    ensures |ws| == |ages| && forall k :: 0 <= k < |ages| ==> ws[k] == WindowRows(data, ages[k])
  {
    seq(|ages|, k requires 0 <= k < |ages| => WindowRows(data, ages[k]))
  }

  /**
   * The slices of the windows in order, None as soon as one of them could not be cut
   * (numpy's IndexError) or interpolated (interp1d's ValueError).
   */
  function Collect(ws: seq<Option<seq<Row>>>): (r: Option<seq<seq<Row>>>)
    ensures r.Some? ==> |r.value| == |ws| && forall k :: 0 <= k < |r.value| ==> ValidSlice(r.value[k])
    decreases |ws|
  {
    if ws == [] then Some([])
    else
      var front := Collect(ws[..|ws| - 1]);
      var w := ws[|ws| - 1];
      if front.None? || !Loadable(w) then None
      else
        var r := front.value + [w.value];
        assert forall k :: 0 <= k < |front.value| ==> r[k] == front.value[k];
        Some(r)
  }

  /** Collecting succeeds exactly when every window loads, and then holds each window's rows. */
  lemma {:induction false} CollectFacts(ws: seq<Option<seq<Row>>>)
    ensures Collect(ws).Some? <==> forall k :: 0 <= k < |ws| ==> Loadable(ws[k])
    ensures Collect(ws).Some? ==> forall k :: 0 <= k < |ws| ==> ws[k] == Some(Collect(ws).value[k])
    decreases |ws|
  {
    if ws != [] {
      var n := |ws| - 1;
      var fw := ws[..n];
      CollectFacts(fw);
      assert forall k :: 0 <= k < n ==> fw[k] == ws[k];
      if Collect(ws).Some? {
        var r := Collect(ws).value;
        assert forall k :: 0 <= k < n ==> r[k] == Collect(fw).value[k];
      }
    }
  }

  /** Collecting more windows fails once a prefix fails. */
  lemma {:induction false} CollectFailurePersists(ws: seq<Option<seq<Row>>>, k: nat)
    requires k <= |ws| && Collect(ws[..k]).None?
    ensures Collect(ws).None?
    decreases |ws| - k
  {
    if k == |ws| {
      assert ws[..k] == ws;
    } else {
      assert ws[..k + 1][..k] == ws[..k];
      CollectFailurePersists(ws, k + 1);
    }
  }

  /** The running Mmin of the loader: the least mass of all slices, starting from 1e100. */
  function MinMass(slices: seq<seq<Row>>): real
    requires forall k :: 0 <= k < |slices| ==> |slices[k]| >= 1
    decreases |slices|
  {
    if slices == [] then 1.0e100
    else Min(MinMass(slices[..|slices| - 1]), MinOf(Masses(slices[|slices| - 1])))
  }

  /** The running Mmax of the loader: the greatest mass of all slices, starting from 0. */
  function MaxMass(slices: seq<seq<Row>>): real
    requires forall k :: 0 <= k < |slices| ==> |slices[k]| >= 1
    decreases |slices|
  {
    if slices == [] then 0.0
    else Max(MaxMass(slices[..|slices| - 1]), MaxOf(Masses(slices[|slices| - 1])))
  }

  /** mmin and mmax bound every mass of the slices and are attained by one of them unless still initial. */
  ghost predicate MassBounds(slices: seq<seq<Row>>, mmin: real, mmax: real) {
    && mmin <= 1.0e100 && 0.0 <= mmax
    && (forall k, j :: 0 <= k < |slices| && 0 <= j < |slices[k]| ==> mmin <= slices[k][j].mass <= mmax)
    && (mmin == 1.0e100 || exists k, j :: 0 <= k < |slices| && 0 <= j < |slices[k]| && mmin == slices[k][j].mass)
    && (mmax == 0.0 || exists k, j :: 0 <= k < |slices| && 0 <= j < |slices[k]| && mmax == slices[k][j].mass)
  }

  lemma MassBoundsStep(slices: seq<seq<Row>>, w: seq<Row>, mmin: real, mmax: real)
    requires MassBounds(slices, mmin, mmax) && |w| > 0
    ensures MassBounds(slices + [w], Min(mmin, MinOf(Masses(w))), Max(mmax, MaxOf(Masses(w))))
  {
    var s2 := slices + [w];
    var ms := Masses(w);
    var lo, hi := MinOf(ms), MaxOf(ms);
    var jlo :| 0 <= jlo < |ms| && ms[jlo] == lo;
    var jhi :| 0 <= jhi < |ms| && ms[jhi] == hi;
    assert s2[|slices|] == w;
    forall k, j | 0 <= k < |s2| && 0 <= j < |s2[k]|
      ensures Min(mmin, lo) <= s2[k][j].mass <= Max(mmax, hi)
    {
      if k == |slices| {
        assert ms[j] == w[j].mass;
      } else {
        assert s2[k] == slices[k];
      }
    }
    if lo < mmin {
      assert Min(mmin, lo) == s2[|slices|][jlo].mass;
    } else if mmin != 1.0e100 {
      var k, j :| 0 <= k < |slices| && 0 <= j < |slices[k]| && mmin == slices[k][j].mass;
      assert s2[k] == slices[k];
    }
    if hi > mmax {
      assert Max(mmax, hi) == s2[|slices|][jhi].mass;
    } else if mmax != 0.0 {
      var k, j :| 0 <= k < |slices| && 0 <= j < |slices[k]| && mmax == slices[k][j].mass;
      assert s2[k] == slices[k];
    }
  }

  /** MinMass and MaxMass are the least and greatest mass over all slices, or their initial values. */
  lemma {:induction false} MassBoundsOf(slices: seq<seq<Row>>)
    requires forall k :: 0 <= k < |slices| ==> |slices[k]| >= 1
    ensures MassBounds(slices, MinMass(slices), MaxMass(slices))
    decreases |slices|
  {
    if slices != [] {
      var front := slices[..|slices| - 1];
      MassBoundsOf(front);
      MassBoundsStep(front, slices[|slices| - 1], MinMass(front), MaxMass(front));
      assert front + [slices[|slices| - 1]] == slices;
    }
  }

  /** What loadIsochroneSet builds from one table, None where it raises. */
  function IsochroneOf(m: Math, data: seq<Row>): Option<Isochrone>
  {
    if |data| == 0 then None
    else
      AgeGroupsFacts(data);
      var ages := AgeGroups(data);
      IsochroneOver(m, ages, Windows(data, ages))
  }

  /** The isochrone built from the grouped ages and their windows, None when a window does not load. */
  function IsochroneOver(m: Math, ages: seq<real>, ws: seq<Option<seq<Row>>>): Option<Isochrone>
    requires |ages| >= 1
  {
    var slices := Collect(ws);
    if slices.None? then None
    else
      Some(Isochrone(ages, |ages|, m.pow(10.0, ages[0]) / 1.0e9, m.pow(10.0, ages[|ages| - 1]) / 1.0e9,
                     slices.value, MinMass(slices.value), MaxMass(slices.value)))
  }

  /** `iso` is what the loader builds from `data`: its grouped ages, and the rest as BuiltFrom says. */
  ghost predicate LoadedFrom(m: Math, iso: Isochrone, data: seq<Row>) {
    && |data| > 0
    && iso.ages == AgeGroups(data)
    && BuiltFrom(m, iso, Windows(data, iso.ages))
  }

  /** `iso` is built from the windows `ws` of its ages: times, slices and mass bounds field by field. */
  ghost predicate BuiltFrom(m: Math, iso: Isochrone, ws: seq<Option<seq<Row>>>) {
    && |iso.ages| >= 1
    && iso.nAges == |iso.ages|
    && iso.tmin == m.pow(10.0, iso.ages[0]) / 1.0e9
    && iso.tmax == m.pow(10.0, iso.ages[|iso.ages| - 1]) / 1.0e9
    && |iso.slices| == |ws|
    && (forall k :: 0 <= k < |ws| ==> ws[k] == Some(iso.slices[k]))
    && MassBounds(iso.slices, iso.mmin, iso.mmax)
  }

  /** Slice k of a loaded isochrone is the window of age k of its table. */
  lemma LoadedSlices(m: Math, iso: Isochrone, data: seq<Row>)
    requires LoadedFrom(m, iso, data)
    ensures |iso.slices| == |iso.ages|
    ensures forall k :: 0 <= k < |iso.ages| ==> WindowRows(data, iso.ages[k]) == Some(iso.slices[k])
  {
    var ws := Windows(data, iso.ages);
    assert forall k :: 0 <= k < |iso.ages| ==> ws[k] == Some(iso.slices[k]);
  }

  /**
   * A table loads exactly when it is non-empty and every age slice can be cut and
   * interpolated; the isochrone it loads to is valid and has the slices and mass
   * bounds LoadedFrom describes.
   */
  lemma IsochroneOfFacts(m: Math, data: seq<Row>)
    ensures IsochroneOf(m, data).Some? <==> TableLoads(data)
    ensures IsochroneOf(m, data).Some? ==>
      ValidIsochrone(IsochroneOf(m, data).value) && LoadedFrom(m, IsochroneOf(m, data).value, data)
  {
    if |data| > 0 {
      IsochroneOfLoads(m, data);
      if IsochroneOf(m, data).Some? {
        IsochroneOfLoaded(m, data);
      }
    }
  }

  lemma IsochroneOfLoads(m: Math, data: seq<Row>)
    requires |data| > 0
    ensures IsochroneOf(m, data).Some? <==> TableLoads(data)
  {
    AgeGroupsFacts(data);
    var ages := AgeGroups(data);
    var ws := Windows(data, ages);
    IsochroneOverFacts(m, ages, ws);
    assert forall k :: 0 <= k < |ages| ==> (Loadable(ws[k]) <==> SliceLoads(data, ages[k]));
  }

  lemma IsochroneOfLoaded(m: Math, data: seq<Row>)
    requires |data| > 0 && IsochroneOf(m, data).Some?
    ensures ValidIsochrone(IsochroneOf(m, data).value) && LoadedFrom(m, IsochroneOf(m, data).value, data)
  {
    AgeGroupsFacts(data);
    IsochroneOverFacts(m, AgeGroups(data), Windows(data, AgeGroups(data)));
  }

  /**
   * Over any windows: the isochrone exists exactly when every window loads, and then
   * its slices are the windows' rows, valid, with the mass bounds of MassBounds.
   */
  lemma IsochroneOverFacts(m: Math, ages: seq<real>, ws: seq<Option<seq<Row>>>)
    requires |ages| >= 1 && StrictlyIncreasing(ages) && |ws| == |ages|
    ensures IsochroneOver(m, ages, ws).Some? <==> forall k :: 0 <= k < |ws| ==> Loadable(ws[k])
    ensures IsochroneOver(m, ages, ws).Some? ==>
      var iso := IsochroneOver(m, ages, ws).value;
      ValidIsochrone(iso) && iso.ages == ages && BuiltFrom(m, iso, ws)
  {
    CollectFacts(ws);
    if Collect(ws).Some? {
      MassBoundsOf(Collect(ws).value);
      IsochroneOverParts(m, ages, ws, Collect(ws).value);
    }
  }

  /** The loop over the ages of BHM/BHMstars.py:233-293: cut every window and track Mmin and Mmax. */
  method CutSlices(data: seq<Row>, ages: seq<real>) returns (slices: Option<seq<seq<Row>>>, mmin: real, mmax: real)
    ensures slices == Collect(Windows(data, ages))
    ensures slices.Some? ==> mmin == MinMass(slices.value) && mmax == MaxMass(slices.value)
  {
    ghost var ws := Windows(data, ages);
    var cut: seq<seq<Row>> := [];
    mmin := 1.0e100;
    mmax := 0.0;
    var it := 0;
    while it < |ages|
      invariant 0 <= it <= |ages|
      invariant Collect(ws[..it]) == Some(cut)
      invariant mmin == MinMass(cut) && mmax == MaxMass(cut)
    {
      var w := WindowRows(data, ages[it]);
      if w.None? || !ValidSlice(w.value) {
        CollectStep(ws, it);
        CollectFailurePersists(ws, it + 1);
        return None, mmin, mmax;
      }
      CollectStep(ws, it);
      var ms := Masses(w.value);
      mmin := Min(mmin, MinOf(ms));
      mmax := Max(mmax, MaxOf(ms));
      cut := cut + [w.value];
      it := it + 1;
    }
    assert ws[..|ages|] == ws;
    slices := Some(cut);
  }

  /** One more window extends the collected prefix, or makes it fail; the mass bounds follow along. */
  lemma CollectStep(ws: seq<Option<seq<Row>>>, it: nat)
    requires it < |ws| && Collect(ws[..it]).Some?
    ensures Loadable(ws[it]) ==> Collect(ws[..it + 1]) == Some(Collect(ws[..it]).value + [ws[it].value])
    ensures !Loadable(ws[it]) ==> Collect(ws[..it + 1]).None?
    ensures Loadable(ws[it]) ==>
      var cut := Collect(ws[..it]).value;
      var ms := Masses(ws[it].value);
      && MinMass(cut + [ws[it].value]) == Min(MinMass(cut), MinOf(ms))
      && MaxMass(cut + [ws[it].value]) == Max(MaxMass(cut), MaxOf(ms))
  {
    assert ws[..it + 1][..it] == ws[..it];
    if Loadable(ws[it]) {
      var cut := Collect(ws[..it]).value;
      assert (cut + [ws[it].value])[..|cut|] == cut;
    }
  }

  /** One iteration of the metallicity loop of loadIsochroneSet (BHM/BHMstars.py:181-293). */
  method LoadIsochrone(m: Math, data: seq<Row>) returns (r: Option<Isochrone>)
    ensures r == IsochroneOf(m, data)
  {
    if |data| == 0 {
      return None;
    }
    var ages := GroupAges(data);
    var slices, mmin, mmax := CutSlices(data, ages);
    if slices.None? {
      return None;
    }
    IsochroneOverParts(m, ages, Windows(data, ages), slices.value);
    var iso := Isochrone(ages, |ages|, m.pow(10.0, ages[0]) / 1.0e9, m.pow(10.0, ages[|ages| - 1]) / 1.0e9,
                         slices.value, mmin, mmax);
    IsochroneEq(iso, IsochroneOf(m, data).value);
    r := Some(iso);
  }

  /** Field by field: the isochrone IsochroneOver builds from collected slices. */
  lemma IsochroneOverParts(m: Math, ages: seq<real>, ws: seq<Option<seq<Row>>>, slices: seq<seq<Row>>)
    requires |ages| >= 1 && Collect(ws) == Some(slices)
    ensures var r := IsochroneOver(m, ages, ws);
      && r.Some? && r.value.ages == ages && r.value.nAges == |ages| && r.value.slices == slices
      && r.value.tmin == m.pow(10.0, ages[0]) / 1.0e9 && r.value.tmax == m.pow(10.0, ages[|ages| - 1]) / 1.0e9
      && r.value.mmin == MinMass(slices) && r.value.mmax == MaxMass(slices)
  {
  }

  /** Isochrones agreeing on every field are equal (stated once, so that no proof unfolds the slices). */
  lemma IsochroneEq(a: Isochrone, b: Isochrone)
    requires a.ages == b.ages && a.nAges == b.nAges && a.tmin == b.tmin && a.tmax == b.tmax
    requires a.slices == b.slices && a.mmin == b.mmin && a.mmax == b.mmax
    ensures a == b
  {
  }

  /** Why loading the grid stops: a missing table file (exit 1) or a table whose slices cannot be built. */
  datatype LoadError = MissingFile(z: real) | MalformedTable(z: real)

  /** The table of metallicity z is present and loads. */
  predicate Loads(files: map<real, seq<Row>>, z: real) {
    z in files && TableLoads(files[z])
  }

  /** Loading the table of one metallicity. */
  function LoadOne(m: Math, files: map<real, seq<Row>>, z: real): Result<Isochrone, LoadError>
  {
    if z !in files then Failure(MissingFile(z))
    else
      var iso := IsochroneOf(m, files[z]);
      if iso.None? then Failure(MalformedTable(z)) else Success(iso.value)
  }

  /** A metallicity loads exactly when its table is present and loads; otherwise the error says which failed. */
  lemma LoadOneFacts(m: Math, files: map<real, seq<Row>>, z: real)
    ensures LoadOne(m, files, z).Success? <==> Loads(files, z)
    ensures LoadOne(m, files, z).Success? ==> Some(LoadOne(m, files, z).value) == IsochroneOf(m, files[z])
    ensures LoadOne(m, files, z).Failure? ==>
      LoadOne(m, files, z).error == (if z in files then MalformedTable(z) else MissingFile(z))
  {
    if z in files {
      IsochroneOfFacts(m, files[z]);
    }
  }

  /** The result of each metallicity, in order. */
  function LoadAll(m: Math, zs: seq<real>, files: map<real, seq<Row>>): (rs: seq<Result<Isochrone, LoadError>>)
    ensures |rs| == |zs| && forall i :: 0 <= i < |zs| ==> rs[i] == LoadOne(m, files, zs[i])
  {
    seq(|zs|, i requires 0 <= i < |zs| => LoadOne(m, files, zs[i]))
  }

  /** The isochrones in order, or the first error. */
  function Sequence(rs: seq<Result<Isochrone, LoadError>>): (r: Result<seq<Isochrone>, LoadError>)
    ensures r.Success? ==> |r.value| == |rs|
    decreases |rs|
  {
    if rs == [] then Success([])
    else
      var front := Sequence(rs[..|rs| - 1]);
      var last := rs[|rs| - 1];
      if front.Failure? then front
      else if last.Failure? then Failure(last.error)
      else Success(front.value + [last.value])
  }

  /**
   * Sequencing succeeds exactly when every result does, and then keeps every value in
   * place; otherwise it stops at the first failure and returns its error.
   */
  lemma {:induction false} SequenceFacts(rs: seq<Result<Isochrone, LoadError>>)
    ensures Sequence(rs).Success? <==> forall i :: 0 <= i < |rs| ==> rs[i].Success?
    ensures Sequence(rs).Success? ==> forall i :: 0 <= i < |rs| ==> rs[i] == Success(Sequence(rs).value[i])
    ensures Sequence(rs).Failure? ==>
      exists i :: 0 <= i < |rs| && (forall j :: 0 <= j < i ==> rs[j].Success?) && rs[i].Failure? &&
        Sequence(rs).error == rs[i].error
    decreases |rs|
  {
    if rs != [] {
      var n := |rs| - 1;
      var fr := rs[..n];
      SequenceFacts(fr);
      assert forall j :: 0 <= j < n ==> fr[j] == rs[j];
      if Sequence(rs).Success? {
        var v := Sequence(rs).value;
        assert forall i :: 0 <= i < n ==> v[i] == Sequence(fr).value[i];
      } else if Sequence(fr).Success? {
        assert (forall j :: 0 <= j < n ==> rs[j].Success?) && rs[n].Failure?;
      }
    }
  }

  /** One more result extends the sequenced prefix, or makes it fail with that result's error. */
  lemma SequenceStep(rs: seq<Result<Isochrone, LoadError>>, i: nat)
    requires i < |rs| && Sequence(rs[..i]).Success?
    ensures rs[i].Success? ==> Sequence(rs[..i + 1]) == Success(Sequence(rs[..i]).value + [rs[i].value])
    ensures rs[i].Failure? ==> Sequence(rs[..i + 1]) == Failure(rs[i].error)
  {
    assert rs[..i + 1][..i] == rs[..i];
  }

  /** Sequencing more results keeps the error of a prefix that failed. */
  lemma {:induction false} SequenceFailurePersists(rs: seq<Result<Isochrone, LoadError>>, k: nat)
    requires k <= |rs| && Sequence(rs[..k]).Failure?
    ensures Sequence(rs) == Sequence(rs[..k])
    decreases |rs| - k
  {
    if k == |rs| {
      assert rs[..k] == rs;
    } else {
      assert rs[..k + 1][..k] == rs[..k];
      SequenceFailurePersists(rs, k + 1);
    }
  }

  /** The isochrones loadIsochroneSet builds for `zs`, or the first error it stops at. */
  function GridOf(m: Math, zs: seq<real>, files: map<real, seq<Row>>): (r: Result<seq<Isochrone>, LoadError>)
    ensures r.Success? ==> |r.value| == |zs|
  {
    Sequence(LoadAll(m, zs, files))
  }

  /**
   * The grid loads exactly when every metallicity's table is present and loads; then
   * isochrone i is what table zs[i] loads to. Otherwise the error names the first
   * metallicity whose table is missing or does not load.
   */
  lemma GridOfFacts(m: Math, zs: seq<real>, files: map<real, seq<Row>>)
    ensures GridOf(m, zs, files).Success? <==> forall i :: 0 <= i < |zs| ==> Loads(files, zs[i])
    ensures GridOf(m, zs, files).Success? ==>
      forall i :: 0 <= i < |zs| ==> Some(GridOf(m, zs, files).value[i]) == IsochroneOf(m, files[zs[i]])
    ensures GridOf(m, zs, files).Failure? ==>
      exists i :: 0 <= i < |zs| && (forall j :: 0 <= j < i ==> Loads(files, zs[j])) && !Loads(files, zs[i]) &&
        GridOf(m, zs, files).error == (if zs[i] in files then MalformedTable(zs[i]) else MissingFile(zs[i]))
  {
    var rs := LoadAll(m, zs, files);
    SequenceFacts(rs);
    forall i | 0 <= i < |zs| {
      LoadOneFacts(m, files, zs[i]);
    }
    if GridOf(m, zs, files).Failure? {
      var i :| 0 <= i < |rs| && (forall j :: 0 <= j < i ==> rs[j].Success?) && rs[i].Failure? &&
        Sequence(rs).error == rs[i].error;
      assert (forall j :: 0 <= j < i ==> Loads(files, zs[j])) && !Loads(files, zs[i]);
    }
  }

  /**
   * loadIsochroneSet over the metallicities `zs` (BHM/BHMstars.py:174-307); `files`
   * maps a metallicity to the parsed rows of its table file, when that file exists.
   */
  method LoadIsochroneSet(m: Math, zs: seq<real>, files: map<real, seq<Row>>) returns (r: Result<Grid, LoadError>)
    requires StrictlyIncreasing(zs)
    ensures r.Success? <==> GridOf(m, zs, files).Success?
    ensures r.Success? ==> r.value == Grid(zs, GridOf(m, zs, files).value) && ValidGrid(r.value)
    ensures r.Failure? ==> r.error == GridOf(m, zs, files).error
  {
    ghost var rs := LoadAll(m, zs, files);
    var isos: seq<Isochrone> := [];
    var i := 0;
    while i < |zs|
      invariant 0 <= i <= |zs|
      invariant Sequence(rs[..i]) == Success(isos)
    {
      SequenceStep(rs, i);
      if zs[i] !in files {
        SequenceFailurePersists(rs, i + 1);
        return Failure(MissingFile(zs[i]));
      }
      var iso := LoadIsochrone(m, files[zs[i]]);
      if iso.None? {
        SequenceFailurePersists(rs, i + 1);
        return Failure(MalformedTable(zs[i]));
      }
      isos := isos + [iso.value];
      i := i + 1;
    }
    assert rs[..|zs|] == rs;
    GridValid(m, zs, files);
    r := Success(Grid(zs, isos));
  }

  /** A grid that loads over increasing metallicities is a valid grid. */
  lemma GridValid(m: Math, zs: seq<real>, files: map<real, seq<Row>>)
    requires StrictlyIncreasing(zs) && GridOf(m, zs, files).Success?
    ensures ValidGrid(Grid(zs, GridOf(m, zs, files).value))
  {
    GridOfFacts(m, zs, files);
    var isos := GridOf(m, zs, files).value;
    forall i | 0 <= i < |isos| ensures ValidIsochrone(isos[i]) {
      IsochroneOfFacts(m, files[zs[i]]);
    }
  }
}

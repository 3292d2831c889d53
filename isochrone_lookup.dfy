/**
 * Reading the isochrone grid (BHM/BHMstars.py): the choice of a metallicity grid,
 * PropertySet (one metallicity, interpolation in mass and then in log age),
 * StellarProperty (interpolation across metallicity over the slices that did not
 * fail) and the small compositions built on them. Sentinels are kept as the source
 * has them: -1 from PropertySet, -1.2345 from StellarProperty.
 */
module IsochroneLookup {
  import opened Wrappers
  import opened Numerics
  import opened BHM
  import opened IsochroneGrid

  // ---------------------------------------------------------------------------
  // Metallicity grids.

  const ZSVEC_FULL: seq<real> := [
    0.0001, 0.0002, 0.0004, 0.0006, 0.0008,
    0.0010, 0.0020, 0.0030, 0.0040, 0.0050, 0.0060, 0.0070, 0.0080, 0.0090,
    0.0100, 0.0125, 0.0150, 0.0175,
    0.0200, 0.0225, 0.0250, 0.0275,
    0.0300, 0.0325, 0.0350, 0.0375,
    0.0400, 0.0425, 0.0450, 0.0475,
    0.0500, 0.0525, 0.0550, 0.0575,
    0.0600]
  const ZSVEC_COARSE: seq<real> := [0.0001, 0.0010, 0.0050, 0.0100, 0.0152, 0.0200, 0.0300, 0.0400, 0.0500, 0.0600]
  const ZSVEC_SIBLINGS: seq<real> := [0.0100, 0.0152, 0.0200]
  const ZSVEC_SOLAR: seq<real> := [0.0152]

  /** The grids are strictly increasing. */
  lemma ZsvecIncreasing()
    ensures |ZSVEC_FULL| == 35 && StrictlyIncreasing(ZSVEC_FULL)
    ensures StrictlyIncreasing(ZSVEC_COARSE) && StrictlyIncreasing(ZSVEC_SIBLINGS)
  {
    IncreasingFromNeighbours(ZSVEC_FULL);
    IncreasingFromNeighbours(ZSVEC_COARSE);
    IncreasingFromNeighbours(ZSVEC_SIBLINGS);
  }

  /**
   * chooseZsvecSingle: the grid value Z1 = ZF[ZF <= Z][-1] and Z2 = ZF[ZF > Z][0];
   * None where numpy raises IndexError because one of the masks is empty.
   */
  function ChooseZsvecSingle(z: real): Option<(real, real)>
  {
    Neighbours(ZSVEC_FULL, z)
  }

  /** The last value of xs at most z and the first above z, None where either is missing. */
  function Neighbours(xs: seq<real>, z: real): Option<(real, real)>
  {
    var lo := LastAtMost(xs, z);
    var hi := FirstAbove(xs, z);
    if lo.None? || hi.None? then None else Some((xs[lo.value], xs[hi.value]))
  }

  /**
   * On a strictly increasing sequence the neighbours exist exactly for first <= z < last;
   * then z1 <= z < z2, both are values of xs, z1 the largest at most z and z2 the smallest above.
   */
  lemma NeighboursFacts(xs: seq<real>, z: real)
    requires StrictlyIncreasing(xs)
    ensures Neighbours(xs, z).Some? <==> |xs| > 0 && xs[0] <= z < xs[|xs| - 1]
    ensures Neighbours(xs, z).Some? ==>
      var (z1, z2) := Neighbours(xs, z).value;
      && z1 <= z < z2 && z1 in xs && z2 in xs
      && (forall k :: 0 <= k < |xs| && xs[k] <= z ==> xs[k] <= z1)
      && (forall k :: 0 <= k < |xs| && xs[k] > z ==> z2 <= xs[k])
  {
    SortedSearch(xs, z);
  }

  /** The pair exists exactly for 0.0001 <= Z < 0.06, and is then Z's neighbours in the full grid. */
  lemma ChooseZsvecSingleFacts(z: real)
    ensures ChooseZsvecSingle(z).Some? <==> 0.0001 <= z < 0.06
    ensures ChooseZsvecSingle(z).Some? ==>
      var (z1, z2) := ChooseZsvecSingle(z).value;
      && z1 <= z < z2 && z1 in ZSVEC_FULL && z2 in ZSVEC_FULL
      && (forall k :: 0 <= k < |ZSVEC_FULL| && ZSVEC_FULL[k] <= z ==> ZSVEC_FULL[k] <= z1)
      && (forall k :: 0 <= k < |ZSVEC_FULL| && ZSVEC_FULL[k] > z ==> z2 <= ZSVEC_FULL[k])
  {
    ZsvecIncreasing();
    NeighboursFacts(ZSVEC_FULL, z);
    assert ZSVEC_FULL[0] == 0.0001 && ZSVEC_FULL[|ZSVEC_FULL| - 1] == 0.06;
  }

  /** The grids chooseZsvec knows by name. */
  datatype ZsvecName = Siblings | Coarse | Full | Solar

  function Zsvec(name: ZsvecName): seq<real>
  {
    match name
    case Siblings => ZSVEC_SIBLINGS
    case Coarse => ZSVEC_COARSE
    case Full => ZSVEC_FULL
    case Solar => ZSVEC_SOLAR
  }

  /** The grids chooseZsvec scans, in order. */
  const ZSS: seq<ZsvecName> := [Siblings, Coarse]

  /** Neither all values of the grid exceed Z nor none does: `0 < len(ZS[ZS > Z]) < len(ZS)`. */
  predicate Brackets(zs: seq<real>, z: real) {
    0 < CountAbove(zs, z) < |zs|
  }

  /**
   * The grid chooseZsvec settles on when the grids are looked up by name in `zsvecs`, or
   * exit status 3 (DATA_ERROR): a scanned grid of which Z is a value, siblings first;
   * otherwise the default unless it is a scanned grid that does not bracket Z, in which
   * case the last scanned grid that does, if any.
   */
  function ChooseAmong(z: real, zsdef: ZsvecName, zsvecs: ZsvecName -> seq<real>): Result<ZsvecName, int>
  {
    if z in zsvecs(Siblings) then Success(Siblings)
    else if z in zsvecs(Coarse) then Success(Coarse)
    else if zsdef !in ZSS || Brackets(zsvecs(zsdef), z) then Success(zsdef)
    else if Brackets(zsvecs(Coarse), z) then Success(Coarse)
    else if Brackets(zsvecs(Siblings), z) then Success(Siblings)
    else Failure(DATA_ERROR_STATUS)
  }

  /** The choice over the grids of the program. */
  function ChooseZsvecOf(z: real, zsdef: ZsvecName): Result<ZsvecName, int>
  {
    ChooseAmong(z, zsdef, Zsvec)
  }

  /** The status errorCode("DATA_ERROR") exits with. */
  const DATA_ERROR_STATUS: int := 3

  lemma DataErrorStatus()
    ensures ErrorCode("DATA_ERROR") == Some(DATA_ERROR_STATUS)
  {
    ErrorCodeStatuses();
  }

  /**
   * The selection order: a grid holding Z exactly wins, siblings first; a default that
   * is not scanned or brackets Z is kept; a scanned default that does not bracket Z is
   * replaced by a scanned grid that does; and when none does the call ends with status 3.
   */
  lemma ChooseAmongFacts(z: real, zsdef: ZsvecName, zsvecs: ZsvecName -> seq<real>)
    ensures z in zsvecs(Siblings) ==> ChooseAmong(z, zsdef, zsvecs) == Success(Siblings)
    ensures z !in zsvecs(Siblings) && z in zsvecs(Coarse) ==> ChooseAmong(z, zsdef, zsvecs) == Success(Coarse)
    ensures z !in zsvecs(Siblings) && z !in zsvecs(Coarse) ==>
      && (Brackets(zsvecs(zsdef), z) ==> ChooseAmong(z, zsdef, zsvecs) == Success(zsdef))
      && (ChooseAmong(z, zsdef, zsvecs).Success? && ChooseAmong(z, zsdef, zsvecs).value != zsdef ==>
            zsdef in ZSS && Brackets(zsvecs(ChooseAmong(z, zsdef, zsvecs).value), z))
      && (ChooseAmong(z, zsdef, zsvecs).Failure? <==>
            zsdef in ZSS && !Brackets(zsvecs(Siblings), z) && !Brackets(zsvecs(Coarse), z))
    ensures z !in zsvecs(Siblings) && z !in zsvecs(Coarse) && zsdef in ZSS && !Brackets(zsvecs(zsdef), z) ==>
      && (ChooseAmong(z, zsdef, zsvecs).Success? ==>
            ChooseAmong(z, zsdef, zsvecs).value != zsdef &&
            Brackets(zsvecs(ChooseAmong(z, zsdef, zsvecs).value), z))
      && (Brackets(zsvecs(Coarse), z) ==> ChooseAmong(z, zsdef, zsvecs) == Success(Coarse))
      && (!Brackets(zsvecs(Coarse), z) && Brackets(zsvecs(Siblings), z) ==>
            ChooseAmong(z, zsdef, zsvecs) == Success(Siblings))
    ensures ChooseAmong(z, zsdef, zsvecs).Failure? ==> ChooseAmong(z, zsdef, zsvecs).error == DATA_ERROR_STATUS
  {
    match zsdef
    case Siblings =>
    case Coarse =>
    case Full => assert Full !in ZSS;
    case Solar => assert Solar !in ZSS;
  }

  /** A value of siblings or coarse selects that grid; 0.0152 is in both and selects siblings. */
  lemma ChooseZsvecOfValues(zsdef: ZsvecName)
    ensures ChooseZsvecOf(0.0152, zsdef) == Success(Siblings)
    ensures ChooseZsvecOf(0.0300, zsdef) == Success(Coarse)
    ensures ChooseZsvecOf(0.0001, zsdef) == Success(Coarse)
  {
    assert ZSVEC_SIBLINGS[1] == 0.0152;
    assert ZSVEC_COARSE[6] == 0.0300;
    assert ZSVEC_COARSE[0] == 0.0001;
  }

  /**
   * chooseZsvec (BHM/BHMstars.py:76-103): the scan over siblings and coarse with its
   * flags; `zsvecs` is the table of named grids the source reaches through `exec`.
   */
  method ChooseZsvec(z: real, zsdef: ZsvecName, zsvecs: ZsvecName -> seq<real>) returns (r: Result<ZsvecName, int>)
    ensures r == ChooseAmong(z, zsdef, zsvecs)
  {
    var zsvec := zsdef;
    var qoutdef, qoutoth := false, false;
    var zsvecoth := zsdef;
    var i := 0;
    while i < |ZSS|
      invariant 0 <= i <= |ZSS|
      invariant i >= 1 ==> z !in zsvecs(Siblings)
      invariant i >= 2 ==> z !in zsvecs(Coarse)
      invariant zsvec == zsdef
      invariant qoutdef <==>
        (i >= 1 && zsdef == Siblings && !Brackets(zsvecs(Siblings), z)) ||
        (i >= 2 && zsdef == Coarse && !Brackets(zsvecs(Coarse), z))
      invariant qoutoth <==> (i >= 1 && Brackets(zsvecs(Siblings), z)) || (i >= 2 && Brackets(zsvecs(Coarse), z))
      invariant qoutoth ==> zsvecoth == (if i >= 2 && Brackets(zsvecs(Coarse), z) then Coarse else Siblings)
    {
      var name := ZSS[i];
      assert name == (if i == 0 then Siblings else Coarse);
      var zs := zsvecs(name);
      if z in zs {
        // the grid holds Z: `zsvec = ZS; qoutdef = False; break`
        return Success(name);
      }
      var lzgrea := CountAbove(zs, z);
      if lzgrea == 0 || lzgrea == |zs| {
        if name == zsdef {
          qoutdef := true;
        }
      } else {
        qoutoth := true;
        zsvecoth := name;
      }
      i := i + 1;
    }
    if qoutdef {
      if qoutoth {
        zsvec := zsvecoth;
      } else {
        return Failure(DATA_ERROR_STATUS);
      }
    }
    r := Success(zsvec);
    match zsdef
    case Siblings =>
    case Coarse =>
    case Full => assert Full !in ZSS;
    case Solar => assert Solar !in ZSS;
  }

  // ---------------------------------------------------------------------------
  // One metallicity: PropertySet.

  /** `SMiso.<prop>int[k](Ms)`: slice k's interpolant at mass ms, None where indexing or interp1d raises. */
  function SliceValue(m: Math, iso: Isochrone, k: nat, prop: Property, ms: real): Option<real>
  {
    if k < |iso.slices| then Slinear(Masses(iso.slices[k]), Column(m, iso.slices[k], prop), ms) else None
  }

  /** The log age PropertySet looks up for an age in Gyr. */
  function LogAge(m: Math, age: real): real {
    m.log10(age * 1.0e9)
  }

  /**
   * PropertySet (BHM/BHMstars.py:105-138). An age of 0 has log10 of minus infinity
   * in numpy, below every tabulated age, so no bracket exists and the result is -1.
   */
  function PropertySet(m: Math, iso: Isochrone, ms: real, age: real, prop: Property): real
  {
    if age < 0.0 || age == 0.0 then -1.0
    else
      var la := LogAge(m, age);
      var exact := FirstEqual(iso.ages, la);
      if exact.Some? then SliceValue(m, iso, exact.value, prop, ms).GetOr(-1.0)
      else
        var lo := LastAtMost(iso.ages, la);
        var hi := FirstAbove(iso.ages, la);
        if lo.None? || hi.None? then -1.0
        else
          var p1 := SliceValue(m, iso, lo.value, prop, ms);
          var p2 := SliceValue(m, iso, hi.value, prop, ms);
          if p1.None? || p2.None? then -1.0
          else Lerp(iso.ages[lo.value], p1.value, iso.ages[hi.value], p2.value, la)
  }

  /** A negative age, and an age of 0, give -1. */
  lemma PropertySetNegative(m: Math, iso: Isochrone, ms: real, age: real, prop: Property)
    requires age <= 0.0
    ensures PropertySet(m, iso, ms, age, prop) == -1.0
  {
  }

  /** At a tabulated log age the slice of that age alone decides: its value, or -1 outside its mass range. */
  lemma PropertySetAtNode(m: Math, iso: Isochrone, ms: real, age: real, prop: Property, k: nat)
    requires StrictlyIncreasing(iso.ages) && age > 0.0
    requires k < |iso.ages| && iso.ages[k] == LogAge(m, age)
    ensures PropertySet(m, iso, ms, age, prop) == SliceValue(m, iso, k, prop, ms).GetOr(-1.0)
  {
    SortedEqualAt(iso.ages, k);
  }

  /**
   * Between two neighbouring tabulated log ages t1 < log age < t2 where both slices
   * cover the mass, the result is p1 + (p2 - p1)/(t2 - t1)*(log age - t1), between p1 and p2.
   */
  lemma PropertySetBetween(m: Math, iso: Isochrone, ms: real, age: real, prop: Property, k: nat)
    requires StrictlyIncreasing(iso.ages) && age > 0.0
    requires k + 1 < |iso.ages| && iso.ages[k] < LogAge(m, age) < iso.ages[k + 1]
    requires SliceValue(m, iso, k, prop, ms).Some? && SliceValue(m, iso, k + 1, prop, ms).Some?
    ensures var p1, p2 := SliceValue(m, iso, k, prop, ms).value, SliceValue(m, iso, k + 1, prop, ms).value;
      && PropertySet(m, iso, ms, age, prop) == Lerp(iso.ages[k], p1, iso.ages[k + 1], p2, LogAge(m, age))
      && Min(p1, p2) <= PropertySet(m, iso, ms, age, prop) <= Max(p1, p2)
  {
    var la := LogAge(m, age);
    NotTabulated(iso.ages, la, k);
    SortedBracketAt(iso.ages, la, k);
    LerpBetween(iso.ages[k], SliceValue(m, iso, k, prop, ms).value, iso.ages[k + 1],
                SliceValue(m, iso, k + 1, prop, ms).value, la);
  }

  /**
   * Between two neighbouring tabulated log ages, a mass outside the range of either
   * slice makes that interpolant raise and the result is -1.
   */
  lemma PropertySetBetweenMissing(m: Math, iso: Isochrone, ms: real, age: real, prop: Property, k: nat)
    requires StrictlyIncreasing(iso.ages) && age > 0.0
    requires k + 1 < |iso.ages| && iso.ages[k] < LogAge(m, age) < iso.ages[k + 1]
    requires SliceValue(m, iso, k, prop, ms).None? || SliceValue(m, iso, k + 1, prop, ms).None?
    ensures PropertySet(m, iso, ms, age, prop) == -1.0
  {
    var la := LogAge(m, age);
    NotTabulated(iso.ages, la, k);
    SortedBracketAt(iso.ages, la, k);
  }

  lemma NotTabulated(xs: seq<real>, z: real, k: nat)
    requires StrictlyIncreasing(xs) && k + 1 < |xs| && xs[k] < z < xs[k + 1]
    ensures FirstEqual(xs, z).None?
  {
    forall j | 0 <= j < |xs| ensures xs[j] != z {
      if j <= k {
        assert xs[j] <= xs[k];
      } else {
        assert xs[k + 1] <= xs[j];
      }
    }
  }

  /** A log age outside the tabulated range gives -1. */
  lemma PropertySetOutside(m: Math, iso: Isochrone, ms: real, age: real, prop: Property)
    requires StrictlyIncreasing(iso.ages) && |iso.ages| >= 1
    requires LogAge(m, age) < iso.ages[0] || LogAge(m, age) > iso.ages[|iso.ages| - 1]
    ensures PropertySet(m, iso, ms, age, prop) == -1.0
  {
    var la := LogAge(m, age);
    SortedSearch(iso.ages, la);
  }

  // ---------------------------------------------------------------------------
  // Across metallicity: StellarProperty.

  /** The value StellarProperty marks as missing. */
  const MISSING: real := -1.2345

  /** PropertySet on the isochrone of grid entry i (`SMset[i].<prop>(Ms, tau)`). */
  function EntryValue(m: Math, g: Grid, i: nat, prop: Property, ms: real, tau: real): real
    requires i < |g.isos|
  {
    PropertySet(m, g.isos[i], ms, tau, prop)
  }

  /** The values of all entries, in grid order. */
  function EntryValues(m: Math, g: Grid, prop: Property, ms: real, tau: real): (vs: seq<real>)
    ensures |vs| == |g.isos| && forall i :: 0 <= i < |g.isos| ==> vs[i] == EntryValue(m, g, i, prop, ms, tau)
  {
    seq(|g.isos|, i requires 0 <= i < |g.isos| => EntryValue(m, g, i, prop, ms, tau))
  }

  /**
   * The lists (Zs, ps) StellarProperty builds from metallicities zs and values vs: the
   * pair (zs[i], vs[i]) is appended exactly when vs[i] is not -1.
   */
  function Keep(zs: seq<real>, vs: seq<real>): (r: (seq<real>, seq<real>))
    requires |zs| == |vs|
    ensures |r.0| == |r.1| <= |zs|
  {
    if |zs| == 0 then ([], [])
    else
      var n := |zs| - 1;
      var prev := Keep(zs[..n], vs[..n]);
      if vs[n] == -1.0 then prev else (prev.0 + [zs[n]], prev.1 + [vs[n]])
  }

  /**
   * The kept pairs are exactly the entries whose value is not -1, in order: `ix` lists
   * their indices, increasing.
   */
  lemma {:induction false} KeepFacts(zs: seq<real>, vs: seq<real>) returns (ix: seq<nat>)
    requires |zs| == |vs|
    ensures |ix| == |Keep(zs, vs).0|
    ensures forall j :: 0 <= j < |ix| ==>
      ix[j] < |zs| && Keep(zs, vs).0[j] == zs[ix[j]] && Keep(zs, vs).1[j] == vs[ix[j]]
    ensures forall j, k :: 0 <= j < k < |ix| ==> ix[j] < ix[k]
    ensures forall i :: 0 <= i < |zs| ==> (vs[i] != -1.0 <==> i in ix)
  {
    if |zs| == 0 {
      ix := [];
    } else {
      var n := |zs| - 1;
      var prev := KeepFacts(zs[..n], vs[..n]);
      if vs[n] == -1.0 {
        ix := prev;
      } else {
        ix := prev + [n];
      }
    }
  }

  /** Increasing metallicities stay increasing after the -1 entries are dropped. */
  lemma KeepIncreasing(zs: seq<real>, vs: seq<real>)
    requires |zs| == |vs| && StrictlyIncreasing(zs)
    ensures StrictlyIncreasing(Keep(zs, vs).0)
  {
    var ix := KeepFacts(zs, vs);
  }

  /** The kept lists of the grid. */
  function Kept(m: Math, g: Grid, prop: Property, ms: real, tau: real): (seq<real>, seq<real>)
    requires |g.zs| == |g.isos|
  {
    Keep(g.zs, EntryValues(m, g, prop, ms, tau))
  }

  /** StellarProperty (BHM/BHMstars.py:151-172) as a value: slinear across the kept metallicities. */
  function StellarPropertyOf(m: Math, g: Grid, prop: Property, z: real, ms: real, tau: real): real
    requires |g.zs| == |g.isos|
  {
    var (zs, ps) := Kept(m, g, prop, ms, tau);
    Slinear(zs, ps, z).GetOr(MISSING)
  }

  /** StellarProperty: the scan over the grid that drops the -1 values, then interp1d in Z. */
  method StellarProperty(m: Math, g: Grid, prop: Property, z: real, ms: real, tau: real) returns (val: real)
    requires |g.zs| == |g.isos|
    ensures val == StellarPropertyOf(m, g, prop, z, ms, tau)
  {
    ghost var vals := EntryValues(m, g, prop, ms, tau);
    var zs: seq<real> := [];
    var ps: seq<real> := [];
    var i := 0;
    while i < |g.isos|
      invariant 0 <= i <= |g.isos|
      invariant (zs, ps) == Keep(g.zs[..i], vals[..i])
    {
      var p := PropertySet(m, g.isos[i], ms, tau, prop);
      assert p == vals[i];
      assert g.zs[..i + 1][..i] == g.zs[..i] && vals[..i + 1][..i] == vals[..i];
      if p != -1.0 {
        zs := zs + [g.zs[i]];
        ps := ps + [p];
      }
      i := i + 1;
    }
    assert g.zs[..i] == g.zs && vals[..i] == vals;
    var f := Slinear(zs, ps, z);
    if f.Some? {
      val := f.value;
    } else {
      val := MISSING;
    }
  }

  /** Fewer than two kept entries, or a metallicity outside the kept range, give -1.2345. */
  lemma StellarPropertyMissing(m: Math, g: Grid, prop: Property, z: real, ms: real, tau: real)
    requires |g.zs| == |g.isos|
    requires var zs := Kept(m, g, prop, ms, tau).0;
      |zs| < 2 || z < zs[0] || z > zs[|zs| - 1]
    ensures StellarPropertyOf(m, g, prop, z, ms, tau) == MISSING
  {
  }

  /** Where entry i and some other entry j are kept, metallicity zs[i] gives vs[i]. */
  lemma KeepAtEntry(zs: seq<real>, vs: seq<real>, i: nat, j: nat)
    requires |zs| == |vs| && StrictlyIncreasing(zs)
    requires i < |zs| && j < |zs| && i != j && vs[i] != -1.0 && vs[j] != -1.0
    ensures Slinear(Keep(zs, vs).0, Keep(zs, vs).1, zs[i]) == Some(vs[i])
  {
    var ix := KeepFacts(zs, vs);
    KeepIncreasing(zs, vs);
    var a :| 0 <= a < |ix| && ix[a] == i;
    var b :| 0 <= b < |ix| && ix[b] == j;
    assert a != b;
    SlinearAtNode(Keep(zs, vs).0, Keep(zs, vs).1, a);
  }

  /** Where two entries are kept and entry i is one of them, metallicity Zset[i] gives entry i's value. */
  lemma StellarPropertyAtEntry(m: Math, g: Grid, prop: Property, ms: real, tau: real, i: nat, j: nat)
    requires |g.zs| == |g.isos| && StrictlyIncreasing(g.zs)
    requires i < |g.isos| && j < |g.isos| && i != j
    requires EntryValue(m, g, i, prop, ms, tau) != -1.0 && EntryValue(m, g, j, prop, ms, tau) != -1.0
    ensures StellarPropertyOf(m, g, prop, g.zs[i], ms, tau) == EntryValue(m, g, i, prop, ms, tau)
  {
    KeepAtEntry(g.zs, EntryValues(m, g, prop, ms, tau), i, j);
  }

  /** Kept entries i < k with nothing kept between them sit side by side in the kept lists. */
  lemma KeepNeighbours(zs: seq<real>, vs: seq<real>, i: nat, k: nat) returns (a: nat)
    requires |zs| == |vs|
    requires i < k < |zs| && vs[i] != -1.0 && vs[k] != -1.0
    requires forall l :: i < l < k ==> vs[l] == -1.0
    ensures a + 1 < |Keep(zs, vs).0|
    ensures Keep(zs, vs).0[a] == zs[i] && Keep(zs, vs).0[a + 1] == zs[k]
    ensures Keep(zs, vs).1[a] == vs[i] && Keep(zs, vs).1[a + 1] == vs[k]
  {
    var ix := KeepFacts(zs, vs);
    a :| 0 <= a < |ix| && ix[a] == i;
    var b :| 0 <= b < |ix| && ix[b] == k;
    assert a < b;
    assert b == a + 1 by {
      assert a + 1 < |ix| && ix[a + 1] <= k;
      assert vs[ix[a + 1]] != -1.0;
    }
  }

  /**
   * Between two kept entries i < k with nothing kept in between, metallicity z with
   * Zset[i] <= z <= Zset[k] gives the straight line through their values, a value
   * between the two.
   */
  lemma StellarPropertyBetween(m: Math, g: Grid, prop: Property, z: real, ms: real, tau: real, i: nat, k: nat)
    requires |g.zs| == |g.isos| && StrictlyIncreasing(g.zs)
    requires i < k < |g.isos| && g.zs[i] <= z <= g.zs[k]
    requires EntryValue(m, g, i, prop, ms, tau) != -1.0 && EntryValue(m, g, k, prop, ms, tau) != -1.0
    requires forall l :: i < l < k ==> EntryValue(m, g, l, prop, ms, tau) == -1.0
    ensures var p1, p2 := EntryValue(m, g, i, prop, ms, tau), EntryValue(m, g, k, prop, ms, tau);
      && StellarPropertyOf(m, g, prop, z, ms, tau) == Lerp(g.zs[i], p1, g.zs[k], p2, z)
      && Min(p1, p2) <= StellarPropertyOf(m, g, prop, z, ms, tau) <= Max(p1, p2)
  {
    var vs := EntryValues(m, g, prop, ms, tau);
    var kept := Keep(g.zs, vs);
    var a := KeepNeighbours(g.zs, vs, i, k);
    KeepIncreasing(g.zs, vs);
    SlinearOnSegment(kept.0, kept.1, z, a);
    LerpBetween(g.zs[i], vs[i], g.zs[k], vs[k], z);
  }

  // ---------------------------------------------------------------------------
  // Compositions: StellarPropertyNorm, StellarRadius, StellarGTRL, minmaxRadius.

  /** The model-Sun values `SMglob.Tsun`, `SMglob.Rsun`, `SMglob.Lsun` the grid is normalised by. */
  datatype SolarReference = SolarReference(tsun: real, rsun: real, lsun: real)

  /**
   * StellarPropertyNorm (BHM/BHMstars.py:140-149) applied to a value: temperatures are
   * shifted so the model Sun has TSUN, radii and luminosities divided by the model
   * Sun's; every other property, and any value with norm off, is returned as it is.
   */
  function NormalisedValue(ref: SolarReference, prop: Property, val: real, norm: bool): real
    requires norm && prop == Radius ==> ref.rsun != 0.0
    requires norm && prop == Luminosity ==> ref.lsun != 0.0
  {
    if !norm then val
    else if prop == Temperature then (val - ref.tsun) + TSUN
    else if prop == Radius then val / ref.rsun
    else if prop == Luminosity then val / ref.lsun
    else val
  }

  function StellarPropertyNorm(m: Math, g: Grid, ref: SolarReference, prop: Property, z: real, ms: real, tau: real,
                               norm: bool): real
    requires |g.zs| == |g.isos|
    requires norm && prop == Radius ==> ref.rsun != 0.0
    requires norm && prop == Luminosity ==> ref.lsun != 0.0
  {
    NormalisedValue(ref, prop, StellarPropertyOf(m, g, prop, z, ms, tau), norm)
  }

  /**
   * The model Sun's own values normalise to the solar constants; normalisation is
   * undone by the inverse shift or factor; properties other than the three are untouched.
   */
  lemma NormalisedValueFacts(ref: SolarReference, prop: Property, val: real)
    requires ref.rsun != 0.0 && ref.lsun != 0.0
    ensures NormalisedValue(ref, prop, val, false) == val
    ensures NormalisedValue(ref, Temperature, ref.tsun, true) == TSUN
    ensures NormalisedValue(ref, Radius, ref.rsun, true) == 1.0
    ensures NormalisedValue(ref, Luminosity, ref.lsun, true) == 1.0
    ensures NormalisedValue(ref, Temperature, val, true) - TSUN == val - ref.tsun
    ensures NormalisedValue(ref, Radius, val, true) * ref.rsun == val
    ensures NormalisedValue(ref, Luminosity, val, true) * ref.lsun == val
    ensures prop !in {Temperature, Radius, Luminosity} ==> NormalisedValue(ref, prop, val, true) == val
  {
    DivSelf(ref.rsun);
    DivSelf(ref.lsun);
  }

  lemma DivSelf(x: real)
    requires x != 0.0
    ensures x / x == 1.0
  {
  }

  /** StellarRadius (BHM/BHMstars.py:309-312): R = sqrt(G*M*MSUN/g)/RSUN, in solar radii. */
  function StellarRadius(m: Math, ms: real, gs: real): real
    requires gs != 0.0
  {
    m.sqrt(GCONST * ms * MSUN / gs) / RSUN
  }

  /** For a non-negative mass and a positive gravity, R is non-negative and g = G*M/R^2. */
  lemma StellarRadiusFacts(m: Math, ms: real, gs: real)
    requires Lawful(m) && 0.0 <= ms && 0.0 < gs
    ensures var r := StellarRadius(m, ms, gs) * RSUN;
      0.0 <= r && gs * (r * r) == GCONST * ms * MSUN
  {
    var x := GCONST * ms * MSUN / gs;
    assert 0.0 <= x;
    var r := m.sqrt(x);
    assert r * r == x;
    assert StellarRadius(m, ms, gs) * RSUN == r;
  }

  /** The radius column of a slice is StellarRadius of the row's mass and gravity 10**logg/100. */
  lemma RowRadius(m: Math, row: Row)
    requires Lawful(m)
    ensures RowValue(m, row, Radius) == StellarRadius(m, row.mass, m.pow(10.0, row.logg) / 100.0)
  {
    assert 0.0 < m.pow(10.0, row.logg);
    assert GCONST * (row.mass * MSUN) == GCONST * row.mass * MSUN;
  }

  /** The four values StellarGTRL returns. */
  datatype GTRL = GTRL(g: real, T: real, R: real, L: real)

  /**
   * StellarGTRL (BHM/BHMstars.py:314-325): g = 10**logg/100, R from g, T = 10**logT,
   * L = 10**logL, and g, T, L replaced by -1 where their log was missing. R is computed
   * before that replacement, so a missing gravity still yields a radius.
   */
  function StellarGTRLOf(m: Math, grid: Grid, z: real, ms: real, t: real): GTRL
    requires Lawful(m) && |grid.zs| == |grid.isos|
  {
    GTRLFromLogs(m, ms, StellarPropertyOf(m, grid, LogGravitation, z, ms, t),
                 StellarPropertyOf(m, grid, LogTemperature, z, ms, t),
                 StellarPropertyOf(m, grid, LogLuminosity, z, ms, t))
  }

  /** StellarGTRL once the three logs are looked up. */
  function GTRLFromLogs(m: Math, ms: real, logg: real, logT: real, logL: real): GTRL
    requires Lawful(m)
  {
    var g := m.pow(10.0, logg) / 100.0;
    var r := StellarRadius(m, ms, g);
    GTRL(if logg == MISSING then -1.0 else g,
         if logT == MISSING then -1.0 else m.pow(10.0, logT),
         r,
         if logL == MISSING then -1.0 else m.pow(10.0, logL))
  }

  /**
   * Gravity, temperature and luminosity are -1 exactly where their log is missing and
   * positive otherwise; the radius always matches the gravity 10**logg/100 by g = G*M/R^2.
   */
  lemma GTRLFromLogsFacts(m: Math, ms: real, logg: real, logT: real, logL: real)
    requires Lawful(m) && 0.0 <= ms
    ensures var v := GTRLFromLogs(m, ms, logg, logT, logL);
      && (v.g == -1.0 <==> logg == MISSING)
      && (v.T == -1.0 <==> logT == MISSING)
      && (v.L == -1.0 <==> logL == MISSING)
      && (logg != MISSING ==> 0.0 < v.g)
      && (logT != MISSING ==> 0.0 < v.T)
      && (logL != MISSING ==> 0.0 < v.L)
      && 0.0 <= v.R
      && (m.pow(10.0, logg) / 100.0) * (v.R * RSUN) * (v.R * RSUN) == GCONST * ms * MSUN
  {
    var g := m.pow(10.0, logg) / 100.0;
    StellarRadiusFacts(m, ms, g);
  }

  /** The radii minmaxRadius visits: StellarGTRL's R at each age of ts. */
  function Radii(m: Math, grid: Grid, z: real, ms: real, ts: seq<real>): (rs: seq<real>)
    requires Lawful(m) && |grid.zs| == |grid.isos|
    ensures |rs| == |ts|
  {
    if |ts| == 0 then [] else Radii(m, grid, z, ms, ts[..|ts| - 1]) + [StellarGTRLOf(m, grid, z, ms, ts[|ts| - 1]).R]
  }

  lemma {:induction false} RadiiAt(m: Math, grid: Grid, z: real, ms: real, ts: seq<real>, k: nat)
    requires Lawful(m) && |grid.zs| == |grid.isos| && k < |ts|
    ensures Radii(m, grid, z, ms, ts)[k] == StellarGTRLOf(m, grid, z, ms, ts[k]).R
  {
    if k < |ts| - 1 {
      RadiiAt(m, grid, z, ms, ts[..|ts| - 1], k);
    }
  }

  /** The starting values of minmaxRadius' running minimum and maximum. */
  const RMIN_START: real := 1.0e100
  const RMAX_START: real := 0.0

  /**
   * What minmaxRadius' running pair says about the radii seen: Rmin is the least of 1E100
   * and the radii, Rmax the greatest of 0 and the radii, each attained unless it still
   * has its starting value.
   */
  predicate MinMaxSoFar(rs: seq<real>, rmin: real, rmax: real) {
    && rmin <= RMIN_START && RMAX_START <= rmax
    && (forall k :: 0 <= k < |rs| ==> rmin <= rs[k] <= rmax)
    && (rmin == RMIN_START || rmin in rs)
    && (rmax == RMAX_START || rmax in rs)
  }

  /** One iteration: `if R>Rmax:Rmax=R` and `if R<Rmin:Rmin=R` keep the pair right. */
  lemma MinMaxExtend(rs: seq<real>, rmin: real, rmax: real, r: real)
    requires MinMaxSoFar(rs, rmin, rmax)
    ensures MinMaxSoFar(rs + [r], if r < rmin then r else rmin, if r > rmax then r else rmax)
  {
    var rs' := rs + [r];
    assert forall k :: 0 <= k < |rs| ==> rs'[k] == rs[k];
  }

  lemma PrefixStep(s: seq<real>, i: nat)
    requires i < |s|
    ensures s[..i + 1] == s[..i] + [s[i]]
  {
  }

  /** minmaxRadius (BHM/BHMstars.py:327-334) over linspace(tmin, tmax, 20). */
  method MinMaxRadius(m: Math, grid: Grid, z: real, ms: real, tmin: real, tmax: real) returns (rmin: real, rmax: real)
    requires Lawful(m) && |grid.zs| == |grid.isos|
    ensures MinMaxSoFar(Radii(m, grid, z, ms, Linspace(tmin, tmax, 20)), rmin, rmax)
  {
    var ts := Linspace(tmin, tmax, 20);
    ghost var rs := Radii(m, grid, z, ms, ts);
    rmin, rmax := RMIN_START, RMAX_START;
    var i := 0;
    while i < |ts|
      invariant 0 <= i <= |ts|
      invariant MinMaxSoFar(rs[..i], rmin, rmax)
    {
      var r := StellarGTRLOf(m, grid, z, ms, ts[i]).R;
      RadiiAt(m, grid, z, ms, ts, i);
      MinMaxExtend(rs[..i], rmin, rmax, r);
      PrefixStep(rs, i);
      if r > rmax {
        rmax := r;
      }
      if r < rmin {
        rmin := r;
      }
      i := i + 1;
    }
    assert rs[..i] == rs;
  }
}

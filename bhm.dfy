/**
 * The master module of the package (BHM/__init__.py): the physical constants the
 * rest of the model uses, the exit-status table, the attribute-bag object
 * `dict2obj` with its in-place merge, and the positional-argument reader.
 */
module BHM {
  import opened Wrappers

  // ---------------------------------------------------------------------------
  // Constants, in SI units as in the source.

  const PI: real := 3.141592653589793
  const DEG: real := PI / 180.0
  const GCONST: real := 6.67e-11
  /** Boltzmann constant and proton mass, CODATA 2010 as scipy.constants gives them. */
  const KB: real := 1.3806488e-23
  const MP: real := 1.672621777e-27
  const AU: real := 1.496e11
  const DAY: real := 86400.0
  const YEAR: real := 365.0 * DAY
  const GYR: real := 1.0e9 * YEAR
  const MSUN: real := 1.99e30
  const TSUN: real := 5780.0
  const RSUN: real := 6.955e8
  const LSUN: real := 3.842e26
  const ZSUN: real := 0.0152
  const MEARTH: real := 5.9722e24
  const REARTH: real := 6.371e6
  const TAGE: real := 4.56
  const GIGA: real := 1.0e9
  const KILO: real := 1.0e3

  // ---------------------------------------------------------------------------
  // Exit statuses.

  const ERROR_CODES: map<string, int> := map["FILE_ERROR" := 1, "INPUT_ERROR" := 2, "DATA_ERROR" := 3]

  /** `errorCode(code)`: the status the process exits with; None where the lookup raises KeyError. */
  function ErrorCode(code: string): (status: Option<int>)
    ensures status.Some? <==> code in {"FILE_ERROR", "INPUT_ERROR", "DATA_ERROR"}
    ensures status.Some? ==> status.value != 0
  {
    if code in ERROR_CODES then Some(ERROR_CODES[code]) else None
  }

  /** The three named errors exit with 1, 2 and 3, three distinct failure statuses. */
  lemma ErrorCodeStatuses()
    ensures ErrorCode("FILE_ERROR") == Some(1)
    ensures ErrorCode("INPUT_ERROR") == Some(2)
    ensures ErrorCode("DATA_ERROR") == Some(3)
  {
  }

  // ---------------------------------------------------------------------------
  // dict2obj: an object whose attributes are the entries of a dictionary.

  class Dict2Obj<V> {
    /** The object's `__dict__`. */
    var attrs: map<string, V>

    constructor (dic: map<string, V>)
      ensures attrs == dic
    {
      attrs := dic;
    }

    /**
     * `self + other`: every attribute of `other` is set on `self` with `other`'s value,
     * attributes only `self` has are kept, and the result is `self` itself.
     */
    method Add(other: Dict2Obj<V>) returns (r: Dict2Obj<V>)
      modifies this
      ensures r == this
      ensures attrs.Keys == old(attrs).Keys + old(other.attrs).Keys
      ensures forall k :: k in old(other.attrs) ==> attrs[k] == old(other.attrs)[k]
      ensures forall k :: k in old(attrs) && k !in old(other.attrs) ==> attrs[k] == old(attrs)[k]
    {
      var keys := other.attrs.Keys;
      ghost var done: set<string> := {};
      while keys != {}
        invariant keys + done == old(other.attrs).Keys && keys !! done
        invariant other != this ==> other.attrs == old(other.attrs)
        invariant other == this ==> attrs == old(attrs)
        invariant attrs.Keys == old(attrs).Keys + done
        invariant forall k :: k in done ==> attrs[k] == old(other.attrs)[k]
        invariant forall k :: k in old(attrs) && k !in done ==> attrs[k] == old(attrs)[k]
        decreases keys
      {
        var k :| k in keys;
        attrs := attrs[k := other.attrs[k]];
        keys := keys - {k};
        done := done + {k};
      }
      r := this;
    }
  }

  // ---------------------------------------------------------------------------
  // readArgs: positional command-line arguments with defaults.

  /** Why `readArgs` stops without returning values. */
  datatype Halt =
    | HelpExit          // '-h' in the first argument: usage printed, exit(0)
    | MissingDefault    // a position beyond both argv and defs: IndexError
    | BadConversion     // the format's constructor rejected the text
  {
    function Status(): (s: Option<int>)
      ensures this == HelpExit ==> s == Some(0)
    {
      if this == HelpExit then Some(0) else None
    }
  }

  /** t occurs in s starting at position i. */
  predicate OccursAt(s: string, t: string, i: nat) {
    i + |t| <= |s| && s[i..i + |t|] == t
  }

  /** Python's `t in s` for strings. */
  function ContainsSub(s: string, t: string): (b: bool)
    ensures b <==> exists i: nat :: OccursAt(s, t, i)
    decreases |s|
  {
    if |s| < |t| then false
    else if s[..|t|] == t then assert OccursAt(s, t, 0); true
    else
      var rest := ContainsSub(s[1..], t);
      assert forall i: nat :: OccursAt(s, t, i + 1) <==> OccursAt(s[1..], t, i) by {
        forall i: nat ensures OccursAt(s, t, i + 1) <==> OccursAt(s[1..], t, i) {
          if i + 1 + |t| <= |s| {
            var u, v := s[i + 1..i + 1 + |t|], s[1..][i..i + |t|];
            forall k | 0 <= k < |t| ensures u[k] == v[k] {
              assert u[k] == s[i + 1 + k] && v[k] == s[1..][i + k];
            }
            assert u == v;
          }
        }
      }
      assert !OccursAt(s, t, 0);
      assert (exists i: nat :: OccursAt(s, t, i)) ==> exists i: nat :: OccursAt(s[1..], t, i) by {
        if exists i: nat :: OccursAt(s, t, i) {
          var i: nat :| OccursAt(s, t, i);
          assert i != 0;
          assert OccursAt(s[1..], t, i - 1);
        }
      }
      rest
  }

  /** The text format j reads (argv position j + 1) once a missing argument or '--' is replaced by its default. */
  function EffectiveArg(args: seq<string>, defs: seq<string>, j: nat): (r: Option<string>)
    ensures j + 1 < |args| && args[j + 1] != "--" ==> r == Some(args[j + 1])
    ensures !(j + 1 < |args| && args[j + 1] != "--") ==> r == (if j < |defs| then Some(defs[j]) else None)
  {
    if j + 1 < |args| && args[j + 1] != "--" then Some(args[j + 1])
    else if j < |defs| then Some(defs[j])
    else None
  }

  /** The list `readArgs` reads positions from: the caller's, or [''] + defs when there are no arguments. */
  function ArgSource(argv: seq<string>, defs: seq<string>): seq<string>
    requires |argv| >= 1
  {
    if |argv| - 1 == 0 then [""] + defs else argv
  }

  /** The caller's argv after positions 1..n have been filled with their effective values. */
  function FilledArgv(argv: seq<string>, defs: seq<string>, n: nat): (r: seq<string>)
    requires forall j :: 0 <= j < n ==> EffectiveArg(argv, defs, j).Some?
    requires |argv| >= 1
    ensures |r| == if |argv| > n then |argv| else n + 1
    ensures r[0] == argv[0]
    ensures forall j :: 0 <= j < n ==> r[j + 1] == EffectiveArg(argv, defs, j).value
    ensures forall i :: n < i < |argv| ==> r[i] == argv[i]
  {
    var len := if |argv| > n then |argv| else n + 1;
    seq(len, i requires 0 <= i < len => if 1 <= i <= n then EffectiveArg(argv, defs, i - 1).value else argv[i])
  }

  /**
   * The loop of `readArgs` stops at format j (argv position j + 1): every earlier position
   * was read and converted, and position j + 1 has no text (MissingDefault) or does not
   * convert (BadConversion). `local` is the list as the loop left it: filled up to the
   * position that failed to convert, or up to the one before a missing text.
   */
  predicate StopsAt<V>(src: seq<string>, fmts: seq<string>, defs: seq<string>,
                       convert: (string, string) -> Option<V>, j: nat, local: seq<string>, h: Halt)
    requires |src| >= 1 && j < |fmts|
  {
    && (forall k :: 0 <= k < j ==>
          EffectiveArg(src, defs, k).Some? && convert(fmts[k], EffectiveArg(src, defs, k).value).Some?)
    && if EffectiveArg(src, defs, j).None? then
         h == MissingDefault && local == FilledArgv(src, defs, j)
       else
         h == BadConversion && convert(fmts[j], EffectiveArg(src, defs, j).value).None? &&
         local == FilledArgv(src, defs, j + 1)
  }

  /** A list of strings the caller owns and `readArgs` may extend or overwrite. */
  class ArgVector {
    var items: seq<string>
    constructor (items0: seq<string>)
      ensures items == items0
    {
      items := items0;
    }
  }

  /** With no arguments, every position reads its default. */
  lemma DefaultsOnly(defs: seq<string>, j: nat)
    ensures EffectiveArg([""] + defs, defs, j) == if j < |defs| then Some(defs[j]) else None
  {
    var src := [""] + defs;
    if j + 1 < |src| {
      assert src[j + 1] == defs[j];
    }
  }

  /** Values read from [''] + defs are the conversions of the defaults. */
  lemma DefaultsValues<V>(fmts: seq<string>, defs: seq<string>, convert: (string, string) -> Option<V>, vals: seq<V>)
    requires |vals| == |fmts|
    requires forall j :: 0 <= j < |fmts| ==>
               EffectiveArg([""] + defs, defs, j).Some? &&
               convert(fmts[j], EffectiveArg([""] + defs, defs, j).value) == Some(vals[j])
    ensures |fmts| <= |defs|
    ensures forall j :: 0 <= j < |fmts| ==> convert(fmts[j], defs[j]) == Some(vals[j])
  {
    if |fmts| > |defs| {
      DefaultsOnly(defs, |fmts| - 1);
    }
    forall j | 0 <= j < |fmts| ensures convert(fmts[j], defs[j]) == Some(vals[j]) {
      DefaultsOnly(defs, j);
    }
  }

  /**
   * The loop of `readArgs` over the formats, on the list `src` it reads from: each
   * missing position is appended and each '--' overwritten with its default, and the
   * text is converted. `local` is the list as far as the loop got.
   */
  method FillArgs<V>(src: seq<string>, fmts: seq<string>, defs: seq<string>,
                     convert: (string, string) -> Option<V>) returns (local: seq<string>, r: Result<seq<V>, Halt>)
    requires |src| >= 1
    ensures r.Success? ==>
              && |r.value| == |fmts|
              && (forall j :: 0 <= j < |fmts| ==>
                   EffectiveArg(src, defs, j).Some? &&
                   convert(fmts[j], EffectiveArg(src, defs, j).value) == Some(r.value[j]))
              && local == FilledArgv(src, defs, |fmts|)
    ensures r.Failure? ==>
              r.error != HelpExit &&
              exists j :: 0 <= j < |fmts| &&
                (EffectiveArg(src, defs, j).None? || convert(fmts[j], EffectiveArg(src, defs, j).value).None?)
    ensures r.Failure? ==> exists j :: 0 <= j < |fmts| && StopsAt(src, fmts, defs, convert, j, local, r.error)
  {
    var nvar := |fmts|;
    local := src;
    var args: seq<V> := [];
    var i := 1;
    while i <= nvar
      invariant 1 <= i <= nvar + 1
      invariant |local| >= i
      invariant |args| == i - 1
      invariant local[0] == src[0]
      invariant forall j :: 0 <= j < i - 1 ==> EffectiveArg(src, defs, j).Some? && local[j + 1] == EffectiveArg(src, defs, j).value
      invariant forall k :: i <= k < |local| ==> k < |src| && local[k] == src[k]
      invariant |local| == if |src| > i - 1 then |src| else i
      invariant forall j :: 0 <= j < i - 1 ==> convert(fmts[j], local[j + 1]) == Some(args[j])
    {
      if i >= |local| {
        if i - 1 >= |defs| {
          assert EffectiveArg(src, defs, i - 1).None?;
          assert local == FilledArgv(src, defs, i - 1);
          assert StopsAt(src, fmts, defs, convert, i - 1, local, MissingDefault);
          return local, Failure(MissingDefault);
        }
        local := local + [defs[i - 1]];
      }
      if local[i] == "--" {
        if i - 1 >= |defs| {
          assert EffectiveArg(src, defs, i - 1).None?;
          assert local == FilledArgv(src, defs, i - 1);
          assert StopsAt(src, fmts, defs, convert, i - 1, local, MissingDefault);
          return local, Failure(MissingDefault);
        }
        local := local[i := defs[i - 1]];
      }
      assert local[i] == EffectiveArg(src, defs, i - 1).value;
      var v := convert(fmts[i - 1], local[i]);
      if v.None? {
        assert local == FilledArgv(src, defs, i);
        assert StopsAt(src, fmts, defs, convert, i - 1, local, BadConversion);
        return local, Failure(BadConversion);
      }
      args := args + [v.value];
      i := i + 1;
    }
    r := Success(args);
  }

  /**
   * `readArgs(argv, fmts, defs)`: one converted value per format. A missing position
   * or '--' takes the corresponding default; `convert(fmt, text)` is the format's
   * constructor, None where it raises. With arguments, the caller's list is filled in
   * place; with none, a private list [''] + defs is read.
   */
  method ReadArgs<V>(argv: ArgVector, fmts: seq<string>, defs: seq<string>,
                     convert: (string, string) -> Option<V>) returns (r: Result<seq<V>, Halt>)
    requires |argv.items| >= 1
    modifies argv
    ensures |old(argv.items)| >= 2 && ContainsSub(old(argv.items)[1], "-h") ==>
              r == Failure(HelpExit) && argv.items == old(argv.items)
    ensures r.Success? ==>
              var src := ArgSource(old(argv.items), defs);
              && |r.value| == |fmts|
              && forall j :: 0 <= j < |fmts| ==>
                   EffectiveArg(src, defs, j).Some? &&
                   convert(fmts[j], EffectiveArg(src, defs, j).value) == Some(r.value[j])
    ensures r.Success? && |old(argv.items)| == 1 ==>
              argv.items == old(argv.items) && |fmts| <= |defs| &&
              forall j :: 0 <= j < |fmts| ==> convert(fmts[j], defs[j]) == Some(r.value[j])
    ensures r.Success? && |old(argv.items)| > 1 ==>
              (forall j :: 0 <= j < |fmts| ==> EffectiveArg(old(argv.items), defs, j).Some?) &&
              argv.items == FilledArgv(old(argv.items), defs, |fmts|)
    ensures r.Failure? && r.error != HelpExit ==>
              exists j :: 0 <= j < |fmts| &&
                (EffectiveArg(ArgSource(old(argv.items), defs), defs, j).None? ||
                 convert(fmts[j], EffectiveArg(ArgSource(old(argv.items), defs), defs, j).value).None?)
    ensures r == Failure(HelpExit) ==> |old(argv.items)| >= 2 && ContainsSub(old(argv.items)[1], "-h")
    ensures r.Failure? && r.error != HelpExit && |old(argv.items)| > 1 ==>
              exists j :: 0 <= j < |fmts| && StopsAt(old(argv.items), fmts, defs, convert, j, argv.items, r.error)
    ensures |old(argv.items)| == 1 ==> argv.items == old(argv.items)
  {
    if |argv.items| >= 2 && ContainsSub(argv.items[1], "-h") {
      return Failure(HelpExit);
    }
    var narg := |argv.items| - 1;
    assert narg == |old(argv.items)| - 1;
    var src := if narg == 0 then [""] + defs else argv.items;
    assert src == ArgSource(old(argv.items), defs);
    var local;
    local, r := FillArgs(src, fmts, defs, convert);
    if narg != 0 {
      argv.items := local;
    } else if r.Success? {
      DefaultsValues(fmts, defs, convert, r.value);
    }
  }
}

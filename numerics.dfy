/**
 * Numerical building blocks shared by the isochrone engine, the physical rules and
 * the spin-evolution driver:
 *  - the transcendental operations of numpy and of Python's `**`, left uninterpreted;
 *  - scipy's `interp1d(kind='slinear')` and numpy's `interp` as piecewise-linear
 *    evaluation on a strictly increasing node sequence;
 *  - `linspace`, `arange`, `min`, `int()` truncation and prefix sums.
 * Floating-point numbers are modelled as exact reals.
 */
module Numerics {
  import opened Wrappers

  /** sqrt, x**y with a real exponent, log10 and sin, as the model's caller supplies them. */
  datatype Math = Math(sqrt: real -> real, pow: (real, real) -> real, log10: real -> real, sin: real -> real)

  /** The only facts about the transcendental operations that the proofs rely on. */
  ghost predicate Lawful(m: Math) {
    && (forall x :: 0.0 <= x ==> 0.0 <= m.sqrt(x) && m.sqrt(x) * m.sqrt(x) == x)
    && (forall x, y :: 0.0 < x ==> 0.0 < m.pow(x, y))
    && (forall y :: m.pow(1.0, y) == 1.0)
    && (forall x, y, z :: 0.0 < x && y * z == 1.0 ==> m.pow(m.pow(x, y), z) == x)
  }

  function Min(a: real, b: real): real { if a <= b then a else b }
  function Max(a: real, b: real): real { if a <= b then b else a }

  function Abs(x: real): (r: real)
    ensures 0.0 <= r && (r == x || r == -x)
  {
    if x < 0.0 then -x else x
  }

  predicate StrictlyIncreasing(xs: seq<real>) {
    forall i, j :: 0 <= i < j < |xs| ==> xs[i] < xs[j]
  }

  lemma StrictlyIncreasingTail(xs: seq<real>)
    requires StrictlyIncreasing(xs) && |xs| > 0
    ensures StrictlyIncreasing(xs[1..])
  {
    forall i, j | 0 <= i < j < |xs| - 1 ensures xs[1..][i] < xs[1..][j] {
      assert xs[1..][i] == xs[i + 1] && xs[1..][j] == xs[j + 1];
    }
  }

  // ---------------------------------------------------------------------------
  // Linear interpolation between two points.

  /** The straight line through (x1, y1) and (x2, y2), evaluated at x, in the source's form. */
  function Lerp(x1: real, y1: real, x2: real, y2: real, x: real): real
    requires x1 != x2
  {
    y1 + (y2 - y1) / (x2 - x1) * (x - x1)
  }

  /** Between its two nodes the line stays between the two node values and meets them at the ends. */
  lemma LerpBetween(x1: real, y1: real, x2: real, y2: real, x: real)
    requires x1 < x2 && x1 <= x <= x2
    ensures Min(y1, y2) <= Lerp(x1, y1, x2, y2, x) <= Max(y1, y2)
    ensures x == x1 ==> Lerp(x1, y1, x2, y2, x) == y1
    ensures x == x2 ==> Lerp(x1, y1, x2, y2, x) == y2
  {
    var w := (x - x1) / (x2 - x1);
    assert 0.0 <= w <= 1.0;
    assert (y2 - y1) / (x2 - x1) * (x - x1) == (y2 - y1) * w;
    assert Lerp(x1, y1, x2, y2, x) == y1 + (y2 - y1) * w;
    if y1 <= y2 {
      assert 0.0 <= (y2 - y1) * w <= y2 - y1;
    } else {
      assert y2 - y1 <= (y2 - y1) * w <= 0.0;
    }
    if x == x2 {
      assert w == 1.0;
    }
  }

  // ---------------------------------------------------------------------------
  // interp1d(kind='slinear'): piecewise-linear evaluation, failing outside the nodes.

  /** The inputs on which an slinear interpolant can be built and evaluated without raising. */
  predicate InDomain(xs: seq<real>, ys: seq<real>, x: real) {
    |xs| >= 2 && |ys| == |xs| && StrictlyIncreasing(xs) && xs[0] <= x <= xs[|xs| - 1]
  }

  function SegmentEval(xs: seq<real>, ys: seq<real>, x: real): real
    requires InDomain(xs, ys, x)
    decreases |xs|
  {
    if x <= xs[1] then Lerp(xs[0], ys[0], xs[1], ys[1], x)
    else
      StrictlyIncreasingTail(xs);
      SegmentEval(xs[1..], ys[1..], x)
  }

  /** `interp1d(xs, ys, kind='slinear')(x)`: None where the construction or the call raises. */
  function Slinear(xs: seq<real>, ys: seq<real>, x: real): (r: Option<real>)
    ensures r.Some? <==> InDomain(xs, ys, x)
  {
    if InDomain(xs, ys, x) then Some(SegmentEval(xs, ys, x)) else None
  }

  /** At a node the interpolant returns the node's value. */
  lemma {:induction false} SlinearAtNode(xs: seq<real>, ys: seq<real>, k: nat)
    requires |xs| >= 2 && |ys| == |xs| && StrictlyIncreasing(xs) && k < |xs|
    ensures Slinear(xs, ys, xs[k]) == Some(ys[k])
  {
    assert InDomain(xs, ys, xs[k]);
    if k <= 1 {
      LerpBetween(xs[0], ys[0], xs[1], ys[1], xs[k]);
    } else {
      StrictlyIncreasingTail(xs);
      SlinearAtNode(xs[1..], ys[1..], k - 1);
      assert xs[1..][k - 1] == xs[k];
    }
  }

  /** Between two neighbouring nodes the interpolant is the line through them. */
  lemma {:induction false} SlinearOnSegment(xs: seq<real>, ys: seq<real>, x: real, k: nat)
    requires |xs| >= 2 && |ys| == |xs| && StrictlyIncreasing(xs)
    requires k + 1 < |xs| && xs[k] <= x <= xs[k + 1]
    ensures Slinear(xs, ys, x) == Some(Lerp(xs[k], ys[k], xs[k + 1], ys[k + 1], x))
  {
    assert InDomain(xs, ys, x);
    if x <= xs[1] {
      if k != 0 {
        assert k == 1 && x == xs[1];
        LerpBetween(xs[0], ys[0], xs[1], ys[1], x);
        LerpBetween(xs[1], ys[1], xs[2], ys[2], x);
      }
    } else {
      StrictlyIncreasingTail(xs);
      assert k >= 1;
      SlinearOnSegment(xs[1..], ys[1..], x, k - 1);
    }
  }

  /** Inside the node range some segment brackets x. */
  lemma {:induction false} SegmentExists(xs: seq<real>, x: real) returns (k: nat)
    requires |xs| >= 2 && StrictlyIncreasing(xs) && xs[0] <= x <= xs[|xs| - 1]
    ensures k + 1 < |xs| && xs[k] <= x <= xs[k + 1]
  {
    if x <= xs[1] {
      k := 0;
    } else {
      StrictlyIncreasingTail(xs);
      var j := SegmentExists(xs[1..], x);
      k := j + 1;
    }
  }

  /** Between two neighbouring nodes the value lies between their two values. */
  lemma SlinearBetweenNodes(xs: seq<real>, ys: seq<real>, x: real, k: nat)
    requires |xs| >= 2 && |ys| == |xs| && StrictlyIncreasing(xs)
    requires k + 1 < |xs| && xs[k] <= x <= xs[k + 1]
    ensures Slinear(xs, ys, x).Some?
    ensures Min(ys[k], ys[k + 1]) <= Slinear(xs, ys, x).value <= Max(ys[k], ys[k + 1])
  {
    SlinearOnSegment(xs, ys, x, k);
    LerpBetween(xs[k], ys[k], xs[k + 1], ys[k + 1], x);
  }

  /** Bounds on the node values bound every interpolated value. */
  lemma SlinearBounded(xs: seq<real>, ys: seq<real>, x: real, lo: real, hi: real)
    requires InDomain(xs, ys, x)
    requires forall i :: 0 <= i < |ys| ==> lo <= ys[i] <= hi
    ensures lo <= Slinear(xs, ys, x).value <= hi
  {
    var k := SegmentExists(xs, x);
    SlinearBetweenNodes(xs, ys, x, k);
  }

  // ---------------------------------------------------------------------------
  // numpy sequence helpers.

  /** The k-th of n evenly spaced values from a to b. */
  function LinspaceAt(a: real, b: real, n: nat, k: nat): real {
    if n == 1 then a else a + (k as real) * (b - a) / ((n - 1) as real)
  }

  lemma LinspaceAtFacts(a: real, b: real, n: nat)
    ensures n >= 2 ==> LinspaceAt(a, b, n, n - 1) == b
    ensures forall k :: 0 <= k < n && a <= b ==> a <= LinspaceAt(a, b, n, k) <= b
    ensures forall i, j :: 0 <= i < j < n && a < b ==> LinspaceAt(a, b, n, i) < LinspaceAt(a, b, n, j)
  {
    if n >= 2 {
      LinspaceAtLast(a, b, n);
    }
    forall k | 0 <= k < n && a <= b ensures a <= LinspaceAt(a, b, n, k) <= b {
      LinspaceAtBounds(a, b, n, k);
    }
    forall i, j | 0 <= i < j < n && a < b ensures LinspaceAt(a, b, n, i) < LinspaceAt(a, b, n, j) {
      LinspaceAtIncreasing(a, b, n, i, j);
    }
  }

  lemma LinspaceAtLast(a: real, b: real, n: nat)
    requires n >= 2
    ensures LinspaceAt(a, b, n, n - 1) == b
  {
    var d := (n - 1) as real;
    assert LinspaceAt(a, b, n, n - 1) == a + d * (b - a) / d;
    Fraction(d, d, b - a);
  }

  lemma LinspaceAtBounds(a: real, b: real, n: nat, k: nat)
    requires k < n && a <= b
    ensures a <= LinspaceAt(a, b, n, k) <= b
  {
    if n >= 2 {
      var d, kr, w := (n - 1) as real, k as real, b - a;
      FractionBounds(kr, d, w);
      assert LinspaceAt(a, b, n, k) == a + kr * w / d;
    }
  }

  lemma LinspaceAtIncreasing(a: real, b: real, n: nat, i: nat, j: nat)
    requires i < j < n && a < b
    ensures LinspaceAt(a, b, n, i) < LinspaceAt(a, b, n, j)
  {
    var d := (n - 1) as real;
    assert LinspaceAt(a, b, n, i) == a + (i as real) * (b - a) / d;
    assert LinspaceAt(a, b, n, j) == a + (j as real) * (b - a) / d;
    FractionIncreasing(i as real, j as real, d, b - a);
  }

  lemma Fraction(k: real, d: real, w: real)
    requires k == d && 0.0 < d
    ensures k * w / d == w
  {
  }

  /** k w/d lies between 0 and w when k lies between 0 and d. */
  lemma FractionBounds(k: real, d: real, w: real)
    requires 0.0 <= k <= d && 0.0 < d && 0.0 <= w
    ensures 0.0 <= k * w / d <= w
  {
    assert 0.0 <= k * w;
    assert k * w <= d * w;
    assert d * w / d == w;
  }

  /** k w/d grows with k for positive w and d. */
  lemma FractionIncreasing(i: real, j: real, d: real, w: real)
    requires i < j && 0.0 < d && 0.0 < w
    ensures i * w / d < j * w / d
  {
    assert i * w < j * w;
  }

  /** `linspace(a, b, n)`: n evenly spaced values from a to b inclusive. */
  function Linspace(a: real, b: real, n: nat): (r: seq<real>)
    ensures |r| == n
    ensures n >= 1 ==> r[0] == a
    ensures n >= 2 ==> r[n - 1] == b
    ensures n >= 2 && a < b ==> StrictlyIncreasing(r)
    ensures forall k :: 0 <= k < n && a <= b ==> a <= r[k] <= b
  {
    LinspaceAtFacts(a, b, n);
    seq(n, k requires 0 <= k < n => LinspaceAt(a, b, n, k))
  }

  /** Python's `int()` of a float: truncation toward zero. */
  function Trunc(x: real): (r: int)
    ensures 0.0 <= x ==> 0 <= r && r as real <= x < r as real + 1.0
    ensures x < 0.0 ==> r <= 0 && r as real - 1.0 < x <= r as real
  {
    if 0.0 <= x then x.Floor else -((-x).Floor)
  }

  /** The k-th element of `arange(start, stop, step)`. */
  function ArangeAt(start: real, step: real, k: nat): real {
    start + (k as real) * step
  }

  /** The number of elements of `arange(start, stop, step)` for a positive step. */
  function ArangeLength(start: real, stop: real, step: real): (n: nat)
    requires 0.0 < step
    ensures forall k: nat :: k < n ==> ArangeAt(start, step, k) < stop
    ensures ArangeAt(start, step, n) >= stop
  {
    var q := (stop - start) / step;
    var c := -((-q).Floor);
    assert stop - start == q * step;
    if c <= 0 then
      assert q <= 0.0;
      assert q * step <= 0.0;
      0
    else
      assert (c as real) >= q > (c as real) - 1.0;
      assert (c as real) * step >= q * step;
      forall k: nat | k < c ensures ArangeAt(start, step, k) < stop {
        assert (k as real) <= (c as real) - 1.0 < q;
        assert (k as real) * step < q * step;
      }
      c
  }

  /** `arange(start, stop, step)`. */
  function Arange(start: real, stop: real, step: real): (r: seq<real>)
    requires 0.0 < step
    ensures |r| == ArangeLength(start, stop, step)
    ensures forall k :: 0 <= k < |r| ==> r[k] == ArangeAt(start, step, k) && r[k] < stop
  {
    seq(ArangeLength(start, stop, step), k requires 0 <= k => ArangeAt(start, step, k))
  }

  /** Python's `min` over a non-empty list. */
  function MinOf(s: seq<real>): (r: real)
    requires |s| > 0
    ensures r in s
    ensures forall k :: 0 <= k < |s| ==> r <= s[k]
  {
    if |s| == 1 then s[0] else Min(s[0], MinOf(s[1..]))
  }

  /** Python's `max` over a non-empty list. */
  function MaxOf(s: seq<real>): (r: real)
    requires |s| > 0
    ensures r in s
    ensures forall k :: 0 <= k < |s| ==> s[k] <= r
  {
    if |s| == 1 then s[0] else Max(s[0], MaxOf(s[1..]))
  }

  /** The sum of a finite sequence, adding the elements from the first to the last. */
  function Sum(s: seq<real>): real
  {
    if s == [] then 0.0 else Sum(s[..|s| - 1]) + s[|s| - 1]
  }

  // ---------------------------------------------------------------------------
  // numpy boolean-mask selections over an index range.

  /** `idx[mask][0]`: the first index whose element satisfies p, None where numpy raises IndexError. */
  function FirstWhere<T>(s: seq<T>, p: T -> bool): (r: Option<nat>)
    ensures r.None? <==> forall k :: 0 <= k < |s| ==> !p(s[k])
    ensures r.Some? ==> r.value < |s| && p(s[r.value]) && forall k :: 0 <= k < r.value ==> !p(s[k])
    decreases |s|
  {
    if |s| == 0 then None
    else if p(s[0]) then Some(0)
    else
      match FirstWhere(s[1..], p)
      case None => None
      case Some(k) => Some(k + 1)
  }

  /** `idx[mask][-1]`: the last index whose element satisfies p, None where numpy raises IndexError. */
  function LastWhere<T>(s: seq<T>, p: T -> bool): (r: Option<nat>)
    ensures r.None? <==> forall k :: 0 <= k < |s| ==> !p(s[k])
    ensures r.Some? ==> r.value < |s| && p(s[r.value]) && forall k :: r.value < k < |s| ==> !p(s[k])
    decreases |s|
  {
    if |s| == 0 then None
    else if p(s[|s| - 1]) then Some(|s| - 1)
    else LastWhere(s[..|s| - 1], p)
  }

  /** `len(s[mask])`: how many elements satisfy p. */
  function CountWhere<T>(s: seq<T>, p: T -> bool): (n: nat)
    ensures n <= |s|
    ensures n == 0 <==> forall k :: 0 <= k < |s| ==> !p(s[k])
    ensures n == |s| <==> forall k :: 0 <= k < |s| ==> p(s[k])
    decreases |s|
  {
    if |s| == 0 then 0
    else
      var rest := CountWhere(s[1..], p);
      assert forall k :: 1 <= k < |s| ==> s[k] == s[1..][k - 1];
      (if p(s[0]) then 1 else 0) + rest
  }

  /** `idx[xs <= z][-1]`: the last index whose value is at most z. */
  function LastAtMost(xs: seq<real>, z: real): (r: Option<nat>)
    ensures r.None? <==> forall k :: 0 <= k < |xs| ==> xs[k] > z
    ensures r.Some? ==> r.value < |xs| && xs[r.value] <= z && forall k :: r.value < k < |xs| ==> xs[k] > z
  {
    LastWhere(xs, (x: real) => x <= z)
  }

  /** `idx[xs > z][0]`: the first index whose value exceeds z. */
  function FirstAbove(xs: seq<real>, z: real): (r: Option<nat>)
    ensures r.None? <==> forall k :: 0 <= k < |xs| ==> xs[k] <= z
    ensures r.Some? ==> r.value < |xs| && xs[r.value] > z && forall k :: 0 <= k < r.value ==> xs[k] <= z
  {
    FirstWhere(xs, (x: real) => x > z)
  }

  /** `idx[xs == z][0]`: the first index whose value is z. */
  function FirstEqual(xs: seq<real>, z: real): (r: Option<nat>)
    ensures r.None? <==> forall k :: 0 <= k < |xs| ==> xs[k] != z
    ensures r.Some? ==> r.value < |xs| && xs[r.value] == z && forall k :: 0 <= k < r.value ==> xs[k] != z
  {
    FirstWhere(xs, (x: real) => x == z)
  }

  /** `len(xs[xs > z])`. */
  function CountAbove(xs: seq<real>, z: real): (n: nat)
    ensures n <= |xs|
    ensures n == 0 <==> forall k :: 0 <= k < |xs| ==> xs[k] <= z
    ensures n == |xs| <==> forall k :: 0 <= k < |xs| ==> xs[k] > z
  {
    CountWhere(xs, (x: real) => x > z)
  }

  /**
   * On a strictly increasing sequence: an index at most z exists exactly when the first
   * value is at most z, one above z exactly when the last value exceeds z, and some but
   * not all values exceed z exactly when z lies in [first, last).
   */
  lemma SortedSearch(xs: seq<real>, z: real)
    requires StrictlyIncreasing(xs)
    ensures LastAtMost(xs, z).Some? <==> |xs| > 0 && xs[0] <= z
    ensures FirstAbove(xs, z).Some? <==> |xs| > 0 && z < xs[|xs| - 1]
    ensures 0 < CountAbove(xs, z) < |xs| <==> |xs| > 0 && xs[0] <= z < xs[|xs| - 1]
    ensures LastAtMost(xs, z).Some? ==> forall k :: 0 <= k < |xs| && xs[k] <= z ==> xs[k] <= xs[LastAtMost(xs, z).value]
    ensures FirstAbove(xs, z).Some? ==> forall k :: 0 <= k < |xs| && xs[k] > z ==> xs[FirstAbove(xs, z).value] <= xs[k]
  {
    SortedFound(xs, z);
    SortedExtreme(xs, z);
  }

  lemma SortedFound(xs: seq<real>, z: real)
    requires StrictlyIncreasing(xs)
    ensures LastAtMost(xs, z).Some? <==> |xs| > 0 && xs[0] <= z
    ensures FirstAbove(xs, z).Some? <==> |xs| > 0 && z < xs[|xs| - 1]
    ensures 0 < CountAbove(xs, z) < |xs| <==> |xs| > 0 && xs[0] <= z < xs[|xs| - 1]
  {
    if |xs| > 0 {
      if xs[0] > z {
        assert forall k :: 0 <= k < |xs| ==> xs[0] <= xs[k];
      }
      if z >= xs[|xs| - 1] {
        assert forall k :: 0 <= k < |xs| ==> xs[k] <= xs[|xs| - 1];
      }
    }
  }

  lemma SortedExtreme(xs: seq<real>, z: real)
    requires StrictlyIncreasing(xs)
    ensures LastAtMost(xs, z).Some? ==> forall k :: 0 <= k < |xs| && xs[k] <= z ==> xs[k] <= xs[LastAtMost(xs, z).value]
    ensures FirstAbove(xs, z).Some? ==> forall k :: 0 <= k < |xs| && xs[k] > z ==> xs[FirstAbove(xs, z).value] <= xs[k]
  {
  }

  /** Strictly between or at neighbouring values xs[k] <= z < xs[k+1], the searches find k and k + 1. */
  lemma SortedBracketAt(xs: seq<real>, z: real, k: nat)
    requires StrictlyIncreasing(xs) && k + 1 < |xs| && xs[k] <= z < xs[k + 1]
    ensures LastAtMost(xs, z) == Some(k) && FirstAbove(xs, z) == Some(k + 1)
  {
    var lo, hi := LastAtMost(xs, z), FirstAbove(xs, z);
    assert lo.Some? && hi.Some?;
  }

  /** A value of a strictly increasing sequence is found at its index. */
  lemma SortedEqualAt(xs: seq<real>, k: nat)
    requires StrictlyIncreasing(xs) && k < |xs|
    ensures FirstEqual(xs, xs[k]) == Some(k)
  {
    assert forall j :: 0 <= j < k ==> xs[j] < xs[k];
  }

  /** Python's slice `s[lo:hi]` for non-negative bounds: clamped to the length, empty when lo >= hi. */
  function PySlice<T>(s: seq<T>, lo: nat, hi: nat): (r: seq<T>)
    ensures hi <= |s| && lo <= hi ==> r == s[lo..hi]
    ensures lo >= hi ==> r == []
    ensures |r| == (if lo < hi && lo < |s| then (if hi < |s| then hi else |s|) - lo else 0)
  {
    var b := if hi < |s| then hi else |s|;
    var a := if lo < b then lo else b;
    s[a..b]
  }

  /** Strict increase follows from strict increase of each neighbouring pair. */
  lemma {:induction false} IncreasingFromNeighbours(xs: seq<real>)
    requires forall k :: 0 <= k < |xs| - 1 ==> xs[k] < xs[k + 1]
    ensures StrictlyIncreasing(xs)
  {
    if |xs| > 1 {
      IncreasingFromNeighbours(xs[1..]);
      forall j | 0 < j < |xs| ensures xs[0] < xs[j] {
        assert xs[1..][j - 1] == xs[j];
        if j > 1 {
          assert xs[1..][0] < xs[1..][j - 1];
        }
      }
      forall i, j | 0 <= i < j < |xs| ensures xs[i] < xs[j] {
        if i > 0 {
          assert xs[1..][i - 1] < xs[1..][j - 1];
        }
      }
    }
  }
}

/**
 * The numeric statistics the pipeline takes from numpy and pandas, over exact
 * reals: sum, mean, minimum, maximum, population and sample variance, the
 * mean of squares, ascending sort and linearly interpolated percentiles.
 * Square roots are not interpreted: every statistic that takes one receives it
 * as a parameter `root`.
 */
module Stats {

  /** What the lemmas need of the square root they are given. */
  ghost predicate RootNonNegative(root: real -> real)
  {
    forall v :: 0.0 <= v ==> 0.0 <= root(v)
  }

  /** Euclidean norm of one tri-axial sample, root(x^2 + y^2 + z^2). */
  function Magnitude(x: real, y: real, z: real, root: real -> real): (m: real)
    ensures RootNonNegative(root) ==> 0.0 <= m
  {
    root(x * x + y * y + z * z)
  }

  function Sum(s: seq<real>): real
  {
    if s == [] then 0.0 else s[0] + Sum(s[1..])
  }

  /** np.mean / Series.mean of a non-empty array: n copies of it add up to the sum. */
  function Mean(s: seq<real>): (m: real)
    requires |s| > 0
    ensures (|s| as real) * m == Sum(s)
  {
    Sum(s) / (|s| as real)
  }

  /** np.min / Series.min: an element, and no element is smaller. */
  function Min(s: seq<real>): (m: real)
    requires |s| > 0
    ensures m in s
    ensures forall i :: 0 <= i < |s| ==> m <= s[i]
  {
    if |s| == 1 then s[0]
    else
      var rest := Min(s[1..]);
      assert forall i :: 1 <= i < |s| ==> s[i] == s[1..][i - 1];
      if s[0] <= rest then s[0] else rest
  }

  /** np.max / Series.max: an element, and no element is larger. */
  function Max(s: seq<real>): (m: real)
    requires |s| > 0
    ensures m in s
    ensures forall i :: 0 <= i < |s| ==> s[i] <= m
  {
    if |s| == 1 then s[0]
    else
      var rest := Max(s[1..]);
      assert forall i :: 1 <= i < |s| ==> s[i] == s[1..][i - 1];
      if rest <= s[0] then s[0] else rest
  }

  /** (s[i] - m)^2 for every element. */
  function SquaredDeviations(s: seq<real>, m: real): (d: seq<real>)
    ensures |d| == |s|
  {
    seq(|s|, i requires 0 <= i < |s| => (s[i] - m) * (s[i] - m))
  }

  /** s[i]^2 for every element. */
  function Squares(s: seq<real>): (q: seq<real>)
    ensures |q| == |s|
  {
    seq(|s|, i requires 0 <= i < |s| => s[i] * s[i])
  }

  /** np.var with its default ddof = 0: the mean squared deviation, never negative. */
  function PopulationVariance(s: seq<real>): (v: real)
    requires |s| > 0
    ensures 0.0 <= v
  {
    SquaresAreNonNegative(s, Mean(s));
    MeanNonNegative(SquaredDeviations(s, Mean(s)));
    Mean(SquaredDeviations(s, Mean(s)))
  }

  /** Series.var with pandas' default ddof = 1: divides by n - 1; never negative. */
  function SampleVariance(s: seq<real>): (v: real)
    requires |s| >= 2
    ensures 0.0 <= v
  {
    var d := SquaredDeviations(s, Mean(s));
    SquaresAreNonNegative(s, Mean(s));
    SumBounds(d, 0.0, Max(d));
    QuotientNonNegative(Sum(d), (|s| - 1) as real);
    Sum(d) / ((|s| - 1) as real)
  }

  /** The mean of the squares, under the root of an RMS; never negative. */
  function MeanSquare(s: seq<real>): (v: real)
    requires |s| > 0
    ensures 0.0 <= v
  {
    SquaresAreNonNegative(s, Mean(s));
    MeanNonNegative(Squares(s));
    Mean(Squares(s))
  }

  lemma {:induction false} SumBounds(s: seq<real>, lo: real, hi: real)
    requires forall i :: 0 <= i < |s| ==> lo <= s[i] <= hi
    ensures (|s| as real) * lo <= Sum(s) <= (|s| as real) * hi
  {
    if s != [] {
      SumBounds(s[1..], lo, hi);
      assert (|s| as real) * lo == lo + ((|s| - 1) as real) * lo;
      assert (|s| as real) * hi == hi + ((|s| - 1) as real) * hi;
    }
  }

  lemma DivideBounds(total: real, n: real, lo: real, hi: real)
    requires 0.0 < n
    requires n * lo <= total <= n * hi
    ensures lo <= total / n <= hi
  {
  }

  lemma SquareNonNegative(a: real)
    ensures 0.0 <= a * a
  {
    if a < 0.0 {
      assert a * a == (-a) * (-a);
    }
  }

  /** Bounds on the elements bound the mean. */
  lemma MeanBetween(s: seq<real>, lo: real, hi: real)
    requires |s| > 0
    requires forall i :: 0 <= i < |s| ==> lo <= s[i] <= hi
    ensures lo <= Mean(s) <= hi
  {
    SumBounds(s, lo, hi);
    DivideBounds(Sum(s), |s| as real, lo, hi);
  }

  /** A mean lies between the minimum and the maximum of its array. */
  lemma MeanWithinRange(s: seq<real>)
    requires |s| > 0
    ensures Min(s) <= Mean(s) <= Max(s)
  {
    MeanBetween(s, Min(s), Max(s));
  }

  /** The mean of a non-negative array is non-negative. */
  lemma MeanNonNegative(s: seq<real>)
    requires |s| > 0
    requires forall i :: 0 <= i < |s| ==> 0.0 <= s[i]
    ensures 0.0 <= Mean(s)
  {
    MeanBetween(s, 0.0, Max(s));
  }

  /** The mean of an array whose elements all equal c is c. */
  lemma MeanOfConstant(s: seq<real>, c: real)
    requires |s| > 0
    requires forall i :: 0 <= i < |s| ==> s[i] == c
    ensures Mean(s) == c
  {
    MeanBetween(s, c, c);
  }

  lemma SquaresAreNonNegative(s: seq<real>, m: real)
    ensures forall i :: 0 <= i < |s| ==> 0.0 <= SquaredDeviations(s, m)[i] && 0.0 <= Squares(s)[i]
  {
    forall i | 0 <= i < |s| ensures 0.0 <= SquaredDeviations(s, m)[i] && 0.0 <= Squares(s)[i] {
      SquareNonNegative(s[i] - m);
      SquareNonNegative(s[i]);
    }
  }

  lemma QuotientNonNegative(a: real, b: real)
    requires 0.0 <= a && 0.0 < b
    ensures 0.0 <= a / b
  {
  }

  // ---------------------------------------------------------------------------
  // Ascending sort, as np.percentile sorts its input before interpolating.

  ghost predicate SortedAscending(s: seq<real>)
  {
    forall i, j :: 0 <= i < j < |s| ==> s[i] <= s[j]
  }

  /** One step of insertion sort: x goes before the first element it does not exceed. */
  function Insert(x: real, s: seq<real>): (r: seq<real>)
    ensures |r| == |s| + 1
  {
    if s == [] then [x]
    else if x <= s[0] then [x] + s
    else [s[0]] + Insert(x, s[1..])
  }

  /** Insertion adds exactly one copy of x. */
  lemma {:induction false} InsertPermutes(x: real, s: seq<real>)
    ensures multiset(Insert(x, s)) == multiset(s) + multiset{x}
  {
    if s != [] && x > s[0] {
      InsertPermutes(x, s[1..]);
      assert s == [s[0]] + s[1..];
    }
  }

  /** A lower bound of x and of every element bounds every element after insertion. */
  lemma {:induction false} InsertLowerBound(x: real, s: seq<real>, lo: real)
    requires lo <= x && forall k :: 0 <= k < |s| ==> lo <= s[k]
    ensures forall k :: 0 <= k < |Insert(x, s)| ==> lo <= Insert(x, s)[k]
  {
    if s != [] && x > s[0] {
      InsertLowerBound(x, s[1..], lo);
      var r, t := Insert(x, s), Insert(x, s[1..]);
      assert forall k :: 1 <= k < |r| ==> r[k] == t[k - 1];
    }
  }

  /** Inserting into a sorted array keeps it sorted. */
  lemma {:induction false} InsertSorted(x: real, s: seq<real>)
    requires SortedAscending(s)
    ensures SortedAscending(Insert(x, s))
  {
    if s != [] && x > s[0] {
      var tail := s[1..];
      InsertSorted(x, tail);
      InsertLowerBound(x, tail, s[0]);
      var r, t := Insert(x, s), Insert(x, tail);
      forall i, j | 0 <= i < j < |r| ensures r[i] <= r[j] {
        assert r[j] == t[j - 1];
        if i > 0 {
          assert r[i] == t[i - 1];
        }
      }
    }
  }

  /** Insertion sort, ascending. */
  function Sort(s: seq<real>): (r: seq<real>)
    ensures |r| == |s|
  {
    if s == [] then [] else Insert(s[0], Sort(s[1..]))
  }

  /** The sort is ascending and a permutation of its input. */
  lemma {:induction false} SortSpec(s: seq<real>)
    ensures SortedAscending(Sort(s))
    ensures multiset(Sort(s)) == multiset(s)
  {
    if s != [] {
      SortSpec(s[1..]);
      InsertSorted(s[0], Sort(s[1..]));
      InsertPermutes(s[0], Sort(s[1..]));
      assert s == [s[0]] + s[1..];
    }
  }

  /** The sorted array starts at the minimum and ends at the maximum. */
  lemma SortEnds(s: seq<real>)
    requires |s| > 0
    ensures |Sort(s)| == |s|
    ensures Sort(s)[0] == Min(s) && Sort(s)[|s| - 1] == Max(s)
  {
    SortSpec(s);
    SortedEnds(Sort(s), s);
  }

  lemma SortedEnds(r: seq<real>, s: seq<real>)
    requires |s| > 0 && |r| == |s|
    requires SortedAscending(r) && multiset(r) == multiset(s)
    ensures r[0] == Min(s) && r[|r| - 1] == Max(s)
  {
    assert r[0] in multiset(s) && r[|r| - 1] in multiset(s);
    var lo :| 0 <= lo < |r| && r[lo] == Min(s) by {
      assert Min(s) in multiset(r);
    }
    var hi :| 0 <= hi < |r| && r[hi] == Max(s) by {
      assert Max(s) in multiset(r);
    }
    assert r[0] <= r[lo] && r[hi] <= r[|r| - 1];
  }

  // ---------------------------------------------------------------------------
  // np.percentile(a, q) with its default 'linear' method: the virtual index
  // q/100 * (n - 1) into the sorted array, interpolated between its floor and
  // the next element. q is written as the fraction num/den of 100 percent.

  /** Linear interpolation at virtual index pos/den of a sorted array. */
  function Interpolate(sorted: seq<real>, pos: nat, den: nat): real
    requires 0 < den && |sorted| > 0 && pos <= (|sorted| - 1) * den
  {
    DivAtMost(pos, den, |sorted| - 1);
    InterpolateAt(sorted, pos / den, Fraction(pos, den))
  }

  /** The value a fraction f of the way from element lo to the next one (or lo itself at the end). */
  function InterpolateAt(sorted: seq<real>, lo: nat, f: real): real
    requires lo < |sorted|
  {
    var hi := if lo + 1 < |sorted| then lo + 1 else lo;
    sorted[lo] + f * (sorted[hi] - sorted[lo])
  }

  /** The fractional part of the virtual index pos/den. */
  function Fraction(pos: nat, den: nat): (f: real)
    requires 0 < den
    ensures 0.0 <= f < 1.0
  {
    RealQuotientBelowOne(pos % den, den);
    (pos % den) as real / (den as real)
  }

  lemma RealQuotientBelowOne(a: nat, b: nat)
    requires a < b
    ensures 0.0 <= (a as real) / (b as real) < 1.0
  {
  }

  lemma RealQuotientMonotone(a: real, b: real, d: real)
    requires a <= b && 0.0 < d
    ensures a / d <= b / d
  {
  }

  lemma DivAtMost(pos: nat, den: nat, m: nat)
    requires 0 < den && pos <= m * den
    ensures pos / den <= m
  {
  }

  lemma DivMonotone(p: nat, q: nat, den: nat)
    requires 0 < den && p <= q
    ensures p / den <= q / den
  {
    var a, b := p / den, q / den;
    assert a * den <= p;
    assert q < (b + 1) * den;
    MulLessCancel(a, b + 1, den);
  }

  lemma MulLessCancel(a: int, b: int, d: nat)
    requires 0 < d && a * d < b * d
    ensures a < b
  {
  }

  lemma MultipleQuotient(m: nat, den: nat)
    requires 0 < den
    ensures (m * den) / den == m && (m * den) % den == 0
  {
    var q, r := (m * den) / den, (m * den) % den;
    assert (m - q) * den == r;
    MulLessCancel(m - q, 1, den);
    MulLessCancel(-1, m - q, den);
  }

  lemma SameQuotientRemainders(p: nat, q: nat, den: nat)
    requires 0 < den && p <= q && p / den == q / den
    ensures p % den <= q % den
  {
    assert p == (p / den) * den + p % den;
    assert q == (q / den) * den + q % den;
  }

  lemma ScaledAtMost(num: nat, den: nat, m: nat)
    requires num <= den
    ensures num * m <= m * den
  {
  }

  /** The virtual index num/den * (n - 1), scaled by den to stay an integer. */
  function VirtualIndex(num: nat, den: nat, n: nat): (pos: nat)
    requires num <= den && 0 < n
    ensures pos <= (n - 1) * den
  {
    ScaledAtMost(num, den, n - 1);
    num * (n - 1)
  }

  /**
   * np.percentile(s, 100 * num / den) with the default 'linear' method; it
   * lies between the minimum and the maximum.
   */
  function Percentile(s: seq<real>, num: nat, den: nat): (p: real)
    requires |s| > 0 && 0 < den && num <= den
    ensures Min(s) <= p <= Max(s)
  {
    SortEnds(s);
    SortSpec(s);
    InterpolateWithinEnds(Sort(s), VirtualIndex(num, den, |s|), den);
    Interpolate(Sort(s), VirtualIndex(num, den, |s|), den)
  }

  lemma ScaledGapMonotone(f: real, g: real, d: real)
    requires f <= g && 0.0 <= d
    ensures f * d <= g * d
  {
    assert g * d - f * d == (g - f) * d;
  }

  /** An interpolated value lies between its two neighbouring elements. */
  lemma InterpolateBetween(sorted: seq<real>, pos: nat, den: nat)
    requires 0 < den && |sorted| > 0 && pos <= (|sorted| - 1) * den
    requires SortedAscending(sorted)
    ensures pos / den < |sorted|
    ensures sorted[pos / den] <= Interpolate(sorted, pos, den)
    ensures pos / den + 1 < |sorted| ==> Interpolate(sorted, pos, den) <= sorted[pos / den + 1]
    ensures pos / den + 1 >= |sorted| ==> Interpolate(sorted, pos, den) == sorted[pos / den]
  {
    DivAtMost(pos, den, |sorted| - 1);
    InterpolateAtBetween(sorted, pos / den, Fraction(pos, den));
  }

  lemma InterpolateAtBetween(sorted: seq<real>, lo: nat, f: real)
    requires lo < |sorted| && 0.0 <= f <= 1.0
    requires SortedAscending(sorted)
    ensures sorted[lo] <= InterpolateAt(sorted, lo, f)
    ensures lo + 1 < |sorted| ==> InterpolateAt(sorted, lo, f) <= sorted[lo + 1]
    ensures lo + 1 >= |sorted| ==> InterpolateAt(sorted, lo, f) == sorted[lo]
  {
    var v := InterpolateAt(sorted, lo, f);
    if lo + 1 < |sorted| {
      assert sorted[lo] <= sorted[lo + 1];
      InterpolateInsideCell(sorted[lo], sorted[lo + 1], f, v);
    } else {
      InterpolateInsideCell(sorted[lo], sorted[lo], f, v);
    }
  }

  /** a + f * (b - a) lies between a and b, and is a when they are equal. */
  lemma InterpolateInsideCell(a: real, b: real, f: real, v: real)
    requires a <= b && 0.0 <= f <= 1.0 && v == a + f * (b - a)
    ensures a <= v <= b
    ensures a == b ==> v == a
  {
  }

  /** Interpolation on a sorted array is monotone in the virtual index. */
  lemma InterpolateMonotone(sorted: seq<real>, p: nat, q: nat, den: nat)
    requires 0 < den && |sorted| > 0 && p <= q <= (|sorted| - 1) * den
    requires SortedAscending(sorted)
    ensures Interpolate(sorted, p, den) <= Interpolate(sorted, q, den)
  {
    var lp, lq := p / den, q / den;
    var fp, fq := Fraction(p, den), Fraction(q, den);
    DivMonotone(p, q, den);
    DivAtMost(p, den, |sorted| - 1);
    DivAtMost(q, den, |sorted| - 1);
    assert Interpolate(sorted, p, den) == InterpolateAt(sorted, lp, fp);
    assert Interpolate(sorted, q, den) == InterpolateAt(sorted, lq, fq);
    if lp == lq {
      FractionMonotone(p, q, den);
      InterpolateAtMonotone(sorted, lp, fp, fq);
    } else {
      InterpolateAtBetween(sorted, lp, fp);
      InterpolateAtBetween(sorted, lq, fq);
      assert lp + 1 <= lq < |sorted|;
      assert sorted[lp + 1] <= sorted[lq];
    }
  }

  /** Within one cell the value grows with the fraction. */
  lemma InterpolateAtMonotone(sorted: seq<real>, lo: nat, f: real, g: real)
    requires lo < |sorted| && f <= g
    requires SortedAscending(sorted)
    ensures InterpolateAt(sorted, lo, f) <= InterpolateAt(sorted, lo, g)
  {
    var hi := if lo + 1 < |sorted| then lo + 1 else lo;
    assert sorted[lo] <= sorted[hi];
    CellMonotone(sorted[lo], sorted[hi], f, g, InterpolateAt(sorted, lo, f), InterpolateAt(sorted, lo, g));
  }

  /** Along a rising cell the value grows with the fraction. */
  lemma CellMonotone(a: real, b: real, f: real, g: real, v: real, u: real)
    requires a <= b && f <= g && v == a + f * (b - a) && u == a + g * (b - a)
    ensures v <= u
  {
    ScaledGapMonotone(f, g, b - a);
  }

  lemma FractionMonotone(p: nat, q: nat, den: nat)
    requires 0 < den && p <= q && p / den == q / den
    ensures Fraction(p, den) <= Fraction(q, den)
  {
    SameQuotientRemainders(p, q, den);
    RealQuotientMonotone((p % den) as real, (q % den) as real, den as real);
  }

  /** Interpolation at the two ends of the array picks its first and last element. */
  lemma InterpolateEnds(sorted: seq<real>, den: nat)
    requires 0 < den && |sorted| > 0
    ensures Interpolate(sorted, 0, den) == sorted[0]
    ensures Interpolate(sorted, (|sorted| - 1) * den, den) == sorted[|sorted| - 1]
  {
    MultipleQuotient(0, den);
    MultipleQuotient(|sorted| - 1, den);
  }

  /** An interpolated value lies between the first and the last element. */
  lemma InterpolateWithinEnds(sorted: seq<real>, pos: nat, den: nat)
    requires 0 < den && |sorted| > 0 && pos <= (|sorted| - 1) * den
    requires SortedAscending(sorted)
    ensures sorted[0] <= Interpolate(sorted, pos, den) <= sorted[|sorted| - 1]
  {
    InterpolateMonotone(sorted, 0, pos, den);
    InterpolateMonotone(sorted, pos, (|sorted| - 1) * den, den);
    InterpolateEnds(sorted, den);
  }

  /** The 25th percentile never exceeds the 75th. */
  lemma QuartilesOrdered(s: seq<real>)
    requires |s| > 0
    ensures Min(s) <= Percentile(s, 1, 4) <= Percentile(s, 3, 4) <= Max(s)
  {
    SortEnds(s);
    SortSpec(s);
    InterpolateMonotone(Sort(s), VirtualIndex(1, 4, |s|), VirtualIndex(3, 4, |s|), 4);
  }
}

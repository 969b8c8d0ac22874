/**
 * The numpy reductions the analysis and segmentation code applies to a
 * list of intensities (np.sum, np.mean, the variance under np.std,
 * np.min, np.max, np.median) and np.argmax over a list of counts, on exact
 * reals. Lists are taken apart from the back, so that appending one value
 * (as the seed loop of region growing does) unfolds one step.
 */
module Reductions {

  function Last<T>(s: seq<T>): T
    requires s != []
  {
    s[|s| - 1]
  }

  function Init<T>(s: seq<T>): seq<T>
    requires s != []
  {
    s[..|s| - 1]
  }

  /** Python's abs() on a real: non-negative, and the value or its negation. */
  function Abs(c: real): (r: real)
    ensures r >= 0.0 && (r == c || r == -c)
  {
    if c < 0.0 then -c else c
  }

  function Sum(xs: seq<real>): real
  {
    if xs == [] then 0.0 else Sum(Init(xs)) + Last(xs)
  }

  /** np.mean */
  function Mean(xs: seq<real>): real
    requires xs != []
  {
    Sum(xs) / (|xs| as real)
  }

  /** Sum of squared deviations from m. */
  function SquaredDeviations(xs: seq<real>, m: real): (r: real)
    ensures r >= 0.0
  {
    if xs == [] then 0.0
    else
      var d := Last(xs) - m;
      assert d * d >= 0.0 by { if d < 0.0 { assert d * d == (-d) * (-d); } }
      SquaredDeviations(Init(xs), m) + d * d
  }

  /** The population variance that np.std takes the square root of (ddof = 0). */
  function Variance(xs: seq<real>): (r: real)
    requires xs != []
    ensures r >= 0.0
  {
    SquaredDeviations(xs, Mean(xs)) / (|xs| as real)
  }

  /** sqrt is the non-negative square root on the non-negative reals. */
  ghost predicate IsSquareRoot(sqrt: real -> real)
  {
    forall x: real :: x >= 0.0 ==> sqrt(x) >= 0.0 && sqrt(x) * sqrt(x) == x
  }

  /**
   * np.std: the square root of the population variance. Exact reals have no
   * square root, so the root is a parameter; with a true square root the
   * result is the non-negative number whose square is the variance.
   */
  function Std(sqrt: real -> real, xs: seq<real>): (r: real)
    requires xs != []
    ensures IsSquareRoot(sqrt) ==> r >= 0.0 && r * r == Variance(xs)
  {
    sqrt(Variance(xs))
  }

  /** np.min: a member of the list that no member is below. */
  function MinOf(xs: seq<real>): (r: real)
    requires xs != []
    ensures r in xs
    ensures forall i :: 0 <= i < |xs| ==> r <= xs[i]
  {
    if |xs| == 1 then xs[0]
    else
      var m := MinOf(Init(xs));
      if Last(xs) < m then Last(xs) else m
  }

  /** np.max: a member of the list that no member is above. */
  function MaxOf(xs: seq<real>): (r: real)
    requires xs != []
    ensures r in xs
    ensures forall i :: 0 <= i < |xs| ==> xs[i] <= r
  {
    if |xs| == 1 then xs[0]
    else
      var m := MaxOf(Init(xs));
      if Last(xs) > m then Last(xs) else m
  }

  lemma {:induction false} SumBounds(xs: seq<real>, lo: real, hi: real)
    requires forall i :: 0 <= i < |xs| ==> lo <= xs[i] <= hi
    ensures (|xs| as real) * lo <= Sum(xs) <= (|xs| as real) * hi
  {
    if xs != [] {
      SumBounds(Init(xs), lo, hi);
    }
  }

  /** The mean lies between the smallest and the largest value. */
  lemma MeanWithinRange(xs: seq<real>)
    requires xs != []
    ensures MinOf(xs) <= Mean(xs) <= MaxOf(xs)
  {
    SumBounds(xs, MinOf(xs), MaxOf(xs));
    QuotientBounds(Sum(xs), |xs| as real, MinOf(xs), MaxOf(xs));
  }

  lemma QuotientBounds(a: real, n: real, lo: real, hi: real)
    requires n > 0.0 && n * lo <= a <= n * hi
    ensures lo <= a / n <= hi
  {
    var q := a / n;
    assert a == q * n;
    assert (q - lo) * n >= 0.0;
    assert (hi - q) * n >= 0.0;
  }

  lemma {:induction false} SumOfConstant(xs: seq<real>, c: real)
    requires forall i :: 0 <= i < |xs| ==> xs[i] == c
    ensures Sum(xs) == (|xs| as real) * c
  {
    if xs != [] {
      SumOfConstant(Init(xs), c);
    }
  }

  lemma {:induction false} SquaredDeviationsOfConstant(xs: seq<real>, c: real)
    requires forall i :: 0 <= i < |xs| ==> xs[i] == c
    ensures SquaredDeviations(xs, c) == 0.0
  {
    if xs != [] {
      SquaredDeviationsOfConstant(Init(xs), c);
    }
  }

  /** A list of equal values has that value as its mean and no spread. */
  lemma ConstantList(xs: seq<real>, c: real)
    requires xs != []
    requires forall i :: 0 <= i < |xs| ==> xs[i] == c
    ensures Mean(xs) == c && Variance(xs) == 0.0
  {
    SumOfConstant(xs, c);
    SquaredDeviationsOfConstant(xs, c);
  }

  // ---------------------------------------------------------------------
  // Sorting, for the median
  // ---------------------------------------------------------------------

  ghost predicate Sorted(s: seq<real>)
  {
    forall i, j :: 0 <= i < j < |s| ==> s[i] <= s[j]
  }

  /** Inserts x into an ascending list. */
  function Insert(x: real, s: seq<real>): (r: seq<real>)
    requires Sorted(s)
    ensures Sorted(r)
    ensures multiset(r) == multiset(s) + multiset{x}
    ensures |r| == |s| + 1
  {
    if s == [] then [x]
    else if x <= s[0] then [x] + s
    else
      var rest := Insert(x, s[1..]);
      assert s == [s[0]] + s[1..];
      InsertedAbove(x, s, rest);
      [s[0]] + rest
  }

  lemma InsertedAbove(x: real, s: seq<real>, rest: seq<real>)
    requires Sorted(s) && s != [] && s[0] < x
    requires multiset(rest) == multiset(s[1..]) + multiset{x}
    ensures forall k :: 0 <= k < |rest| ==> s[0] <= rest[k]
  {
    forall k | 0 <= k < |rest|
      ensures s[0] <= rest[k]
    {
      assert rest[k] in multiset(rest);
      if rest[k] != x {
        assert rest[k] in multiset(s[1..]);
        assert rest[k] in s[1..];
      }
    }
  }

  /** The ascending order that np.median works on. */
  function SortAscending(xs: seq<real>): (r: seq<real>)
    ensures Sorted(r)
    ensures multiset(r) == multiset(xs)
    ensures |r| == |xs|
  {
    if xs == [] then []
    else
      assert xs == Init(xs) + [Last(xs)];
      Insert(Last(xs), SortAscending(Init(xs)))
  }

  /**
   * np.median: the middle value of the ascending order, or the mean of the two
   * middle values. It lies between the smallest and the largest value, and
   * for a list of odd length it is one of the values.
   */
  function Median(xs: seq<real>): (r: real)
    requires xs != []
    ensures MinOf(xs) <= r <= MaxOf(xs)
    ensures |xs| % 2 == 1 ==> r in xs
  {
    var s := SortAscending(xs);
    var n := |s|;
    SortedAreMembers(xs);
    if n % 2 == 1 then s[n / 2] else (s[n / 2 - 1] + s[n / 2]) / 2.0
  }

  /** Sorting keeps the values: every entry of the ascending order is one of them. */
  lemma SortedAreMembers(xs: seq<real>)
    ensures forall k :: 0 <= k < |SortAscending(xs)| ==> SortAscending(xs)[k] in xs
  {
    var s := SortAscending(xs);
    forall k | 0 <= k < |s|
      ensures s[k] in xs
    {
      assert s[k] in multiset(s);
      assert s[k] in multiset(xs);
    }
  }

  // ---------------------------------------------------------------------
  // np.argmax
  // ---------------------------------------------------------------------

  /**
   * np.argmax: an index of a largest value, and the first one: every
   * earlier value is strictly smaller.
   */
  function ArgMax(s: seq<int>): (k: nat)
    requires s != []
    ensures k < |s|
    ensures forall j :: 0 <= j < |s| ==> s[j] <= s[k]
    ensures forall j :: 0 <= j < k ==> s[j] < s[k]
  {
    if |s| == 1 then 0
    else
      var k := ArgMax(Init(s));
      if Last(s) > s[k] then |s| - 1 else k
  }
}

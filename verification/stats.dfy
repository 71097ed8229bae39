/**
 * Descriptive statistics over samples, most of them over samples sorted
 * ascending. Numbers are exact reals. A JavaScript result that is `NaN` or
 * `undefined` (an empty sample divided by its count, an index past the end)
 * is `None`.
 */
module Stats {
  import opened Wrappers

  /** The sum of `s`, accumulated from the front. */
  function Sum(s: seq<real>): real
  {
    if s == [] then 0.0 else Sum(s[..|s| - 1]) + s[|s| - 1]
  }

  /** The sum of the squares of the deviations of `s` from `m`. */
  function SquaredDeviations(s: seq<real>, m: real): real
  {
    if s == [] then 0.0 else SquaredDeviations(s[..|s| - 1], m) + (s[|s| - 1] - m) * (s[|s| - 1] - m)
  }

  /** `s` is sorted ascending. */
  predicate Sorted(s: seq<real>)
  {
    forall i, j :: 0 <= i < j < |s| ==> s[i] <= s[j]
  }

  /** `get_sum`: the elements added up from the first to the last. */
  method GetSum(values: seq<real>) returns (sum: real)
    ensures sum == Sum(values)
  {
    sum := 0.0;
    var i := 0;
    while i < |values|
      invariant 0 <= i <= |values| && sum == Sum(values[..i])
    {
      assert values[..i + 1][..i] == values[..i];
      sum := sum + values[i];
      i := i + 1;
    }
    assert values[..i] == values;
  }

  lemma {:induction false} SumAppend(a: seq<real>, b: seq<real>)
    ensures Sum(a + b) == Sum(a) + Sum(b)
    decreases |b|
  {
    if b == [] {
      assert a + b == a;
    } else {
      assert (a + b)[..|a + b| - 1] == a + b[..|b| - 1];
      SumAppend(a, b[..|b| - 1]);
    }
  }

  /** A sample whose elements all equal `c` sums to `c` times its size. */
  lemma {:induction false} SumConstant(s: seq<real>, c: real)
    requires forall k :: 0 <= k < |s| ==> s[k] == c
    ensures Sum(s) == |s| as real * c
    decreases |s|
  {
    if s != [] {
      SumConstant(s[..|s| - 1], c);
    }
  }

  /** Sums respect a bound that holds for every element. */
  lemma {:induction false} SumBounds(s: seq<real>, lo: real, hi: real)
    requires forall k :: 0 <= k < |s| ==> lo <= s[k] <= hi
    ensures |s| as real * lo <= Sum(s) <= |s| as real * hi
    decreases |s|
  {
    if s != [] {
      SumBounds(s[..|s| - 1], lo, hi);
    }
  }

  /** `arithmetic_mean`: the sum over the count; an empty sample gives `NaN`. */
  function ArithmeticMean(values: seq<real>): (r: Option<real>)
    ensures r.Some? <==> |values| > 0
    ensures r.Some? ==> r.value * |values| as real == Sum(values)
  {
    if |values| == 0 then None else Some(Sum(values) / |values| as real)
  }

  /** The mean lies between the least and the greatest possible element. */
  lemma MeanBounds(values: seq<real>, lo: real, hi: real)
    requires |values| > 0 && forall k :: 0 <= k < |values| ==> lo <= values[k] <= hi
    ensures lo <= ArithmeticMean(values).value <= hi
  {
    SumBounds(values, lo, hi);
    var n := |values| as real;
    var m := ArithmeticMean(values).value;
    assert m * n == Sum(values);
    assert lo * n <= m * n <= hi * n;
  }

  /**
   * `variance`: the sum of the squared deviations from the mean, NOT
   * divided by the count. An empty sample gives 0 (the loop never runs, so
   * the `NaN` mean is never used).
   */
  method Variance(values: seq<real>) returns (v: real)
    ensures |values| == 0 ==> v == 0.0
    ensures |values| > 0 ==> v == SquaredDeviations(values, ArithmeticMean(values).value)
    ensures v >= 0.0
  {
    var mean := if |values| == 0 then 0.0 else Sum(values) / |values| as real;
    var sum := 0.0;
    var i := 0;
    while i < |values|
      invariant 0 <= i <= |values| && sum == SquaredDeviations(values[..i], mean) && sum >= 0.0
    {
      assert values[..i + 1][..i] == values[..i];
      SquareDeviation(values[i], mean);
      sum := sum + (values[i] - mean) * (values[i] - mean);
      i := i + 1;
    }
    assert values[..i] == values;
    v := sum;
  }

  /** A squared deviation is never negative. */
  lemma SquareDeviation(x: real, m: real)
    ensures (x - m) * (x - m) >= 0.0
  {
  }

  /**
   * The squared deviations are never negative, and vanish when every
   * element equals the centre: a constant sample has zero `variance`.
   */
  lemma {:induction false} SquaredDeviationsSign(s: seq<real>, m: real)
    ensures SquaredDeviations(s, m) >= 0.0
    ensures (forall k :: 0 <= k < |s| ==> s[k] == m) ==> SquaredDeviations(s, m) == 0.0
    decreases |s|
  {
    if |s| > 0 {
      var t := s[..|s| - 1];
      SquaredDeviationsSign(t, m);
      SquareDeviation(s[|s| - 1], m);
      assert forall k :: 0 <= k < |t| ==> t[k] == s[k];
    }
  }

  /** The first coordinates of a sample of pairs. */
  function Firsts(values: seq<(real, real)>): (r: seq<real>)
    ensures |r| == |values| && forall k :: 0 <= k < |r| ==> r[k] == values[k].0
  {
    seq(|values|, k requires 0 <= k < |values| => values[k].0)
  }

  /** The second coordinates of a sample of pairs. */
  function Seconds(values: seq<(real, real)>): (r: seq<real>)
    ensures |r| == |values| && forall k :: 0 <= k < |r| ==> r[k] == values[k].1
  {
    seq(|values|, k requires 0 <= k < |values| => values[k].1)
  }

  /** The sum of the products of the deviations of both coordinates from `mx` and `my`. */
  function CrossDeviations(values: seq<(real, real)>, mx: real, my: real): real
  {
    if values == [] then 0.0
    else
      var p := values[|values| - 1];
      CrossDeviations(values[..|values| - 1], mx, my) + (p.0 - mx) * (p.1 - my)
  }

  /** `covariance`: the sum of the products of the deviations over the count; an empty sample gives `NaN`. */
  method Covariance(values: seq<(real, real)>) returns (r: Option<real>)
    ensures |values| == 0 ==> r == None
    ensures |values| > 0 ==> r == Some(CrossDeviations(values, ArithmeticMean(Firsts(values)).value,
                                                       ArithmeticMean(Seconds(values)).value) / |values| as real)
  {
    var count := |values|;
    if count == 0 {
      return None;
    }
    var xMean := Sum(Firsts(values)) / count as real;
    var yMean := Sum(Seconds(values)) / count as real;
    var sum := CrossSum(values, xMean, yMean);
    r := Some(sum / count as real);
  }

  /** The accumulation loop of `covariance`. */
  method CrossSum(values: seq<(real, real)>, xMean: real, yMean: real) returns (sum: real)
    ensures sum == CrossDeviations(values, xMean, yMean)
  {
    sum := 0.0;
    var i := 0;
    while i < |values|
      invariant 0 <= i <= |values| && sum == CrossDeviations(values[..i], xMean, yMean)
    {
      assert values[..i + 1][..i] == values[..i];
      sum := sum + (values[i].0 - xMean) * (values[i].1 - yMean);
      i := i + 1;
    }
    assert values[..i] == values;
  }

  /** Each element paired with itself. */
  function Diagonal(s: seq<real>): (r: seq<(real, real)>)
    ensures |r| == |s| && forall k :: 0 <= k < |r| ==> r[k] == (s[k], s[k])
  {
    seq(|s|, k requires 0 <= k < |s| => (s[k], s[k]))
  }

  /** The covariance of a sample with itself is its (unnormalised) variance over the count. */
  lemma {:induction false} CrossDeviationsDiagonal(s: seq<real>, m: real)
    ensures CrossDeviations(Diagonal(s), m, m) == SquaredDeviations(s, m)
    decreases |s|
  {
    if s != [] {
      assert Diagonal(s)[..|s| - 1] == Diagonal(s[..|s| - 1]);
      CrossDeviationsDiagonal(s[..|s| - 1], m);
    }
  }

  /** Pairs with their coordinates exchanged. */
  function Swapped(values: seq<(real, real)>): (r: seq<(real, real)>)
    ensures |r| == |values| && forall k :: 0 <= k < |r| ==> r[k] == (values[k].1, values[k].0)
  {
    seq(|values|, k requires 0 <= k < |values| => (values[k].1, values[k].0))
  }

  /** The covariance is symmetric in the two coordinates. */
  lemma {:induction false} CrossDeviationsSymmetric(values: seq<(real, real)>, mx: real, my: real)
    ensures CrossDeviations(Swapped(values), my, mx) == CrossDeviations(values, mx, my)
    decreases |values|
  {
    if values != [] {
      assert Swapped(values)[..|values| - 1] == Swapped(values[..|values| - 1]);
      CrossDeviationsSymmetric(values[..|values| - 1], mx, my);
    }
  }

  /** `min`: `Math.min` over the sample; for an empty sample (`Infinity`) it is `None`. */
  function Min(values: seq<real>): (r: Option<real>)
    ensures r.Some? <==> |values| > 0
    ensures r.Some? ==> r.value in values && forall k :: 0 <= k < |values| ==> r.value <= values[k]
  {
    if |values| == 0 then None
    else
      var rest := Min(values[..|values| - 1]);
      var last := values[|values| - 1];
      if rest.Some? && rest.value <= last then rest else Some(last)
  }

  /** `max`: `Math.max` over the sample; for an empty sample (`-Infinity`) it is `None`. */
  function Max(values: seq<real>): (r: Option<real>)
    ensures r.Some? <==> |values| > 0
    ensures r.Some? ==> r.value in values && forall k :: 0 <= k < |values| ==> values[k] <= r.value
  {
    if |values| == 0 then None
    else
      var rest := Max(values[..|values| - 1]);
      var last := values[|values| - 1];
      if rest.Some? && rest.value >= last then rest else Some(last)
  }

  /** `sorted.min`: the first element. */
  function MinSorted(values: seq<real>): (r: Option<real>)
    ensures r.Some? <==> |values| > 0
    ensures r.Some? ==> r.value == values[0]
  {
    if |values| > 0 then Some(values[0]) else None
  }

  /** On a sorted sample `sorted.min` is the minimum. */
  lemma MinSortedIsMin(values: seq<real>)
    requires Sorted(values)
    ensures MinSorted(values) == Min(values)
  {
    if |values| > 0 {
      var m := Min(values).value;
      var k :| 0 <= k < |values| && values[k] == m;
      assert values[0] <= m;
    }
  }

  /** `sorted.max` as written: the SECOND element, `undefined` for fewer than two. */
  function MaxSorted(values: seq<real>): (r: Option<real>)
    ensures r.Some? <==> |values| >= 2
    ensures r.Some? ==> r.value == values[1]
  {
    if |values| >= 2 then Some(values[1]) else None
  }

  /** `sorted.max` misses the maximum of a sorted sample of three. */
  lemma MaxSortedMissesMaximum()
    ensures Sorted([1.0, 2.0, 3.0]) && MaxSorted([1.0, 2.0, 3.0]) == Some(2.0)
    ensures Max([1.0, 2.0, 3.0]) == Some(3.0)
  {
    var s := [1.0, 2.0, 3.0];
    assert s[..2] == [1.0, 2.0] && s[..2][..1] == [1.0];
  }

  /** The maximum of a sorted sample as evidently intended: its last element. */
  function MaxSortedLast(values: seq<real>): (r: Option<real>)
    ensures r.Some? <==> |values| > 0
  {
    if |values| > 0 then Some(values[|values| - 1]) else None
  }

  /** On a sorted sample the last element is the maximum. */
  lemma MaxSortedLastIsMax(values: seq<real>)
    requires Sorted(values)
    ensures MaxSortedLast(values) == Max(values)
  {
    if |values| > 0 {
      var m := Max(values).value;
      var k :| 0 <= k < |values| && values[k] == m;
      assert m <= values[|values| - 1];
    }
  }

  /**
   * `sorted.median`: the middle element for an odd count, the mean of the
   * two middle elements for an even one; an empty sample gives `NaN`.
   */
  function MedianSorted(values: seq<real>): (r: Option<real>)
    ensures r.Some? <==> |values| > 0
    ensures Sorted(values) && r.Some? ==> values[0] <= r.value <= values[|values| - 1]
  {
    var count := |values|;
    // the source's `(count - count % 2) / 2`
    var halfCount := count / 2;
    if count % 2 == 1 then Some(values[halfCount])
    else if count == 0 then None
    else Some((values[halfCount - 1] + values[halfCount]) / 2.0)
  }

  /** The median of a sorted sample lies between its two middle elements. */
  lemma MedianBetweenMiddle(values: seq<real>)
    requires Sorted(values) && |values| > 0
    ensures values[(|values| - 1) / 2] <= MedianSorted(values).value <= values[|values| / 2]
  {
  }

  /** The median of four sorted values is the mean of the middle two. */
  lemma MedianOfFour()
    ensures MedianSorted([1.0, 2.0, 3.0, 4.0]) == Some(2.5)
  {
  }

  /** The median of a constant sample is that constant. */
  lemma MedianConstant(values: seq<real>, c: real)
    requires |values| > 0 && forall k :: 0 <= k < |values| ==> values[k] == c
    ensures MedianSorted(values) == Some(c)
  {
  }

  /** A sample reversed and negated. */
  function Mirror(s: seq<real>): (r: seq<real>)
    ensures |r| == |s| && forall k :: 0 <= k < |r| ==> r[k] == -s[|s| - 1 - k]
  {
    seq(|s|, k requires 0 <= k < |s| => -s[|s| - 1 - k])
  }

  /** The median commutes with mirroring: the median of the mirrored sample is the negated median. */
  lemma MedianMirror(values: seq<real>)
    requires |values| > 0
    ensures Sorted(values) ==> Sorted(Mirror(values))
    ensures MedianSorted(Mirror(values)).value == -MedianSorted(values).value
  {
    var n := |values|;
    var h := n / 2;
    if n % 2 == 0 {
      assert Mirror(values)[h - 1] == -values[h] && Mirror(values)[h] == -values[h - 1];
    } else {
      assert Mirror(values)[h] == -values[h];
    }
  }

  /**
   * `sorted.iqr`: a count of one gives that element twice; otherwise the
   * medians of the first and of the last `floor(n/2)` elements (for an odd
   * count the middle one belongs to neither). `slice(-0)` is the whole
   * array, which matters only for the empty sample.
   */
  function IqrSorted(values: seq<real>): (r: (Option<real>, Option<real>))
    ensures |values| == 1 ==> r == (Some(values[0]), Some(values[0]))
    ensures |values| == 0 ==> r == (None, None)
    ensures |values| >= 2 ==> r.0.Some? && r.1.Some?
    ensures |values| >= 2 && Sorted(values) ==> values[0] <= r.0.value <= r.1.value <= values[|values| - 1]
  {
    var count := |values|;
    if count == 1 then (Some(values[0]), Some(values[0]))
    else
      var halfCount := count / 2;
      var lower := values[..halfCount];
      var upper := if halfCount == 0 then values else values[count - halfCount..];
      assert Sorted(values) ==> Sorted(lower) && Sorted(upper);
      (MedianSorted(lower), MedianSorted(upper))
  }

  /** A prefix of a sorted sample is sorted. */
  lemma SortedPrefix(values: seq<real>, h: nat)
    requires Sorted(values) && h <= |values|
    ensures Sorted(values[..h])
  {
  }

  /** A suffix of a sorted sample is sorted. */
  lemma SortedSuffix(values: seq<real>, k: nat)
    requires Sorted(values) && k <= |values|
    ensures Sorted(values[k..])
  {
  }

  /** For a sorted sample of two or more, the lower quartile is at most the median. */
  lemma LowerQuartileBelowMedian(values: seq<real>)
    requires Sorted(values) && |values| >= 2
    ensures IqrSorted(values).0.value <= MedianSorted(values).value
  {
    var n := |values|;
    var h := n / 2;
    var lower := values[..h];
    assert IqrSorted(values).0 == MedianSorted(lower);
    SortedPrefix(values, h);
    assert lower[h - 1] == values[h - 1];
    MedianBetweenMiddle(values);
    assert h - 1 <= (n - 1) / 2;
  }

  /** For a sorted sample of two or more, the median is at most the upper quartile. */
  lemma MedianBelowUpperQuartile(values: seq<real>)
    requires Sorted(values) && |values| >= 2
    ensures MedianSorted(values).value <= IqrSorted(values).1.value
  {
    var n := |values|;
    var h := n / 2;
    var upper := values[n - h..];
    assert IqrSorted(values).1 == MedianSorted(upper);
    SortedSuffix(values, n - h);
    assert upper[0] == values[n - h];
    MedianBetweenMiddle(values);
    assert n / 2 <= n - h;
  }

  /** For a sorted sample of two or more, the quartiles bracket the median. */
  lemma IqrBracketsMedian(values: seq<real>)
    requires Sorted(values) && |values| >= 2
    ensures IqrSorted(values).0.value <= MedianSorted(values).value <= IqrSorted(values).1.value
  {
    LowerQuartileBelowMedian(values);
    MedianBelowUpperQuartile(values);
  }

  /** The sum of the first `i` elements, step by step. */
  lemma PrefixSumStep(s: seq<real>, i: nat)
    requires i < |s|
    ensures Sum(s[..i + 1]) == Sum(s[..i]) + s[i]
  {
    assert s[..i + 1][..i] == s[..i];
  }

  /** A sum of non-negative elements is non-negative. */
  lemma {:induction false} SumNonNegative(s: seq<real>)
    requires forall k :: 0 <= k < |s| ==> s[k] >= 0.0
    ensures Sum(s) >= 0.0
    decreases |s|
  {
    if s != [] {
      SumNonNegative(s[..|s| - 1]);
    }
  }

  /** Prefix sums of non-negative elements are non-negative and at most the total. */
  lemma {:induction false} PrefixSumBounds(s: seq<real>, i: nat)
    requires i <= |s| && forall k :: 0 <= k < |s| ==> s[k] >= 0.0
    ensures 0.0 <= Sum(s[..i]) <= Sum(s)
    decreases |s| - i
  {
    SumNonNegative(s[..i]);
    if i == |s| {
      assert s[..i] == s;
    } else {
      PrefixSumStep(s, i);
      PrefixSumBounds(s, i + 1);
    }
  }

  /*
   * The weighted median of a sample of `(value, weight)` pairs sorted by
   * value: the first position whose strictly-left and strictly-right weights
   * are both at most half the total weight.
   */

  /** The total weight of a weighted sample. */
  function TotalWeight(values: seq<(real, real)>): real
  {
    Sum(Seconds(values))
  }

  /** The weight strictly left of position `i`. */
  function LeftWeight(values: seq<(real, real)>, i: nat): real
    requires i <= |values|
  {
    Sum(Seconds(values)[..i])
  }

  /** The weight strictly right of position `i`. */
  function RightWeight(values: seq<(real, real)>, i: nat): real
    requires i < |values|
  {
    TotalWeight(values) - Sum(Seconds(values)[..i + 1])
  }

  /** Neither side of position `i` holds more than half the total weight. */
  predicate Balanced(values: seq<(real, real)>, i: nat)
    requires i < |values|
  {
    LeftWeight(values, i) <= TotalWeight(values) / 2.0 && RightWeight(values, i) <= TotalWeight(values) / 2.0
  }

  /** The first balanced position at or after `from`. */
  function FirstBalanced(values: seq<(real, real)>, from: nat): (r: Option<nat>)
    requires from <= |values|
    ensures r.Some? ==> from <= r.value < |values| && Balanced(values, r.value)
    ensures r.Some? ==> forall j :: from <= j < r.value ==> !Balanced(values, j)
    ensures r.None? ==> forall j :: from <= j < |values| ==> !Balanced(values, j)
    decreases |values| - from
  {
    if from == |values| then None
    else if Balanced(values, from) then Some(from)
    else FirstBalanced(values, from + 1)
  }

  /**
   * The answer at a balanced position: its value when both sides weigh
   * the same; the mean of it and the next value when it closes the left
   * half exactly; otherwise its value. When the last position closes the
   * left half there is no next value and the source's `values[i + 1][0]`
   * throws a `TypeError`; that needs a total weight of zero, so negative
   * weights, which the Theil-Sen caller (weights `|x_delta| > 0`) never
   * passes. The model gives `None` there.
   */
  function MedianAt(values: seq<(real, real)>, i: nat): Option<real>
    requires i < |values|
  {
    var half := TotalWeight(values) / 2.0;
    var left, right := LeftWeight(values, i), RightWeight(values, i);
    if left == right then Some(values[i].0)
    else if right == half && left + values[i].1 == half then
      if i + 1 < |values| then Some((values[i].0 + values[i + 1].0) / 2.0) else None
    else Some(values[i].0)
  }

  /** The weighted median as defined by balanced positions. */
  function WeightedMedian(values: seq<(real, real)>): Option<real>
  {
    match FirstBalanced(values, 0)
    case None => None
    case Some(i) => MedianAt(values, i)
  }

  /** `sorted.weighted_median`: scans for the first balanced position, keeping running left and right weights. */
  method WeightedMedianSorted(values: seq<(real, real)>) returns (r: Option<real>)
    ensures r == WeightedMedian(values)
  {
    ghost var weights := Seconds(values);
    var leftWeight := 0.0;
    var rightWeight := 0.0;
    var i := 0;
    while i < |values|
      invariant 0 <= i <= |values| && rightWeight == Sum(weights[..i])
    {
      PrefixSumStep(weights, i);
      rightWeight := rightWeight + values[i].1;
      i := i + 1;
    }
    assert weights[..i] == weights;
    var halfWeight := rightWeight / 2.0;
    i := 0;
    while i < |values|
      invariant 0 <= i <= |values|
      invariant i == 0 ==> leftWeight == 0.0
      invariant i > 0 ==> leftWeight == Sum(weights[..i - 1])
      invariant rightWeight == TotalWeight(values) - Sum(weights[..i])
      invariant FirstBalanced(values, 0) == FirstBalanced(values, i)
    {
      if i > 0 {
        PrefixSumStep(weights, i - 1);
        leftWeight := leftWeight + values[i - 1].1;
      }
      PrefixSumStep(weights, i);
      rightWeight := rightWeight - values[i].1;
      assert leftWeight == LeftWeight(values, i) && rightWeight == RightWeight(values, i);
      if leftWeight > halfWeight || rightWeight > halfWeight {
        i := i + 1;
        continue;
      }
      assert FirstBalanced(values, i) == Some(i);
      if leftWeight == rightWeight {
        return Some(values[i].0);
      }
      if rightWeight == halfWeight && leftWeight + values[i].1 == halfWeight {
        if i + 1 < |values| {
          return Some((values[i].0 + values[i + 1].0) / 2.0);
        }
        return None;
      }
      return Some(values[i].0);
    }
    return None;
  }

  /** With no balanced position, every prefix weighs at most half, and past the first strictly less. */
  lemma {:induction false} UnbalancedPrefixes(values: seq<(real, real)>, k: nat)
    requires k <= |values| && TotalWeight(values) >= 0.0
    requires forall j :: 0 <= j < |values| ==> !Balanced(values, j)
    ensures LeftWeight(values, k) <= TotalWeight(values) / 2.0
    ensures k > 0 ==> LeftWeight(values, k) < TotalWeight(values) / 2.0
    decreases k
  {
    if k > 0 {
      UnbalancedPrefixes(values, k - 1);
      PrefixSumStep(Seconds(values), k - 1);
      assert !Balanced(values, k - 1);
    }
  }

  /** Everything lies left of the end. */
  lemma LeftWeightAll(values: seq<(real, real)>)
    ensures LeftWeight(values, |values|) == TotalWeight(values)
  {
    assert Seconds(values)[..|values|] == Seconds(values);
  }

  /** A non-empty sample with non-negative weights always has a weighted median. */
  lemma WeightedMedianExists(values: seq<(real, real)>)
    requires |values| > 0 && forall k :: 0 <= k < |values| ==> values[k].1 >= 0.0
    ensures WeightedMedian(values).Some?
  {
    var weights := Seconds(values);
    PrefixSumBounds(weights, 0);
    if FirstBalanced(values, 0).None? {
      UnbalancedPrefixes(values, |values|);
      LeftWeightAll(values);
      assert false;
    }
    var i := FirstBalanced(values, 0).value;
    if i + 1 == |values| {
      assert weights[..i + 1] == weights;
      PrefixSumBounds(weights, i);
    }
  }

  /** The sample with every weight set to 1. */
  function UnitWeighted(s: seq<real>): (r: seq<(real, real)>)
    ensures |r| == |s| && forall k :: 0 <= k < |r| ==> r[k] == (s[k], 1.0)
  {
    seq(|s|, k requires 0 <= k < |s| => (s[k], 1.0))
  }

  /** With unit weights, the weights left of and right of position `j` are counts. */
  lemma UnitWeightsAt(s: seq<real>, j: nat)
    requires j < |s|
    ensures TotalWeight(UnitWeighted(s)) == |s| as real
    ensures LeftWeight(UnitWeighted(s), j) == j as real
    ensures RightWeight(UnitWeighted(s), j) == (|s| - j - 1) as real
  {
    var weights := Seconds(UnitWeighted(s));
    SumConstant(weights, 1.0);
    SumConstant(weights[..j], 1.0);
    SumConstant(weights[..j + 1], 1.0);
  }

  /** With unit weights the first balanced position is the lower middle one. */
  lemma UnitWeightsFirstBalanced(s: seq<real>)
    requires |s| > 0
    ensures FirstBalanced(UnitWeighted(s), 0) == Some((|s| - 1) / 2)
  {
    var values, n, m := UnitWeighted(s), |s|, (|s| - 1) / 2;
    UnitWeightsAt(s, m);
    assert Balanced(values, m);
    if m > 0 {
      UnitWeightsAt(s, m - 1);
      assert !Balanced(values, m - 1);
    }
    var r := FirstBalanced(values, 0);
    if r.Some? && r.value < m {
      UnitWeightsAt(s, r.value);
    }
  }

  /** With unit weights the weighted median is the plain median. */
  lemma WeightedMedianUnitWeights(s: seq<real>)
    requires |s| > 0
    ensures WeightedMedian(UnitWeighted(s)) == MedianSorted(s)
  {
    var values, n, m := UnitWeighted(s), |s|, (|s| - 1) / 2;
    UnitWeightsFirstBalanced(s);
    UnitWeightsAt(s, m);
    if n % 2 == 0 {
      assert m + 1 == n / 2;
      assert MedianAt(values, m) == Some((s[m] + s[m + 1]) / 2.0);
    } else {
      assert m == n / 2;
      assert MedianAt(values, m) == Some(s[m]);
    }
  }

  /*
   * The interquartile mean as a weighted mean: every element carries a
   * weight that depends only on the count `n` and its position.
   */

  /**
   * The weights `iqm_sorted` gives the `n` positions: the outer
   * `floor(n/4)` at each end weigh 0; when `n` is not a multiple of 4 the
   * two boundary positions of the kept range weigh `1 - (n mod 4)/4`;
   * every other position weighs 1.
   */
  function IqmWeights(n: nat): (w: seq<real>)
    ensures |w| == n
  {
    var outer := n / 4;
    var modulus := n % 4;
    seq(n, k requires 0 <= k < n =>
      if k < outer || k >= n - outer then 0.0
      else if modulus != 0 && (k == outer || k == n - outer - 1) then 1.0 - modulus as real / 4.0
      else 1.0)
  }

  /** `values` times `weights`, element by element. */
  function Products(values: seq<real>, weights: seq<real>): (r: seq<real>)
    requires |weights| == |values|
    ensures |r| == |values| && forall k :: 0 <= k < |r| ==> r[k] == weights[k] * values[k]
  {
    seq(|values|, k requires 0 <= k < |values| => weights[k] * values[k])
  }

  /** `n` ones. */
  function Ones(n: nat): (r: seq<real>)
    ensures |r| == n && forall k :: 0 <= k < n ==> r[k] == 1.0
  {
    seq(n, _ => 1.0)
  }

  /** The total of the interquartile weights of `n` positions. */
  function IqmTotal(n: nat): real
  {
    Sum(IqmWeights(n))
  }

  /**
   * The interquartile mean as the weighted mean of the whole sample (the
   * total weight of a non-empty sample is positive: `IqmTotalPositive`).
   */
  function IqmReference(values: seq<real>): Option<real>
  {
    var n := |values|;
    if n == 0 || IqmTotal(n) == 0.0 then None
    else Some(Sum(Products(values, IqmWeights(n))) / IqmTotal(n))
  }

  /** The sum of a slice, split at an inner position. */
  lemma SumSlices(p: seq<real>, a: nat, b: nat, c: nat)
    requires a <= b <= c <= |p|
    ensures Sum(p[a..c]) == Sum(p[a..b]) + Sum(p[b..c])
  {
    assert p[a..c] == p[a..b] + p[b..c];
    SumAppend(p[a..b], p[b..c]);
  }

  /** A sum split at two positions. */
  lemma SumThree(p: seq<real>, a: nat, b: nat)
    requires a <= b <= |p|
    ensures Sum(p) == Sum(p[..a]) + Sum(p[a..b]) + Sum(p[b..])
  {
    assert p == p[0..|p|] && p[..a] == p[0..a] && p[b..] == p[b..|p|];
    SumSlices(p, 0, a, |p|);
    SumSlices(p, a, b, |p|);
  }

  /** The same, with every part written as a slice. */
  lemma SumThreeSlices(p: seq<real>, a: nat, b: nat)
    requires a <= b <= |p|
    ensures Sum(p) == Sum(p[0..a]) + Sum(p[a..b]) + Sum(p[b..|p|])
  {
    assert p == p[0..|p|];
    SumSlices(p, 0, a, |p|);
    SumSlices(p, a, b, |p|);
  }

  lemma SumSingle(p: seq<real>, a: nat)
    requires a < |p|
    ensures Sum(p[a..a + 1]) == p[a]
  {
    assert p[a..a + 1][..0] == [];
  }

  /** The sum of a slice with its two end positions taken out. */
  lemma SumEnds(p: seq<real>, a: nat, b: nat)
    requires a + 1 <= b < |p|
    ensures Sum(p[a..b + 1]) == p[a] + Sum(p[a + 1..b]) + p[b]
  {
    SumSlices(p, a, a + 1, b + 1);
    SumSlices(p, a + 1, b, b + 1);
    SumSingle(p, a);
    SumSingle(p, b);
  }

  /** A sum split around two single positions. */
  lemma SumFive(p: seq<real>, a: nat, b: nat)
    requires a + 1 <= b < |p|
    ensures Sum(p) == Sum(p[0..a]) + p[a] + Sum(p[a + 1..b]) + p[b] + Sum(p[b + 1..|p|])
  {
    SumThreeSlices(p, a, b + 1);
    SumEnds(p, a, b);
  }

  /** Positions of zero weight contribute nothing. */
  lemma ProductsZero(values: seq<real>, w: seq<real>, lo: nat, hi: nat)
    requires |w| == |values| && lo <= hi <= |values| && forall k :: lo <= k < hi ==> w[k] == 0.0
    ensures Sum(Products(values, w)[lo..hi]) == 0.0
  {
    var p := Products(values, w);
    forall k | lo <= k < hi
      ensures p[k] == 0.0
    {
      assert p[k] == w[k] * values[k];
    }
    SumConstant(p[lo..hi], 0.0);
  }

  /** Positions of unit weight contribute their values. */
  lemma ProductsUnit(values: seq<real>, w: seq<real>, lo: nat, hi: nat)
    requires |w| == |values| && lo <= hi <= |values| && forall k :: lo <= k < hi ==> w[k] == 1.0
    ensures Products(values, w)[lo..hi] == values[lo..hi]
  {
    var p := Products(values, w);
    forall k | lo <= k < hi
      ensures p[k] == values[k]
    {
      assert p[k] == w[k] * values[k] && w[k] == 1.0;
    }
  }

  /** Weights that are zero outside `o..|w| - o` and one inside. */
  predicate MiddleShape(w: seq<real>, o: nat)
  {
    o <= |w| - o &&
    (forall k :: 0 <= k < o ==> w[k] == 0.0) &&
    (forall k :: |w| - o <= k < |w| ==> w[k] == 0.0) &&
    (forall k :: o <= k < |w| - o ==> w[k] == 1.0)
  }

  /** For a count that is a multiple of 4, the weights have that shape around the kept range. */
  lemma IqmMultipleShape(n: nat)
    requires n % 4 == 0
    ensures MiddleShape(IqmWeights(n), n / 4)
  {
  }

  /** A weighted sum whose weights have that shape is the sum of the middle. */
  lemma ProductsMiddle(values: seq<real>, w: seq<real>, o: nat)
    requires |w| == |values| && MiddleShape(w, o)
    ensures Sum(Products(values, w)) == Sum(values[o..|values| - o])
  {
    var n, p := |values|, Products(values, w);
    ProductsZero(values, w, 0, o);
    ProductsZero(values, w, n - o, n);
    ProductsUnit(values, w, o, n - o);
    SumThreeSlices(p, o, n - o);
  }

  /** For a count that is a multiple of 4, the kept range has unit weights. */
  lemma IqmSumMultiple(values: seq<real>)
    requires |values| % 4 == 0
    ensures Sum(Products(values, IqmWeights(|values|))) == Sum(values[|values| / 4..|values| - |values| / 4])
  {
    IqmMultipleShape(|values|);
    ProductsMiddle(values, IqmWeights(|values|), |values| / 4);
  }

  /** For a count that is not a multiple of 4, the two ends of the kept range weigh `1 - (n mod 4)/4`. */
  lemma IqmBoundaryWeights(n: nat)
    requires n >= 2 && n % 4 != 0
    ensures n / 4 + 1 <= n - n / 4 - 1
    ensures IqmWeights(n)[n / 4] == 1.0 - (n % 4) as real / 4.0
    ensures IqmWeights(n)[n - n / 4 - 1] == 1.0 - (n % 4) as real / 4.0
  {
  }

  /** Weights that are zero outside `a..b`, one strictly inside, and anything at `a` and `b`. */
  predicate EndsShape(w: seq<real>, a: nat, b: nat)
  {
    a + 1 <= b < |w| &&
    (forall k :: 0 <= k < a ==> w[k] == 0.0) &&
    (forall k :: b < k < |w| ==> w[k] == 0.0) &&
    (forall k :: a < k < b ==> w[k] == 1.0)
  }

  /** For a count of two or more that is not a multiple of 4, the weights have that shape around the kept range. */
  lemma IqmRemainderShape(n: nat)
    requires n >= 2 && n % 4 != 0
    ensures EndsShape(IqmWeights(n), n / 4, n - n / 4 - 1)
  {
  }

  /** A weighted sum whose weights have that shape. */
  lemma ProductsEnds(values: seq<real>, w: seq<real>, a: nat, b: nat)
    requires |w| == |values| && EndsShape(w, a, b)
    ensures Sum(Products(values, w)) == Sum(values[a + 1..b]) + Products(values, w)[b] + Products(values, w)[a]
  {
    var p := Products(values, w);
    ProductsZero(values, w, 0, a);
    ProductsZero(values, w, b + 1, |values|);
    ProductsUnit(values, w, a + 1, b);
    SumFive(p, a, b);
  }

  /** Otherwise the two ends of the kept range carry their own weights and the interior unit weights. */
  lemma IqmSumRemainder(values: seq<real>, a: nat, b: nat)
    requires |values| >= 2 && |values| % 4 != 0 && a == |values| / 4 && b == |values| - a - 1
    ensures a + 1 <= b < |values|
    ensures Sum(Products(values, IqmWeights(|values|))) ==
            Sum(values[a + 1..b]) + Products(values, IqmWeights(|values|))[b] + Products(values, IqmWeights(|values|))[a]
  {
    IqmRemainderShape(|values|);
    ProductsEnds(values, IqmWeights(|values|), a, b);
  }

  /** A product at a position whose weight is known. */
  lemma ProductAt(values: seq<real>, w: seq<real>, k: nat, lw: real, v: real)
    requires |w| == |values| && k < |values| && w[k] == lw && values[k] == v
    ensures Products(values, w)[k] == v * lw
  {
  }

  /** Weighting ones gives the weights back. */
  lemma ProductsOfOnes(w: seq<real>)
    ensures Products(Ones(|w|), w) == w
  {
  }

  /** The weights of a multiple of 4 add up to half the count. */
  lemma IqmTotalMultiple(n: nat, o: nat)
    requires n % 4 == 0 && o == n / 4
    ensures IqmTotal(n) == n as real / 2.0
  {
    ProductsOfOnes(IqmWeights(n));
    IqmSumMultiple(Ones(n));
    SumConstant(Ones(n)[o..n - o], 1.0);
  }

  /** So do the weights of any other count of two or more. */
  lemma IqmTotalRemainder(n: nat, a: nat, b: nat)
    requires n >= 2 && n % 4 != 0 && a == n / 4 && b == n - a - 1
    ensures IqmTotal(n) == n as real / 2.0
  {
    var w := IqmWeights(n);
    ProductsOfOnes(w);
    IqmSumRemainder(Ones(n), a, b);
    IqmBoundaryWeights(n);
    SumConstant(Ones(n)[a + 1..b], 1.0);
  }

  /** For two or more elements the weights add up to half the count. */
  lemma IqmTotalWeight(n: nat)
    requires n >= 2
    ensures IqmTotal(n) == n as real / 2.0
  {
    if n % 4 == 0 {
      IqmTotalMultiple(n, n / 4);
    } else {
      IqmTotalRemainder(n, n / 4, n - n / 4 - 1);
    }
  }

  /** A single element carries the weight 3/4. */
  lemma IqmSingleWeight(values: seq<real>)
    requires |values| == 1
    ensures Sum(Products(values, IqmWeights(1))) == 0.75 * values[0]
    ensures IqmTotal(1) == 0.75
  {
    assert IqmWeights(1) == [0.75];
    assert Products(values, IqmWeights(1)) == [0.75 * values[0]];
  }

  /** The weights of a sample of at least one element add up to a positive total. */
  lemma IqmTotalPositive(n: nat)
    requires n >= 1
    ensures IqmTotal(n) > 0.0
  {
    if n == 1 {
      IqmSingleWeight([0.0]);
    } else {
      IqmTotalWeight(n);
    }
  }

  lemma DivideScaled(x: real, c: real, t: real)
    requires t != 0.0 && x == c * t
    ensures x / t == c
  {
  }

  /** A single element is its own interquartile mean. */
  lemma IqmSingle(values: seq<real>)
    requires |values| == 1
    ensures IqmReference(values) == Some(values[0])
  {
    IqmSingleWeight(values);
    assert IqmReference(values) == Some(Sum(Products(values, IqmWeights(1))) / IqmTotal(1));
  }

  /** For a multiple of 4, the interquartile mean is the mean of the kept range. */
  lemma IqmMultipleMean(values: seq<real>)
    requires |values| > 0 && |values| % 4 == 0
    ensures IqmReference(values) == ArithmeticMean(values[|values| / 4..|values| - |values| / 4])
  {
    var n := |values|;
    IqmSumMultiple(values);
    IqmTotalWeight(n);
    assert IqmReference(values) == Some(Sum(Products(values, IqmWeights(n))) / IqmTotal(n));
    assert |values[n / 4..n - n / 4]| as real == n as real / 2.0;
  }

  /** The interquartile mean in terms of a known weighted sum `x` and total weight `t`. */
  lemma IqmReferenceOf(values: seq<real>, x: real, t: real)
    requires |values| > 0 && t != 0.0
    requires x == Sum(Products(values, IqmWeights(|values|))) && t == IqmTotal(|values|)
    ensures IqmReference(values) == Some(x / t)
  {
  }

  /** A weighted sum with weights of that shape and weight `lw` at both ends. */
  lemma ProductsEndsWeighted(values: seq<real>, w: seq<real>, a: nat, b: nat, lw: real, sum: real,
                              first: real, last: real, inner: seq<real>)
    requires |w| == |values| && EndsShape(w, a, b) && w[a] == lw && w[b] == lw
    requires first == values[a] && last == values[b] && inner == values[a + 1..b]
    requires sum == Sum(inner) + last * lw + first * lw
    ensures sum == Sum(Products(values, w))
  {
    ProductsEnds(values, w, a, b);
    ProductAt(values, w, a, lw, first);
    ProductAt(values, w, b, lw, last);
  }

  /** The weighted sum computed by the source when the count is not a multiple of 4. */
  lemma IqmRemainderSum(values: seq<real>, sum: real, a: nat, b: nat, lw: real,
                        first: real, last: real, inner: seq<real>)
    requires |values| >= 2 && |values| % 4 != 0 && a == |values| / 4 && b == |values| - a - 1
    requires lw == 1.0 - (|values| % 4) as real / 4.0
    requires a + 1 <= b && first == values[a] && last == values[b] && inner == values[a + 1..b]
    requires sum == Sum(inner) + last * lw + first * lw
    ensures sum == Sum(Products(values, IqmWeights(|values|)))
  {
    IqmRemainderShape(|values|);
    IqmBoundaryWeights(|values|);
    ProductsEndsWeighted(values, IqmWeights(|values|), a, b, lw, sum, first, last, inner);
  }

  /** The source's total weight `count - (2 * outerSize + modulus / 2)` is the total of the weights. */
  lemma IqmRemainderTotal(n: nat, a: nat, total: real)
    requires n >= 2 && a == n / 4
    requires total == n as real - (2.0 * a as real + (n % 4) as real / 2.0)
    ensures total == IqmTotal(n) && total > 0.0
  {
    IqmTotalWeight(n);
  }

  /** Otherwise it is the weighted sum computed by the source over `count - (2 * outerSize + modulus / 2)`. */
  lemma IqmRemainderMean(values: seq<real>, sum: real, a: nat, b: nat, lw: real, total: real,
                          first: real, last: real, inner: seq<real>)
    requires |values| >= 2 && |values| % 4 != 0 && a == |values| / 4 && b == |values| - a - 1
    requires lw == 1.0 - (|values| % 4) as real / 4.0
    requires total == |values| as real - (2.0 * a as real + (|values| % 4) as real / 2.0)
    requires a + 1 <= b && first == values[a] && last == values[b] && inner == values[a + 1..b]
    requires sum == Sum(inner) + last * lw + first * lw
    ensures IqmReference(values) == Some(sum / total)
  {
    IqmRemainderSum(values, sum, a, b, lw, first, last, inner);
    IqmRemainderTotal(|values|, a, total);
    IqmReferenceOf(values, sum, total);
  }

  /**
   * `sorted.iqm`: drops `floor(n/4)` elements at each end; for a count
   * that is a multiple of 4 the mean of the rest, otherwise the two new
   * ends count with weight `1 - (n mod 4)/4` and the sum is divided by
   * the total weight. A single element is returned as it is.
   */
  method IqmSorted(values: seq<real>) returns (r: Option<real>)
    ensures r == IqmReference(values)
  {
    var count := |values|;
    if count == 1 {
      IqmSingle(values);
      return Some(values[0]);
    }
    var modulus := count % 4;
    // the source's `(count - modulus) / 4`
    var outerSize := count / 4;
    var kept := values[outerSize..count - outerSize];
    if modulus == 0 {
      if count == 0 {
        return None;
      }
      IqmMultipleMean(values);
      return ArithmeticMean(kept);
    }
    assert outerSize + 2 <= count - outerSize;
    // `pop` then `shift`
    var last := kept[|kept| - 1];
    kept := kept[..|kept| - 1];
    var first := kept[0];
    kept := kept[1..];
    IqmEnds(values, outerSize, first, last, kept);
    var limitWeight := 1.0 - modulus as real / 4.0;
    var totalWeight := count as real - (2.0 * outerSize as real + modulus as real / 2.0);
    var sum := GetSum(kept);
    sum := sum + last * limitWeight;
    sum := sum + first * limitWeight;
    IqmRemainderMean(values, sum, outerSize, count - outerSize - 1, limitWeight, totalWeight, first, last, kept);
    r := Some(sum / totalWeight);
  }

  /** What `pop` and `shift` leave of the kept range. */
  lemma IqmEnds(values: seq<real>, outer: nat, first: real, last: real, inner: seq<real>)
    requires outer + 2 <= |values| - outer
    requires var kept := values[outer..|values| - outer];
      last == kept[|kept| - 1] && first == kept[..|kept| - 1][0] && inner == kept[..|kept| - 1][1..]
    ensures first == values[outer] && last == values[|values| - outer - 1]
    ensures inner == values[outer + 1..|values| - outer - 1]
  {
    var n := |values|;
    var kept := values[outer..n - outer];
    assert kept[..|kept| - 1] == values[outer..n - outer - 1];
    assert kept[..|kept| - 1][1..] == values[outer + 1..n - outer - 1];
  }

  /** Arithmetic behind `IqmConstant` when `n mod 4 != 0`: the weighted sum is `c` times the total weight. */
  lemma RemainderScaled(sum: real, inner: real, first: real, last: real, c: real, lw: real,
                         total: real, k: real, n: real, a: real, m: real)
    requires first == c && last == c && inner == k * c && sum == inner + last * lw + first * lw
    requires lw == 1.0 - m / 4.0 && total == n - (2.0 * a + m / 2.0) && k == n - 2.0 * a - 2.0
    ensures sum == c * total
  {
  }

  /** `IqmRemainderMean` for a known quotient `r` of the weighted sum by the total weight. */
  lemma IqmRemainderQuotient(values: seq<real>, sum: real, a: nat, b: nat, lw: real, total: real,
                             first: real, last: real, inner: seq<real>, r: real)
    requires |values| >= 2 && |values| % 4 != 0 && a == |values| / 4 && b == |values| - a - 1
    requires lw == 1.0 - (|values| % 4) as real / 4.0
    requires total == |values| as real - (2.0 * a as real + (|values| % 4) as real / 2.0)
    requires a + 1 <= b && first == values[a] && last == values[b] && inner == values[a + 1..b]
    requires sum == Sum(inner) + last * lw + first * lw
    requires sum == r * total
    ensures IqmReference(values) == Some(r)
  {
    IqmRemainderMean(values, sum, a, b, lw, total, first, last, inner);
    DivideScaled(sum, r, total);
  }

  lemma IqmConstantRemainder(values: seq<real>, c: real)
    requires |values| >= 2 && |values| % 4 != 0
    requires forall k :: 0 <= k < |values| ==> values[k] == c
    ensures IqmReference(values) == Some(c)
  {
    var n := |values|;
    var a := n / 4;
    var b := n - a - 1;
    var lw := 1.0 - (n % 4) as real / 4.0;
    var total := n as real - (2.0 * a as real + (n % 4) as real / 2.0);
    var inner := values[a + 1..b];
    SumConstant(inner, c);
    var sum := Sum(inner) + values[b] * lw + values[a] * lw;
    assert |inner| == n - 2 * a - 2;
    RemainderScaled(sum, Sum(inner), values[a], values[b], c, lw, total, |inner| as real,
                    n as real, a as real, (n % 4) as real);
    IqmRemainderQuotient(values, sum, a, b, lw, total, values[a], values[b], inner, c);
  }

  /** The interquartile mean of a constant sample is that constant. */
  lemma IqmConstant(values: seq<real>, c: real)
    requires |values| > 0 && forall k :: 0 <= k < |values| ==> values[k] == c
    ensures IqmReference(values) == Some(c)
  {
    var n := |values|;
    if n == 1 {
      IqmSingle(values);
    } else if n % 4 == 0 {
      IqmMultipleMean(values);
      MeanBounds(values[n / 4..n - n / 4], c, c);
    } else {
      IqmConstantRemainder(values, c);
    }
  }
}

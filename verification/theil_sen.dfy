/**
 * The Theil-Sen estimator of `lib/stats.js`: the median of the slopes of
 * all pairs of points (optionally weighted by the horizontal distance),
 * then the median of the intercepts at that slope. Both collections are
 * built by inserting each new element at the position `binarySearch`
 * returns, so they stay sorted throughout.
 */
module TheilSen {
  import opened Wrappers
  import Util
  import Stats

  /** A point `[x, y]`. */
  type Point = (real, real)

  /** A slope with its weight, `[slope, weight]`. */
  type WeightedSlope = (real, real)

  function Abs(x: real): real
  {
    if x < 0.0 then -x else x
  }

  /** The accessor `tuple => tuple[0]`. */
  function SlopeKey(t: WeightedSlope): real
  {
    t.0
  }

  /** The default accessor of `binarySearch`. */
  function Identity(x: real): real
  {
    x
  }

  // ---------------------------------------------------------------------
  // A reference sort, and uniqueness of sorted permutations
  // ---------------------------------------------------------------------

  /** `x` inserted in front of the first element not below it. */
  function InsertSorted(s: seq<real>, x: real): seq<real>
  {
    if s == [] then [x]
    else if x <= s[0] then [x] + s
    else [s[0]] + InsertSorted(s[1..], x)
  }

  /** Inserting adds `x` to the elements. */
  lemma {:induction false} InsertSortedElements(s: seq<real>, x: real)
    ensures multiset(InsertSorted(s, x)) == multiset(s) + multiset{x}
    decreases |s|
  {
    if s != [] && x > s[0] {
      InsertSortedElements(s[1..], x);
      assert s == [s[0]] + s[1..];
    }
  }

  /** Inserting into a sorted sequence keeps it sorted. */
  lemma {:induction false} InsertSortedSorted(s: seq<real>, x: real)
    requires Stats.Sorted(s)
    ensures Stats.Sorted(InsertSorted(s, x))
    decreases |s|
  {
    if s != [] && x > s[0] {
      InsertSortedSorted(s[1..], x);
      InsertSortedBound(s[1..], x, s[0]);
    }
  }

  /** A lower bound of `s` and of `x` bounds the insertion too. */
  lemma {:induction false} InsertSortedBound(s: seq<real>, x: real, lo: real)
    requires lo <= x && forall k :: 0 <= k < |s| ==> lo <= s[k]
    ensures forall k :: 0 <= k < |InsertSorted(s, x)| ==> lo <= InsertSorted(s, x)[k]
    decreases |s|
  {
    if s != [] && x > s[0] {
      InsertSortedBound(s[1..], x, lo);
    }
  }

  /** `s` sorted ascending (insertion sort). */
  function Sort(s: seq<real>): seq<real>
  {
    if s == [] then [] else InsertSorted(Sort(s[..|s| - 1]), s[|s| - 1])
  }

  /** `Sort` returns a sorted permutation. */
  lemma {:induction false} SortSorts(s: seq<real>)
    ensures Stats.Sorted(Sort(s)) && multiset(Sort(s)) == multiset(s)
    decreases |s|
  {
    if s != [] {
      SortSorts(s[..|s| - 1]);
      InsertSortedSorted(Sort(s[..|s| - 1]), s[|s| - 1]);
      InsertSortedElements(Sort(s[..|s| - 1]), s[|s| - 1]);
      assert s == s[..|s| - 1] + [s[|s| - 1]];
    }
  }

  /** The first element of a sorted sequence is its least element. */
  lemma SortedHeadLeast(s: seq<real>, x: real)
    requires Stats.Sorted(s) && x in multiset(s)
    ensures s[0] <= x
  {
    var k :| 0 <= k < |s| && s[k] == x;
    if k > 0 {
      assert s[0] <= s[k];
    }
  }

  /** Two sorted sequences with the same elements are equal. */
  lemma {:induction false} SortedUnique(a: seq<real>, b: seq<real>)
    requires Stats.Sorted(a) && Stats.Sorted(b) && multiset(a) == multiset(b)
    ensures a == b
    decreases |a|
  {
    if a != [] {
      assert a[0] in multiset(a);
      assert |b| > 0 && b[0] in multiset(b);
      SortedHeadLeast(b, a[0]);
      SortedHeadLeast(a, b[0]);
      assert a[0] == b[0];
      assert a == [a[0]] + a[1..] && b == [b[0]] + b[1..];
      assert multiset(a) == multiset{a[0]} + multiset(a[1..]);
      assert multiset(b) == multiset{b[0]} + multiset(b[1..]);
      assert multiset(a[1..]) == multiset(a) - multiset{a[0]};
      assert multiset(b[1..]) == multiset(b) - multiset{b[0]};
      SortedUnique(a[1..], b[1..]);
    } else {
      assert |b| == |multiset(b)| == 0;
    }
  }

  /** Every element of a sequence with only `c`s in its multiset is `c`. */
  lemma ConstantElements(s: seq<real>, t: seq<real>, c: real)
    requires multiset(s) == multiset(t) && forall k :: 0 <= k < |t| ==> t[k] == c
    ensures forall k :: 0 <= k < |s| ==> s[k] == c
  {
    forall k | 0 <= k < |s|
      ensures s[k] == c
    {
      assert s[k] in multiset(t);
    }
  }

  // ---------------------------------------------------------------------
  // The slopes of all pairs
  // ---------------------------------------------------------------------

  /**
   * What `theil_sen_sorted_next` adds for the pair `(a, b)`: nothing when
   * the two x coordinates agree (the source's slope is then `NaN` or
   * infinite), otherwise the slope, weighted by `|x_delta|` or by 1.
   */
  function PairSlope(a: Point, b: Point, useWeights: bool): (r: Option<WeightedSlope>)
    ensures r.Some? <==> a.0 != b.0
    ensures r.Some? ==> r.value.0 * (b.0 - a.0) == b.1 - a.1
    ensures r.Some? ==> r.value.1 > 0.0 && (!useWeights ==> r.value.1 == 1.0)
    ensures r.Some? && useWeights ==> r.value.1 == b.0 - a.0 || r.value.1 == a.0 - b.0
  {
    var xDelta := b.0 - a.0;
    var yDelta := b.1 - a.1;
    if xDelta == 0.0 then None
    else Some((yDelta / xDelta, if useWeights then Abs(xDelta) else 1.0))
  }

  function OptionSeq(o: Option<WeightedSlope>): seq<WeightedSlope>
  {
    if o.None? then [] else [o.value]
  }

  /** The slopes the inner loop adds for `a` against each of `bs`, in order. */
  function RowSlopes(a: Point, bs: seq<Point>, useWeights: bool): seq<WeightedSlope>
  {
    if bs == [] then []
    else RowSlopes(a, bs[..|bs| - 1], useWeights) + OptionSeq(PairSlope(a, bs[|bs| - 1], useWeights))
  }

  /** The slopes the double loop adds, `as` outside and `values` inside. */
  function AllSlopes(outer: seq<Point>, values: seq<Point>, useWeights: bool): seq<WeightedSlope>
  {
    if outer == [] then []
    else AllSlopes(outer[..|outer| - 1], values, useWeights) + RowSlopes(outer[|outer| - 1], values, useWeights)
  }

  /** The slope values alone. */
  function Slopes(values: seq<Point>): seq<real>
  {
    Stats.Firsts(AllSlopes(values, values, false))
  }

  lemma FirstsAppend(a: seq<WeightedSlope>, b: seq<WeightedSlope>)
    ensures Stats.Firsts(a + b) == Stats.Firsts(a) + Stats.Firsts(b)
  {
  }

  /** Rearranging pairs rearranges their first components alike. */
  lemma {:induction false} FirstsMultiset(a: seq<WeightedSlope>, b: seq<WeightedSlope>)
    requires multiset(a) == multiset(b)
    ensures multiset(Stats.Firsts(a)) == multiset(Stats.Firsts(b))
    decreases |a|
  {
    if a == [] {
      assert |b| == |multiset(b)| == 0;
    } else {
      var x := a[0];
      assert x in multiset(b);
      var k :| 0 <= k < |b| && b[k] == x;
      var rest := b[..k] + b[k + 1..];
      assert b == b[..k] + [x] + b[k + 1..];
      assert multiset(rest) == multiset(b) - multiset{x};
      assert a == [x] + a[1..];
      assert multiset(a[1..]) == multiset(a) - multiset{x};
      FirstsMultiset(a[1..], rest);
      FirstsAppend([x], a[1..]);
      FirstsAppend(b[..k] + [x], b[k + 1..]);
      FirstsAppend(b[..k], [x]);
      FirstsAppend(b[..k], b[k + 1..]);
    }
  }

  /**
   * `theil_sen_sorted_next`: inserts the slope of `(a, b)`, if it has one,
   * at the position `binarySearch` finds by slope. `collection` is updated
   * in place by the source; here the new collection is returned.
   */
  method TheilSenNext(collection: seq<WeightedSlope>, a: Point, b: Point, useWeights: bool)
    returns (r: seq<WeightedSlope>)
    ensures PairSlope(a, b, useWeights).None? ==> r == collection
    ensures PairSlope(a, b, useWeights).Some? ==>
              multiset(r) == multiset(collection) + multiset{PairSlope(a, b, useWeights).value}
    ensures Util.SortedBy(collection, SlopeKey) ==> Util.SortedBy(r, SlopeKey)
  {
    var pair := PairSlope(a, b, useWeights);
    if pair.None? {
      return collection;
    }
    var tuple := pair.value;
    var index := Util.BinarySearch(collection, tuple.0, SlopeKey);
    if Util.SortedBy(collection, SlopeKey) {
      Util.InsertKeepsSorted(collection, index, tuple, SlopeKey);
    }
    r := Util.InsertAt(collection, index, tuple);
  }

  /** The inner loop's step: one more point on the right. */
  lemma RowSlopesStep(a: Point, values: seq<Point>, j: nat, useWeights: bool)
    requires j < |values|
    ensures PairSlope(a, values[j], useWeights).None? ==>
              RowSlopes(a, values[..j + 1], useWeights) == RowSlopes(a, values[..j], useWeights)
    ensures PairSlope(a, values[j], useWeights).Some? ==>
              multiset(RowSlopes(a, values[..j + 1], useWeights)) ==
              multiset(RowSlopes(a, values[..j], useWeights)) + multiset{PairSlope(a, values[j], useWeights).value}
  {
    var w := values[..j + 1];
    assert w[..|w| - 1] == values[..j] && w[|w| - 1] == values[j];
  }

  /** The outer loop's step: one more point on the left. */
  lemma AllSlopesStep(values: seq<Point>, i: nat, useWeights: bool)
    requires i < |values|
    ensures multiset(AllSlopes(values[..i + 1], values, useWeights)) ==
            multiset(AllSlopes(values[..i], values, useWeights)) + multiset(RowSlopes(values[i], values, useWeights))
  {
    var w := values[..i + 1];
    assert w[..|w| - 1] == values[..i] && w[|w| - 1] == values[i];
  }

  /** The inner loop: `a` against every point. */
  method RowCollection(collection: seq<WeightedSlope>, a: Point, values: seq<Point>, useWeights: bool)
    returns (r: seq<WeightedSlope>)
    ensures Util.SortedBy(collection, SlopeKey) ==> Util.SortedBy(r, SlopeKey)
    ensures multiset(r) == multiset(collection) + multiset(RowSlopes(a, values, useWeights))
  {
    r := collection;
    var j := 0;
    assert RowSlopes(a, values[..0], useWeights) == [];
    while j < |values|
      invariant 0 <= j <= |values|
      invariant Util.SortedBy(collection, SlopeKey) ==> Util.SortedBy(r, SlopeKey)
      invariant multiset(r) == multiset(collection) + multiset(RowSlopes(a, values[..j], useWeights))
    {
      r := TheilSenNext(r, a, values[j], useWeights);
      RowSlopesStep(a, values, j, useWeights);
      j := j + 1;
    }
    assert values[..j] == values;
  }

  /** The double loop of `theil_sen_sorted` and `theil_sen_weighted_sorted`. */
  method SlopeCollection(values: seq<Point>, useWeights: bool) returns (collection: seq<WeightedSlope>)
    ensures Util.SortedBy(collection, SlopeKey)
    ensures multiset(collection) == multiset(AllSlopes(values, values, useWeights))
  {
    collection := [];
    var i := 0;
    assert AllSlopes(values[..0], values, useWeights) == [];
    while i < |values|
      invariant 0 <= i <= |values|
      invariant Util.SortedBy(collection, SlopeKey)
      invariant multiset(collection) == multiset(AllSlopes(values[..i], values, useWeights))
    {
      collection := RowCollection(collection, values[i], values, useWeights);
      AllSlopesStep(values, i, useWeights);
      i := i + 1;
    }
    assert values[..i] == values;
  }

  // ---------------------------------------------------------------------
  // The intercepts
  // ---------------------------------------------------------------------

  /** The intercept of the line through `p` with the given slope. */
  function InterceptOf(p: Point, slope: real): (r: real)
    ensures p.1 == slope * p.0 + r
  {
    p.1 - slope * p.0
  }

  /** The intercept of every point, in order. */
  function Intercepts(values: seq<Point>, slope: real): seq<real>
  {
    if values == [] then []
    else Intercepts(values[..|values| - 1], slope) + [InterceptOf(values[|values| - 1], slope)]
  }

  lemma InterceptsStep(values: seq<Point>, i: nat, slope: real, intercept: real)
    requires i < |values| && intercept == InterceptOf(values[i], slope)
    ensures multiset(Intercepts(values[..i + 1], slope)) == multiset(Intercepts(values[..i], slope)) + multiset{intercept}
  {
    var w := values[..i + 1];
    assert w[..|w| - 1] == values[..i] && w[|w| - 1] == values[i];
    assert Intercepts(w, slope) == Intercepts(values[..i], slope) + [intercept];
  }

  lemma SortedByIdentity(s: seq<real>)
    ensures Util.SortedBy(s, Identity) <==> Stats.Sorted(s)
  {
  }

  /** The loop of `theil_sen_sorted_intercept`, proved to build the sorted intercepts. */
  method InterceptCollection(values: seq<Point>, fitSlope: real) returns (collection: seq<real>)
    ensures collection == Sort(Intercepts(values, fitSlope))
  {
    collection := [];
    var i := 0;
    assert Intercepts(values[..0], fitSlope) == [];
    while i < |values|
      invariant 0 <= i <= |values|
      invariant Stats.Sorted(collection)
      invariant multiset(collection) == multiset(Intercepts(values[..i], fitSlope))
    {
      var (x, y) := values[i];
      var intercept := y - fitSlope * x;
      SortedByIdentity(collection);
      var index := Util.BinarySearch(collection, intercept, Identity);
      Util.InsertKeepsSorted(collection, index, intercept, Identity);
      InterceptsStep(values, i, fitSlope, intercept);
      collection := Util.InsertAt(collection, index, intercept);
      SortedByIdentity(collection);
      i := i + 1;
    }
    assert values[..i] == values;
    SortSorts(Intercepts(values, fitSlope));
    SortedUnique(collection, Sort(Intercepts(values, fitSlope)));
  }

  /** The median of the intercepts at a given slope; no slope (`NaN`) gives none. */
  function Intercept(values: seq<Point>, fitSlope: Option<real>): Option<real>
  {
    if fitSlope.None? then None else Stats.MedianSorted(Sort(Intercepts(values, fitSlope.value)))
  }

  /**
   * `theil_sen_sorted_intercept`: the median of the intercepts. A slope of
   * `NaN` (or `undefined`) arises only when no two points have distinct x;
   * the source then computes `NaN` intercepts, returns `NaN` for up to three
   * points, and for four or more never leaves `binarySearch` (see
   * `SharedXHangs`). Here no slope gives no intercept, whatever the count.
   */
  method TheilSenSortedIntercept(values: seq<Point>, fitSlope: Option<real>) returns (r: Option<real>)
    ensures r == Intercept(values, fitSlope)
  {
    if fitSlope.None? {
      return None;
    }
    var collection := InterceptCollection(values, fitSlope.value);
    r := Stats.MedianSorted(collection);
  }

  // ---------------------------------------------------------------------
  // The two estimators
  // ---------------------------------------------------------------------

  /** The unweighted estimate: median pairwise slope, then median intercept. */
  function TheilSenFit(values: seq<Point>): (Option<real>, Option<real>)
  {
    var slope := Stats.MedianSorted(Sort(Slopes(values)));
    (slope, Intercept(values, slope))
  }

  /** `sorted.theil_sen`. */
  method TheilSenSorted(values: seq<Point>) returns (fitSlope: Option<real>, fitIntercept: Option<real>)
    ensures (fitSlope, fitIntercept) == TheilSenFit(values)
  {
    var collection := SlopeCollection(values, false);
    var slopes := Stats.Firsts(collection);
    FirstsMultiset(collection, AllSlopes(values, values, false));
    assert Stats.Sorted(slopes);
    SortSorts(Slopes(values));
    SortedUnique(slopes, Sort(Slopes(values)));
    fitSlope := Stats.MedianSorted(slopes);
    fitIntercept := TheilSenSortedIntercept(values, fitSlope);
  }

  /**
   * `sorted.theil_sen_weighted`: the weighted median of the slopes, each
   * weighted by `|x_delta|`. Slopes that tie may sit in either order, so
   * the result is stated for the collection actually built, which is any
   * arrangement of the pairwise slopes sorted by slope.
   */
  method TheilSenWeightedSorted(values: seq<Point>)
    returns (fitSlope: Option<real>, fitIntercept: Option<real>, ghost slopes: seq<WeightedSlope>)
    ensures Util.SortedBy(slopes, SlopeKey) && multiset(slopes) == multiset(AllSlopes(values, values, true))
    ensures fitSlope == Stats.WeightedMedian(slopes)
    ensures fitIntercept == Intercept(values, fitSlope)
  {
    var collection := SlopeCollection(values, true);
    slopes := collection;
    fitSlope := Stats.WeightedMedianSorted(collection);
    fitIntercept := TheilSenSortedIntercept(values, fitSlope);
  }

  // ---------------------------------------------------------------------
  // Points on one vertical line
  // ---------------------------------------------------------------------

  /** No pair of points with the same x has a slope. */
  lemma {:induction false} RowSlopesVertical(a: Point, bs: seq<Point>, useWeights: bool)
    requires forall k :: 0 <= k < |bs| ==> bs[k].0 == a.0
    ensures RowSlopes(a, bs, useWeights) == []
    decreases |bs|
  {
    if bs != [] {
      RowSlopesVertical(a, bs[..|bs| - 1], useWeights);
    }
  }

  lemma {:induction false} AllSlopesVertical(outer: seq<Point>, values: seq<Point>, x: real, useWeights: bool)
    requires forall k :: 0 <= k < |outer| ==> outer[k].0 == x
    requires forall k :: 0 <= k < |values| ==> values[k].0 == x
    ensures AllSlopes(outer, values, useWeights) == []
    decreases |outer|
  {
    if outer != [] {
      AllSlopesVertical(outer[..|outer| - 1], values, x, useWeights);
      RowSlopesVertical(outer[|outer| - 1], values, useWeights);
    }
  }

  /**
   * Points that all share one x have no slope and no intercept, under
   * either estimator, however many there are.
   */
  lemma SharedXFit(values: seq<Point>)
    requires forall k :: 0 <= k < |values| ==> values[k].0 == values[0].0
    ensures AllSlopes(values, values, false) == [] && AllSlopes(values, values, true) == []
    ensures TheilSenFit(values) == (None, None)
    ensures Stats.WeightedMedian([]) == None && Intercept(values, None) == None
  {
    if values != [] {
      AllSlopesVertical(values, values, values[0].0, false);
      AllSlopesVertical(values, values, values[0].0, true);
    }
  }

  /**
   * The source as written on four or more points sharing one x: no slope
   * survives, so the fit slope is `NaN` and so is every intercept
   * `y - NaN * x`. After three insertions the collection holds three
   * `NaN`s; inserting the fourth enters `binarySearch`'s loop with the
   * bounds `(0, 2)`, and a pass leaves them at `(0, 2)`, so the loop never
   * ends. With a collection of two (the third point) the loop is not
   * entered, which is why up to three such points do finish.
   */
  lemma SharedXHangs(values: seq<Point>)
    requires |values| >= 4
    requires forall k :: 0 <= k < |values| ==> values[k].0 == values[0].0
    ensures TheilSenFit(values).0.None?
    ensures var nans := [Util.NaN, Util.NaN, Util.NaN];
      Util.EntersSearchLoop(nans, Util.NaN) && Util.SearchPass(nans, Util.NaN, 0, 2) == (0, 2)
    ensures !Util.EntersSearchLoop([Util.NaN, Util.NaN], Util.NaN)
  {
    SharedXFit(values);
  }

  // ---------------------------------------------------------------------
  // Exactness on a line
  // ---------------------------------------------------------------------

  /** Every point lies on `y = m * x + c`. */
  predicate OnLine(values: seq<Point>, m: real, c: real)
  {
    forall k :: 0 <= k < |values| ==> values[k].1 == m * values[k].0 + c
  }

  /** Two of the points have different x coordinates. */
  predicate TwoDistinctX(values: seq<Point>)
  {
    exists i, j :: 0 <= i < |values| && 0 <= j < |values| && values[i].0 != values[j].0
  }

  lemma SlopeOnLine(a: Point, b: Point, m: real, c: real, useWeights: bool)
    requires a.1 == m * a.0 + c && b.1 == m * b.0 + c && a.0 != b.0
    ensures PairSlope(a, b, useWeights).value.0 == m
  {
    var d := b.0 - a.0;
    var s := PairSlope(a, b, useWeights).value.0;
    assert s * d == b.1 - a.1;
    assert b.1 - a.1 == m * d;
    CancelFactor(s, m, d);
  }

  lemma CancelFactor(s: real, m: real, d: real)
    requires d != 0.0 && s * d == m * d
    ensures s == m
  {
    assert (s - m) * d == 0.0;
  }

  lemma {:induction false} RowSlopesOnLine(a: Point, bs: seq<Point>, m: real, c: real, useWeights: bool)
    requires a.1 == m * a.0 + c && OnLine(bs, m, c)
    ensures forall k :: 0 <= k < |RowSlopes(a, bs, useWeights)| ==> RowSlopes(a, bs, useWeights)[k].0 == m
    ensures forall k :: 0 <= k < |RowSlopes(a, bs, useWeights)| ==> RowSlopes(a, bs, useWeights)[k].1 > 0.0
    decreases |bs|
  {
    if bs != [] {
      var b := bs[|bs| - 1];
      RowSlopesOnLine(a, bs[..|bs| - 1], m, c, useWeights);
      if a.0 != b.0 {
        SlopeOnLine(a, b, m, c, useWeights);
      }
    }
  }

  lemma {:induction false} AllSlopesOnLine(outer: seq<Point>, values: seq<Point>, m: real, c: real, useWeights: bool)
    requires OnLine(outer, m, c) && OnLine(values, m, c)
    ensures forall k :: 0 <= k < |AllSlopes(outer, values, useWeights)| ==> AllSlopes(outer, values, useWeights)[k].0 == m
    ensures forall k :: 0 <= k < |AllSlopes(outer, values, useWeights)| ==> AllSlopes(outer, values, useWeights)[k].1 > 0.0
    decreases |outer|
  {
    if outer != [] {
      AllSlopesOnLine(outer[..|outer| - 1], values, m, c, useWeights);
      RowSlopesOnLine(outer[|outer| - 1], values, m, c, useWeights);
    }
  }

  lemma {:induction false} RowSlopesNonEmpty(a: Point, bs: seq<Point>, j: nat, useWeights: bool)
    requires j < |bs| && a.0 != bs[j].0
    ensures |RowSlopes(a, bs, useWeights)| > 0
    decreases |bs|
  {
    if j < |bs| - 1 {
      RowSlopesNonEmpty(a, bs[..|bs| - 1], j, useWeights);
    }
  }

  lemma {:induction false} AllSlopesNonEmpty(outer: seq<Point>, values: seq<Point>, i: nat, useWeights: bool)
    requires i < |outer| && |RowSlopes(outer[i], values, useWeights)| > 0
    ensures |AllSlopes(outer, values, useWeights)| > 0
    decreases |outer|
  {
    if i < |outer| - 1 {
      AllSlopesNonEmpty(outer[..|outer| - 1], values, i, useWeights);
    }
  }

  /** Two points with different x give at least one slope. */
  lemma SomeSlope(values: seq<Point>, useWeights: bool)
    requires TwoDistinctX(values)
    ensures |AllSlopes(values, values, useWeights)| > 0
  {
    var i, j :| 0 <= i < |values| && 0 <= j < |values| && values[i].0 != values[j].0;
    RowSlopesNonEmpty(values[i], values, j, useWeights);
    AllSlopesNonEmpty(values, values, i, useWeights);
  }

  lemma {:induction false} InterceptsOnLine(values: seq<Point>, m: real, c: real)
    requires OnLine(values, m, c)
    ensures |Intercepts(values, m)| == |values|
    ensures forall k :: 0 <= k < |values| ==> Intercepts(values, m)[k] == c
    decreases |values|
  {
    if values != [] {
      InterceptsOnLine(values[..|values| - 1], m, c);
    }
  }

  /** The intercepts of points on the line, at its slope, have median `c`. */
  lemma InterceptOnLine(values: seq<Point>, m: real, c: real)
    requires OnLine(values, m, c) && |values| > 0
    ensures Intercept(values, Some(m)) == Some(c)
  {
    var s := Intercepts(values, m);
    InterceptsOnLine(values, m, c);
    SortSorts(s);
    ConstantElements(Sort(s), s, c);
    Stats.MedianConstant(Sort(s), c);
  }

  /** Points exactly on `y = m * x + c`, two with different x: the estimate is `(m, c)`. */
  lemma TheilSenExact(values: seq<Point>, m: real, c: real)
    requires OnLine(values, m, c) && TwoDistinctX(values)
    ensures TheilSenFit(values) == (Some(m), Some(c))
  {
    var all := AllSlopes(values, values, false);
    AllSlopesOnLine(values, values, m, c, false);
    SomeSlope(values, false);
    var s := Slopes(values);
    SortSorts(s);
    ConstantElements(Sort(s), s, m);
    Stats.MedianConstant(Sort(s), m);
    InterceptOnLine(values, m, c);
  }

  /** A weighted median of values all equal to `m` is `m`. */
  lemma WeightedMedianConstant(values: seq<WeightedSlope>, m: real)
    requires forall k :: 0 <= k < |values| ==> values[k].0 == m
    ensures Stats.WeightedMedian(values).Some? ==> Stats.WeightedMedian(values).value == m
  {
  }

  /** The same for the weighted estimate, whatever order tied slopes take. */
  lemma TheilSenWeightedExact(values: seq<Point>, m: real, c: real, slopes: seq<WeightedSlope>)
    requires OnLine(values, m, c) && TwoDistinctX(values)
    requires multiset(slopes) == multiset(AllSlopes(values, values, true))
    ensures Stats.WeightedMedian(slopes) == Some(m)
    ensures Intercept(values, Stats.WeightedMedian(slopes)) == Some(c)
  {
    var all := AllSlopes(values, values, true);
    AllSlopesOnLine(values, values, m, c, true);
    SomeSlope(values, true);
    forall k | 0 <= k < |slopes|
      ensures slopes[k].0 == m && slopes[k].1 > 0.0
    {
      assert slopes[k] in multiset(all);
    }
    assert |slopes| == |all|;
    Stats.WeightedMedianExists(slopes);
    WeightedMedianConstant(slopes, m);
    InterceptOnLine(values, m, c);
  }
}

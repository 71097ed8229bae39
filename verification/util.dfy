/**
 * General helpers of the statistics library: the insertion-point binary
 * search, pairing of vectors, console padding, signed terms, hit accuracy and
 * path-name sanitising. Numbers are exact reals; `NaN` is `None`.
 */
module Util {
  import opened Wrappers

  /** `list` is sorted ascending by `key`. */
  predicate SortedBy<T>(list: seq<T>, key: T -> real)
  {
    forall i, j :: 0 <= i < j < |list| ==> key(list[i]) <= key(list[j])
  }

  /** `list` with `x` inserted at position `i`, as `splice(i, 0, x)` leaves it. */
  function InsertAt<T>(list: seq<T>, i: nat, x: T): (r: seq<T>)
    requires i <= |list|
    ensures |r| == |list| + 1 && r[i] == x && multiset(r) == multiset(list) + multiset{x}
    ensures r[..i] == list[..i] && r[i + 1..] == list[i..]
  {
    assert list == list[..i] + list[i..];
    list[..i] + [x] + list[i..]
  }

  /**
   * `binarySearch`: the position at which a value with key `value` is
   * inserted into `list`, sorted by `key`.
   */
  method BinarySearch<T>(list: seq<T>, value: real, key: T -> real) returns (index: nat)
    ensures index <= |list|
    ensures list == [] ==> index == 0
    ensures list != [] && value >= key(list[|list| - 1]) ==> index == |list|
    ensures SortedBy(list, key) && list != [] && value < key(list[0]) ==> index == 0
    ensures SortedBy(list, key) ==> 0 < index ==> key(list[index - 1]) <= value
    ensures SortedBy(list, key) ==> index < |list| ==> value <= key(list[index])
  {
    var count := |list|;
    if count == 0 {
      return 0;
    }
    var minIndex, maxIndex := 0, count - 1;
    if value >= key(list[maxIndex]) {
      index := count;
    } else if value < key(list[0]) {
      index := 0;
    } else {
      while maxIndex > minIndex + 1
        invariant 0 <= minIndex <= maxIndex < count
        invariant key(list[minIndex]) <= value
        invariant value < key(list[maxIndex]) || (minIndex == maxIndex && key(list[minIndex]) == value)
        decreases maxIndex - minIndex
      {
        var midwayIndex := (minIndex + maxIndex) / 2;
        var midwayValue := key(list[midwayIndex]);
        if value >= midwayValue {
          minIndex := midwayIndex;
        }
        if value <= midwayValue {
          maxIndex := midwayIndex;
        }
      }
      index := minIndex + 1;
    }
  }

  /**
   * A JavaScript number as `binarySearch` compares it: a real value, or
   * `NaN`, which is neither below, equal to nor above anything.
   */
  datatype JsNumber = Num(v: real) | NaN

  /** `a >= b`, `a <= b` and `a < b` on JavaScript numbers: false whenever either is `NaN`. */
  predicate AtLeast(a: JsNumber, b: JsNumber)
  {
    a.Num? && b.Num? && a.v >= b.v
  }

  predicate AtMost(a: JsNumber, b: JsNumber)
  {
    a.Num? && b.Num? && a.v <= b.v
  }

  predicate Below(a: JsNumber, b: JsNumber)
  {
    a.Num? && b.Num? && a.v < b.v
  }

  /**
   * `binarySearch` as written, over JavaScript numbers, reaches its loop:
   * neither early return is taken, and `maxIndex > minIndex + 1` holds for
   * the first bounds `(0, count - 1)`.
   */
  predicate EntersSearchLoop(list: seq<JsNumber>, value: JsNumber)
  {
    && |list| > 0
    && !AtLeast(value, list[|list| - 1])
    && !Below(value, list[0])
    && |list| - 1 > 0 + 1
  }

  /**
   * One pass of that loop on the bounds `(minIndex, maxIndex)`. Between
   * numbers a pass always narrows the bounds; it leaves both where they
   * were exactly when the value or the midway value is `NaN`.
   */
  function SearchPass(list: seq<JsNumber>, value: JsNumber, minIndex: nat, maxIndex: nat): (r: (nat, nat))
    requires minIndex + 1 < maxIndex < |list|
    ensures minIndex <= r.0 <= r.1 <= maxIndex
    ensures r == (minIndex, maxIndex) <==> value.NaN? || list[(minIndex + maxIndex) / 2].NaN?
    ensures r != (minIndex, maxIndex) ==> r.1 - r.0 < maxIndex - minIndex
  {
    var midwayIndex := (minIndex + maxIndex) / 2;
    var midwayValue := list[midwayIndex];
    (if AtLeast(value, midwayValue) then midwayIndex else minIndex,
     if AtMost(value, midwayValue) then midwayIndex else maxIndex)
  }

  /** Inserting at a position `BinarySearch` may return keeps the list sorted. */
  lemma InsertKeepsSorted<T>(list: seq<T>, i: nat, x: T, key: T -> real)
    requires SortedBy(list, key) && i <= |list|
    requires 0 < i ==> key(list[i - 1]) <= key(x)
    requires i < |list| ==> key(x) <= key(list[i])
    ensures SortedBy(InsertAt(list, i, x), key)
  {
    var r := InsertAt(list, i, x);
    forall k | 0 <= k < i
      ensures r[k] == list[k]
    {
      InsertAtElement(list, i, x, k);
    }
    forall k | i < k < |r|
      ensures r[k] == list[k - 1]
    {
      InsertAtElement(list, i, x, k);
    }
    SortedAfterInsert(list, r, i, x, key);
  }

  /** The ordering argument of `InsertKeepsSorted`, over the elements of the result. */
  lemma SortedAfterInsert<T>(list: seq<T>, r: seq<T>, i: nat, x: T, key: T -> real)
    requires SortedBy(list, key) && i <= |list| && |r| == |list| + 1
    requires 0 < i ==> key(list[i - 1]) <= key(x)
    requires i < |list| ==> key(x) <= key(list[i])
    requires forall k :: 0 <= k < i ==> r[k] == list[k]
    requires r[i] == x
    requires forall k :: i < k < |r| ==> r[k] == list[k - 1]
    ensures SortedBy(r, key)
  {
    forall a, b | 0 <= a < b < |r|
      ensures key(r[a]) <= key(r[b])
    {
      if b < i {
        SortedAt(list, key, a, b);
      } else if b == i {
        SortedAt(list, key, a, i - 1);
      } else if a == i {
        SortedAt(list, key, i, b - 1);
      } else if a < i {
        SortedAt(list, key, a, b - 1);
      } else {
        SortedAt(list, key, a - 1, b - 1);
      }
    }
  }

  lemma SortedAt<T>(list: seq<T>, key: T -> real, p: nat, q: nat)
    requires SortedBy(list, key) && p <= q < |list|
    ensures key(list[p]) <= key(list[q])
  {
    if p < q {
      assert key(list[p]) <= key(list[q]);
    }
  }

  /** The element at position `k` after inserting `x` at `i`. */
  lemma InsertAtElement<T>(list: seq<T>, i: nat, x: T, k: nat)
    requires i <= |list| && k <= |list|
    ensures InsertAt(list, i, x)[k] == if k < i then list[k] else if k == i then x else list[k - 1]
  {
    if k > i {
      assert InsertAt(list, i, x)[i + 1..][k - i - 1] == list[i..][k - i - 1];
    }
  }

  /** `getTuples`: pairs of elements at equal positions, as many as the shorter vector has. */
  method GetTuples<X, Y>(vectorX: seq<X>, vectorY: seq<Y>) returns (tuples: seq<(X, Y)>)
    ensures |tuples| == if |vectorX| < |vectorY| then |vectorX| else |vectorY|
    ensures forall i :: 0 <= i < |tuples| ==> tuples[i] == (vectorX[i], vectorY[i])
  {
    var count := if |vectorX| < |vectorY| then |vectorX| else |vectorY|;
    tuples := [];
    var i := 0;
    while i < count
      invariant 0 <= i <= count && |tuples| == i
      invariant forall k :: 0 <= k < i ==> tuples[k] == (vectorX[k], vectorY[k])
    {
      tuples := tuples + [(vectorX[i], vectorY[i])];
      i := i + 1;
    }
  }

  /** `n` spaces. */
  function Spaces(n: nat): (r: string)
    ensures |r| == n && forall k :: 0 <= k < n ==> r[k] == ' '
  {
    seq(n, _ => ' ')
  }

  /** `padString`: `str` followed by spaces up to `size` characters; never truncated. */
  function PadString(str: string, size: int): (r: string)
    ensures |r| == if size > |str| then size else |str|
    ensures r[..|str|] == str
    ensures forall k :: |str| <= k < |r| ==> r[k] == ' '
  {
    str + Spaces(if size - |str| > 0 then size - |str| else 0)
  }

  /** `term`: a signed term for a formula, `-t` as `- t` and anything else as `+ t`. */
  function Term(t: string): (r: string)
    ensures |r| >= 2 && r[1] == ' '
    ensures r[0] == '-' <==> (|t| > 0 && t[0] == '-')
    ensures r[0] == '-' || r[0] == '+'
  {
    if |t| > 0 && t[0] == '-' then "- " + t[1..] else "+ " + t
  }

  /** Reads a term back into the string it was made from. */
  function TermSource(r: string): string
    requires |r| >= 2
  {
    if r[0] == '-' then "-" + r[2..] else r[2..]
  }

  /** `Term` loses nothing: its input can be recovered. */
  lemma TermRoundTrip(t: string)
    ensures TermSource(Term(t)) == t
  {
    if |t| > 0 && t[0] == '-' {
      assert Term(t)[2..] == t[1..];
      assert "-" + t[1..] == t;
    } else {
      assert Term(t)[2..] == t;
    }
  }

  /** The hit counts of a play. */
  datatype Hits = Hits(count300: nat, count100: nat, count50: nat, countMiss: nat)

  function TotalHits(h: Hits): nat
  {
    h.count300 + h.count100 + h.count50 + h.countMiss
  }

  /**
   * `getAccuracy`: the score as a fraction of the score with every hit a 300;
   * 0/0 (no hits) is `NaN`.
   */
  function GetAccuracy(h: Hits): (r: Option<real>)
    ensures r.Some? <==> TotalHits(h) > 0
  {
    var maxRawScore := 300 * TotalHits(h);
    if maxRawScore == 0 then None
    else Some(RawScore(h) as real / maxRawScore as real)
  }

  /** The score of the hits: 300, 100 and 50 points, nothing for a miss. */
  function RawScore(h: Hits): nat
  {
    300 * h.count300 + 100 * h.count100 + 50 * h.count50
  }

  /**
   * With at least one hit the accuracy is the fraction of the best score
   * reached: between 0 and 1, and 1 exactly when every hit is a 300.
   */
  lemma GetAccuracyRange(h: Hits)
    requires TotalHits(h) > 0
    ensures 0.0 <= GetAccuracy(h).value <= 1.0
    ensures GetAccuracy(h).value == 1.0 <==> h.count100 == h.count50 == h.countMiss == 0
    ensures GetAccuracy(h).value * (300 * TotalHits(h)) as real == RawScore(h) as real
  {
    var n := RawScore(h);
    var d := 300 * TotalHits(h);
    assert n <= d;
    assert n == d <==> h.count100 == h.count50 == h.countMiss == 0;
    FractionRange(n as real, d as real);
  }

  lemma FractionRange(n: real, d: real)
    requires 0.0 <= n <= d && d > 0.0
    ensures 0.0 <= n / d <= 1.0
    ensures n / d == 1.0 <==> n == d
    ensures n / d * d == n
  {
  }

  /** `s` with every character of `cls` removed, the others kept in order. */
  function DeleteAll(s: string, cls: set<char>): (r: string)
    ensures |r| <= |s|
    ensures forall c :: c in r ==> c in s && c !in cls
  {
    if s == [] then []
    else if s[0] in cls then DeleteAll(s[1..], cls) else [s[0]] + DeleteAll(s[1..], cls)
  }

  /** Deletion works character by character: it distributes over concatenation. */
  lemma {:induction false} DeleteAllAppend(a: string, b: string, cls: set<char>)
    ensures DeleteAll(a + b, cls) == DeleteAll(a, cls) + DeleteAll(b, cls)
    decreases |a|
  {
    if a != [] {
      assert (a + b)[1..] == a[1..] + b;
      DeleteAllAppend(a[1..], b, cls);
    } else {
      assert a + b == b;
    }
  }

  /** A string without characters of `cls` is left as it is. */
  lemma {:induction false} DeleteAllNone(s: string, cls: set<char>)
    requires forall k :: 0 <= k < |s| ==> s[k] !in cls
    ensures DeleteAll(s, cls) == s
    decreases |s|
  {
    if s != [] {
      DeleteAllNone(s[1..], cls);
    }
  }

  /** The leading characters of `s` that belong to `cls`, dropped. */
  function SkipRun(s: string, cls: set<char>): (r: string)
    ensures |r| <= |s| && (s != [] && s[0] in cls ==> |r| < |s|)
    ensures r == s[|s| - |r|..]
    ensures r != [] ==> r[0] !in cls
    ensures forall k :: 0 <= k < |s| - |r| ==> s[k] in cls
  {
    if s != [] && s[0] in cls then
      SkipRunStep(s, cls, SkipRun(s[1..], cls));
      SkipRun(s[1..], cls)
    else s
  }

  lemma SkipRunStep(s: string, cls: set<char>, t: string)
    requires s != [] && s[0] in cls && |t| < |s|
    requires t == s[1..][|s| - 1 - |t|..]
    requires forall k :: 0 <= k < |s| - 1 - |t| ==> s[1..][k] in cls
    ensures t == s[|s| - |t|..]
    ensures forall k :: 0 <= k < |s| - |t| ==> s[k] in cls
  {
    forall k | 0 < k < |s| - |t|
      ensures s[k] in cls
    {
      assert s[k] == s[1..][k - 1];
    }
  }

  /** `s.replace(/[cls]+/g, mark)`: each maximal run of characters of `cls` becomes one `mark`. */
  function ReplaceRuns(s: string, cls: set<char>, mark: char): (r: string)
    requires mark !in cls
    ensures |r| <= |s|
    ensures forall k :: 0 <= k < |r| ==> r[k] !in cls
    decreases |s|
  {
    if s == [] then []
    else if s[0] in cls then [mark] + ReplaceRuns(SkipRun(s, cls), cls, mark)
    else [s[0]] + ReplaceRuns(s[1..], cls, mark)
  }

  /** A non-empty run of characters of `cls` becomes a single `mark`. */
  lemma ReplaceRunsRun(run: string, cls: set<char>, mark: char)
    requires mark !in cls && run != [] && forall k :: 0 <= k < |run| ==> run[k] in cls
    ensures ReplaceRuns(run, cls, mark) == [mark]
  {
    assert SkipRun(run, cls) == [];
  }

  /** Skipping a run of `a + b` skips it in `a`, and in `b` too when `a` is all run. */
  lemma {:induction false} SkipRunAppend(a: string, b: string, cls: set<char>)
    ensures SkipRun(a, cls) != [] ==> SkipRun(a + b, cls) == SkipRun(a, cls) + b
    ensures SkipRun(a, cls) == [] ==> SkipRun(a + b, cls) == SkipRun(b, cls)
    decreases |a|
  {
    var ab := a + b;
    if a == [] {
      assert ab == b;
    } else if a[0] in cls {
      assert ab[0] == a[0] && ab[1..] == a[1..] + b;
      assert SkipRun(ab, cls) == SkipRun(ab[1..], cls);
      assert SkipRun(a, cls) == SkipRun(a[1..], cls);
      SkipRunAppend(a[1..], b, cls);
    } else {
      assert ab[0] == a[0];
      assert SkipRun(ab, cls) == ab;
    }
  }

  /**
   * Runs are replaced piece by piece: where `a` and `b` do not join one run
   * across their border, replacing in `a + b` replaces in each.
   */
  lemma {:induction false} ReplaceRunsAppend(a: string, b: string, cls: set<char>, mark: char)
    requires mark !in cls
    requires a == [] || a[|a| - 1] !in cls || b == [] || b[0] !in cls
    ensures ReplaceRuns(a + b, cls, mark) == ReplaceRuns(a, cls, mark) + ReplaceRuns(b, cls, mark)
    decreases |a|, 1
  {
    if a == [] {
      assert a + b == b;
    } else if a[0] in cls {
      ReplaceRunsAppendRun(a, b, cls, mark);
    } else {
      var ab := a + b;
      assert ab[0] == a[0] && ab[1..] == a[1..] + b;
      assert ReplaceRuns(ab, cls, mark) == [ab[0]] + ReplaceRuns(ab[1..], cls, mark);
      ReplaceRunsAppend(a[1..], b, cls, mark);
      ConcatAssoc([a[0]], ReplaceRuns(a[1..], cls, mark), ReplaceRuns(b, cls, mark));
    }
  }

  lemma ConcatAssoc(x: string, y: string, z: string)
    ensures x + (y + z) == (x + y) + z
  {
  }

  /** `ReplaceRunsAppend` when `a` starts with a run. */
  lemma {:induction false} ReplaceRunsAppendRun(a: string, b: string, cls: set<char>, mark: char)
    requires mark !in cls && a != [] && a[0] in cls
    requires a[|a| - 1] !in cls || b == [] || b[0] !in cls
    ensures ReplaceRuns(a + b, cls, mark) == ReplaceRuns(a, cls, mark) + ReplaceRuns(b, cls, mark)
    decreases |a|, 0
  {
    var t := SkipRun(a, cls);
    SkipRunAppend(a, b, cls);
    assert ReplaceRuns(a + b, cls, mark) == [mark] + ReplaceRuns(SkipRun(a + b, cls), cls, mark) by {
      assert (a + b)[0] == a[0];
    }
    if t == [] {
      assert SkipRun(a + b, cls) == b by {
        assert a[|a| - 1] in cls;
      }
      ReplaceRunsRun(a, cls, mark);
    } else {
      assert t[|t| - 1] == a[|a| - 1];
      ReplaceRunsAppend(t, b, cls, mark);
      ConcatAssoc([mark], ReplaceRuns(t, cls, mark), ReplaceRuns(b, cls, mark));
    }
  }

  /**
   * Each maximal run becomes exactly one `mark`: a non-empty run of `cls`
   * between a prefix that does not end in `cls` and a suffix that does not
   * start in it is replaced by one `mark`, the rest being replaced on its own.
   */
  lemma ReplaceRunsSplit(x: string, run: string, y: string, cls: set<char>, mark: char)
    requires mark !in cls && run != [] && forall k :: 0 <= k < |run| ==> run[k] in cls
    requires x == [] || x[|x| - 1] !in cls
    requires y == [] || y[0] !in cls
    ensures ReplaceRuns(x + run + y, cls, mark) == ReplaceRuns(x, cls, mark) + [mark] + ReplaceRuns(y, cls, mark)
  {
    ConcatAssoc(x, run, y);
    ReplaceRunsAppend(x, run + y, cls, mark);
    ReplaceRunsAppend(run, y, cls, mark);
    ReplaceRunsRun(run, cls, mark);
    ConcatAssoc(ReplaceRuns(x, cls, mark), [mark], ReplaceRuns(y, cls, mark));
  }

  /** A string without characters of `cls` has no run to replace. */
  lemma {:induction false} ReplaceRunsNone(s: string, cls: set<char>, mark: char)
    requires mark !in cls && forall k :: 0 <= k < |s| ==> s[k] !in cls
    ensures ReplaceRuns(s, cls, mark) == s
    decreases |s|
  {
    if s != [] {
      ReplaceRunsNone(s[1..], cls, mark);
    }
  }

  /**
   * Replacing runs keeps every other character in order: with the marks
   * and the replaced characters both deleted, the input and the output agree.
   */
  lemma {:induction false} ReplaceRunsKeepsOthers(s: string, cls: set<char>, mark: char)
    requires mark !in cls
    ensures DeleteAll(ReplaceRuns(s, cls, mark), cls + {mark}) == DeleteAll(s, cls + {mark})
    decreases |s|
  {
    if s != [] {
      if s[0] in cls {
        var t := SkipRun(s, cls);
        var skipped := s[..|s| - |t|];
        assert s == skipped + t;
        DeleteAllAppend(skipped, t, cls + {mark});
        DeleteAllNoneIn(skipped, cls, mark);
        ReplaceRunsKeepsOthers(t, cls, mark);
        assert [mark] + ReplaceRuns(t, cls, mark) == ReplaceRuns(s, cls, mark);
        DeleteAllAppend([mark], ReplaceRuns(t, cls, mark), cls + {mark});
        assert DeleteAll([mark], cls + {mark}) == [];
      } else {
        ReplaceRunsKeepsOthers(s[1..], cls, mark);
        assert [s[0]] + ReplaceRuns(s[1..], cls, mark) == ReplaceRuns(s, cls, mark);
        DeleteAllAppend([s[0]], ReplaceRuns(s[1..], cls, mark), cls + {mark});
        DeleteAllAppend([s[0]], s[1..], cls + {mark});
        assert [s[0]] + s[1..] == s;
      }
    }
  }

  lemma DeleteAllNoneIn(s: string, cls: set<char>, mark: char)
    requires forall k :: 0 <= k < |s| ==> s[k] in cls
    ensures DeleteAll(s, cls + {mark}) == []
    decreases |s|
  {
    if s != [] {
      DeleteAllNoneIn(s[1..], cls, mark);
    }
  }

  /** Characters a folder name has each run of replaced by `_`. */
  const FolderReplaced: set<char> := {'\\', '?', '\"', '<', '>', '|'}
  /** Characters deleted from a folder name. */
  const FolderDeleted: set<char> := {'.', '*', ':', '/'}
  /** Characters deleted from a file name. */
  const FileDeleted: set<char> := {'\\', '/', ':', '*', '?', '\"', '<', '>', '|'}

  /**
   * `sanitizePathName`: for a folder, runs of `\ ? " < > |` become `_` and
   * `. * : /` are deleted; for a file, all of `\ / : * ? " < > |` are deleted.
   */
  function SanitizePathName(pathName: string, isFolder: bool): (r: string)
    ensures isFolder ==> forall c :: c in r ==> c !in FolderReplaced && c !in FolderDeleted
    ensures !isFolder ==> forall c :: c in r ==> c !in FileDeleted
  {
    if isFolder then DeleteAll(ReplaceRuns(pathName, FolderReplaced, '_'), FolderDeleted)
    else DeleteAll(pathName, FileDeleted)
  }

  /**
   * Sanitising works piece by piece: a single character is kept or deleted
   * by its class, a run of `\ ? " < > |` in a folder name becomes one `_`,
   * and two pieces not joined by such a run are sanitised separately.
   */
  lemma SanitizeChar(c: char, isFolder: bool)
    requires isFolder ==> c !in FolderReplaced
    ensures SanitizePathName([c], isFolder) ==
            if c in (if isFolder then FolderDeleted else FileDeleted) then [] else [c]
  {
    if isFolder {
      ReplaceRunsNone([c], FolderReplaced, '_');
    }
  }

  lemma SanitizeFolderRun(run: string)
    requires run != [] && forall k :: 0 <= k < |run| ==> run[k] in FolderReplaced
    ensures SanitizePathName(run, true) == "_"
  {
    ReplaceRunsRun(run, FolderReplaced, '_');
  }

  lemma SanitizeAppend(a: string, b: string, isFolder: bool)
    requires isFolder ==> a == [] || a[|a| - 1] !in FolderReplaced || b == [] || b[0] !in FolderReplaced
    ensures SanitizePathName(a + b, isFolder) == SanitizePathName(a, isFolder) + SanitizePathName(b, isFolder)
  {
    if isFolder {
      ReplaceRunsAppend(a, b, FolderReplaced, '_');
      DeleteAllAppend(ReplaceRuns(a, FolderReplaced, '_'), ReplaceRuns(b, FolderReplaced, '_'), FolderDeleted);
    } else {
      DeleteAllAppend(a, b, FileDeleted);
    }
  }

  /** A name that is already clean is left unchanged, so sanitising twice is sanitising once. */
  lemma SanitizeIdempotent(pathName: string, isFolder: bool)
    ensures SanitizePathName(SanitizePathName(pathName, isFolder), isFolder) == SanitizePathName(pathName, isFolder)
  {
    var r := SanitizePathName(pathName, isFolder);
    if isFolder {
      ReplaceRunsNone(r, FolderReplaced, '_');
      DeleteAllNone(r, FolderDeleted);
    } else {
      DeleteAllNone(r, FileDeleted);
    }
  }
}

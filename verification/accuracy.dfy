/**
 * The accuracy split of the command-line tool: a player's scored top plays
 * are ordered by difficulty, the harder half (rounded up) is separated from
 * the easier half, and each half's median accuracy is reported, next to the
 * player's overall accuracy. The user list on the command line is split on
 * commas, trimmed and checked against the characters a username may hold.
 * The API calls that fetch and score the plays are inputs here.
 */
module OsuAccuracy {
  import opened Wrappers
  import Util
  import Stats

  /** A top play as fetched; a field is `None` when scoring it failed. */
  datatype Play = Play(maxpp: Option<real>, accuracy: Option<real>)

  /** A play that kept a truthy maximum pp and accuracy. */
  datatype Scored = Scored(maxpp: real, accuracy: real)

  /** The user record fields used: `pp_raw`, `accuracy` (a percentage) and `level`. */
  datatype UserData = UserData(ppRaw: real, accuracy: real, level: real)

  datatype Performance = Performance(pp: int, accuracy: real, level: real, topPlays: seq<Scored>)

  datatype Variants = Variants(stable: real, range: (real, real), rangeMulti: int)

  /** A number is truthy unless it is 0 or NaN (here `None`). */
  predicate Truthy(x: Option<real>)
  {
    x.Some? && x.value != 0.0
  }

  /** `topPlays.filter(playData => playData.maxpp && playData.accuracy)`. */
  function Kept(plays: seq<Play>): (r: seq<Scored>)
    ensures |r| <= |plays|
  {
    if plays == [] then []
    else
      var p := plays[|plays| - 1];
      var rest := Kept(plays[..|plays| - 1]);
      if Truthy(p.maxpp) && Truthy(p.accuracy) then rest + [Scored(p.maxpp.value, p.accuracy.value)] else rest
  }

  /** A play is kept exactly when both its fields are truthy, in its original order. */
  lemma {:induction false} KeptMembers(plays: seq<Play>, s: Scored)
    ensures s in Kept(plays) <==> Play(Some(s.maxpp), Some(s.accuracy)) in plays && s.maxpp != 0.0 && s.accuracy != 0.0
    decreases |plays|
  {
    if plays != [] {
      var init := plays[..|plays| - 1];
      assert plays == init + [plays[|plays| - 1]];
      KeptMembers(init, s);
    }
  }

  /** Filtering distributes over concatenation, so relative order is kept. */
  lemma {:induction false} KeptAppend(a: seq<Play>, b: seq<Play>)
    ensures Kept(a + b) == Kept(a) + Kept(b)
    decreases |b|
  {
    if b == [] {
      assert a + b == a;
    } else {
      var init := b[..|b| - 1];
      assert (a + b)[..|a + b| - 1] == a + init;
      assert (a + b)[|a + b| - 1] == b[|b| - 1];
      KeptAppend(a, init);
    }
  }

  /** JavaScript's `Math.round`: halves round up. */
  function Round(x: real): (r: int)
    ensures x - 0.5 < r as real <= x + 0.5
  {
    (x + 0.5).Floor
  }

  /**
   * What `fetchPlayerPerformance` returns once the user record and the top
   * plays (with their pp and accuracy scored) are in: nothing without a
   * user or without plays.
   */
  function Fetched(user: Option<UserData>, plays: seq<Play>): (r: Option<Performance>)
    ensures r.None? <==> user.None? || plays == []
    ensures r.Some? ==> r.value.accuracy * 100.0 == user.value.accuracy && r.value.topPlays == Kept(plays)
    ensures r.Some? ==> r.value.pp == Round(user.value.ppRaw) && r.value.level == user.value.level
  {
    if user.None? || plays == [] then None
    else Some(Performance(Round(user.value.ppRaw), user.value.accuracy / 100.0, user.value.level, Kept(plays)))
  }

  /** `Collator.difficulty`: negative when `a` is harder. */
  function Difficulty(a: Scored, b: Scored): real
  {
    b.maxpp - a.maxpp
  }

  /** `Collator.accuracy`: negative when `a` is less accurate. */
  function Accuracy(a: Scored, b: Scored): real
  {
    a.accuracy - b.accuracy
  }

  /** The sort keys the collators compare: harder first, less accurate first. */
  function DifficultyKey(p: Scored): real
  {
    -p.maxpp
  }

  function AccuracyKey(p: Scored): real
  {
    p.accuracy
  }

  /**
   * A list in key order is in the collator's order: every earlier play
   * compares at most equal to every later one.
   */
  lemma CollatorOrder(s: seq<Scored>, i: nat, j: nat)
    requires i <= j < |s|
    ensures Util.SortedBy(s, DifficultyKey) ==> Difficulty(s[i], s[j]) <= 0.0 && s[j].maxpp <= s[i].maxpp
    ensures Util.SortedBy(s, AccuracyKey) ==> Accuracy(s[i], s[j]) <= 0.0 && s[i].accuracy <= s[j].accuracy
  {
    if Util.SortedBy(s, DifficultyKey) {
      Util.SortedAt(s, DifficultyKey, i, j);
    }
    if Util.SortedBy(s, AccuracyKey) {
      Util.SortedAt(s, AccuracyKey, i, j);
    }
  }

  /** The plays of `s` whose key is `k`, in their order in `s`. */
  function WithKey(s: seq<Scored>, key: Scored -> real, k: real): seq<Scored>
  {
    if s == [] then []
    else WithKey(s[..|s| - 1], key, k) + (if key(s[|s| - 1]) == k then [s[|s| - 1]] else [])
  }

  /** Picking the plays of one key distributes over concatenation. */
  lemma {:induction false} WithKeyAppend(a: seq<Scored>, b: seq<Scored>, key: Scored -> real, k: real)
    ensures WithKey(a + b, key, k) == WithKey(a, key, k) + WithKey(b, key, k)
    decreases |b|
  {
    if b == [] {
      assert a + b == a;
    } else {
      var init := b[..|b| - 1];
      assert (a + b)[..|a + b| - 1] == a + init;
      assert (a + b)[|a + b| - 1] == b[|b| - 1];
      WithKeyAppend(a, init, key, k);
    }
  }

  lemma {:induction false} WithKeyNone(s: seq<Scored>, key: Scored -> real, k: real)
    requires forall i :: 0 <= i < |s| ==> key(s[i]) != k
    ensures WithKey(s, key, k) == []
    decreases |s|
  {
    if s != [] {
      WithKeyNone(s[..|s| - 1], key, k);
    }
  }

  /**
   * `r` is `list` sorted stably by `key`: a permutation in key order in
   * which the plays of each key keep the order they had in `list`.
   */
  ghost predicate IsStableSort(r: seq<Scored>, list: seq<Scored>, key: Scored -> real)
  {
    && Util.SortedBy(r, key)
    && multiset(r) == multiset(list)
    && forall k :: WithKey(r, key, k) == WithKey(list, key, k)
  }

  /** Sorted lists with the same plays end in plays of the same key. */
  lemma LastKeysAgree(a: seq<Scored>, b: seq<Scored>, key: Scored -> real)
    requires Util.SortedBy(a, key) && Util.SortedBy(b, key) && multiset(a) == multiset(b)
    requires a != [] && b != []
    ensures key(a[|a| - 1]) == key(b[|b| - 1])
  {
    assert a[|a| - 1] in multiset(b) && b[|b| - 1] in multiset(a);
    var j :| 0 <= j < |b| && b[j] == a[|a| - 1];
    var i :| 0 <= i < |a| && a[i] == b[|b| - 1];
    Util.SortedAt(b, key, j, |b| - 1);
    Util.SortedAt(a, key, i, |a| - 1);
  }

  /** Dropping the last play drops it from the plays of its key only. */
  lemma WithKeyInit(s: seq<Scored>, key: Scored -> real, k: real)
    requires s != []
    ensures WithKey(s, key, k) == WithKey(s[..|s| - 1], key, k) + (if key(s[|s| - 1]) == k then [s[|s| - 1]] else [])
  {
  }

  lemma AppendCancel(x: seq<Scored>, y: seq<Scored>, tail: seq<Scored>)
    requires x + tail == y + tail
    ensures x == y
  {
    assert |x| == |y|;
    assert x == (x + tail)[..|x|] && y == (y + tail)[..|y|];
  }

  /** The predicate `SameKeyOrder` starts from. */
  ghost predicate KeyOrderAgrees(a: seq<Scored>, b: seq<Scored>, key: Scored -> real)
  {
    && Util.SortedBy(a, key) && Util.SortedBy(b, key) && multiset(a) == multiset(b)
    && forall k :: WithKey(a, key, k) == WithKey(b, key, k)
  }

  /** Such lists end in the same play. */
  lemma LastsAgree(a: seq<Scored>, b: seq<Scored>, key: Scored -> real)
    requires KeyOrderAgrees(a, b, key) && a != []
    ensures b != [] && a[|a| - 1] == b[|b| - 1]
  {
    assert |b| == |multiset(b)| == |a|;
    LastKeysAgree(a, b, key);
    var top := key(a[|a| - 1]);
    WithKeyInit(a, key, top);
    WithKeyInit(b, key, top);
    var wa, wb := WithKey(a, key, top), WithKey(b, key, top);
    assert wa == wb && wa[|wa| - 1] == a[|a| - 1] && wb[|wb| - 1] == b[|b| - 1];
  }

  /** Without that last play they still agree. */
  lemma InitsAgree(a: seq<Scored>, b: seq<Scored>, key: Scored -> real)
    requires KeyOrderAgrees(a, b, key) && a != [] && b != [] && a[|a| - 1] == b[|b| - 1]
    ensures KeyOrderAgrees(a[..|a| - 1], b[..|b| - 1], key)
  {
    var a', b' := a[..|a| - 1], b[..|b| - 1];
    forall k
      ensures WithKey(a', key, k) == WithKey(b', key, k)
    {
      InitWithKey(a, b, key, k);
    }
    InitSorted(a, key);
    InitSorted(b, key);
    InitMultiset(a);
    InitMultiset(b);
  }

  lemma InitSorted(a: seq<Scored>, key: Scored -> real)
    requires Util.SortedBy(a, key) && a != []
    ensures Util.SortedBy(a[..|a| - 1], key)
  {
  }

  lemma InitMultiset(a: seq<Scored>)
    requires a != []
    ensures multiset(a[..|a| - 1]) == multiset(a) - multiset{a[|a| - 1]}
  {
    assert a == a[..|a| - 1] + [a[|a| - 1]];
  }

  lemma InitWithKey(a: seq<Scored>, b: seq<Scored>, key: Scored -> real, k: real)
    requires a != [] && b != [] && a[|a| - 1] == b[|b| - 1]
    requires WithKey(a, key, k) == WithKey(b, key, k)
    ensures WithKey(a[..|a| - 1], key, k) == WithKey(b[..|b| - 1], key, k)
  {
    var last := a[|a| - 1];
    WithKeyInit(a, key, k);
    WithKeyInit(b, key, k);
    var tail := if key(last) == k then [last] else [];
    AppendCancel(WithKey(a[..|a| - 1], key, k), WithKey(b[..|b| - 1], key, k), tail);
  }

  /**
   * Two lists in key order with the same plays, and the plays of each key
   * in the same order, are the same list.
   */
  lemma {:induction false} SameKeyOrder(a: seq<Scored>, b: seq<Scored>, key: Scored -> real)
    requires KeyOrderAgrees(a, b, key)
    ensures a == b
    decreases |a|
  {
    if a == [] {
      assert |b| == |multiset(b)| == 0;
    } else {
      LastsAgree(a, b, key);
      InitsAgree(a, b, key);
      SameKeyOrder(a[..|a| - 1], b[..|b| - 1], key);
      assert a == a[..|a| - 1] + [a[|a| - 1]] && b == b[..|b| - 1] + [b[|b| - 1]];
    }
  }

  /** A list has one stable sort by a key. */
  lemma StableSortUnique(r1: seq<Scored>, r2: seq<Scored>, list: seq<Scored>, key: Scored -> real)
    requires IsStableSort(r1, list, key) && IsStableSort(r2, list, key)
    ensures r1 == r2
  {
    SameKeyOrder(r1, r2, key);
  }

  /**
   * One step of the sort: `x` goes after every play whose key is at most
   * its own, so after the plays of its key already placed.
   */
  method InsertPlay(list: seq<Scored>, x: Scored, key: Scored -> real) returns (r: seq<Scored>)
    requires Util.SortedBy(list, key)
    ensures Util.SortedBy(r, key) && multiset(r) == multiset(list) + multiset{x}
    ensures forall k :: WithKey(r, key, k) == WithKey(list + [x], key, k)
  {
    var index := 0;
    while index < |list| && key(list[index]) <= key(x)
      invariant 0 <= index <= |list|
      invariant forall i :: 0 <= i < index ==> key(list[i]) <= key(x)
    {
      index := index + 1;
    }
    forall i | index <= i < |list|
      ensures key(x) < key(list[i])
    {
      Util.SortedAt(list, key, index, i);
    }
    Util.InsertKeepsSorted(list, index, x, key);
    r := Util.InsertAt(list, index, x);
    InsertAtWithKey(list, index, x, key);
  }

  lemma InsertAtWithKey(list: seq<Scored>, index: nat, x: Scored, key: Scored -> real)
    requires index <= |list|
    requires forall i :: index <= i < |list| ==> key(x) < key(list[i])
    ensures forall k :: WithKey(Util.InsertAt(list, index, x), key, k) == WithKey(list + [x], key, k)
  {
    var front, back := list[..index], list[index..];
    assert Util.InsertAt(list, index, x) == front + [x] + back && list + [x] == front + back + [x];
    forall k
      ensures WithKey(front + [x] + back, key, k) == WithKey(front + back + [x], key, k)
    {
      InsertWithKey(front, back, x, key, k);
    }
  }

  /**
   * Inserting `x` before plays of greater key picks, for every key, the
   * same plays in the same order as appending it.
   */
  lemma InsertWithKey(front: seq<Scored>, back: seq<Scored>, x: Scored, key: Scored -> real, k: real)
    requires forall i :: 0 <= i < |back| ==> key(x) < key(back[i])
    ensures WithKey(front + [x] + back, key, k) == WithKey(front + back + [x], key, k)
  {
    WithKeyAppend(front + [x], back, key, k);
    WithKeyAppend(front, [x], key, k);
    WithKeyAppend(front + back, [x], key, k);
    WithKeyAppend(front, back, key, k);
    WithKeyInit([x], key, k);
    if key(x) == k {
      WithKeyNone(back, key, k);
    }
  }

  /**
   * `list.sort(collator)`: JavaScript's sort is stable, so the result is
   * the list's one stable sort by the collator's key, built here by
   * insertion.
   */
  method SortPlays(list: seq<Scored>, key: Scored -> real) returns (r: seq<Scored>)
    ensures Util.SortedBy(r, key) && multiset(r) == multiset(list)
    ensures IsStableSort(r, list, key)
  {
    r := [];
    var i := 0;
    while i < |list|
      invariant 0 <= i <= |list|
      invariant IsStableSort(r, list[..i], key)
    {
      r := InsertPlay(r, list[i], key);
      assert list[..i + 1] == list[..i] + [list[i]];
      forall k
        ensures WithKey(r, key, k) == WithKey(list[..i + 1], key, k)
      {
        WithKeyAppend(list[..i], [list[i]], key, k);
      }
      i := i + 1;
    }
    assert list[..i] == list;
  }

  /** The accuracies of a list of plays, in order. */
  function Accuracies(s: seq<Scored>): (r: seq<real>)
    ensures |r| == |s| && forall i :: 0 <= i < |s| ==> r[i] == s[i].accuracy
  {
    seq(|s|, i requires 0 <= i < |s| => s[i].accuracy)
  }

  /** `getMedianAccuracy`: 0 for no plays, else the middle accuracy or the mean of the two middle ones. */
  function MedianAccuracy(scores: seq<Scored>): (r: real)
    ensures scores == [] ==> r == 0.0
    ensures scores != [] ==> Stats.MedianSorted(Accuracies(scores)) == Some(r)
  {
    if |scores| == 0 then 0.0
    else
      var modulus := |scores| % 2;
      var halfLength := (|scores| - modulus) / 2;
      if modulus != 0 then scores[halfLength].accuracy
      else (scores[halfLength - 1].accuracy + scores[halfLength].accuracy) / 2.0
  }

  /**
   * For plays in accuracy order the median accuracy is the statistics
   * module's median of their accuracies, and lies between the least and
   * the greatest accuracy.
   */
  lemma MedianAgrees(scores: seq<Scored>)
    requires scores != []
    ensures Stats.MedianSorted(Accuracies(scores)) == Some(MedianAccuracy(scores))
    ensures Util.SortedBy(scores, AccuracyKey) ==>
      scores[0].accuracy <= MedianAccuracy(scores) <= scores[|scores| - 1].accuracy
  {
    var values := Accuracies(scores);
    if Util.SortedBy(scores, AccuracyKey) {
      assert Stats.Sorted(values) by {
        forall i, j | 0 <= i < j < |values|
          ensures values[i] <= values[j]
        {
          Util.SortedAt(scores, AccuracyKey, i, j);
        }
      }
    }
  }

  /**
   * A split of the plays: the harder half, rounded up, and the easier half,
   * together exactly the plays, each in accuracy order, with no easy play
   * worth more pp than a hard one.
   */
  predicate IsSplit(plays: seq<Scored>, hard: seq<Scored>, easy: seq<Scored>)
  {
    && |hard| == (|plays| + 1) / 2
    && |easy| == |plays| / 2
    && multiset(hard) + multiset(easy) == multiset(plays)
    && (forall h, e :: h in hard && e in easy ==> e.maxpp <= h.maxpp)
    && Util.SortedBy(hard, AccuracyKey)
    && Util.SortedBy(easy, AccuracyKey)
  }

  /**
   * The split the program makes: the plays sorted stably by difficulty,
   * the first `ceil(n / 2)` of those sorted stably by accuracy as the hard
   * half, and the rest likewise as the easy half. Plays of equal pp keep
   * their fetched order, which decides the side of a tie at the cut.
   */
  ghost predicate IsExactSplit(plays: seq<Scored>, byDifficulty: seq<Scored>, hard: seq<Scored>, easy: seq<Scored>)
  {
    && |byDifficulty| == |plays|
    && IsStableSort(byDifficulty, plays, DifficultyKey)
    && IsStableSort(hard, byDifficulty[..(|plays| + 1) / 2], AccuracyKey)
    && IsStableSort(easy, byDifficulty[(|plays| + 1) / 2..], AccuracyKey)
  }

  /** The plays determine the program's split completely. */
  lemma ExactSplitUnique(plays: seq<Scored>, d1: seq<Scored>, hard1: seq<Scored>, easy1: seq<Scored>,
                         d2: seq<Scored>, hard2: seq<Scored>, easy2: seq<Scored>)
    requires IsExactSplit(plays, d1, hard1, easy1) && IsExactSplit(plays, d2, hard2, easy2)
    ensures d1 == d2 && hard1 == hard2 && easy1 == easy2
  {
    var cut := (|plays| + 1) / 2;
    StableSortUnique(d1, d2, plays, DifficultyKey);
    StableSortUnique(hard1, hard2, d1[..cut], AccuracyKey);
    StableSortUnique(easy1, easy2, d1[cut..], AccuracyKey);
  }

  /** The program's split is a split. */
  lemma ExactSplitIsSplit(plays: seq<Scored>, byDifficulty: seq<Scored>, hard: seq<Scored>, easy: seq<Scored>)
    requires IsExactSplit(plays, byDifficulty, hard, easy)
    ensures IsSplit(plays, hard, easy)
  {
    var cut := (|plays| + 1) / 2;
    CutOrdered(byDifficulty, cut, hard, easy);
    CutSizes(byDifficulty, cut, hard, easy);
  }

  /**
   * In difficulty order, every play before a cut is at least as hard as
   * every play after it, whatever order each side is then put in.
   */
  lemma CutOrdered(sorted: seq<Scored>, cut: nat, hard: seq<Scored>, easy: seq<Scored>)
    requires Util.SortedBy(sorted, DifficultyKey) && cut <= |sorted|
    requires multiset(hard) == multiset(sorted[..cut]) && multiset(easy) == multiset(sorted[cut..])
    ensures forall h, e :: h in hard && e in easy ==> e.maxpp <= h.maxpp
  {
    forall h, e | h in hard && e in easy
      ensures e.maxpp <= h.maxpp
    {
      assert h in multiset(sorted[..cut]) && e in multiset(sorted[cut..]);
      var i :| 0 <= i < cut && sorted[i] == h;
      var j :| cut <= j < |sorted| && sorted[j] == e;
      Util.SortedAt(sorted, DifficultyKey, i, j);
    }
  }

  /** Cutting a list and reordering both sides keeps the sizes and, together, the elements. */
  lemma CutSizes(sorted: seq<Scored>, cut: nat, hard: seq<Scored>, easy: seq<Scored>)
    requires cut <= |sorted|
    requires multiset(hard) == multiset(sorted[..cut]) && multiset(easy) == multiset(sorted[cut..])
    ensures |hard| == cut && |easy| == |sorted| - cut
    ensures multiset(hard) + multiset(easy) == multiset(sorted)
  {
    assert |hard| == |multiset(sorted[..cut])|;
    assert |easy| == |multiset(sorted[cut..])|;
    assert sorted == sorted[..cut] + sorted[cut..];
  }

  /**
   * Lines 62-65: sort by difficulty, `splice` off the plays from index
   * `ceil(n / 2)` on as the easy half, and sort both halves by accuracy.
   */
  method SplitPlays(topPlays: seq<Scored>) returns (hard: seq<Scored>, easy: seq<Scored>)
    ensures IsSplit(topPlays, hard, easy)
    ensures exists byDifficulty :: IsExactSplit(topPlays, byDifficulty, hard, easy)
  {
    var byDifficulty := SortPlays(topPlays, DifficultyKey);
    assert |byDifficulty| == |multiset(byDifficulty)| == |topPlays|;
    var cut := (|byDifficulty| + 1) / 2;
    easy := SortPlays(byDifficulty[cut..], AccuracyKey);
    hard := SortPlays(byDifficulty[..cut], AccuracyKey);
    assert IsExactSplit(topPlays, byDifficulty, hard, easy);
    ExactSplitIsSplit(topPlays, byDifficulty, hard, easy);
  }

  /**
   * `getPlayerAccuracyVariants`: nothing when no performance was fetched;
   * otherwise the overall accuracy, the medians of the easy and hard halves
   * of the program's split of the plays (one split, by `ExactSplitUnique`),
   * and a `rangeMulti` that is always 0.
   */
  method AccuracyVariants(performance: Option<Performance>) returns (r: Option<Variants>)
    ensures r.None? <==> performance.None?
    ensures r.Some? ==> r.value.stable == performance.value.accuracy && r.value.rangeMulti == 0
    ensures r.Some? ==> exists byDifficulty, hard, easy ::
      && IsExactSplit(performance.value.topPlays, byDifficulty, hard, easy)
      && IsSplit(performance.value.topPlays, hard, easy)
      && r.value.range == (MedianAccuracy(easy), MedianAccuracy(hard))
  {
    if performance.None? {
      return None;
    }
    var hard, easy := SplitPlays(performance.value.topPlays);
    r := Some(Variants(performance.value.accuracy, (MedianAccuracy(easy), MedianAccuracy(hard)), 0));
  }

  /** Each reported median lies between the least and greatest accuracy of its half; an empty half reports 0. */
  lemma SplitMedians(plays: seq<Scored>, hard: seq<Scored>, easy: seq<Scored>)
    requires IsSplit(plays, hard, easy)
    ensures plays == [] ==> MedianAccuracy(hard) == 0.0 && MedianAccuracy(easy) == 0.0
    ensures |plays| == 1 ==> MedianAccuracy(easy) == 0.0 && MedianAccuracy(hard) == plays[0].accuracy
    ensures hard != [] ==> hard[0].accuracy <= MedianAccuracy(hard) <= hard[|hard| - 1].accuracy
    ensures easy != [] ==> easy[0].accuracy <= MedianAccuracy(easy) <= easy[|easy| - 1].accuracy
  {
    if hard != [] {
      MedianAgrees(hard);
    }
    if easy != [] {
      MedianAgrees(easy);
    }
    if |plays| == 1 {
      assert multiset(hard) == multiset(plays);
      assert hard[0] in multiset(plays);
    }
  }

  const UsageError: string := "Specify the user names as a command line argument (comma-separated list)"

  /** `String.prototype.split` on one character. */
  function Split(s: string, sep: char): (r: seq<string>)
    ensures |r| >= 1
    ensures forall i :: 0 <= i < |r| ==> sep !in r[i]
  {
    if s == [] then [[]]
    else
      var rest := Split(s[1..], sep);
      if s[0] == sep then [[]] + rest else [[s[0]] + rest[0]] + rest[1..]
  }

  /** `Array.prototype.join`. */
  function Join(pieces: seq<string>, sep: char): string
  {
    if pieces == [] then []
    else if |pieces| == 1 then pieces[0]
    else pieces[0] + [sep] + Join(pieces[1..], sep)
  }

  /** Joining the pieces again gives back the string that was split. */
  lemma {:induction false} SplitJoin(s: string, sep: char)
    ensures Join(Split(s, sep), sep) == s
    decreases |s|
  {
    if s != [] {
      SplitJoin(s[1..], sep);
      var rest := Split(s[1..], sep);
      assert s == [s[0]] + s[1..];
      if s[0] != sep && |rest| > 1 {
        assert ([s[0]] + rest[0]) + [sep] + Join(rest[1..], sep) == [s[0]] + (rest[0] + [sep] + Join(rest[1..], sep));
      }
    }
  }

  /** JavaScript's white space and line terminators, as `trim` and `\s` see them. */
  predicate IsJsSpace(c: char)
  {
    var n := c as int;
    || 0x09 <= n <= 0x0D || n == 0x20 || n == 0xA0 || n == 0x1680 || 0x2000 <= n <= 0x200A
    || n == 0x2028 || n == 0x2029 || n == 0x202F || n == 0x205F || n == 0x3000 || n == 0xFEFF
  }

  /** Leading white space removed: everything dropped is white space, and what is left starts with none. */
  function TrimStart(s: string): (r: string)
    ensures |r| <= |s| && r == s[|s| - |r|..]
    ensures forall k :: 0 <= k < |s| - |r| ==> IsJsSpace(s[k])
    ensures r != [] ==> !IsJsSpace(r[0])
  {
    if s != [] && IsJsSpace(s[0]) then TrimStart(s[1..]) else s
  }

  /** Trailing white space removed, likewise. */
  function TrimEnd(s: string): (r: string)
    ensures |r| <= |s| && r == s[..|r|]
    ensures forall k :: |r| <= k < |s| ==> IsJsSpace(s[k])
    ensures r != [] ==> !IsJsSpace(r[|r| - 1])
  {
    if s != [] && IsJsSpace(s[|s| - 1]) then TrimEnd(s[..|s| - 1]) else s
  }

  /** `String.prototype.trim`: a middle piece of the string with no white space at either end. */
  function Trim(s: string): (r: string)
    ensures forall c :: c in r ==> c in s
    ensures r != [] ==> !IsJsSpace(r[0]) && !IsJsSpace(r[|r| - 1])
  {
    var t := TrimStart(s);
    var r := TrimEnd(t);
    assert r != [] ==> r[0] == t[0];
    SliceMembers(s, |s| - |t|, |s|);
    SliceMembers(t, 0, |r|);
    r
  }

  lemma SliceMembers<T>(s: seq<T>, lo: nat, hi: nat)
    requires lo <= hi <= |s|
    ensures forall c :: c in s[lo..hi] ==> c in s
  {
    forall c | c in s[lo..hi]
      ensures c in s
    {
      var k :| 0 <= k < hi - lo && s[lo..hi][k] == c;
      assert s[lo + k] == c;
    }
  }

  /** Trimming cuts a piece out of the string and drops only white space around it. */
  lemma TrimDropsSpace(s: string)
    ensures exists i :: SpaceAround(s, Trim(s), i)
  {
    TrimmedIsSpaceAround(s, TrimStart(s), Trim(s));
  }

  /** `r` is `s` from index `i` on, with only white space before and after it. */
  predicate SpaceAround(s: string, r: string, i: nat)
  {
    i + |r| <= |s| && s[i..][..|r|] == r
    && (forall k :: 0 <= k < i ==> IsJsSpace(s[k]))
    && (forall k :: i + |r| <= k < |s| ==> IsJsSpace(s[k]))
  }

  lemma TrimmedIsSpaceAround(s: string, t: string, r: string)
    requires t == TrimStart(s) && r == TrimEnd(t)
    ensures SpaceAround(s, r, |s| - |t|)
  {
    TrailingSpace(s, t, r, |s| - |t|);
  }

  lemma TrailingSpace(s: string, t: string, r: string, i: nat)
    requires i <= |s| && t == s[i..] && |r| <= |t|
    requires forall k :: |r| <= k < |t| ==> IsJsSpace(t[k])
    ensures forall k :: i + |r| <= k < |s| ==> IsJsSpace(s[k])
  {
    forall k | i + |r| <= k < |s|
      ensures IsJsSpace(s[k])
    {
      assert s[k] == t[k - i];
    }
  }

  /** Trimming removes only white space: a string without it at either end is its own trim. */
  lemma TrimKeeps(s: string)
    requires s != [] ==> !IsJsSpace(s[0]) && !IsJsSpace(s[|s| - 1])
    ensures Trim(s) == s
  {
  }

  /** A character `/[^a-z0-9_\s-]/i` does not match. */
  predicate NameChar(c: char)
  {
    'a' <= c <= 'z' || 'A' <= c <= 'Z' || '0' <= c <= '9' || c == '_' || c == '-' || IsJsSpace(c)
  }

  predicate ValidName(name: string)
  {
    forall c :: c in name ==> NameChar(c)
  }

  function TrimAll(pieces: seq<string>): (r: seq<string>)
    ensures |r| == |pieces| && forall i :: 0 <= i < |r| ==> r[i] == Trim(pieces[i])
  {
    if pieces == [] then []
    else
      MapStep(Trim, pieces, TrimAll(pieces[1..]));
      [Trim(pieces[0])] + TrimAll(pieces[1..])
  }

  /** Mapping `f` over a list is `f` of its head followed by the map of its tail. */
  lemma MapStep<T>(f: T -> T, list: seq<T>, rest: seq<T>)
    requires list != [] && |rest| == |list| - 1
    requires forall i :: 0 <= i < |rest| ==> rest[i] == f(list[1..][i])
    ensures forall i :: 0 <= i < |list| ==> ([f(list[0])] + rest)[i] == f(list[i])
  {
    forall i | 0 <= i < |list|
      ensures ([f(list[0])] + rest)[i] == f(list[i])
    {
      if i > 0 {
        assert list[1..][i - 1] == list[i];
      }
    }
  }

  /**
   * The user list of the command line: refused when missing or empty, or
   * when any trimmed name holds a character other than a letter, a digit,
   * `_`, `-` or white space.
   */
  function ParseUsers(userInput: Option<string>): (r: Result<seq<string>, string>)
    ensures r.Failure? ==> r.error == UsageError
    ensures r.Success? ==> userInput.Some? && r.value != []
    ensures r.Success? ==> forall i :: 0 <= i < |r.value| ==> ValidName(r.value[i]) && ',' !in r.value[i]
  {
    if userInput.None? || userInput.value == [] then Failure(UsageError)
    else
      var userList := TrimAll(Split(userInput.value, ','));
      if exists i :: 0 <= i < |userList| && !ValidName(userList[i]) then Failure(UsageError)
      else Success(userList)
  }

  /**
   * The list is accepted exactly when an argument is given and every name
   * is valid; then there is one name per comma-separated piece, trimmed,
   * and none holds a comma.
   */
  lemma ParseUsersResult(userInput: Option<string>)
    ensures ParseUsers(userInput).Success? <==>
      userInput.Some? && userInput.value != [] &&
      forall name :: name in TrimAll(Split(userInput.value, ',')) ==> ValidName(name)
    ensures ParseUsers(userInput).Success? ==>
      var pieces := Split(userInput.value, ',');
      var names := ParseUsers(userInput).value;
      && Join(pieces, ',') == userInput.value
      && |names| == |pieces|
      && forall i :: 0 <= i < |names| ==> names[i] == Trim(pieces[i]) && ValidName(names[i]) && ',' !in names[i]
  {
    if userInput.Some? && userInput.value != [] {
      var pieces := Split(userInput.value, ',');
      var userList := TrimAll(pieces);
      SplitJoin(userInput.value, ',');
      if ParseUsers(userInput).Success? {
        forall i | 0 <= i < |userList|
          ensures ',' !in userList[i]
        {
          assert ',' !in pieces[i];
        }
      }
      if forall name :: name in userList ==> ValidName(name) {
        forall i | 0 <= i < |userList|
          ensures ValidName(userList[i])
        {
          assert userList[i] in userList;
        }
      }
    }
  }
}

/**
 * Byte strings and the substring search that Node's `Buffer.indexOf`
 * performs, shared by the record splitter and the beatmap scraper.
 */
module Bytes {

  newtype byte = x: int | 0 <= x < 256

  /** `pat` occurs in `s` starting at position `p`. */
  predicate OccursAt(s: seq<byte>, pat: seq<byte>, p: int)
  {
    0 <= p && p + |pat| <= |s| && s[p..p + |pat|] == pat
  }

  /** `pat` occurs somewhere in `s`. */
  ghost predicate Contains(s: seq<byte>, pat: seq<byte>)
  {
    exists p :: OccursAt(s, pat, p)
  }

  /**
   * `Buffer.indexOf(pat, from)`: the first position at or after `from` where
   * `pat` occurs, or -1 when there is none (also when `from` is past the end).
   */
  function IndexOf(s: seq<byte>, pat: seq<byte>, from: nat): (r: int)
    decreases |s| - from
    ensures r == -1 || from <= r <= |s| - |pat|
  {
    if from + |pat| > |s| then -1
    else if s[from..from + |pat|] == pat then from
    else IndexOf(s, pat, from + 1)
  }

  /** `IndexOf` finds an occurrence, and no occurrence lies between `from` and the one it finds. */
  lemma {:induction false} IndexOfSpec(s: seq<byte>, pat: seq<byte>, from: nat)
    ensures var r := IndexOf(s, pat, from);
      r == -1 || (from <= r && OccursAt(s, pat, r))
    ensures var r := IndexOf(s, pat, from);
      forall q :: from <= q && (r == -1 || q < r) ==> !OccursAt(s, pat, q)
    decreases |s| - from
  {
    if from + |pat| <= |s| && s[from..from + |pat|] != pat {
      IndexOfSpec(s, pat, from + 1);
    }
  }

  /** The characterisation above determines `IndexOf` uniquely. */
  lemma IndexOfIs(s: seq<byte>, pat: seq<byte>, from: nat, r: int)
    requires from <= r && OccursAt(s, pat, r)
    requires forall q :: from <= q < r ==> !OccursAt(s, pat, q)
    ensures IndexOf(s, pat, from) == r
    decreases r - from
  {
    if from < r {
      assert !OccursAt(s, pat, from);
      IndexOfIs(s, pat, from + 1, r);
    }
  }

  /** An occurrence found in `s` is still the first one once more bytes are appended. */
  lemma IndexOfExtend(s: seq<byte>, t: seq<byte>, pat: seq<byte>)
    requires IndexOf(s, pat, 0) != -1
    ensures IndexOf(s + t, pat, 0) == IndexOf(s, pat, 0)
  {
    var i := IndexOf(s, pat, 0);
    IndexOfSpec(s, pat, 0);
    assert (s + t)[i..i + |pat|] == s[i..i + |pat|];
    forall q | 0 <= q < i
      ensures !OccursAt(s + t, pat, q)
    {
      OccursPrefix(s, t, pat, q);
    }
    IndexOfIs(s + t, pat, 0, i);
  }

  /** No occurrence of `pat` lies entirely within the first `e` bytes of `s`. */
  predicate NoOccurrenceBefore(s: seq<byte>, pat: seq<byte>, e: int)
  {
    forall q :: 0 <= q && q + |pat| <= e ==> !OccursAt(s, pat, q)
  }

  /**
   * Searching the suffix `s[w..]` finds the same first occurrence as searching
   * all of `s`, when every occurrence starting before `w` would lie within the
   * first `e` bytes, where there is none.
   */
  lemma IndexOfWindow(s: seq<byte>, pat: seq<byte>, w: nat, e: int)
    requires w <= |s| && NoOccurrenceBefore(s, pat, e) && (w == 0 || w + |pat| <= e)
    ensures IndexOf(s[w..], pat, 0) == -1 ==> IndexOf(s, pat, 0) == -1
    ensures IndexOf(s[w..], pat, 0) != -1 ==> IndexOf(s, pat, 0) == w + IndexOf(s[w..], pat, 0)
  {
    if IndexOf(s[w..], pat, 0) == -1 {
      WindowNone(s, pat, w, e);
    } else {
      WindowFound(s, pat, w, e);
    }
  }

  lemma WindowFound(s: seq<byte>, pat: seq<byte>, w: nat, e: int)
    requires w <= |s| && NoOccurrenceBefore(s, pat, e) && (w == 0 || w + |pat| <= e)
    requires IndexOf(s[w..], pat, 0) != -1
    ensures IndexOf(s, pat, 0) == w + IndexOf(s[w..], pat, 0)
  {
    var j := IndexOf(s[w..], pat, 0);
    IndexOfSpec(s[w..], pat, 0);
    OccursShift(s, pat, w, j);
    forall q | 0 <= q < w + j
      ensures !OccursAt(s, pat, q)
    {
      if q >= w {
        OccursShift(s, pat, w, q - w);
      }
    }
    IndexOfIs(s, pat, 0, w + j);
  }

  lemma WindowNone(s: seq<byte>, pat: seq<byte>, w: nat, e: int)
    requires w <= |s| && NoOccurrenceBefore(s, pat, e) && (w == 0 || w + |pat| <= e)
    requires IndexOf(s[w..], pat, 0) == -1
    ensures IndexOf(s, pat, 0) == -1
  {
    var r := IndexOf(s, pat, 0);
    if r != -1 {
      IndexOfSpec(s, pat, 0);
      IndexOfSpec(s[w..], pat, 0);
      if r >= w {
        OccursShift(s, pat, w, r - w);
      }
      assert false;
    }
  }

  /** Dropping a prefix keeps the occurrence-free region, shortened accordingly. */
  lemma NoOccurrenceShift(s: seq<byte>, pat: seq<byte>, e: int, d: nat)
    requires d <= |s| && NoOccurrenceBefore(s, pat, e)
    ensures NoOccurrenceBefore(s[d..], pat, e - d)
  {
    forall q | 0 <= q && q + |pat| <= e - d
      ensures !OccursAt(s[d..], pat, q)
    {
      OccursShift(s, pat, d, q);
    }
  }

  /** A sequence without occurrences has none within its own length once extended. */
  lemma NoOccurrenceExtend(s: seq<byte>, t: seq<byte>, pat: seq<byte>)
    requires !Contains(s, pat)
    ensures NoOccurrenceBefore(s + t, pat, |s|)
  {
    forall q | 0 <= q && q + |pat| <= |s|
      ensures !OccursAt(s + t, pat, q)
    {
      OccursPrefix(s, t, pat, q);
    }
  }

  /** Dropping a prefix of length `d` shifts every occurrence left by `d`. */
  lemma OccursShift(s: seq<byte>, pat: seq<byte>, d: nat, q: nat)
    requires d <= |s|
    ensures OccursAt(s[d..], pat, q) <==> OccursAt(s, pat, q + d)
  {
    if q + d + |pat| <= |s| {
      assert s[d..][q..q + |pat|] == s[q + d..q + d + |pat|];
    }
  }

  /** An occurrence inside a prefix is an occurrence in the whole sequence. */
  lemma OccursPrefix(s: seq<byte>, t: seq<byte>, pat: seq<byte>, q: nat)
    requires q + |pat| <= |s|
    ensures OccursAt(s + t, pat, q) <==> OccursAt(s, pat, q)
  {
    assert (s + t)[q..q + |pat|] == s[q..q + |pat|];
  }
}

/**
 * The incremental record splitter: a Node `Transform` stream that turns byte
 * chunks into records separated by a multi-byte separator, kept in a
 * self-compacting buffer. The stream plumbing (`push`, `next`, `done`) is
 * replaced by methods that return the records they would push.
 */
module StreamSplitter {
  import opened Wrappers
  import opened Bytes

  /** The upper end of a record range: a number or `Infinity`. */
  datatype Limit = Finite(n: int) | Infinite

  /** JavaScript's `limit <= k` for a number or `Infinity` and an index. */
  predicate AtMost(limit: Limit, k: int)
  {
    limit.Finite? && limit.n <= k
  }

  /** Default capacity of the backing buffer: 1 MiB. */
  const DefaultBufferSize: nat := 1024 * 1024

  /**
   * What the scan loop makes of the unconsumed bytes `s` when the next record
   * has index `first`: the records it splits off (without separators) and the
   * bytes it leaves unconsumed. Scanning stops at the first record whose index
   * plus one reaches the range end.
   */
  /** The records a scan splits off, and the bytes it leaves unconsumed. */
  datatype Split = Split(records: seq<seq<byte>>, rest: seq<byte>)

  function Scan(s: seq<byte>, sep: seq<byte>, first: int, rangeEnd: Limit): (res: Split)
    requires |sep| > 0
    decreases |s|
  {
    var i := IndexOf(s, sep, 0);
    if i == -1 || AtMost(rangeEnd, first + 1) then Split([], s)
    else
      var next := Scan(s[i + |sep|..], sep, first + 1, rangeEnd);
      Split([s[..i]] + next.records, next.rest)
  }

  /** Each record followed by the separator, all concatenated. */
  function Framed(recs: seq<seq<byte>>, sep: seq<byte>): seq<byte>
  {
    if recs == [] then [] else recs[0] + sep + Framed(recs[1..], sep)
  }

  /** The records of `recs` (numbered from `first`) that are pushed: those at or after `rangeStart`, with the separator when `join` is set. */
  function Emitted(recs: seq<seq<byte>>, first: int, rangeStart: int, join: bool, sep: seq<byte>): seq<seq<byte>>
  {
    if recs == [] then []
    else
      (if first >= rangeStart then [if join then recs[0] + sep else recs[0]] else [])
      + Emitted(recs[1..], first + 1, rangeStart, join, sep)
  }

  /** What `_flush` pushes: the non-empty remainder as record `index`, if that index is not below `rangeStart`. */
  function FlushRecord(rest: seq<byte>, index: int, rangeStart: int): seq<seq<byte>>
  {
    if rest != [] && index >= rangeStart then [rest] else []
  }

  /** All records a splitter pushes for the whole input, followed by the flush. */
  function SplitStream(input: seq<byte>, sep: seq<byte>, rangeStart: int, rangeEnd: Limit, join: bool): seq<seq<byte>>
    requires |sep| > 0
  {
    var res := Scan(input, sep, 0, rangeEnd);
    Emitted(res.records, 0, rangeStart, join, sep) + FlushRecord(res.rest, |res.records|, rangeStart)
  }

  /** The bytes of a sequence of chunks, in order. */
  function Concat(chunks: seq<seq<byte>>): seq<byte>
  {
    if chunks == [] then [] else Concat(chunks[..|chunks| - 1]) + chunks[|chunks| - 1]
  }

  /** One step of the scan: a separator found at `i` splits off `s[..i]`. */
  lemma ScanFound(s: seq<byte>, sep: seq<byte>, first: int, rangeEnd: Limit, i: int)
    requires |sep| > 0 && i == IndexOf(s, sep, 0) && i != -1 && !AtMost(rangeEnd, first + 1)
    ensures i + |sep| <= |s|
    ensures Scan(s, sep, first, rangeEnd)
         == Split([s[..i]] + Scan(s[i + |sep|..], sep, first + 1, rangeEnd).records, Scan(s[i + |sep|..], sep, first + 1, rangeEnd).rest)
  {
  }

  /** Slicing a slice: the parts of `a[lo..hi]` before and after `k`. */
  lemma SliceOfSlice(a: seq<byte>, lo: int, k: int, m: int, hi: int)
    requires 0 <= lo && 0 <= k && m == lo + k <= hi <= |a|
    ensures a[lo..hi][k..] == a[m..hi] && a[lo..hi][..k] == a[lo..m]
  {
  }

  /** The bytes of a record, with or without the separator that ends it. */
  lemma RecordSlice(a: seq<byte>, sep: seq<byte>, lo: int, j: int, pos: int, extra: int, hi: int)
    requires 0 <= lo && 0 <= j && lo + j <= hi <= |a| && pos == lo + j
    requires OccursAt(a[lo..hi], sep, j) && (extra == 0 || extra == |sep|)
    ensures a[lo..pos + extra] == if extra == 0 then a[lo..hi][..j] else a[lo..hi][..j] + sep
  {
    if extra != 0 {
      assert a[lo..pos + extra] == a[lo..pos] + a[pos..pos + extra];
      forall t | 0 <= t < extra
        ensures a[pos..pos + extra][t] == sep[t]
      {
        assert sep[t] == a[lo..hi][j..j + |sep|][t] == a[lo..hi][j + t];
      }
    }
  }

  /** One more record moves from the scan still to come to the records done. */
  lemma ScanInvariantStep(whole: Split, done: seq<seq<byte>>, x: seq<byte>, s: Split, s': Split)
    requires whole == Split(done + s.records, s.rest) && s == Split([x] + s'.records, s'.rest)
    ensures whole == Split((done + [x]) + s'.records, s'.rest)
  {
    assert done + ([x] + s'.records) == (done + [x]) + s'.records;
  }

  /** `ScanFound` with the index of the next record and the start of the remainder passed in. */
  lemma ScanStep(s: seq<byte>, sep: seq<byte>, cur: int, next: int, rangeEnd: Limit, i: int, k: int)
    requires |sep| > 0 && i == IndexOf(s, sep, 0) && i != -1 && k == i + |sep|
    requires next == cur + 1 && !AtMost(rangeEnd, next)
    ensures 0 <= i && OccursAt(s, sep, i) && k <= |s|
    ensures Scan(s, sep, cur, rangeEnd)
         == Split([s[..i]] + Scan(s[k..], sep, next, rangeEnd).records, Scan(s[k..], sep, next, rangeEnd).rest)
  {
    ScanFound(s, sep, cur, rangeEnd, i);
    IndexOfSpec(s, sep, 0);
    assert Scan(s[k..], sep, next, rangeEnd) == Scan(s[i + |sep|..], sep, cur + 1, rangeEnd);
  }

  /** The scan stops when no separator is left or the range end is reached. */
  lemma ScanStop(s: seq<byte>, sep: seq<byte>, first: int, rangeEnd: Limit)
    requires |sep| > 0 && (IndexOf(s, sep, 0) == -1 || AtMost(rangeEnd, first + 1))
    ensures Scan(s, sep, first, rangeEnd) == Split([], s)
  {
  }

  lemma FramedCons(r: seq<byte>, recs: seq<seq<byte>>, sep: seq<byte>)
    ensures Framed([r] + recs, sep) == r + sep + Framed(recs, sep)
  {
    assert ([r] + recs)[1..] == recs;
  }

  lemma SplitAround(s: seq<byte>, sep: seq<byte>, i: int)
    requires OccursAt(s, sep, i)
    ensures s[..i] + sep + s[i + |sep|..] == s
  {
  }

  /** One record and its separator put back in front of the reassembled rest. */
  lemma ReassembleStep(s: seq<byte>, sep: seq<byte>, i: int, recs: seq<seq<byte>>, rest: seq<byte>)
    requires OccursAt(s, sep, i) && Framed(recs, sep) + rest == s[i + |sep|..]
    ensures Framed([s[..i]] + recs, sep) + rest == s
  {
    var head := s[..i] + sep;
    FramedCons(s[..i], recs, sep);
    SplitAround(s, sep, i);
    AppendAssoc(head, Framed(recs, sep), rest);
  }

  lemma AppendAssoc(x: seq<byte>, y: seq<byte>, z: seq<byte>)
    ensures (x + y) + z == x + (y + z)
  {
  }

  /** Nothing is lost: records interleaved with separators, then the remainder, give back the input. */
  lemma {:induction false} ScanReassembles(s: seq<byte>, sep: seq<byte>, first: int, rangeEnd: Limit)
    requires |sep| > 0
    ensures Framed(Scan(s, sep, first, rangeEnd).records, sep) + Scan(s, sep, first, rangeEnd).rest == s
    decreases |s|
  {
    var i := IndexOf(s, sep, 0);
    if i != -1 && !AtMost(rangeEnd, first + 1) {
      ScanFound(s, sep, first, rangeEnd, i);
      var next := Scan(s[i + |sep|..], sep, first + 1, rangeEnd);
      ScanReassembles(s[i + |sep|..], sep, first + 1, rangeEnd);
      IndexOfSpec(s, sep, 0);
      ReassembleStep(s, sep, i, next.records, next.rest);
    } else {
      ScanStop(s, sep, first, rangeEnd);
    }
  }

  /** No record of `recs` contains the separator. */
  ghost predicate AllSeparatorFree(recs: seq<seq<byte>>, sep: seq<byte>)
  {
    forall k :: 0 <= k < |recs| ==> !Contains(recs[k], sep)
  }

  /** The bytes before the first separator contain no separator. */
  lemma BeforeFirstSeparatorFree(s: seq<byte>, sep: seq<byte>, i: int)
    requires |sep| > 0 && i == IndexOf(s, sep, 0) && i != -1
    ensures !Contains(s[..i], sep)
  {
    IndexOfSpec(s, sep, 0);
    forall q | 0 <= q && q + |sep| <= i
      ensures !OccursAt(s[..i], sep, q)
    {
      assert s[..i][q..q + |sep|] == s[q..q + |sep|];
      assert q < i && !OccursAt(s, sep, q);
    }
  }

  lemma AllSeparatorFreeCons(r: seq<byte>, recs: seq<seq<byte>>, sep: seq<byte>)
    requires !Contains(r, sep) && AllSeparatorFree(recs, sep)
    ensures AllSeparatorFree([r] + recs, sep)
  {
    forall k | 0 <= k < |[r] + recs|
      ensures !Contains(([r] + recs)[k], sep)
    {
      if k > 0 {
        assert ([r] + recs)[k] == recs[k - 1];
      }
    }
  }

  /** Every record stops at the first separator: no record contains a separator. */
  lemma {:induction false} ScanRecordsSeparatorFree(s: seq<byte>, sep: seq<byte>, first: int, rangeEnd: Limit)
    requires |sep| > 0
    ensures AllSeparatorFree(Scan(s, sep, first, rangeEnd).records, sep)
    decreases |s|
  {
    var i := IndexOf(s, sep, 0);
    if i != -1 && !AtMost(rangeEnd, first + 1) {
      ScanFound(s, sep, first, rangeEnd, i);
      var t := s[i + |sep|..];
      ScanRecordsSeparatorFree(t, sep, first + 1, rangeEnd);
      BeforeFirstSeparatorFree(s, sep, i);
      AllSeparatorFreeCons(s[..i], Scan(t, sep, first + 1, rangeEnd).records, sep);
    } else {
      ScanStop(s, sep, first, rangeEnd);
    }
  }

  /** Unless the range end stopped it, the scan leaves no full separator unconsumed. */
  lemma {:induction false} ScanRestSeparatorFree(s: seq<byte>, sep: seq<byte>, first: int, rangeEnd: Limit)
    requires |sep| > 0
    ensures var res := Scan(s, sep, first, rangeEnd);
      !AtMost(rangeEnd, first + |res.records| + 1) ==> !Contains(res.rest, sep)
    decreases |s|
  {
    var i := IndexOf(s, sep, 0);
    if i != -1 && !AtMost(rangeEnd, first + 1) {
      ScanFound(s, sep, first, rangeEnd, i);
      var t := s[i + |sep|..];
      ScanRestSeparatorFree(t, sep, first + 1, rangeEnd);
      var next := Scan(t, sep, first + 1, rangeEnd);
      assert Scan(s, sep, first, rangeEnd).rest == next.rest;
      assert |Scan(s, sep, first, rangeEnd).records| == 1 + |next.records|;
    } else {
      ScanStop(s, sep, first, rangeEnd);
      IndexOfSpec(s, sep, 0);
    }
  }

  /** The scan never produces a record whose index plus one reaches the range end. */
  lemma {:induction false} ScanStopsBeforeRangeEnd(s: seq<byte>, sep: seq<byte>, first: int, rangeEnd: Limit)
    requires |sep| > 0
    ensures var n := |Scan(s, sep, first, rangeEnd).records|;
      n > 0 ==> !AtMost(rangeEnd, first + n)
    decreases |s|
  {
    var i := IndexOf(s, sep, 0);
    if i != -1 && !AtMost(rangeEnd, first + 1) {
      ScanFound(s, sep, first, rangeEnd, i);
      var t := s[i + |sep|..];
      ScanStopsBeforeRangeEnd(t, sep, first + 1, rangeEnd);
      assert |Scan(s, sep, first, rangeEnd).records| == 1 + |Scan(t, sep, first + 1, rangeEnd).records|;
    } else {
      ScanStop(s, sep, first, rangeEnd);
    }
  }

  lemma AppendSlices(s: seq<byte>, t: seq<byte>, i: int, j: int)
    requires 0 <= i <= j <= |s|
    ensures (s + t)[..i] == s[..i] && (s + t)[j..] == s[j..] + t
  {
  }

  /** A separator found in `s` is found at the same place in `s + t`, so the first step agrees. */
  lemma ScanFoundAppend(s: seq<byte>, t: seq<byte>, sep: seq<byte>, first: int, rangeEnd: Limit, i: int)
    requires |sep| > 0 && i == IndexOf(s, sep, 0) && i != -1 && !AtMost(rangeEnd, first + 1)
    ensures i + |sep| <= |s|
    ensures Scan(s + t, sep, first, rangeEnd)
         == Split([s[..i]] + Scan(s[i + |sep|..] + t, sep, first + 1, rangeEnd).records, Scan(s[i + |sep|..] + t, sep, first + 1, rangeEnd).rest)
  {
    var st := s + t;
    IndexOfExtend(s, t, sep);
    ScanFound(s, sep, first, rangeEnd, i);
    ScanFound(st, sep, first, rangeEnd, i);
    AppendSlices(s, t, i, i + |sep|);
    assert st[i + |sep|..] == s[i + |sep|..] + t;
    assert [st[..i]] == [s[..i]];
  }

  lemma CombineAppend(x: seq<byte>, r0: Split, ru: Split, r1: Split, st: Split, ut: Split)
    requires r0 == Split([x] + ru.records, ru.rest) && st == Split([x] + ut.records, ut.rest) && ut == Split(ru.records + r1.records, r1.rest)
    ensures st == Split(r0.records + r1.records, r1.rest)
  {
    assert [x] + (ru.records + r1.records) == [x] + ru.records + r1.records;
  }

  /**
   * Feeding `s` and then `t` splits exactly as feeding `s + t`: the records of
   * `s`, then those of its remainder followed by `t`, numbered on from `n`,
   * the index after the last record of `s`.
   */
  lemma {:induction false} ScanAppend(s: seq<byte>, t: seq<byte>, sep: seq<byte>, first: int, rangeEnd: Limit, n: int)
    requires |sep| > 0 && n == first + |Scan(s, sep, first, rangeEnd).records|
    ensures Scan(s + t, sep, first, rangeEnd)
         == Split(Scan(s, sep, first, rangeEnd).records + Scan(Scan(s, sep, first, rangeEnd).rest + t, sep, n, rangeEnd).records,
                  Scan(Scan(s, sep, first, rangeEnd).rest + t, sep, n, rangeEnd).rest)
    decreases |s|
  {
    var i := IndexOf(s, sep, 0);
    if i != -1 && !AtMost(rangeEnd, first + 1) {
      ScanFound(s, sep, first, rangeEnd, i);
      ScanFoundAppend(s, t, sep, first, rangeEnd, i);
      ScanAppend(s[i + |sep|..], t, sep, first + 1, rangeEnd, n);
      CombineAppend(s[..i], Scan(s, sep, first, rangeEnd), Scan(s[i + |sep|..], sep, first + 1, rangeEnd),
                    Scan(Scan(s[i + |sep|..], sep, first + 1, rangeEnd).rest + t, sep, n, rangeEnd),
                    Scan(s + t, sep, first, rangeEnd), Scan(s[i + |sep|..] + t, sep, first + 1, rangeEnd));
    } else {
      ScanStop(s, sep, first, rangeEnd);
    }
  }

  /** Pushing a batch of records and then another equals pushing both at once. */
  lemma {:induction false} EmittedAppend(a: seq<seq<byte>>, b: seq<seq<byte>>, first: int, rangeStart: int, join: bool, sep: seq<byte>)
    ensures Emitted(a + b, first, rangeStart, join, sep)
         == Emitted(a, first, rangeStart, join, sep) + Emitted(b, first + |a|, rangeStart, join, sep)
    decreases |a|
  {
    if a != [] {
      assert (a + b)[1..] == a[1..] + b;
      EmittedAppend(a[1..], b, first + 1, rangeStart, join, sep);
    } else {
      assert a + b == b;
    }
  }

  /** One more record, numbered `cur`, is pushed when `cur` is not below the range start. */
  lemma EmittedStep(done: seq<seq<byte>>, x: seq<byte>, first: int, cur: int, rangeStart: int, join: bool, sep: seq<byte>)
    requires cur == first + |done|
    ensures Emitted(done + [x], first, rangeStart, join, sep)
         == Emitted(done, first, rangeStart, join, sep) + (if cur >= rangeStart then [if join then x + sep else x] else [])
  {
    EmittedAppend(done, [x], first, rangeStart, join, sep);
    assert [x][1..] == [];
  }

  /** The records pushed for two runs of records, the second numbered from `n`, the length of the first. */
  lemma EmittedConcat(a: seq<seq<byte>>, b: seq<seq<byte>>, n: int, rangeStart: int, join: bool, sep: seq<byte>)
    requires n == |a|
    ensures Emitted(a + b, 0, rangeStart, join, sep) == Emitted(a, 0, rangeStart, join, sep) + Emitted(b, n, rangeStart, join, sep)
  {
    EmittedAppend(a, b, 0, rangeStart, join, sep);
  }

  /** Without `join`, the pushed records are exactly the suffix starting at index `rangeStart`. */
  lemma {:induction false} EmittedIsSuffix(recs: seq<seq<byte>>, first: int, rangeStart: int, sep: seq<byte>)
    ensures var k := if rangeStart <= first then 0 else if rangeStart - first >= |recs| then |recs| else rangeStart - first;
      Emitted(recs, first, rangeStart, false, sep) == recs[k..]
    decreases |recs|
  {
    if recs != [] {
      EmittedIsSuffix(recs[1..], first + 1, rangeStart, sep);
      if rangeStart <= first {
        assert recs == [recs[0]] + recs[1..];
      }
    }
  }

  /**
   * With the default range and no `join`, every record is pushed, the records
   * interleaved with separators followed by the final record give back the
   * input, and no record contains a separator.
   */
  lemma DefaultSplitReassembles(input: seq<byte>, sep: seq<byte>)
    requires |sep| > 0
    ensures var res := Scan(input, sep, 0, Infinite);
      && SplitStream(input, sep, 0, Infinite, false) == res.records + FlushRecord(res.rest, |res.records|, 0)
      && Framed(res.records, sep) + res.rest == input
      && !Contains(res.rest, sep)
      && AllSeparatorFree(res.records, sep)
  {
    var res := Scan(input, sep, 0, Infinite);
    EmittedIsSuffix(res.records, 0, 0, sep);
    ScanReassembles(input, sep, 0, Infinite);
    ScanRestSeparatorFree(input, sep, 0, Infinite);
    ScanRecordsSeparatorFree(input, sep, 0, Infinite);
  }

  class Splitter {
    const separator: seq<byte>
    const bufferFlush: nat
    const rangeStart: int
    const rangeEnd: Limit
    const trailerSeparator: bool

    var offset: nat
    var bodyOffset: nat
    var bufferSize: nat
    var buffer: array<byte>
    var lastIndex: int

    /** Every byte fed so far. */
    ghost var Input: seq<byte>
    /** Every record split off so far, pushed or not, indexed by its record index. */
    ghost var Records: seq<seq<byte>>

    /**
     * The buffer bounds hold, and the records and the unconsumed bytes are
     * those the scan makes of the whole input fed so far, however it was
     * chunked.
     */
    ghost predicate Valid()
      reads this, buffer
    {
      && |separator| > 0
      && bodyOffset <= offset <= bufferSize == buffer.Length
      && lastIndex + 1 == |Records|
      && Scan(Input, separator, 0, rangeEnd) == Split(Records, buffer[bodyOffset..offset])
    }

    /** The bytes received but not yet consumed by a record. */
    function Pending(): seq<byte>
      reads this, buffer
      requires bodyOffset <= offset <= buffer.Length
    {
      buffer[bodyOffset..offset]
    }

    /** Options that are absent or 0 take their defaults, as JavaScript's `||` does. */
    constructor (separator: seq<byte>, bufferSizeOption: nat, bufferFlushOption: nat, range: Option<(int, Limit)>, join: bool)
      requires |separator| > 0
      ensures Valid() && fresh(buffer)
      ensures Input == [] && Records == [] && offset == 0 && bodyOffset == 0 && lastIndex == -1
      ensures bufferSize == (if bufferSizeOption == 0 then DefaultBufferSize else bufferSizeOption)
      ensures bufferFlush == (if bufferFlushOption == 0 then bufferSize / 10 else bufferFlushOption)
      ensures (rangeStart, rangeEnd) == (if range.Some? then range.value else (0, Infinite))
      ensures this.separator == separator && trailerSeparator == join
    {
      this.separator := separator;
      offset := 0;
      bodyOffset := 0;
      var size := if bufferSizeOption == 0 then DefaultBufferSize else bufferSizeOption;
      bufferSize := size;
      bufferFlush := if bufferFlushOption == 0 then size / 10 else bufferFlushOption;
      buffer := new byte[size];
      lastIndex := -1;
      var r := if range.Some? then range.value else (0, Infinite);
      rangeStart := r.0;
      rangeEnd := r.1;
      trailerSeparator := join;
      Input := [];
      Records := [];
    }

    /**
     * Moves the unconsumed bytes to the start of a new buffer, grown when the
     * next chunk would not fit otherwise, so that the chunk always fits.
     */
    method Compact(chunkLength: nat)
      requires Valid()
      modifies this
      ensures Valid() && fresh(buffer)
      ensures Pending() == old(Pending())
      ensures bodyOffset == 0 && offset == old(offset) - old(bodyOffset)
      ensures bufferSize == (if old(bufferSize) < old(bufferSize) - old(bodyOffset) + chunkLength
                             then old(bufferSize) - old(bodyOffset) + chunkLength else old(bufferSize))
      ensures offset + chunkLength <= bufferSize
      ensures Input == old(Input) && Records == old(Records) && lastIndex == old(lastIndex)
    {
      ghost var pending := Pending();
      var minimalLength := bufferSize - bodyOffset + chunkLength;
      if bufferSize < minimalLength {
        bufferSize := minimalLength;
      }
      var tmp := CopyFrom(buffer, bodyOffset, bufferSize);
      assert tmp[..offset - bodyOffset] == pending by {
        assert tmp[..offset - bodyOffset] == tmp[..buffer.Length - bodyOffset][..offset - bodyOffset];
        assert buffer[bodyOffset..][..offset - bodyOffset] == pending;
      }
      buffer := tmp;
      offset := offset - bodyOffset;
      bodyOffset := 0;
      assert Pending() == pending;
    }

    /**
     * `_transform`: appends a chunk and returns the records it completes
     * (those pushed downstream), in order. The scan loop keeps the body
     * offset and the record index in locals and stores them when it stops.
     */
    method Transform(chunk: seq<byte>) returns (out: seq<seq<byte>>)
      requires Valid()
      modifies this, buffer
      ensures Valid() && (buffer == old(buffer) || fresh(buffer))
      ensures Input == old(Input) + chunk
      ensures var recs := Scan(old(Pending()) + chunk, separator, old(lastIndex) + 1, rangeEnd).records;
        && Records == old(Records) + recs
        && out == Emitted(recs, old(lastIndex) + 1, rangeStart, trailerSeparator, separator)
      ensures bufferSize >= old(bufferSize)
    {
      ghost var pending0, input0, records0 := Pending(), Input, Records;
      var first := lastIndex + 1;
      Append(chunk);
      var body0, stop := bodyOffset, offset + |chunk|;
      ghost var a := buffer[..];
      if !AtMost(rangeEnd, first + 1) {
        ScanRestSeparatorFree(input0, separator, 0, rangeEnd);
        NoOccurrenceExtend(pending0, chunk, separator);
      }
      var body, next;
      out, body, next := ScanBuffer(buffer, a, separator, rangeStart, rangeEnd, trailerSeparator, body0, offset, stop, first);
      ScanInput(input0, records0, pending0, chunk, separator, rangeEnd, first);
      Commit(stop, body, next, input0 + chunk, records0 + Scan(pending0 + chunk, separator, first, rangeEnd).records);
    }

    /**
     * Makes room for a chunk and copies it in after the pending bytes:
     * compacts the buffer first when the chunk would reach into its last
     * `bufferFlush` bytes, then `chunk.copy(buffer, offset)`, which always fits.
     */
    method Append(chunk: seq<byte>)
      requires Valid()
      modifies this, buffer
      ensures Valid() && (buffer == old(buffer) || fresh(buffer))
      ensures offset + |chunk| <= buffer.Length
      ensures buffer[..][bodyOffset..offset + |chunk|] == old(Pending()) + chunk
      ensures Input == old(Input) && Records == old(Records) && lastIndex == old(lastIndex)
      ensures bufferSize >= old(bufferSize)
    {
      MakeRoom(|chunk|);
      CopyChunk(chunk);
    }

    /** Compacts the buffer first when the chunk would reach into its last `bufferFlush` bytes. */
    method MakeRoom(chunkLength: nat)
      requires Valid()
      modifies this
      ensures Valid() && (buffer == old(buffer) || fresh(buffer))
      ensures Pending() == old(Pending()) && offset + chunkLength <= buffer.Length
      ensures Input == old(Input) && Records == old(Records) && lastIndex == old(lastIndex)
      ensures bufferSize >= old(bufferSize)
    {
      if offset + chunkLength > bufferSize - bufferFlush {
        Compact(chunkLength);
      }
    }

    /** `chunk.copy(buffer, offset)`: the bytes from `offset` on are overwritten by the chunk. */
    method CopyChunk(chunk: seq<byte>)
      requires Valid() && offset + |chunk| <= buffer.Length
      modifies buffer
      ensures Valid()
      ensures buffer[..][bodyOffset..offset + |chunk|] == old(Pending()) + chunk
    {
      ghost var pending := Pending();
      forall k | 0 <= k < |chunk| {
        buffer[offset + k] := chunk[k];
      }
      assert buffer[..][bodyOffset..offset] == pending;
    }

    /** Stores the scan loop's results and the ghost history. */
    method Commit(stop: nat, body: nat, next: int, ghost input: seq<byte>, ghost records: seq<seq<byte>>)
      requires |separator| > 0 && body <= stop <= buffer.Length == bufferSize && next == |records|
      requires Scan(input, separator, 0, rangeEnd) == Split(records, buffer[..][body..stop])
      modifies this
      ensures Valid() && offset == stop && bodyOffset == body && lastIndex == next - 1
      ensures Input == input && Records == records
      ensures buffer == old(buffer) && bufferSize == old(bufferSize)
    {
      offset, bodyOffset, lastIndex := stop, body, next - 1;
      Input, Records := input, records;
    }

    /**
     * `_flush`: at end of input, returns the unconsumed bytes as one last
     * record, unless they are empty or the record's index is below the range
     * start; the range end is not consulted.
     */
    method Flush() returns (out: seq<seq<byte>>)
      requires Valid()
      modifies this
      ensures out == FlushRecord(old(Pending()), old(lastIndex) + 1, rangeStart)
      ensures offset == bodyOffset == old(offset) && buffer == old(buffer) && bufferSize == old(bufferSize)
      ensures Records == old(Records) + (if old(Pending()) == [] then [] else [old(Pending())])
      ensures lastIndex + 1 == |Records| && Input == old(Input)
    {
      if offset == bodyOffset {
        return [];
      }
      var curIndex := lastIndex + 1;
      out := [];
      if curIndex >= rangeStart {
        out := [buffer[bodyOffset..offset]];
      }
      Records := Records + [buffer[bodyOffset..offset]];
      bodyOffset := offset;
      lastIndex := curIndex;
    }
  }

  /** Feeding a chunk extends the scan of the whole input by the scan of the pending bytes and the chunk. */
  lemma ScanInput(input: seq<byte>, records: seq<seq<byte>>, pending: seq<byte>, chunk: seq<byte>,
                  sep: seq<byte>, rangeEnd: Limit, first: int)
    requires |sep| > 0 && Scan(input, sep, 0, rangeEnd) == Split(records, pending) && first == |records|
    ensures Scan(input + chunk, sep, 0, rangeEnd)
         == Split(records + Scan(pending + chunk, sep, first, rangeEnd).records, Scan(pending + chunk, sep, first, rangeEnd).rest)
  {
    ScanAppend(input, chunk, sep, 0, rangeEnd, first);
  }

  /** `buf.copy(tmp, 0, from)` into a new buffer of `size` bytes. */
  method CopyFrom(buf: array<byte>, from: nat, size: nat) returns (tmp: array<byte>)
    requires from <= buf.Length && buf.Length - from <= size
    ensures fresh(tmp) && tmp.Length == size && tmp[..buf.Length - from] == buf[from..]
  {
    tmp := new byte[size];
    forall k | 0 <= k < buf.Length - from {
      tmp[k] := buf[from + k];
    }
  }

  /**
   * The scan loop of `_transform` over `buf[body0..stop]`, where the bytes
   * before `offset` were already searched: each search looks only at the
   * bytes from `offset - |sep|` on (or from the body offset, when that is
   * later). Returns the records pushed, the new body offset and the index of
   * the next record.
   */
  method ScanBuffer(buf: array<byte>, ghost a: seq<byte>, sep: seq<byte>, rangeStart: int, rangeEnd: Limit, join: bool,
                    body0: nat, offset: nat, stop: nat, first: int)
    returns (out: seq<seq<byte>>, body: nat, curIndex: int)
    requires a == buf[..]
    requires |sep| > 0 && body0 <= offset <= stop <= buf.Length
    requires !AtMost(rangeEnd, first + 1) ==> NoOccurrenceBefore(a[body0..stop], sep, offset - body0)
    ensures var res := Scan(a[body0..stop], sep, first, rangeEnd);
      && body0 <= body <= stop
      && res.rest == a[body..stop]
      && curIndex == first + |res.records|
      && out == Emitted(res.records, first, rangeStart, join, sep)
  {
    body, curIndex := body0, first;
    ghost var rest := a[body..stop];
    ghost var done: seq<seq<byte>> := [];
    out := [];
    while true
      invariant body0 <= body <= stop
      invariant rest == a[body..stop]
      invariant first + |done| == curIndex
      invariant Scan(a[body0..stop], sep, first, rangeEnd)
             == Split(done + Scan(rest, sep, curIndex, rangeEnd).records, Scan(rest, sep, curIndex, rangeEnd).rest)
      invariant out == Emitted(done, first, rangeStart, join, sep)
      invariant !AtMost(rangeEnd, curIndex + 1) ==> NoOccurrenceBefore(rest, sep, offset - body)
      decreases stop - body
    {
      var start := if offset - |sep| > body then offset - |sep| else body;
      ghost var w := start - body;
      SliceOfSlice(a, body, w, start, stop);
      assert buf[start..stop] == a[start..stop];
      var i := IndexOf(buf[start..stop], sep, 0);
      if i == -1 || AtMost(rangeEnd, curIndex + 1) {
        if !AtMost(rangeEnd, curIndex + 1) {
          IndexOfWindow(rest, sep, w, offset - body);
        }
        ScanStop(rest, sep, curIndex, rangeEnd);
        assert done + [] == done;
        break;
      }
      IndexOfWindow(rest, sep, w, offset - body);
      ghost var j := w + i;
      ghost var k := j + |sep|;
      var next := curIndex + 1;
      var pos := start + i;
      ScanStep(rest, sep, curIndex, next, rangeEnd, j, k);
      NoOccurrenceShift(rest, sep, offset - body, k);
      var nextBody := pos + |sep|;
      SliceOfSlice(a, body, k, nextBody, stop);
      var extra := if join then |sep| else 0;
      var rec := buf[body..pos + extra];
      assert rec == a[body..pos + extra];
      RecordSlice(a, sep, body, j, pos, extra, stop);
      if curIndex >= rangeStart {
        out := out + [rec];
      }
      EmittedStep(done, rest[..j], first, curIndex, rangeStart, join, sep);
      ScanInvariantStep(Scan(a[body0..stop], sep, first, rangeEnd), done, rest[..j],
                        Scan(rest, sep, curIndex, rangeEnd), Scan(rest[k..], sep, next, rangeEnd));
      done := done + [rest[..j]];
      rest := rest[k..];
      body := nextBody;
      curIndex := next;
    }
  }

  /**
   * Runs a splitter over a whole stream: the records pushed depend only on
   * the concatenated input, never on how it was cut into chunks.
   */
  method SplitChunks(separator: seq<byte>, bufferSizeOption: nat, bufferFlushOption: nat,
                     range: Option<(int, Limit)>, join: bool, chunks: seq<seq<byte>>)
    returns (out: seq<seq<byte>>)
    requires |separator| > 0
    ensures var r := if range.Some? then range.value else (0, Infinite);
      out == SplitStream(Concat(chunks), separator, r.0, r.1, join)
  {
    var sp := new Splitter(separator, bufferSizeOption, bufferFlushOption, range, join);
    out := [];
    var k := 0;
    while k < |chunks|
      invariant 0 <= k <= |chunks|
      invariant sp.Valid() && fresh(sp) && fresh(sp.buffer)
      invariant sp.separator == separator && sp.trailerSeparator == join
      invariant (sp.rangeStart, sp.rangeEnd) == (if range.Some? then range.value else (0, Infinite))
      invariant sp.Input == Concat(chunks[..k])
      invariant out == Emitted(sp.Records, 0, sp.rangeStart, join, separator)
    {
      ghost var before, n := sp.Records, sp.lastIndex + 1;
      var recs := sp.Transform(chunks[k]);
      EmittedConcat(before, sp.Records[|before|..], n, sp.rangeStart, join, separator);
      out := out + recs;
      assert chunks[..k + 1][..k] == chunks[..k];
      k := k + 1;
    }
    assert chunks[..k] == chunks;
    var last := sp.Flush();
    out := out + last;
  }
}

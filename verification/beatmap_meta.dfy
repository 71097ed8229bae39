/**
 * The local beatmap metadata scraper: from the bytes of a `.osu` file read
 * into a shared 512-byte buffer (`bytesRead` of them fresh, the rest left
 * over from earlier reads), it finds the `[Metadata]` section and then the
 * Title, Artist, Creator, Version and BeatmapSetID lines, in that order.
 * Opening and reading the file is not part of this model: the buffer and
 * `bytesRead` are inputs. Field values stay bytes (their UTF-8 decoding is
 * not modelled).
 */
module BeatmapMeta {
  import opened Wrappers
  import opened Bytes

  const CR: byte := 13
  const LF: byte := 10

  /** `"\n[Metadata]"` */
  const SectionMetadata: seq<byte> := [10, 91, 77, 101, 116, 97, 100, 97, 116, 97, 93]
  /** `"\nTitle:"` */
  const TitleMarker: seq<byte> := [10, 84, 105, 116, 108, 101, 58]
  /** `"\nArtist:"` */
  const ArtistMarker: seq<byte> := [10, 65, 114, 116, 105, 115, 116, 58]
  /** `"\nCreator:"` */
  const CreatorMarker: seq<byte> := [10, 67, 114, 101, 97, 116, 111, 114, 58]
  /** `"\nVersion:"` */
  const VersionMarker: seq<byte> := [10, 86, 101, 114, 115, 105, 111, 110, 58]
  /** `"\nBeatmapSetID:"` */
  const SetIdMarker: seq<byte> := [10, 66, 101, 97, 116, 109, 97, 112, 83, 101, 116, 73, 68, 58]

  /** The field markers; each is non-empty and ends in `:`. */
  predicate FieldMarker(marker: seq<byte>)
  {
    |marker| > 0 && marker[|marker| - 1] == 58
  }

  lemma MarkersEndInColon()
    ensures FieldMarker(TitleMarker) && FieldMarker(ArtistMarker) && FieldMarker(CreatorMarker)
    ensures FieldMarker(VersionMarker) && FieldMarker(SetIdMarker)
  {
  }

  /** `[setId, artist, title, creator, version]`; a set id that is not a number is `None` (`NaN`). */
  datatype Meta = Meta(setId: Option<int>, artist: seq<byte>, title: seq<byte>, creator: seq<byte>, version: seq<byte>)

  /** `Buffer.slice(start, end)` with `0 <= start` and `end <= |b|`: empty when `end < start`. */
  function Slice(b: seq<byte>, start: nat, end: nat): (r: seq<byte>)
    requires end <= |b|
    ensures |r| == if start <= end then end - start else 0
  {
    if start <= end then b[start..end] else []
  }

  /** `s` without one `\r` at its end. */
  function StripCR(s: seq<byte>): (r: seq<byte>)
    ensures r == s || (s == r + [CR])
    ensures (|s| > 0 && s[|s| - 1] == CR) <==> s == r + [CR]
  {
    if |s| > 0 && s[|s| - 1] == CR then s[..|s| - 1] else s
  }

  // ---------------------------------------------------------------------
  // The scraper as a function of the buffer
  // ---------------------------------------------------------------------

  /**
   * One field line: the marker searched from `from`, then the line feed after
   * it; the value is what lies between, with one `\r` before the line feed
   * dropped. `None` when either is missing or not among the fresh bytes.
   * The result also gives the line feed's position, where the next search starts.
   */
  function Field(buffer: seq<byte>, bytesRead: int, marker: seq<byte>, from: nat): Option<(seq<byte>, nat)>
  {
    var index := IndexOf(buffer, marker, from);
    if index < 0 || index >= bytesRead then None
    else Line(buffer, bytesRead, index + |marker|)
  }

  /** The markers of the five fields, in the order they are searched. */
  const Markers: seq<seq<byte>> := [TitleMarker, ArtistMarker, CreatorMarker, VersionMarker, SetIdMarker]

  /** The values of the fields of `markers`, each searched from the previous one's line feed. */
  function FieldValues(buffer: seq<byte>, bytesRead: int, markers: seq<seq<byte>>, from: nat): (r: Option<seq<seq<byte>>>)
    ensures r.Some? ==> |r.value| == |markers|
  {
    if markers == [] then Some([])
    else
      match Field(buffer, bytesRead, markers[0], from)
      case None => None
      case Some((value, nlIndex)) =>
        match FieldValues(buffer, bytesRead, markers[1..], nlIndex)
        case None => None
        case Some(rest) => Some([value] + rest)
  }

  /** The five fields in order, the first searched from `from`, laid out as the result. */
  function Fields(buffer: seq<byte>, bytesRead: int, from: nat): Option<Meta>
  {
    match FieldValues(buffer, bytesRead, Markers, from)
    case None => None
    case Some(v) => Some(Meta(ToNumber(v[4]), v[1], v[0], v[2], v[3]))
  }

  /**
   * The whole scrape. The check after the search for the `[Metadata]` line's
   * line feed tests `index`, which is already known to be below `bytesRead`,
   * so only a missing line feed ends it there.
   */
  function Scrape(buffer: seq<byte>, bytesRead: int): Option<Meta>
  {
    var index := IndexOf(buffer, SectionMetadata, 0);
    if index < 0 || index >= bytesRead then None
    else
      var nlIndex := IndexOf(buffer, [LF], index + |SectionMetadata|);
      if nlIndex < 0 || index >= bytesRead then None
      else Fields(buffer, bytesRead, nlIndex)
  }

  // ---------------------------------------------------------------------
  // The method
  // ---------------------------------------------------------------------

  /** `value` in front of the values found, if they are found. */
  function Cons(value: seq<byte>, values: Option<seq<seq<byte>>>): Option<seq<seq<byte>>>
  {
    if values.None? then None else Some([value] + values.value)
  }

  /**
   * One field search of `getBeatmapMetaLocalSync`, with its two checks, for
   * marker `k`: the values of the fields from `k` on are this one's followed
   * by those of the later markers, searched from its line feed.
   */
  method ScanField(buffer: seq<byte>, bytesRead: int, k: nat, start: nat)
    returns (found: bool, value: seq<byte>, nlIndex: nat)
    requires k < |Markers|
    ensures !found ==> FieldValues(buffer, bytesRead, Markers[k..], start).None?
    ensures found ==> FieldValues(buffer, bytesRead, Markers[k..], start) ==
                      Cons(value, FieldValues(buffer, bytesRead, Markers[k + 1..], nlIndex))
  {
    found, value, nlIndex := FindField(buffer, bytesRead, Markers[k], start);
    FieldValuesFirst(buffer, bytesRead, Markers[k..], start);
    assert Markers[k..][1..] == Markers[k + 1..];
  }

  /** The marker search and the line feed search after it, with the source's two checks. */
  method FindField(buffer: seq<byte>, bytesRead: int, marker: seq<byte>, start: nat)
    returns (found: bool, value: seq<byte>, nlIndex: nat)
    ensures found <==> Field(buffer, bytesRead, marker, start).Some?
    ensures found ==> Field(buffer, bytesRead, marker, start) == Some((value, nlIndex))
  {
    found, value, nlIndex := false, [], 0;
    var index := IndexOf(buffer, marker, start);
    if index < 0 || index >= bytesRead {
      return;
    }
    var nl := IndexOf(buffer, [LF], index + |marker|);
    if nl < 0 || nl >= bytesRead {
      return;
    }
    var end := nl - if nl > 0 && buffer[nl - 1] == CR then 1 else 0;
    found, value, nlIndex := true, Slice(buffer, index + |marker|, end), nl;
  }

  /** The values of a list of fields: the first one's, then those of the rest. */
  lemma FieldValuesFirst(buffer: seq<byte>, bytesRead: int, markers: seq<seq<byte>>, start: nat)
    requires markers != []
    ensures var f := Field(buffer, bytesRead, markers[0], start);
      FieldValues(buffer, bytesRead, markers, start)
      == if f.None? then None else Cons(f.value.0, FieldValues(buffer, bytesRead, markers[1..], f.value.1))
  {
  }

  /** `getBeatmapMetaLocalSync` after the read: `None` is the source's `null`. */
  method GetBeatmapMetaLocal(buffer: seq<byte>, bytesRead: int) returns (metaData: Option<Meta>)
    ensures metaData == Scrape(buffer, bytesRead)
  {
    var index := IndexOf(buffer, SectionMetadata, 0);
    if index < 0 || index >= bytesRead {
      return None;
    }
    var nlIndex := IndexOf(buffer, [LF], index + |SectionMetadata|);
    if nlIndex < 0 || index >= bytesRead {
      return None;
    }
    assert Scrape(buffer, bytesRead) == Fields(buffer, bytesRead, nlIndex);
    metaData := ScanFields(buffer, bytesRead, nlIndex);
  }

  /** The five field searches of `getBeatmapMetaLocalSync`, the first from the `[Metadata]` line feed. */
  method ScanFields(buffer: seq<byte>, bytesRead: int, start: nat) returns (metaData: Option<Meta>)
    ensures metaData == Fields(buffer, bytesRead, start)
  {
    var values := ScanValues(buffer, bytesRead, start);
    if values.None? {
      return None;
    }
    var v := values.value;
    metaData := Some(Meta(ToNumber(v[4]), v[1], v[0], v[2], v[3]));
  }

  /** The values of the five fields in order, or `None` as soon as one is missing. */
  method ScanValues(buffer: seq<byte>, bytesRead: int, start: nat) returns (values: Option<seq<seq<byte>>>)
    ensures values == FieldValues(buffer, bytesRead, Markers, start)
  {
    var found, title, artist, creator, version, setId, nlIndex;
    assert Markers[0..] == Markers;
    found, title, nlIndex := ScanField(buffer, bytesRead, 0, start);
    if !found {
      return None;
    }
    found, artist, nlIndex := ScanField(buffer, bytesRead, 1, nlIndex);
    if !found {
      return None;
    }
    found, creator, nlIndex := ScanField(buffer, bytesRead, 2, nlIndex);
    if !found {
      return None;
    }
    found, version, nlIndex := ScanField(buffer, bytesRead, 3, nlIndex);
    if !found {
      return None;
    }
    found, setId, nlIndex := ScanField(buffer, bytesRead, 4, nlIndex);
    if !found {
      return None;
    }
    assert Markers[5..] == [];
    values := Cons(title, Cons(artist, Cons(creator, Cons(version, Cons(setId, Some([]))))));
  }

  // ---------------------------------------------------------------------
  // `+string` on the set id
  // ---------------------------------------------------------------------

  predicate IsDigit(b: byte)
  {
    48 <= b <= 57
  }

  predicate IsSpace(b: byte)
  {
    9 <= b <= 13 || b == 32
  }

  /** The value of a run of decimal digits. */
  function DigitsValue(s: seq<byte>): (r: nat)
    requires forall k :: 0 <= k < |s| ==> IsDigit(s[k])
  {
    if s == [] then 0
    else
      assert IsDigit(s[|s| - 1]);
      10 * DigitsValue(s[..|s| - 1]) + (s[|s| - 1] as int - 48)
  }

  function TrimStart(s: seq<byte>): (r: seq<byte>)
    ensures |r| <= |s| && r == s[|s| - |r|..] && (r != [] ==> !IsSpace(r[0]))
    ensures forall k :: 0 <= k < |s| - |r| ==> IsSpace(s[k])
  {
    if s != [] && IsSpace(s[0]) then TrimStart(s[1..]) else s
  }

  function TrimEnd(s: seq<byte>): (r: seq<byte>)
    ensures |r| <= |s| && r == s[..|r|] && (r != [] ==> !IsSpace(r[|r| - 1]))
    ensures forall k :: |r| <= k < |s| ==> IsSpace(s[k])
  {
    if s != [] && IsSpace(s[|s| - 1]) then TrimEnd(s[..|s| - 1]) else s
  }

  predicate AllDigits(s: seq<byte>)
  {
    forall k :: 0 <= k < |s| ==> IsDigit(s[k])
  }

  /**
   * `Number(s)` for the integer forms: surrounding white space is ignored, a
   * blank string is 0, an optional sign may precede at least one digit;
   * anything else is `NaN` (`None`).
   */
  function ToNumber(s: seq<byte>): (r: Option<int>)
    ensures (forall k :: 0 <= k < |s| ==> IsSpace(s[k])) ==> r == Some(0)
    ensures s != [] && AllDigits(s) ==> r == Some(DigitsValue(s))
  {
    BlankTrim(s);
    DigitsTrim(s);
    IntegerValue(TrimEnd(TrimStart(s)))
  }

  /** The value of trimmed text: blank is 0, digits with an optional sign give their value. */
  function IntegerValue(t: seq<byte>): (r: Option<int>)
    ensures t == [] ==> r == Some(0)
    ensures t != [] && AllDigits(t) ==> r == Some(DigitsValue(t))
  {
    if t == [] then Some(0)
    else if AllDigits(t) then Some(DigitsValue(t))
    else if |t| > 1 && t[0] == 45 && AllDigits(t[1..]) then Some(-(DigitsValue(t[1..]) as int))
    else if |t| > 1 && t[0] == 43 && AllDigits(t[1..]) then Some(DigitsValue(t[1..]))
    else None
  }

  /** Text that converts holds only digits, white space and signs. */
  lemma ToNumberChars(s: seq<byte>)
    requires ToNumber(s).Some?
    ensures forall k :: 0 <= k < |s| ==> IsDigit(s[k]) || IsSpace(s[k]) || s[k] == 43 || s[k] == 45
  {
    var u := TrimStart(s);
    var t := TrimEnd(u);
    IntegerChars(t);
    forall k | 0 <= k < |s|
      ensures IsDigit(s[k]) || IsSpace(s[k]) || s[k] == 43 || s[k] == 45
    {
      TrimmedAt(s, k);
    }
  }

  /** Every byte of a string is dropped white space or a byte of its trim. */
  lemma TrimmedAt(s: seq<byte>, k: nat)
    requires k < |s|
    ensures var u := TrimStart(s);
            var t := TrimEnd(u);
            IsSpace(s[k]) || (|s| - |u| <= k < |s| - |u| + |t| && s[k] == t[k - (|s| - |u|)])
  {
    var u := TrimStart(s);
    var off := |s| - |u|;
    if off <= k {
      assert u[k - off] == s[k];
    }
  }

  /** Trimmed text that converts holds only digits and signs. */
  lemma IntegerChars(t: seq<byte>)
    requires IntegerValue(t).Some?
    ensures forall i :: 0 <= i < |t| ==> IsDigit(t[i]) || t[i] == 43 || t[i] == 45
  {
    if !AllDigits(t) {
      forall i | 0 < i < |t|
        ensures IsDigit(t[i])
      {
        assert t[1..][i - 1] == t[i];
      }
    }
  }

  /** The decimal digits of `n`, without leading zeros (`"0"` for zero). */
  function Digits(n: nat): (r: seq<byte>)
    ensures r != [] && AllDigits(r)
  {
    if n < 10 then [(48 + n) as byte] else Digits(n / 10) + [(48 + n % 10) as byte]
  }

  /** How a set id is written in a beatmap file. */
  function Render(x: int): (r: seq<byte>)
  {
    if x < 0 then [45] + Digits(-x) else Digits(x)
  }

  lemma {:induction false} DigitsValueOf(n: nat)
    ensures DigitsValue(Digits(n)) == n
    decreases n
  {
    if n >= 10 {
      DigitsValueOf(n / 10);
      var d := Digits(n);
      assert d[..|d| - 1] == Digits(n / 10);
    }
  }

  /** Reading back a written set id gives the set id. */
  lemma ToNumberRender(x: int)
    ensures ToNumber(Render(x)) == Some(x)
  {
    var r := Render(x);
    NoTrim(r);
    if x < 0 {
      ToNumberSigned(r, -x);
    } else {
      DigitsValueOf(x);
      assert AllDigits(r);
    }
  }

  lemma ToNumberSigned(r: seq<byte>, n: nat)
    requires r == [45] + Digits(n) && TrimEnd(TrimStart(r)) == r
    ensures ToNumber(r) == Some(-(n as int))
  {
    DigitsValueOf(n);
    assert r[1..] == Digits(n);
    assert !IsDigit(r[0]) && !AllDigits(r);
  }

  /** Text of white space alone trims to nothing. */
  lemma BlankTrim(s: seq<byte>)
    ensures (forall k :: 0 <= k < |s| ==> IsSpace(s[k])) ==> TrimEnd(TrimStart(s)) == []
  {
    var u := TrimStart(s);
    if u != [] {
      assert u[0] == s[|s| - |u|];
    }
  }

  /** Digits alone are their own trim. */
  lemma DigitsTrim(s: seq<byte>)
    ensures s != [] && AllDigits(s) ==> TrimEnd(TrimStart(s)) == s
  {
    if s != [] && AllDigits(s) {
      NoTrim(s);
    }
  }

  lemma NoTrim(s: seq<byte>)
    requires s != [] && !IsSpace(s[0]) && !IsSpace(s[|s| - 1])
    ensures TrimEnd(TrimStart(s)) == s
  {
  }

  // ---------------------------------------------------------------------
  // Properties
  // ---------------------------------------------------------------------

  /** Nothing is found unless the `[Metadata]` section starts among the fresh bytes. */
  lemma MetadataRequired(buffer: seq<byte>, bytesRead: int)
    requires Scrape(buffer, bytesRead).Some?
    ensures 0 <= IndexOf(buffer, SectionMetadata, 0) < bytesRead
  {
  }

  /**
   * A field found is the first occurrence of its marker from `from`, within
   * the fresh bytes; its line feed is the first one after the marker, also
   * within them; and its value is the text between, less one `\r` before the
   * line feed. The next search therefore starts past this marker.
   */
  lemma FieldFound(buffer: seq<byte>, bytesRead: int, marker: seq<byte>, from: nat)
    requires FieldMarker(marker)
    requires Field(buffer, bytesRead, marker, from).Some?
    ensures var index := IndexOf(buffer, marker, from);
            var f := Field(buffer, bytesRead, marker, from).value;
            && from <= index < bytesRead && OccursAt(buffer, marker, index)
            && (forall q :: from <= q < index ==> !OccursAt(buffer, marker, q))
            && index + |marker| <= f.1 < bytesRead && f.1 < |buffer| && buffer[f.1] == LF
            && (forall k :: index + |marker| <= k < f.1 ==> buffer[k] != LF)
            && f.0 == StripCR(buffer[index + |marker|..f.1])
  {
    MarkerFound(buffer, bytesRead, marker, from);
    LineFound(buffer, bytesRead, IndexOf(buffer, marker, from) + |marker|);
  }

  /** The marker of a field found: its first occurrence, within the fresh bytes, ending in `:`. */
  lemma MarkerFound(buffer: seq<byte>, bytesRead: int, marker: seq<byte>, from: nat)
    requires FieldMarker(marker)
    requires Field(buffer, bytesRead, marker, from).Some?
    ensures var index := IndexOf(buffer, marker, from);
            && from <= index < bytesRead && OccursAt(buffer, marker, index)
            && (forall q :: from <= q < index ==> !OccursAt(buffer, marker, q))
            && buffer[index + |marker| - 1] != CR
            && Field(buffer, bytesRead, marker, from) == Line(buffer, bytesRead, index + |marker|)
  {
    var index := IndexOf(buffer, marker, from);
    IndexOfSpec(buffer, marker, from);
    assert buffer[index + |marker| - 1] == buffer[index..index + |marker|][|marker| - 1];
  }

  /** The line feed of a line found, and its value, for a line not starting right after a `\r`. */
  lemma LineFound(buffer: seq<byte>, bytesRead: int, start: nat)
    requires Line(buffer, bytesRead, start).Some?
    requires 0 < start <= |buffer| && buffer[start - 1] != CR
    ensures var (value, nl) := Line(buffer, bytesRead, start).value;
            && start <= nl < bytesRead && nl < |buffer| && buffer[nl] == LF
            && (forall k :: start <= k < nl ==> buffer[k] != LF)
            && value == StripCR(buffer[start..nl])
  {
    var nl := IndexOf(buffer, [LF], start);
    IndexOfSpec(buffer, [LF], start);
    assert buffer[nl..nl + 1] == [LF];
    forall k | start <= k < nl
      ensures buffer[k] != LF
    {
      assert !OccursAt(buffer, [LF], k);
      assert buffer[k..k + 1] == [buffer[k]];
    }
    var body := buffer[start..nl];
    if buffer[nl - 1] == CR {
      assert nl > start && body[|body| - 1] == CR;
      assert StripCR(body) == buffer[start..nl - 1];
    } else {
      assert StripCR(body) == body;
    }
  }

  /** Each found field's line feed lies past the previous one. */
  lemma FieldAdvances(buffer: seq<byte>, bytesRead: int, marker: seq<byte>, from: nat)
    requires FieldMarker(marker)
    requires Field(buffer, bytesRead, marker, from).Some?
    ensures from < Field(buffer, bytesRead, marker, from).value.1 < bytesRead
  {
    FieldFound(buffer, bytesRead, marker, from);
  }

  /** A search that starts at or past the fresh bytes finds nothing. */
  lemma FieldPastEnd(buffer: seq<byte>, bytesRead: int, marker: seq<byte>, from: nat)
    requires from >= bytesRead
    ensures Field(buffer, bytesRead, marker, from).None?
  {
  }

  /** Searches from past the fresh bytes find no fields. */
  lemma FieldsPastEnd(buffer: seq<byte>, bytesRead: int, from: nat)
    requires from >= bytesRead
    ensures Fields(buffer, bytesRead, from).None?
  {
    FieldPastEnd(buffer, bytesRead, Markers[0], from);
    assert FieldValues(buffer, bytesRead, Markers, from).None?;
  }

  /**
   * The scrape with the intended check on the `[Metadata]` line (its line
   * feed among the fresh bytes).
   */
  function ScrapeChecked(buffer: seq<byte>, bytesRead: int): Option<Meta>
  {
    var index := IndexOf(buffer, SectionMetadata, 0);
    if index < 0 || index >= bytesRead then None
    else
      var nlIndex := IndexOf(buffer, [LF], index + |SectionMetadata|);
      if nlIndex < 0 || nlIndex >= bytesRead then None
      else Fields(buffer, bytesRead, nlIndex)
  }

  /**
   * Checking `index` instead of `nlIndex` changes no result: a line feed past
   * the fresh bytes makes the Title search start there, and it finds nothing.
   */
  lemma MetadataCheckHarmless(buffer: seq<byte>, bytesRead: int)
    ensures Scrape(buffer, bytesRead) == ScrapeChecked(buffer, bytesRead)
  {
    var index := IndexOf(buffer, SectionMetadata, 0);
    if 0 <= index < bytesRead {
      var nlIndex := IndexOf(buffer, [LF], index + |SectionMetadata|);
      if nlIndex >= bytesRead {
        FieldsPastEnd(buffer, bytesRead, nlIndex);
      }
    }
  }

  // ---------------------------------------------------------------------
  // Stale bytes
  // ---------------------------------------------------------------------

  /** Two buffers hold the same fresh bytes. */
  predicate SameFresh(b1: seq<byte>, b2: seq<byte>, n: int)
  {
    0 <= n <= |b1| && n <= |b2| && b1[..n] == b2[..n]
  }

  /** An occurrence within the fresh bytes of one buffer is one in the other. */
  lemma OccursFresh(b1: seq<byte>, b2: seq<byte>, n: int, pat: seq<byte>, q: nat)
    requires SameFresh(b1, b2, n) && q + |pat| <= n
    ensures OccursAt(b1, pat, q) <==> OccursAt(b2, pat, q)
  {
    assert b1[q..q + |pat|] == b1[..n][q..q + |pat|];
    assert b2[q..q + |pat|] == b2[..n][q..q + |pat|];
  }

  /** A first occurrence within the fresh bytes of `b1` is the first one in `b2` too. */
  lemma SearchFresh(b1: seq<byte>, b2: seq<byte>, n: int, pat: seq<byte>, from: nat)
    requires SameFresh(b1, b2, n)
    requires IndexOf(b1, pat, from) != -1 && IndexOf(b1, pat, from) + |pat| <= n
    ensures IndexOf(b2, pat, from) == IndexOf(b1, pat, from)
  {
    var r := IndexOf(b1, pat, from);
    IndexOfSpec(b1, pat, from);
    OccursFresh(b1, b2, n, pat, r);
    forall q | from <= q < r
      ensures !OccursAt(b2, pat, q)
    {
      OccursFresh(b1, b2, n, pat, q);
    }
    IndexOfIs(b2, pat, from, r);
  }

  /** Whether a search result lies wholly within the fresh bytes. */
  predicate Fits(r: int, pat: seq<byte>, n: int)
  {
    r != -1 && r + |pat| <= n
  }

  lemma SearchAgree(b1: seq<byte>, b2: seq<byte>, n: int, pat: seq<byte>, from: nat)
    requires SameFresh(b1, b2, n)
    ensures Fits(IndexOf(b1, pat, from), pat, n) <==> Fits(IndexOf(b2, pat, from), pat, n)
    ensures Fits(IndexOf(b1, pat, from), pat, n) ==> IndexOf(b1, pat, from) == IndexOf(b2, pat, from)
  {
    if Fits(IndexOf(b1, pat, from), pat, n) {
      SearchFresh(b1, b2, n, pat, from);
    }
    if Fits(IndexOf(b2, pat, from), pat, n) {
      assert SameFresh(b2, b1, n);
      SearchFresh(b2, b1, n, pat, from);
    }
  }

  /** A marker not wholly among the fresh bytes gives no field. */
  lemma FieldNoFit(b: seq<byte>, n: int, marker: seq<byte>, from: nat)
    requires |marker| > 0 && !Fits(IndexOf(b, marker, from), marker, n)
    ensures Field(b, n, marker, from).None?
  {
  }

  /** A field is decided by the fresh bytes alone. */
  lemma FieldFresh(b1: seq<byte>, b2: seq<byte>, n: int, marker: seq<byte>, from: nat)
    requires SameFresh(b1, b2, n) && |marker| > 0
    ensures Field(b1, n, marker, from) == Field(b2, n, marker, from)
  {
    SearchAgree(b1, b2, n, marker, from);
    if Fits(IndexOf(b1, marker, from), marker, n) {
      FieldFreshFits(b1, b2, n, marker, from);
    } else {
      FieldNoFit(b1, n, marker, from);
      FieldNoFit(b2, n, marker, from);
    }
  }

  lemma FieldFreshFits(b1: seq<byte>, b2: seq<byte>, n: int, marker: seq<byte>, from: nat)
    requires SameFresh(b1, b2, n) && |marker| > 0
    requires Fits(IndexOf(b1, marker, from), marker, n) && IndexOf(b1, marker, from) == IndexOf(b2, marker, from)
    ensures Field(b1, n, marker, from) == Field(b2, n, marker, from)
  {
    var index := IndexOf(b1, marker, from);
    FieldIsLine(b1, n, marker, from);
    FieldIsLine(b2, n, marker, from);
    LineFresh(b1, b2, n, index + |marker|);
  }

  lemma FieldIsLine(b: seq<byte>, n: int, marker: seq<byte>, from: nat)
    requires |marker| > 0 && Fits(IndexOf(b, marker, from), marker, n)
    ensures IndexOf(b, marker, from) >= 0
    ensures Field(b, n, marker, from) == Line(b, n, IndexOf(b, marker, from) + |marker|)
  {
  }

  /** The value and line feed after a marker ending at `start` within the fresh bytes. */
  function Line(b: seq<byte>, n: int, start: nat): Option<(seq<byte>, nat)>
  {
    var nlIndex := IndexOf(b, [LF], start);
    if nlIndex < 0 || nlIndex >= n then None
    else Some((Slice(b, start, nlIndex - if nlIndex > 0 && b[nlIndex - 1] == CR then 1 else 0), nlIndex))
  }

  lemma LineFresh(b1: seq<byte>, b2: seq<byte>, n: int, start: nat)
    requires SameFresh(b1, b2, n)
    ensures Line(b1, n, start) == Line(b2, n, start)
  {
    var l1 := IndexOf(b1, [LF], start);
    SearchAgree(b1, b2, n, [LF], start);
    if Fits(l1, [LF], n) {
      if l1 > 0 {
        assert b1[..n][l1 - 1] == b1[l1 - 1] && b2[..n][l1 - 1] == b2[l1 - 1];
      }
      var e := l1 - if l1 > 0 && b1[l1 - 1] == CR then 1 else 0;
      SliceFresh(b1, b2, n, start, e);
    }
  }

  lemma SliceFresh(b1: seq<byte>, b2: seq<byte>, n: int, start: nat, end: nat)
    requires SameFresh(b1, b2, n) && end <= n
    ensures Slice(b1, start, end) == Slice(b2, start, end)
  {
    if start <= end {
      assert b1[start..end] == b1[..n][start..end];
      assert b2[start..end] == b2[..n][start..end];
    }
  }

  /** The fields of `markers` are decided by the fresh bytes alone. */
  lemma {:induction false} FieldValuesFresh(b1: seq<byte>, b2: seq<byte>, n: int, markers: seq<seq<byte>>, from: nat)
    requires SameFresh(b1, b2, n) && forall k :: 0 <= k < |markers| ==> |markers[k]| > 0
    ensures FieldValues(b1, n, markers, from) == FieldValues(b2, n, markers, from)
    decreases |markers|
  {
    if markers != [] {
      FieldFresh(b1, b2, n, markers[0], from);
      var f := Field(b1, n, markers[0], from);
      if f.Some? {
        FieldValuesFresh(b1, b2, n, markers[1..], f.value.1);
      }
    }
  }

  /** The five fields are decided by the fresh bytes alone. */
  lemma FieldsFresh(b1: seq<byte>, b2: seq<byte>, n: int, from: nat)
    requires SameFresh(b1, b2, n)
    ensures Fields(b1, n, from) == Fields(b2, n, from)
  {
    FieldValuesFresh(b1, b2, n, Markers, from);
  }

  /**
   * The bytes left in the shared buffer from earlier reads never show in the
   * result: two buffers with the same `bytesRead` fresh bytes scrape alike.
   */
  lemma StaleBytesIgnored(b1: seq<byte>, b2: seq<byte>, bytesRead: int)
    requires SameFresh(b1, b2, bytesRead)
    ensures Scrape(b1, bytesRead) == Scrape(b2, bytesRead)
  {
    MetadataCheckHarmless(b1, bytesRead);
    MetadataCheckHarmless(b2, bytesRead);
    CheckedFresh(b1, b2, bytesRead);
  }

  /** The scrape with the intended check is decided by the fresh bytes alone. */
  lemma CheckedFresh(b1: seq<byte>, b2: seq<byte>, bytesRead: int)
    requires SameFresh(b1, b2, bytesRead)
    ensures ScrapeChecked(b1, bytesRead) == ScrapeChecked(b2, bytesRead)
  {
    var i := IndexOf(b1, SectionMetadata, 0);
    SearchAgree(b1, b2, bytesRead, SectionMetadata, 0);
    if Fits(i, SectionMetadata, bytesRead) {
      var l := IndexOf(b1, [LF], i + |SectionMetadata|);
      SearchAgree(b1, b2, bytesRead, [LF], i + |SectionMetadata|);
      CheckedAt(b1, bytesRead, i, l);
      CheckedAt(b2, bytesRead, i, IndexOf(b2, [LF], i + |SectionMetadata|));
      if Fits(l, [LF], bytesRead) {
        FieldsFresh(b1, b2, bytesRead, l);
      }
    } else {
      CheckedNone(b1, bytesRead);
      CheckedNone(b2, bytesRead);
    }
  }

  /** The checked scrape once the `[Metadata]` marker lies among the fresh bytes. */
  lemma CheckedAt(b: seq<byte>, n: int, i: int, l: int)
    requires i == IndexOf(b, SectionMetadata, 0) && Fits(i, SectionMetadata, n)
    requires l == IndexOf(b, [LF], i + |SectionMetadata|)
    ensures ScrapeChecked(b, n) == if Fits(l, [LF], n) then Fields(b, n, l) else None
  {
  }

  /** No checked scrape without the whole `[Metadata]` marker among the fresh bytes. */
  lemma CheckedNone(b: seq<byte>, n: int)
    requires !Fits(IndexOf(b, SectionMetadata, 0), SectionMetadata, n)
    ensures ScrapeChecked(b, n).None?
  {
  }
}

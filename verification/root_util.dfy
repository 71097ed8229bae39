/**
 * The top-level helper module of the program. Its `padString` and
 * `getAccuracy` are the same as the library's (`Util.PadString`,
 * `Util.GetAccuracy`); its `sanitizePathName` deletes characters instead of
 * replacing runs of them.
 */
module RootUtil {
  import Util

  /** Characters deleted from every name. */
  const Unsafe: set<char> := {'\\', '/', ':', '*', '?', '\"', '<', '>', '|'}
  /** Characters deleted from a folder name in a second pass. */
  const Dots: set<char> := {'.'}

  /**
   * `sanitizePathName`: every character of `Unsafe` is deleted, then, for a
   * folder, every `.` too.
   */
  function SanitizePathName(pathName: string, isFolder: bool): (r: string)
    ensures forall c :: c in r ==> c !in Unsafe
    ensures isFolder ==> '.' !in r
    ensures |r| <= |pathName|
  {
    var cleaned := Util.DeleteAll(pathName, Unsafe);
    if isFolder then Util.DeleteAll(cleaned, Dots) else cleaned
  }

  /** Two deletion passes are one pass over the union of the two classes. */
  lemma {:induction false} DeleteAllTwice(s: string, a: set<char>, b: set<char>)
    ensures Util.DeleteAll(Util.DeleteAll(s, a), b) == Util.DeleteAll(s, a + b)
    decreases |s|
  {
    if s != [] {
      DeleteAllTwice(s[1..], a, b);
      if s[0] !in a {
        assert Util.DeleteAll(s, a) == [s[0]] + Util.DeleteAll(s[1..], a);
        assert Util.DeleteAll(s, a)[1..] == Util.DeleteAll(s[1..], a);
      }
    }
  }

  /**
   * The two passes keep every other character in its order: the result is the
   * input filtered by the one class of all targeted characters.
   */
  lemma SanitizeIsFilter(pathName: string, isFolder: bool)
    ensures SanitizePathName(pathName, isFolder) ==
            Util.DeleteAll(pathName, if isFolder then Unsafe + Dots else Unsafe)
  {
    if isFolder {
      DeleteAllTwice(pathName, Unsafe, Dots);
    }
  }

  /** Sanitising a sanitised name changes nothing. */
  lemma SanitizeIdempotent(pathName: string, isFolder: bool)
    ensures SanitizePathName(SanitizePathName(pathName, isFolder), isFolder) == SanitizePathName(pathName, isFolder)
  {
    var r := SanitizePathName(pathName, isFolder);
    Util.DeleteAllNone(r, Unsafe);
    if isFolder {
      Util.DeleteAllNone(r, Dots);
    }
  }
}

/**
 * The write-coalescing autosave map: a map that, on every `set`, arranges for
 * its whole content to be written to a file, with at most one write at a time
 * and any number of changes during a write folded into one follow-up write.
 * The file system and the Node event loop are events here: the scheduled
 * `doSave` callback, the completion of `writeFile` and of `rename` are each a
 * method a driver calls, with the error, if any, as a parameter.
 */
module AutoSave {
  import opened Wrappers
  import JsMap

  /** `SAVE_MAP_STATUS`. */
  datatype Status = Idle | Tick | Active | Queued

  /** The status `save()` leaves behind. */
  function AfterSave(s: Status): (r: Status)
    ensures r == Tick <==> s == Idle || s == Tick
    ensures r == Queued <==> s == Active || s == Queued
  {
    match s
    case Idle => Tick
    case Tick => Tick
    case Active => Queued
    case Queued => Queued
  }

  /** The status after `k` calls of `save()` in a row, with no event in between. */
  function AfterSaves(s: Status, k: nat): Status
  {
    if k == 0 then s else AfterSave(AfterSaves(s, k - 1))
  }

  /**
   * Saves coalesce: any positive number of `save()` calls in a row leaves the
   * status one call leaves, so a burst of `set` calls while idle schedules one
   * `doSave`, and a burst during a write asks for exactly one follow-up.
   */
  lemma {:induction false} SavesCoalesce(s: Status, k: nat)
    requires k > 0
    ensures AfterSaves(s, k) == AfterSave(s)
    ensures s == Idle || s == Tick ==> AfterSaves(s, k) == Tick
    ensures s == Active || s == Queued ==> AfterSaves(s, k) == Queued
  {
    if k > 1 {
      SavesCoalesce(s, k - 1);
    }
  }

  /** Where the current save stands on the file system. */
  datatype Flight<K, V> =
    | NoWrite
      /** `writeFile(path + ".0", content)` is under way. */
    | Writing(content: JsMap.Entries<K, V>)
      /** `rename(path + ".0", path)` is under way. */
    | Renaming(content: JsMap.Entries<K, V>)
      /** A write or rename failed; its error was thrown and nothing resumes. */
    | Stopped

  class AutoSaveMap<K(==), V> {
    /** The map's entries in iteration order. */
    var entries: JsMap.Entries<K, V>
    var status: Status
    const path: string
    /** A `doSave` is scheduled (by `process.nextTick` or `setImmediate`). */
    var scheduled: bool
    var flight: Flight<K, V>
    /** What this map last put at `path`; `None` before its first rename. */
    ghost var persisted: Option<JsMap.Entries<K, V>>
    /** Every serialisation taken so far, in order. */
    ghost var snapshots: seq<JsMap.Entries<K, V>>

    /**
     * The status tells where the save cycle is: idle with nothing pending,
     * a save scheduled, a write in flight, or a write in flight with a
     * follow-up save wanted (or already scheduled once the write is done).
     * At most one write is ever in flight, and the file only ever holds a
     * complete snapshot.
     */
    ghost predicate Valid()
      reads this
    {
      && JsMap.UniqueKeys(entries)
      && (status == Idle ==> !scheduled && flight == NoWrite)
      && (status == Tick ==> scheduled && flight == NoWrite)
      && (status == Active ==> !scheduled && flight != NoWrite)
      && (status == Queued ==> (scheduled <==> flight == NoWrite))
      && ((flight.Writing? || flight.Renaming?) ==> flight.content in snapshots)
      && (persisted.Some? ==> persisted.value in snapshots)
    }

    /**
     * `new AutoSaveMap(iterable, path)`. The `Map` constructor sets the
     * initial entries through the overridden `set`, whose `save()` runs
     * before `status` is assigned and so matches no case: nothing is scheduled.
     */
    constructor (iterable: seq<(K, V)>, path: string)
      ensures Valid()
      ensures entries == JsMap.FromPairs(iterable) && this.path == path
      ensures status == Idle && !scheduled && flight == NoWrite
      ensures persisted == None && snapshots == []
    {
      JsMap.FromPairsUnique(iterable);
      entries := JsMap.FromPairs(iterable);
      this.path := path;
      status := Idle;
      scheduled := false;
      flight := NoWrite;
      persisted := None;
      snapshots := [];
    }

    /** `set`: the map is updated first, then a save is requested. */
    method Set(key: K, value: V)
      requires Valid()
      modifies this
      ensures Valid()
      ensures entries == JsMap.Set(old(entries), key, value)
      ensures status == AfterSave(old(status))
      ensures scheduled == (old(scheduled) || old(status) == Idle)
      ensures flight == old(flight) && persisted == old(persisted) && snapshots == old(snapshots)
    {
      JsMap.SetUnique(entries, key, value);
      entries := JsMap.Set(entries, key, value);
      Save();
    }

    /**
     * `save`: from `IDLE` one `doSave` is scheduled; during a write the
     * request is remembered as `QUEUED`; otherwise a save is already coming.
     */
    method Save()
      requires Valid()
      modifies this
      ensures Valid()
      ensures status == AfterSave(old(status))
      ensures scheduled == (old(scheduled) || old(status) == Idle)
      ensures old(status) == Idle ==> !old(scheduled)
      ensures entries == old(entries) && flight == old(flight)
      ensures persisted == old(persisted) && snapshots == old(snapshots)
    {
      match status {
        case Queued =>
        case Tick =>
        case Active =>
          status := Queued;
        case Idle =>
          status := Tick;
          scheduled := true;
      }
    }

    /** `toJSON`: the entries as `[key, value]` pairs in iteration order. */
    function ToJson(): (r: seq<(K, V)>)
      reads this
      ensures |r| == |entries|
      ensures forall i :: 0 <= i < |r| ==> r[i].0 == entries[i].0 && r[i].1 == entries[i].1
    {
      entries
    }

    /**
     * The scheduled `doSave` runs: the status becomes `ACTIVE` and the whole
     * map, as it is now, is serialised and handed to `writeFile`.
     */
    method DoSave()
      requires Valid() && scheduled
      modifies this
      ensures Valid()
      ensures old(flight) == NoWrite
      ensures status == Active && !scheduled
      ensures flight == Writing(old(ToJson()))
      ensures snapshots == old(snapshots) + [old(ToJson())]
      ensures entries == old(entries) && persisted == old(persisted)
    {
      status := Active;
      scheduled := false;
      var content := ToJson();
      snapshots := snapshots + [content];
      flight := Writing(content);
    }

    /** `writeFile` completes: on success the rename starts, on error it is thrown. */
    method CompleteWrite(failed: bool) returns (outcome: Outcome<string>)
      requires Valid() && flight.Writing?
      modifies this
      ensures Valid()
      ensures outcome.Fail? <==> failed
      ensures failed ==> flight == Stopped
      ensures !failed ==> flight == Renaming(old(flight).content)
      ensures status == old(status) && scheduled == old(scheduled) && entries == old(entries)
      ensures persisted == old(persisted) && snapshots == old(snapshots)
    {
      if failed {
        flight := Stopped;
        return Fail("writeFile failed");
      }
      flight := Renaming(flight.content);
      outcome := Pass;
    }

    /**
     * `rename` completes: the file now holds the snapshot written. A save
     * requested meanwhile is scheduled once, the status staying `QUEUED`
     * until it runs; otherwise the map is idle again.
     */
    method CompleteRename(failed: bool) returns (outcome: Outcome<string>)
      requires Valid() && flight.Renaming?
      modifies this
      ensures Valid()
      ensures outcome.Fail? <==> failed
      ensures old(status) == Active || old(status) == Queued
      ensures failed ==> flight == Stopped && status == old(status) && !scheduled && persisted == old(persisted)
      ensures !failed ==> flight == NoWrite && persisted == Some(old(flight).content)
      ensures !failed && old(status) == Queued ==> status == Queued && scheduled
      ensures !failed && old(status) != Queued ==> status == Idle && !scheduled
      ensures entries == old(entries) && snapshots == old(snapshots)
    {
      if failed {
        flight := Stopped;
        return Fail("rename failed");
      }
      persisted := Some(flight.content);
      flight := NoWrite;
      if status == Queued {
        scheduled := true;
      } else {
        status := Idle;
      }
      outcome := Pass;
    }
  }
}

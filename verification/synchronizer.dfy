/**
 * The one-way synchronizer and its poll driver. The filesystem is the pair
 * of directories (source, destination); `sync_folders` changes the
 * destination one file operation at a time and never the source.
 */
module Synchronizer {
  import opened FileTypes
  import opened Comparator
  import Verifier

  /** `dst` with every name of `names` holding its file from `src`. */
  function Overwrite(dst: Directory, src: Directory, names: set<Name>): (r: Directory)
    requires names <= src.Keys
    ensures r.Keys == dst.Keys + names
  {
    map n | n in dst.Keys + names :: if n in names then src[n] else dst[n]
  }

  /**
   * The destination `sync_folders` leaves behind: the comparison's
   * `left_only` names copied, its `right_only` names removed and its
   * `diff_files` names overwritten, all from one comparison made up front.
   */
  function Synced(same: (Bytes, Bytes) -> bool, src: Directory, dst: Directory): (r: Directory)
    ensures r.Keys == src.Keys
  {
    var c := Compare(same, src, dst);
    Overwrite(Overwrite(dst, src, c.leftOnly) - c.rightOnly, src, c.diffFiles)
  }

  /**
   * What a sync does name by name: names only in the source arrive with the
   * source's content, names only in the destination are gone, differing
   * names take the source's content, common names the test calls equal keep
   * the destination's content, and no other name appears.
   */
  lemma SyncedOutcome(same: (Bytes, Bytes) -> bool, src: Directory, dst: Directory)
    ensures var r := Synced(same, src, dst);
      && r.Keys == src.Keys
      && (forall n :: n in src && n !in dst ==> r[n] == src[n])
      && (forall n :: n in dst && n !in src ==> n !in r)
      && (forall n :: n in src && n in dst && !same(src[n], dst[n]) ==> r[n] == src[n])
      && (forall n :: n in src && n in dst && same(src[n], dst[n]) ==> r[n] == dst[n])
  {
  }

  /**
   * Convergence: with a test that calls a file equal to itself, after a
   * sync the comparison finds nothing left to do.
   */
  lemma SyncConverges(same: (Bytes, Bytes) -> bool, src: Directory, dst: Directory)
    requires Reflexive(same)
    ensures InSync(same, src, Synced(same, src, dst))
    ensures Compare(same, src, Synced(same, src, dst)).IsEmpty()
    ensures !IsFolderChanged(same, src, Synced(same, src, dst))
  {
    var r := Synced(same, src, dst);
    SyncedOutcome(same, src, dst);
    forall n | n in src ensures same(src[n], r[n]) {
      assert same(src[n], src[n]);
    }
    var c := Compare(same, src, r);
    assert c.leftOnly == {} && c.rightOnly == {} && c.diffFiles == {} by {
      forall n ensures n !in c.leftOnly && n !in c.rightOnly && n !in c.diffFiles {
        ComparePartition(same, src, r, n);
      }
    }
  }

  /**
   * With a test that calls only identical files equal, the destination ends
   * up equal to the source.
   */
  lemma SyncMirrors(same: (Bytes, Bytes) -> bool, src: Directory, dst: Directory)
    requires Sound(same)
    ensures Synced(same, src, dst) == src
  {
    var r := Synced(same, src, dst);
    SyncedOutcome(same, src, dst);
    forall n | n in src ensures r[n] == src[n] {
      if n in dst && same(src[n], dst[n]) {
        assert src[n] == dst[n];
      }
    }
  }

  /** When the change check finds nothing, a sync leaves the destination as it is. */
  lemma SyncUnchangedWhenInSync(same: (Bytes, Bytes) -> bool, src: Directory, dst: Directory)
    ensures !IsFolderChanged(same, src, dst) ==> Synced(same, src, dst) == dst
  {
    if !IsFolderChanged(same, src, dst) {
      var c := Compare(same, src, dst);
      assert c.IsEmpty() by {
        forall n ensures n !in c.leftOnly && n !in c.rightOnly && n !in c.diffFiles {
          ComparePartition(same, src, dst, n);
        }
      }
      assert Overwrite(dst, src, {}) == dst;
    }
  }

  /**
   * A sync of directories already in sync changes nothing; conversely a sync
   * that changes nothing found nothing to do.
   */
  lemma SyncNoOpIffInSync(same: (Bytes, Bytes) -> bool, src: Directory, dst: Directory)
    requires Reflexive(same)
    ensures Synced(same, src, dst) == dst <==> !IsFolderChanged(same, src, dst)
  {
    SyncUnchangedWhenInSync(same, src, dst);
    var r := Synced(same, src, dst);
    SyncedOutcome(same, src, dst);
    if r == dst {
      forall n | n in src ensures same(src[n], dst[n]) {
        assert same(src[n], src[n]);
      }
    }
  }

  /** Idempotence: a second sync right after the first changes nothing. */
  lemma SyncIdempotent(same: (Bytes, Bytes) -> bool, src: Directory, dst: Directory)
    requires Reflexive(same)
    ensures Synced(same, src, Synced(same, src, dst)) == Synced(same, src, dst)
  {
    SyncConverges(same, src, dst);
    SyncNoOpIffInSync(same, src, Synced(same, src, dst));
  }

  /** One more copy moves one name from the pending set to the done set. */
  lemma OverwriteStep(dst: Directory, src: Directory, names: set<Name>, todo: set<Name>, n: Name)
    requires n in todo && todo <= names && names <= src.Keys
    ensures Overwrite(dst, src, names - todo)[n := src[n]] == Overwrite(dst, src, names - (todo - {n}))
  {
    var before, after := Overwrite(dst, src, names - todo), Overwrite(dst, src, names - (todo - {n}));
    assert names - todo + {n} == names - (todo - {n});
    forall m | m in after ensures before[n := src[n]][m] == after[m] {
      if m != n && m !in names - todo {
        assert m in dst;
      }
    }
  }

  /** The set of names a log reports under one action. */
  function Logged(log: seq<Event>, action: Action): (names: set<Name>)
    decreases |log|
  {
    if log == [] then {}
    else
      var last := log[|log| - 1];
      Logged(log[..|log| - 1], action) + (if last.action == action then {last.name} else {})
  }

  /** Appending a line adds its name to the names of its action and to no other. */
  lemma LoggedAppend(log: seq<Event>, e: Event, action: Action)
    ensures Logged(log + [e], action) == Logged(log, action) + (if e.action == action then {e.name} else {})
  {
    assert (log + [e])[..|log|] == log;
  }

  /** A log's names per action are those of its two halves together. */
  lemma {:induction false} LoggedConcat(first: seq<Event>, second: seq<Event>, action: Action)
    ensures Logged(first + second, action) == Logged(first, action) + Logged(second, action)
    decreases |second|
  {
    if second == [] {
      assert first + second == first;
    } else {
      var init := second[..|second| - 1];
      var last := second[|second| - 1];
      LoggedConcat(first, init, action);
      assert second == init + [last];
      assert first + second == (first + init) + [last];
      LoggedAppend(first + init, last, action);
      LoggedAppend(init, last, action);
    }
  }

  /** Logging one more name of the pending set under `action`. */
  lemma LoggedStep(log: seq<Event>, action: Action, names: set<Name>, todo: set<Name>, n: Name)
    requires Logged(log, action) == names - todo && LogsOnly(log, action)
    requires n in todo && todo <= names
    ensures Logged(log + [Event(action, n)], action) == names - (todo - {n})
    ensures LogsOnly(log + [Event(action, n)], action)
  {
    var e := Event(action, n);
    LoggedAppend(log, e, action);
    assert names - todo + {n} == names - (todo - {n});
    forall i | 0 <= i < |log + [e]| ensures (log + [e])[i].action == action {
      if i < |log| {
        assert (log + [e])[i] == log[i];
      }
    }
  }

  /**
   * The state of a copy loop: the names of `names` outside `todo` have been
   * copied from `src` over `dst` into `cur`, and logged under `action`.
   */
  ghost predicate CopiedSoFar(dst: Directory, src: Directory, cur: Directory, names: set<Name>,
                              todo: set<Name>, action: Action, log: seq<Event>)
  {
    && todo <= names <= src.Keys
    && cur == Overwrite(dst, src, names - todo)
    && Logged(log, action) == names - todo && LogsOnly(log, action)
  }

  /** Copying and logging one pending name moves the copy loop on by one. */
  lemma CopyStep(dst: Directory, src: Directory, cur: Directory, names: set<Name>,
                 todo: set<Name>, action: Action, log: seq<Event>, n: Name)
    requires CopiedSoFar(dst, src, cur, names, todo, action, log) && n in todo
    ensures CopiedSoFar(dst, src, cur[n := src[n]], names, todo - {n}, action, log + [Event(action, n)])
  {
    OverwriteStep(dst, src, names, todo, n);
    LoggedStep(log, action, names, todo, n);
  }

  /** Every line of the log reports `action`. */
  predicate LogsOnly(log: seq<Event>, action: Action)
  {
    forall i :: 0 <= i < |log| ==> log[i].action == action
  }

  /** A log of one action reports no name under any other action. */
  lemma {:induction false} LogsOnlyNothingElse(log: seq<Event>, action: Action, other: Action)
    requires LogsOnly(log, action) && other != action
    ensures Logged(log, other) == {}
    decreases |log|
  {
    if log != [] {
      LogsOnlyNothingElse(log[..|log| - 1], action, other);
    }
  }

  /**
   * The log of the three loops reports the copied names as copied, the
   * removed names as removed, the updated names as updated, and no warning.
   */
  lemma LoggedThreeLoops(copied: seq<Event>, removed: seq<Event>, updated: seq<Event>)
    requires LogsOnly(copied, Copied) && LogsOnly(removed, Removed) && LogsOnly(updated, Updated)
    ensures Logged(copied + removed + updated, Copied) == Logged(copied, Copied)
    ensures Logged(copied + removed + updated, Removed) == Logged(removed, Removed)
    ensures Logged(copied + removed + updated, Updated) == Logged(updated, Updated)
    ensures Logged(copied + removed + updated, CopyValidationFailed) == {}
  {
    forall a: Action
      ensures Logged(copied + removed + updated, a) == Logged(copied, a) + Logged(removed, a) + Logged(updated, a)
    {
      LoggedConcat(copied, removed, a);
      LoggedConcat(copied + removed, updated, a);
    }
    LogsOnlyNothingElse(copied, Copied, Removed);
    LogsOnlyNothingElse(copied, Copied, Updated);
    LogsOnlyNothingElse(copied, Copied, CopyValidationFailed);
    LogsOnlyNothingElse(removed, Removed, Copied);
    LogsOnlyNothingElse(removed, Removed, Updated);
    LogsOnlyNothingElse(removed, Removed, CopyValidationFailed);
    LogsOnlyNothingElse(updated, Updated, Copied);
    LogsOnlyNothingElse(updated, Updated, Removed);
    LogsOnlyNothingElse(updated, Updated, CopyValidationFailed);
  }

  /**
   * The filesystem the program works on. The program writes only the
   * destination, through `sync_folders`; `SynchronizeFolders` also assigns
   * the source, standing for the outside world editing it during the sleep.
   */
  class FileSystem {
    var source: Directory
    var destination: Directory

    constructor (source: Directory, destination: Directory)
      ensures this.source == source && this.destination == destination
    {
      this.source := source;
      this.destination := destination;
    }

    /** `shutil.copy2` of one source file onto the destination path. */
    method CopyFile(name: Name)
      requires name in source
      modifies this
      ensures source == old(source)
      ensures destination == old(destination)[name := source[name]]
    {
      destination := destination[name := source[name]];
    }

    /** `os.remove` of one destination file. */
    method RemoveFile(name: Name)
      requires name in destination
      modifies this
      ensures source == old(source)
      ensures destination == old(destination) - {name}
    {
      destination := destination - {name};
    }

    /**
     * The body of the two copy loops of `sync_folders`: `shutil.copy2` of one
     * name, a log line reporting `action`, then `validate_file_copy`, whose
     * warning line never appears because the copy is faithful.
     */
    method CopyValidated(name: Name, action: Action, hash: Bytes -> Digest, log: seq<Event>) returns (log': seq<Event>)
      requires name in source
      modifies this
      ensures source == old(source)
      ensures destination == old(destination)[name := source[name]]
      ensures log' == log + [Event(action, name)]
    {
      CopyFile(name);
      log' := log + [Event(action, name)];
      var warn := Verifier.ValidateFileCopy(hash, source[name], destination[name]);
      if warn {
        log' := log' + [Event(CopyValidationFailed, name)];
      }
    }

    /**
     * One of the two copy loops of `sync_folders`: `shutil.copy2` of each
     * name, a log line reporting `action`, then `validate_file_copy`, whose
     * warning never fires because the copy is faithful.
     */
    method CopyEach(names: set<Name>, action: Action, hash: Bytes -> Digest) returns (log: seq<Event>)
      requires names <= source.Keys
      modifies this
      ensures source == old(source)
      ensures destination == Overwrite(old(destination), source, names)
      ensures Logged(log, action) == names && LogsOnly(log, action)
      ensures |log| == |names|
    {
      ghost var dst := destination;
      log := [];
      var todo := names;
      assert names - todo == {};
      assert Overwrite(dst, source, {}) == dst;
      while todo != {}
        invariant source == old(source)
        invariant CopiedSoFar(dst, source, destination, names, todo, action, log)
        invariant |log| + |todo| == |names|
        decreases todo
      {
        var name :| name in todo;
        CopyStep(dst, source, destination, names, todo, action, log, name);
        log := CopyValidated(name, action, hash, log);
        todo := todo - {name};
      }
      assert names - todo == names;
    }

    /** The removal loop of `sync_folders`: `os.remove` of each name, logged. */
    method RemoveEach(names: set<Name>) returns (log: seq<Event>)
      requires names <= destination.Keys
      modifies this
      ensures source == old(source)
      ensures destination == old(destination) - names
      ensures Logged(log, Removed) == names && LogsOnly(log, Removed)
      ensures |log| == |names|
    {
      log := [];
      var todo := names;
      while todo != {}
        invariant source == old(source) && todo <= names
        invariant destination == old(destination) - (names - todo)
        invariant Logged(log, Removed) == names - todo && LogsOnly(log, Removed)
        invariant |log| + |todo| == |names|
        decreases todo
      {
        var name :| name in todo;
        assert names - todo + {name} == names - (todo - {name});
        RemoveFile(name);
        LoggedStep(log, Removed, names, todo, name);
        log := log + [Event(Removed, name)];
        todo := todo - {name};
      }
    }

    /**
     * `sync_folders`: one comparison, then the copy loop over `left_only`,
     * the removal loop over `right_only` and the update loop over
     * `diff_files`. The source is untouched, the destination becomes
     * `Synced`, the log reports each file operation on a line of its own
     * and no validation warning.
     */
    method SyncFolders(same: (Bytes, Bytes) -> bool, hash: Bytes -> Digest) returns (log: seq<Event>)
      modifies this
      ensures source == old(source)
      ensures destination == Synced(same, old(source), old(destination))
      ensures var c := Compare(same, old(source), old(destination));
        && Logged(log, Copied) == c.leftOnly
        && Logged(log, Removed) == c.rightOnly
        && Logged(log, Updated) == c.diffFiles
        && Logged(log, CopyValidationFailed) == {}
        && |log| == |c.leftOnly| + |c.rightOnly| + |c.diffFiles|
    {
      var c := Compare(same, source, destination);
      var copied := CopyEach(c.leftOnly, Copied, hash);
      var removed := RemoveEach(c.rightOnly);
      var updated := CopyEach(c.diffFiles, Updated, hash);
      log := copied + removed + updated;
      LoggedThreeLoops(copied, removed, updated);
    }

    /**
     * One tick of the poll loop of `synchronize_folders`, after the sleep:
     * sync only when `is_folder_changed` says so. Either way the destination
     * ends as `Synced` of the state the tick found, and the source is
     * untouched.
     */
    method PollTick(same: (Bytes, Bytes) -> bool, hash: Bytes -> Digest) returns (resynced: bool, log: seq<Event>)
      modifies this
      ensures source == old(source)
      ensures resynced == IsFolderChanged(same, old(source), old(destination))
      ensures destination == Synced(same, old(source), old(destination))
      ensures !resynced ==> log == []
    {
      resynced := IsFolderChanged(same, source, destination);
      if resynced {
        log := SyncFolders(same, hash);
      } else {
        SyncUnchangedWhenInSync(same, source, destination);
        log := [];
      }
    }

    /**
     * `synchronize_folders` up to its first tick: the unconditional initial
     * sync, the sleep, during which the outside world may leave the source
     * as `sourceAfterSleep` and the destination as `destinationAfterSleep`,
     * and one poll tick, which compares both directories afresh. With a
     * test that calls a file equal to itself the two directories end in
     * sync, and the tick syncs again only if one of them changed meanwhile.
     */
    method SynchronizeFolders(same: (Bytes, Bytes) -> bool, hash: Bytes -> Digest,
                              sourceAfterSleep: Directory, destinationAfterSleep: Directory)
      returns (resynced: bool)
      modifies this
      ensures source == sourceAfterSleep
      ensures destination == Synced(same, sourceAfterSleep, destinationAfterSleep)
      ensures resynced == IsFolderChanged(same, sourceAfterSleep, destinationAfterSleep)
      ensures Reflexive(same) ==> InSync(same, source, destination)
      ensures Reflexive(same) && sourceAfterSleep == old(source)
              && destinationAfterSleep == Synced(same, old(source), old(destination))
              ==> !resynced && destination == destinationAfterSleep
    {
      ghost var src, dst := source, destination;
      var _ := SyncFolders(same, hash);
      source, destination := sourceAfterSleep, destinationAfterSleep;
      var tickLog;
      resynced, tickLog := PollTick(same, hash);
      if Reflexive(same) {
        SyncConverges(same, sourceAfterSleep, destinationAfterSleep);
        if sourceAfterSleep == src && destinationAfterSleep == Synced(same, src, dst) {
          SyncConverges(same, src, dst);
          SyncUnchangedWhenInSync(same, sourceAfterSleep, destinationAfterSleep);
        }
      }
    }
  }
}

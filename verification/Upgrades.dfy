/**
 * Backup, upgrade and rollback (`UpgradeTransaction`).  Every read, write, rename and deletion may
 * fail, and the process may stop between any two of them while a backup is taken.
 */
module Upgrades {
  import opened Occurrences
  import opened Sequences
  import opened UpgradeModel

  // ----- The journal -----

  /** `_journal`: the last 255 events and the new one. */
  function AppendEvent(journal: Journal, event: EventState): Journal
    requires !journal.Unreadable?
  {
    Events((if journal.Events? then LastOf(journal.events, JOURNAL_LIMIT - 1) else []) + [event])
  }

  /** `_journal` reads the journal before it appends to it, and refuses what it cannot read or what is too large. */
  predicate Readable(journal: Journal, journalBytes: seq<EventState> -> nat) {
    && !journal.Unreadable?
    && (journal.Events? ==> journalBytes(journal.events) <= MAX_JOURNAL_BYTES)
  }

  ghost function Replay(journal: Journal, events: seq<EventState>, journalBytes: seq<EventState> -> nat): Journal {
    if events == [] then journal
    else
      var before := Replay(journal, events[..|events| - 1], journalBytes);
      if Readable(before, journalBytes) then AppendEvent(before, events[|events| - 1]) else before
  }

  ghost function Recorded(journal: Journal): seq<EventState>
    requires !journal.Unreadable?
  {
    if journal.Events? then journal.events else []
  }

  lemma ReplayMore(journal: Journal, events: seq<EventState>, journalBytes: seq<EventState> -> nat)
    requires events != []
    ensures var before := Replay(journal, events[..|events| - 1], journalBytes);
      Replay(journal, events, journalBytes)
        == if Readable(before, journalBytes) then AppendEvent(before, events[|events| - 1]) else before
  {
  }

  lemma ReplayNothing(journal: Journal, journalBytes: seq<EventState> -> nat)
    ensures Replay(journal, [], journalBytes) == journal
  {
  }

  lemma AppendToRecorded(journal: Journal, event: EventState)
    requires !journal.Unreadable?
    ensures AppendEvent(journal, event) == Events(LastOf(Recorded(journal) + [event], JOURNAL_LIMIT))
  {
    LastOfOneMore(Recorded(journal), JOURNAL_LIMIT - 1, event);
  }

  lemma AppendToLast(events: seq<EventState>, event: EventState)
    ensures AppendEvent(Events(LastOf(events, JOURNAL_LIMIT)), event) == Events(LastOf(events + [event], JOURNAL_LIMIT))
  {
    LastOfOneMore(LastOf(events, JOURNAL_LIMIT), JOURNAL_LIMIT - 1, event);
    LastOfAppend(events, JOURNAL_LIMIT, event);
  }

  /** The journal after the first `n` of these events was never too large to be read. */
  ghost predicate NeverTooLarge(journal: Journal, events: seq<EventState>, journalBytes: seq<EventState> -> nat)
    requires !journal.Unreadable?
  {
    forall n :: 0 < n < |events| ==>
      journalBytes(LastOf(Recorded(journal) + events[..n], JOURNAL_LIMIT)) <= MAX_JOURNAL_BYTES
  }

  lemma NorBefore(journal: Journal, events: seq<EventState>, journalBytes: seq<EventState> -> nat)
    requires !journal.Unreadable? && |events| > 1 && NeverTooLarge(journal, events, journalBytes)
    ensures var before := events[..|events| - 1];
      && NeverTooLarge(journal, before, journalBytes)
      && Readable(Events(LastOf(Recorded(journal) + before, JOURNAL_LIMIT)), journalBytes)
  {
    var before := events[..|events| - 1];
    forall n | 0 < n < |before|
      ensures journalBytes(LastOf(Recorded(journal) + before[..n], JOURNAL_LIMIT)) <= MAX_JOURNAL_BYTES
    {
      assert before[..n] == events[..n];
    }
  }

  /**
   * After any run of events the journal holds exactly the last 256 of all events ever appended, as long as it
   * never grew too large on the way.
   */
  lemma {:induction false} JournalKeepsLast(journal: Journal, events: seq<EventState>, journalBytes: seq<EventState> -> nat)
    requires Readable(journal, journalBytes) && events != [] && NeverTooLarge(journal, events, journalBytes)
    ensures Replay(journal, events, journalBytes) == Events(LastOf(Recorded(journal) + events, JOURNAL_LIMIT))
  {
    var before, last := events[..|events| - 1], events[|events| - 1];
    SplitLast(events);
    AppendAssociative(Recorded(journal), before, [last]);
    ReplayMore(journal, events, journalBytes);
    AppendToRecorded(journal, last);
    AppendToLast(Recorded(journal) + before, last);
    if |events| > 1 {
      NorBefore(journal, events, journalBytes);
      hide Replay, Readable, AppendEvent, LastOf, NeverTooLarge, Recorded;
      JournalKeepsLast(journal, before, journalBytes);
    } else {
      ReplayNothing(journal, journalBytes);
      assert before == [] && events == [last];
      hide Replay, AppendEvent, LastOf;
    }
  }

  /** A journal that cannot be read, or that grew too large, stays as it is for ever. */
  lemma {:induction false} JournalRefusedForever(journal: Journal, events: seq<EventState>, journalBytes: seq<EventState> -> nat)
    requires !Readable(journal, journalBytes)
    ensures Replay(journal, events, journalBytes) == journal
  {
    if events != [] {
      JournalRefusedForever(journal, events[..|events| - 1], journalBytes);
    }
  }

  function Migrations(path: string, count: nat): (events: seq<EventState>)
    ensures |events| == count
  {
    if count == 0 then [] else Migrations(path, count - 1) + [ArtifactMigrated(path)]
  }

  lemma OneMoreMigration(path: string, count: nat)
    requires count > 0
    ensures var events := Migrations(path, count);
      && events != [] && events[..|events| - 1] == Migrations(path, count - 1)
      && events[|events| - 1] == ArtifactMigrated(path)
  {
  }

  /** A journal of these events only. */
  function JournalOf(events: seq<EventState>): Journal {
    if |events| == 0 then NoJournal else Events(events)
  }

  /** One migration is journaled after the others, unless the journal is refused by then. */
  lemma MigratedMore(path: string, count: nat, journalBytes: seq<EventState> -> nat)
    requires 0 < count <= JOURNAL_LIMIT
    ensures var before := Replay(NoJournal, Migrations(path, count - 1), journalBytes);
      Replay(NoJournal, Migrations(path, count), journalBytes)
        == if Readable(before, journalBytes) then AppendEvent(before, ArtifactMigrated(path)) else before
    ensures AppendEvent(JournalOf(Migrations(path, count - 1)), ArtifactMigrated(path)) == JournalOf(Migrations(path, count))
  {
    OneMoreMigration(path, count);
  }

  lemma {:induction false} LongEvents(path: string, count: nat, length: nat)
    requires |path| >= length
    ensures EventLengths(Migrations(path, count)) >= count * length
  {
    if count > 0 {
      LongEvents(path, count - 1, length);
      OneMoreMigration(path, count);
    }
  }

  lemma {:induction false} Migrated(path: string, count: nat, journalBytes: seq<EventState> -> nat)
    requires count <= JOURNAL_LIMIT
    ensures var journal := Replay(NoJournal, Migrations(path, count), journalBytes);
      !Readable(journal, journalBytes) || journal == JournalOf(Migrations(path, count))
  {
    if count > 0 {
      hide Replay, Migrations, Readable, AppendEvent, JournalOf;
      Migrated(path, count - 1, journalBytes);
      MigratedMore(path, count, journalBytes);
    }
  }

  /** 256 migrations of files with paths of more than 8192 characters: the journal takes no event any more. */
  lemma JournalOutgrown(path: string, format: Format)
    requires Measures(format) && |path| > 8192
    ensures !Readable(Replay(NoJournal, Migrations(path, JOURNAL_LIMIT), format.journalBytes), format.journalBytes)
  {
    Migrated(path, JOURNAL_LIMIT, format.journalBytes);
    LongEvents(path, JOURNAL_LIMIT, 8193);
    assert format.journalBytes(Migrations(path, JOURNAL_LIMIT)) >= JOURNAL_LIMIT * 8193;
  }

  ghost predicate EndsIn(directory: Directory, event: EventState) {
    && directory.Present? && directory.journal.Events?
    && directory.journal.events != [] && directory.journal.events[|directory.journal.events| - 1] == event
  }

  /** A finished backup: verifiable copies of everything listed, the manifest, and a journal. */
  ghost predicate Complete(directory: Directory, manifest: Manifest) {
    && directory.Present? && directory.manifest == Some(manifest)
    && directory.journal == Events([BackupComplete])
    && AllCopied(directory.files, manifest.files) && NoneLarger(manifest.files, MAX_FILE_BYTES)
    && AllCopied(directory.databases, manifest.databases)
  }

  /** What a restoration leaves outside the listed files and databases. */
  lemma {:induction false} FilesOutside(data: map<string, Bytes>, copies: map<string, Bytes>, entries: seq<Entry>, touched: set<string>)
    requires forall entry :: entry in entries ==> entry.path in copies && entry.path in touched
    ensures SameOutside(data, WriteFiles(data, copies, entries), touched)
  {
    if entries != [] {
      FilesOutside(data, copies, entries[..|entries| - 1], touched);
      assert entries[|entries| - 1] in entries;
    }
  }

  lemma {:induction false} DatabasesOutside(data: map<string, Bytes>, copies: map<string, Bytes>, entries: seq<Entry>, touched: set<string>)
    requires forall entry :: entry in entries ==>
      entry.path in copies && entry.path in touched && Sidecars(entry.path) <= touched
    ensures SameOutside(data, WriteDatabases(data, copies, entries), touched)
  {
    if entries != [] {
      hide Sidecars;
      DatabasesOutside(data, copies, entries[..|entries| - 1], touched);
      assert entries[|entries| - 1] in entries;
    }
  }

  lemma AllTouched(manifest: Manifest)
    ensures forall entry :: entry in manifest.files ==> entry.path in Touched(manifest)
    ensures forall entry :: entry in manifest.databases ==>
      entry.path in Touched(manifest) && Sidecars(entry.path) <= Touched(manifest)
  {
    hide Sidecars;
    forall entry | entry in manifest.databases
      ensures {entry.path} + Sidecars(entry.path) <= Touched(manifest)
    {
      forall path | path in {entry.path} + Sidecars(entry.path) ensures path in Touched(manifest) {
      }
    }
  }

  lemma OneMoreOutside(before: map<string, Bytes>, after: map<string, Bytes>, touched: set<string>, path: string, content: Bytes)
    requires SameOutside(before, after, touched) && path in touched
    ensures SameOutside(before, after - {path}, touched)
    ensures SameOutside(before, after[path := content], touched)
  {
  }

  /** Writing beside, moving into place and clearing the side files, as one change. */
  lemma ReplacedFile(data: map<string, Bytes>, path: string, content: Bytes, temporary: string, log: string, shared: string)
    requires path !in {temporary, log, shared}
    ensures (data - {temporary})[temporary := content][path := content] - {temporary} - {log} - {shared}
      == data[path := content] - {temporary, log, shared}
  {
  }

  /** A directory changed by the action restores the same bytes if it still passes verification. */
  lemma RestoresTheSame(data: map<string, Bytes>, backup: Directory, now: Directory, manifest: Manifest)
    requires Verified(backup, manifest) && Verified(now, manifest)
    ensures Restored(RestoredData(data, now, manifest), backup, manifest) <==> NoClash(backup, manifest)
  {
    RestoreExact(data, now, manifest);
    VerifiedAgree(backup, now, manifest);
    var after := RestoredData(data, now, manifest);
    assert Restored(after, now, manifest) <==> Restored(after, backup, manifest) by {
      hide RemovedLast;
    }
    assert NoClash(now, manifest) <==> NoClash(backup, manifest) by {
      forall file | file in manifest.files && Lists(manifest.databases, file.path)
        ensures file.path in DatabasesOf(backup) && file.path in DatabasesOf(now)
        ensures DatabasesOf(backup)[file.path] == DatabasesOf(now)[file.path]
      {
        var k :| 0 <= k < |manifest.databases| && manifest.databases[k].path == file.path;
        assert manifest.databases[k] in manifest.databases;
      }
    }
  }

  datatype BackupOutcome = Finished(manifest: Manifest) | Raised(error: Error) | Stopped

  /** What an upgrade action leaves behind, and whether it raises. */
  datatype Effect = Effect(data: map<string, Bytes>, backupRoot: Directory, raises: bool)

  /** One more event is written; that creates the directory if it is gone. */
  function Logged(backup: Directory, event: EventState): Directory
    requires backup.Present? ==> !backup.journal.Unreadable?
  {
    if backup.Absent? then EMPTY_DIRECTORY.(journal := AppendEvent(NoJournal, event))
    else backup.(journal := AppendEvent(backup.journal, event))
  }

  /** A failed write to the directory can leave behind no more than the directory itself. */
  ghost predicate Untouched(before: Directory, after: Directory) {
    after == before || (before.Absent? && after == EMPTY_DIRECTORY)
  }

  datatype ExecuteOutcome =
    | Committed
    | Refused(error: Error)              // verification failed, nothing was run
    | NotStarted(error: Error)           // the start could not be journaled, nothing was run
    | RolledBack                         // the action's error is raised again
    | RolledBackUnlogged(error: Error)   // restored, but the journal could not say so
    | RollbackReported                   // UPGRADE_ROLLBACK_FAILED
    | RollbackUnlogged(error: Error)     // as above, and the journal could not say so

  class UpgradeTransaction {
    const dataRoot: string

    /** Whether the n-th file operation fails, and whether the process stops at it, where it may. */
    const fails: nat -> bool
    const stops: nat -> bool

    /** How the manifest and the journal are written. */
    const format: Format

    var data: map<string, Bytes>
    var backupRoot: Directory
    var manifest: Option<Manifest>

    /** How many file operations there were. */
    var operations: nat

    constructor (dataRoot: string, fails: nat -> bool, stops: nat -> bool, format: Format,
                 data: map<string, Bytes>, backupRoot: Directory)
      ensures this.dataRoot == dataRoot && this.fails == fails && this.stops == stops && this.format == format
      ensures this.data == data && this.backupRoot == backupRoot && manifest == None && operations == 0
    {
      this.dataRoot, this.fails, this.stops, this.format := dataRoot, fails, stops, format;
      this.data, this.backupRoot := data, backupRoot;
      manifest, operations := None, 0;
    }

    /** The next file operation, and whether it fails. */
    method Operate() returns (failed: bool)
      modifies this`operations
      ensures operations == old(operations) + 1 && failed == fails(old(operations))
    {
      failed := fails(operations);
      operations := operations + 1;
    }

    /** Copies listed sources into the staging directory; the process may stop between two copies. */
    method CopyAll(paths: seq<string>, limit: nat, unsafe: Error, tooLarge: Error)
      returns (copies: map<string, Bytes>, entries: seq<Entry>, failure: Option<BackupOutcome>)
      requires unsafe !in {BackupExists, Io} && tooLarge !in {BackupExists, Io}
      modifies this`operations
      ensures failure.None? ==> AllCopied(copies, entries) && NoneLarger(entries, limit)
      ensures failure.None? ==> ListsAll(entries, paths)
      ensures failure.Some? ==> !failure.value.Finished? && failure != Some(Raised(BackupExists))
      ensures operations >= old(operations) && (failure.None? ==> Untroubled(old(operations), operations))
      ensures failure.None? ==> operations == old(operations) + |paths|
      ensures failure == Some(Stopped) ==> !Quiet(stops, old(operations), operations)
      ensures failure == Some(Raised(Io)) ==> !Quiet(fails, old(operations), operations)
      ensures Untroubled(old(operations), operations) ==> (failure.None? <==> AllFit(paths, limit))
    {
      copies, entries, failure := map[], [], None;
      for i := 0 to |paths|
        invariant operations == old(operations) + i && Untroubled(old(operations), operations)
        invariant AllCopied(copies, entries) && NoneLarger(entries, limit)
        invariant |entries| == i
        invariant forall j :: 0 <= j < i ==>
          paths[j] in data && |data[paths[j]]| <= limit && entries[j] == EntryOf(paths[j], data[paths[j]])
        invariant forall path :: path in copies ==> path in data && copies[path] == data[path]
      {
        var interrupted := Interrupted();
        if interrupted.Some? {
          return copies, entries, interrupted;
        }
        if paths[i] !in data {
          return copies, entries, Some(Raised(unsafe));
        }
        if |data[paths[i]]| > limit {
          return copies, entries, Some(Raised(tooLarge));
        }
        copies := copies[paths[i] := data[paths[i]]];
        entries := entries + [EntryOf(paths[i], data[paths[i]])];
      }
    }

    /** No operation failed, and the process did not stop, at these points. */
    ghost predicate Untroubled(from: nat, to: nat) {
      Quiet(fails, from, to) && Quiet(stops, from, to)
    }

    /** Every path is a file of the data root within the limit. */
    ghost predicate AllFit(paths: seq<string>, limit: nat)
      reads this`data
    {
      forall i :: 0 <= i < |paths| ==> paths[i] in data && |data[paths[i]]| <= limit
    }

    /** One entry for each path, in order, describing what the path holds. */
    ghost predicate ListsAll(entries: seq<Entry>, paths: seq<string>)
      reads this`data
    {
      && |entries| == |paths|
      && forall i :: 0 <= i < |paths| ==> paths[i] in data && entries[i] == EntryOf(paths[i], data[paths[i]])
    }

    /** Everything is copied into the staging directory, manifest and journal last. */
    method Stage(paths: seq<string>, databasePaths: seq<string>)
      returns (staging: Directory, listed: Manifest, failure: Option<BackupOutcome>)
      modifies this`operations
      ensures operations >= old(operations) && (failure.None? ==> Untroubled(old(operations), operations))
      ensures failure.Some? ==> !failure.value.Finished? && failure != Some(Raised(BackupExists))
      ensures failure == Some(Stopped) ==> !Quiet(stops, old(operations), operations)
      ensures failure == Some(Raised(Io)) ==> !Quiet(fails, old(operations), operations)
      ensures failure.None? ==>
        && operations == old(operations) + |paths| + |databasePaths| + 2
        && Complete(staging, listed) && listed.dataRoot == dataRoot
        && ListsAll(listed.files, paths) && ListsAll(listed.databases, databasePaths)
      ensures Untroubled(old(operations), operations) ==>
        (failure.None? <==> AllFit(paths, MAX_FILE_BYTES) && AllFit(databasePaths, MAX_DATABASE_BYTES))
    {
      staging, listed := EMPTY_DIRECTORY, Manifest(dataRoot, [], []);
      var files, fileEntries, databases, databaseEntries;
      files, fileEntries, failure := CopyAll(paths, MAX_FILE_BYTES, PathUnsafe, FileTooLarge);
      if failure.Some? {
        return;
      }
      databases, databaseEntries, failure := CopyAll(databasePaths, MAX_DATABASE_BYTES, DatabaseInvalid, DatabaseInvalid);
      if failure.Some? {
        return;
      }
      listed := Manifest(dataRoot, fileEntries, databaseEntries);
      staging := Present(files, databases, None, NoJournal);
      failure := Interrupted();
      if failure.Some? {
        return;
      }
      staging := staging.(manifest := Some(listed));
      failure := Interrupted();
      if failure.Some? {
        return;
      }
      staging := staging.(journal := Events([BackupComplete]));
    }

    /**
     * `backup`: everything is staged beside the backup root and moved there in one rename.  Whatever
     * happens, the root is as it was, absent, or complete.
     */
    method Backup(paths: seq<string>, databasePaths: seq<string>) returns (outcome: BackupOutcome)
      modifies this`backupRoot, this`manifest, this`operations
      ensures backupRoot == old(backupRoot) || backupRoot == Absent || exists listed :: Complete(backupRoot, listed)
      ensures backupRoot != old(backupRoot) ==> old(backupRoot) in {Absent, EMPTY_DIRECTORY}
      ensures outcome == Raised(BackupExists) ==> old(backupRoot) !in {Absent, EMPTY_DIRECTORY}
      ensures outcome.Finished? ==>
        && Complete(backupRoot, outcome.manifest) && manifest == Some(outcome.manifest)
        && outcome.manifest.dataRoot == dataRoot
        && ListsAll(outcome.manifest.files, paths) && ListsAll(outcome.manifest.databases, databasePaths)
      ensures !outcome.Finished? ==> manifest == old(manifest)
      ensures operations >= old(operations)
      ensures outcome == Stopped ==> !Quiet(stops, old(operations), operations)
      ensures outcome == Raised(Io) ==> !Quiet(fails, old(operations), operations)
      ensures outcome.Finished? ==>
        && operations == old(operations) + |paths| + |databasePaths| + 6
        && Quiet(stops, old(operations), operations) && Quiet(fails, old(operations), operations - 1)
      ensures Untroubled(old(operations), operations) ==> (outcome.Finished? <==>
        && old(backupRoot) in {Absent, EMPTY_DIRECTORY}
        && AllFit(paths, MAX_FILE_BYTES) && AllFit(databasePaths, MAX_DATABASE_BYTES))
    {
      hide Complete;
      var interrupted := Interrupted();
      if interrupted.Some? {
        return interrupted.value;
      }
      if backupRoot != Absent && backupRoot != EMPTY_DIRECTORY {
        return Raised(BackupExists);
      }
      var staging, listed;
      staging, listed, interrupted := Stage(paths, databasePaths);
      if interrupted.Some? {
        return interrupted.value;
      }
      interrupted := Interrupted();
      if interrupted.Some? {
        return interrupted.value;
      }
      backupRoot := Absent;
      interrupted := Interrupted();
      if interrupted.Some? {
        return interrupted.value;
      }
      backupRoot := staging;
      operations := operations + 1;
      if stops(operations - 1) {
        return Stopped;
      }
      manifest := Some(listed);
      return Finished(listed);
    }

    /** At any point the process may stop, or the next file operation may fail. */
    method Interrupted() returns (outcome: Option<BackupOutcome>)
      modifies this`operations
      ensures operations == old(operations) + 1
      ensures outcome == if stops(old(operations)) then Some(Stopped) else if fails(old(operations)) then Some(Raised(Io)) else None
    {
      outcome := if stops(operations) then Some(Stopped) else if fails(operations) then Some(Raised(Io)) else None;
      operations := operations + 1;
    }

    /**
     * The manifest this transaction goes by: the one in memory, or one on disk that was made for this data root
     * and is not too large to be read.
     */
    ghost function KnownManifest(): Option<Manifest>
      reads this
    {
      if manifest.Some? then manifest
      else if backupRoot.Present? && backupRoot.manifest.Some? && backupRoot.manifest.value.dataRoot == dataRoot
        && format.manifestBytes(backupRoot.manifest.value) <= MAX_MANIFEST_BYTES
      then backupRoot.manifest
      else None
    }

    ghost predicate Usable()
      reads this
    {
      KnownManifest().Some? && Verified(backupRoot, KnownManifest().value)
    }

    /** The journal in the backup root is one that `_journal` does not append to. */
    predicate Refuses(directory: Directory) {
      directory.Present? && !Readable(directory.journal, format.journalBytes)
    }

    /** `_load_manifest`: the manifest in memory, or else the one in the backup root. */
    method LoadManifest() returns (result: Result<Manifest>)
      modifies this`manifest, this`operations
      ensures operations >= old(operations)
      ensures result.Ok? ==> old(KnownManifest()) == manifest == Some(result.value)
      ensures Quiet(fails, old(operations), operations) ==> (result.Ok? <==> old(KnownManifest()).Some?)
      ensures old(manifest).Some? ==> result.Ok?
      ensures result.Err? ==> manifest == None
    {
      if manifest.Some? {
        return Ok(manifest.value);
      }
      var failed := Operate();
      if failed || backupRoot.Absent? || backupRoot.manifest.None?
        || format.manifestBytes(backupRoot.manifest.value) > MAX_MANIFEST_BYTES
      {
        return Err(BackupInvalid);
      }
      if backupRoot.manifest.value.dataRoot != dataRoot {
        return Err(RootMismatch);
      }
      manifest := backupRoot.manifest;
      return Ok(manifest.value);
    }

    /** A failing read is reported as it is; anything else that is wrong makes the backup invalid. */
    method VerifyFiles(copies: map<string, Bytes>, entries: seq<Entry>) returns (result: Result<()>)
      modifies this`operations
      ensures operations >= old(operations)
      ensures result.Ok? ==> AllCopied(copies, entries) && NoneLarger(entries, MAX_FILE_BYTES)
      ensures result.Err? && (Quiet(fails, old(operations), operations) || result.error == BackupInvalid) ==>
        !AllCopied(copies, entries) || !NoneLarger(entries, MAX_FILE_BYTES)
      ensures result.Err? ==> result.error in {Io, BackupInvalid}
    {
      for i := 0 to |entries|
        invariant AllCopied(copies, entries[..i]) && NoneLarger(entries[..i], MAX_FILE_BYTES) && operations >= old(operations)
      {
        var entry := entries[i];
        var failed := Operate();
        if failed || entry.path !in copies || |copies[entry.path]| > MAX_FILE_BYTES {
          assert entry in entries;
          return Err(Io);
        }
        if |copies[entry.path]| != entry.size || Sha256(copies[entry.path]) != entry.sha256 {
          assert entry in entries;
          return Err(BackupInvalid);
        }
      }
      assert entries[..|entries|] == entries;
      return Ok(());
    }

    /** A missing copy is reported like a wrong one, and no size limit applies. */
    method VerifyDatabases(copies: map<string, Bytes>, entries: seq<Entry>) returns (result: Result<()>)
      modifies this`operations
      ensures operations >= old(operations)
      ensures result.Ok? ==> AllCopied(copies, entries)
      ensures result.Err? && Quiet(fails, old(operations), operations) ==> !AllCopied(copies, entries)
      ensures result.Err? ==> result.error in {Io, BackupInvalid}
    {
      for i := 0 to |entries|
        invariant AllCopied(copies, entries[..i]) && operations >= old(operations)
      {
        var entry := entries[i];
        var failed := Operate();
        if failed {
          return Err(Io);
        }
        var unsound := Operate();
        if entry.path !in copies || |copies[entry.path]| != entry.size || Sha256(copies[entry.path]) != entry.sha256
          || unsound
        {
          assert entry in entries;
          return Err(BackupInvalid);
        }
      }
      assert entries[..|entries|] == entries;
      return Ok(());
    }

    /** `verify_backup` */
    method VerifyBackup() returns (result: Result<Manifest>)
      modifies this`manifest, this`operations
      ensures operations >= old(operations)
      ensures result.Ok? ==> manifest == Some(result.value) && Verified(backupRoot, result.value)
      ensures old(manifest).Some? ==> manifest == old(manifest)
      ensures manifest.Some? ==> old(KnownManifest()) == manifest
      ensures Quiet(fails, old(operations), operations) ==> (result.Ok? <==> old(Usable()))
    {
      result := LoadManifest();
      if result.Err? {
        return;
      }
      var listed := result.value;
      if |listed.files| > MAX_FILES {
        return Err(BackupInvalid);
      }
      var verified := VerifyFiles(FilesOf(backupRoot), listed.files);
      if verified.Err? {
        return Err(verified.error);
      }
      if |listed.databases| > MAX_DATABASES {
        return Err(BackupInvalid);
      }
      verified := VerifyDatabases(DatabasesOf(backupRoot), listed.databases);
      if verified.Err? {
        return Err(verified.error);
      }
    }

    /** `_journal`: a journal that is unreadable or too large is never replaced. */
    method AppendJournal(event: EventState) returns (result: Result<()>)
      modifies this`backupRoot, this`operations
      ensures operations >= old(operations)
      ensures result.Err? ==> result.error in {Io, JournalInvalid}
      ensures result.Err? ==> Untouched(old(backupRoot), backupRoot)
      ensures result.Ok? ==> !Refuses(old(backupRoot)) && backupRoot == Logged(old(backupRoot), event)
      ensures FilesOf(backupRoot) == FilesOf(old(backupRoot)) && DatabasesOf(backupRoot) == DatabasesOf(old(backupRoot))
      ensures old(backupRoot).Present? ==> backupRoot.Present? && backupRoot.manifest == old(backupRoot).manifest
      ensures result.Ok? ==> EndsIn(backupRoot, event)
      ensures Refuses(old(backupRoot)) ==> result == Err(JournalInvalid)
      ensures Quiet(fails, old(operations), operations) ==> (result.Ok? <==> !Refuses(old(backupRoot)))
    {
      if Refuses(backupRoot) {
        return Err(JournalInvalid);
      }
      if backupRoot.Absent? {
        var failed := Operate();
        if failed {
          return Err(Io);
        }
        backupRoot := EMPTY_DIRECTORY;
      }
      var failed := Operate();
      if failed {
        return Err(Io);
      }
      backupRoot := Logged(backupRoot, event);
      return Ok(());
    }

    /** Writing beside, checking, moving into place and removing the log files, each of which may fail. */
    method ReplaceDatabase(path: string, content: Bytes, temporary: string, log: string, shared: string) returns (result: Result<()>)
      requires path !in {temporary, log, shared}
      modifies this`data, this`operations
      ensures result.Ok? ==> data == old(data)[path := content] - {temporary, log, shared}
      ensures if result.Ok? then operations == old(operations) + 5 else operations > old(operations) && fails(operations - 1)
      ensures SameOutside(old(data), data, {path, temporary, log, shared})
      ensures result.Err? ==> result.error in {Io, RollbackFailed}
    {
      ghost var touched := {path, temporary, log, shared};
      ReplacedFile(data, path, content, temporary, log, shared);
      assert SameOutside(data, data, touched);
      hide SameOutside;
      OneMoreOutside(old(data), data, touched, temporary, content);
      data := data - {temporary};
      var failed := Operate();
      if failed { return Err(Io); }
      OneMoreOutside(old(data), data, touched, temporary, content);
      data := data[temporary := content];
      failed := Operate();
      if failed { return Err(RollbackFailed); }
      failed := Operate();
      if failed { return Err(Io); }
      OneMoreOutside(old(data), data, touched, path, content);
      OneMoreOutside(old(data), data[path := content], touched, temporary, content);
      data := data[path := content] - {temporary};
      failed := Operate();
      if failed { return Err(Io); }
      OneMoreOutside(old(data), data, touched, log, content);
      data := data - {log};
      failed := Operate();
      if failed { return Err(Io); }
      OneMoreOutside(old(data), data, touched, shared, content);
      data := data - {shared};
      return Ok(());
    }

    /** One database is restored beside its place, moved there, and its log files are removed. */
    method RestoreDatabase(path: string, content: Bytes) returns (result: Result<()>)
      modifies this`data, this`operations
      ensures result.Ok? ==> data == old(data)[path := content] - Sidecars(path)
      ensures if result.Ok? then operations == old(operations) + 5 else operations > old(operations) && fails(operations - 1)
      ensures Sidecars(path) == {path + ".restore.tmp", path + "-wal", path + "-shm"}
      ensures SameOutside(old(data), data, {path} + Sidecars(path))
      ensures result.Err? ==> result.error in {Io, RollbackFailed}
    {
      SidecarIsLonger(path);
      var temporary, log, shared := Temporary(path), path + "-wal", path + "-shm";
      assert Sidecars(path) == {temporary, log, shared};
      assert {path} + Sidecars(path) == {path, temporary, log, shared};
      hide SameOutside, Sidecars;
      result := ReplaceDatabase(path, content, temporary, log, shared);
    }

    method RestoreFiles(entries: seq<Entry>, ghost touched: set<string>) returns (result: Result<()>)
      requires AllCopied(FilesOf(backupRoot), entries)
      requires forall entry :: entry in entries ==> entry.path in touched
      modifies this`data, this`operations
      ensures operations >= old(operations)
      ensures result.Ok? ==> data == WriteFiles(old(data), FilesOf(backupRoot), entries)
      ensures SameOutside(old(data), data, touched)
      ensures Quiet(fails, old(operations), operations) ==> result.Ok?
    {
      for i := 0 to |entries|
        invariant forall entry :: entry in entries[..i] ==> entry in entries
        invariant data == WriteFiles(old(data), FilesOf(backupRoot), entries[..i]) && operations >= old(operations)
      {
        var failed := Operate();
        if failed {
          FilesOutside(old(data), FilesOf(backupRoot), entries[..i], touched);
          return Err(Io);
        }
        assert entries[i] in entries;
        data := data[entries[i].path := FilesOf(backupRoot)[entries[i].path]];
        assert entries[..i + 1][..i] == entries[..i];
      }
      assert entries[..|entries|] == entries;
      FilesOutside(old(data), FilesOf(backupRoot), entries, touched);
      return Ok(());
    }

    method RestoreDatabases(entries: seq<Entry>, ghost touched: set<string>) returns (result: Result<()>)
      requires AllCopied(DatabasesOf(backupRoot), entries)
      requires forall entry :: entry in entries ==> entry.path in touched && Sidecars(entry.path) <= touched
      modifies this`data, this`operations
      ensures operations >= old(operations)
      ensures result.Ok? ==> data == WriteDatabases(old(data), DatabasesOf(backupRoot), entries)
      ensures SameOutside(old(data), data, touched)
      ensures Quiet(fails, old(operations), operations) ==> result.Ok?
    {
      hide Sidecars;
      for i := 0 to |entries|
        invariant forall entry :: entry in entries[..i] ==> entry in entries
        invariant data == WriteDatabases(old(data), DatabasesOf(backupRoot), entries[..i]) && operations >= old(operations)
      {
        assert entries[i] in entries;
        DatabasesOutside(old(data), DatabasesOf(backupRoot), entries[..i], touched);
        var restored := RestoreDatabase(entries[i].path, DatabasesOf(backupRoot)[entries[i].path]);
        if restored.Err? {
          return restored;
        }
        assert entries[..i + 1][..i] == entries[..i];
      }
      assert entries[..|entries|] == entries;
      DatabasesOutside(old(data), DatabasesOf(backupRoot), entries, touched);
      return Ok(());
    }

    /** `restore`: only listed paths and the side files of listed databases are touched, even on failure. */
    method Restore() returns (result: Result<()>)
      modifies this
      ensures operations >= old(operations)
      ensures old(manifest).Some? ==> manifest == old(manifest)
      ensures result.Ok? ==>
        && manifest.Some? && Verified(old(backupRoot), manifest.value)
        && data == RestoredData(old(data), old(backupRoot), manifest.value)
        && !Refuses(old(backupRoot)) && backupRoot == Logged(old(backupRoot), RollbackComplete)
      ensures result.Err? ==> Untouched(old(backupRoot), backupRoot)
      ensures FilesOf(backupRoot) == FilesOf(old(backupRoot)) && DatabasesOf(backupRoot) == DatabasesOf(old(backupRoot))
      ensures Quiet(fails, old(operations), operations) ==> (result.Ok? <==> old(Usable()) && !Refuses(old(backupRoot)))
      ensures Quiet(fails, old(operations), operations) && old(Usable()) ==>
        && manifest.Some? && Verified(old(backupRoot), manifest.value)
        && data == RestoredData(old(data), old(backupRoot), manifest.value)
      ensures Quiet(fails, old(operations), operations) && !old(Usable()) ==> data == old(data)
      ensures manifest.None? ==> data == old(data)
      ensures manifest.Some? ==> SameOutside(old(data), data, Touched(manifest.value))
    {
      hide Touched, Sidecars;
      var verified := VerifyBackup();
      if verified.Err? {
        return Err(verified.error);
      }
      var listed := verified.value;
      AllTouched(listed);
      result := RestoreFiles(listed.files, Touched(listed));
      if result.Err? {
        return;
      }
      result := RestoreDatabases(listed.databases, Touched(listed));
      if result.Err? {
        return;
      }
      result := AppendJournal(RollbackComplete);
    }

    /** `execute` after the action raised or could not be committed: roll back, and journal how that went. */
    method RollBack() returns (outcome: ExecuteOutcome)
      requires manifest.Some?
      modifies this
      ensures operations >= old(operations) && manifest == old(manifest)
      ensures outcome.RolledBack? || outcome.RolledBackUnlogged? || outcome.RollbackReported? || outcome.RollbackUnlogged?
      ensures outcome.RolledBack? ==> EndsIn(backupRoot, UpgradeFailedRolledBack)
      ensures outcome.RollbackReported? ==> EndsIn(backupRoot, RollbackFailedEvent)
      ensures outcome.RolledBack? || outcome.RolledBackUnlogged? ==>
        && Verified(old(backupRoot), manifest.value)
        && data == RestoredData(old(data), old(backupRoot), manifest.value)
      ensures SameOutside(old(data), data, Touched(manifest.value))
      ensures Quiet(fails, old(operations), operations) ==>
        && (Verified(old(backupRoot), manifest.value) ==> data == RestoredData(old(data), old(backupRoot), manifest.value))
        && (!Verified(old(backupRoot), manifest.value) ==> data == old(data))
        && (outcome.RollbackUnlogged? <==> Refuses(old(backupRoot)))
        && (outcome.RollbackReported? <==> !Refuses(old(backupRoot)) && !Verified(old(backupRoot), manifest.value))
        && (outcome.RolledBackUnlogged? <==>
          !Refuses(old(backupRoot)) && Verified(old(backupRoot), manifest.value) && Refuses(Logged(old(backupRoot), RollbackComplete)))
    {
      hide SameOutside, Touched;
      var restored := Restore();
      if restored.Err? {
        var logged := AppendJournal(RollbackFailedEvent);
        return if logged.Ok? then RollbackReported else RollbackUnlogged(logged.error);
      }
      var logged := AppendJournal(UpgradeFailedRolledBack);
      return if logged.Ok? then RolledBack else RolledBackUnlogged(logged.error);
    }

    /**
     * `execute`, around an action that may do anything to the data and to the backup root, and may raise.
     * The action's writes count as one step: whatever it left behind is what a rollback starts from.
     */
    method Execute(action: (map<string, Bytes>, Directory) -> Effect) returns (outcome: ExecuteOutcome)
      modifies this
      ensures outcome.Refused? ==> data == old(data) && backupRoot == old(backupRoot)
      ensures outcome.NotStarted? ==> data == old(data) && Untouched(old(backupRoot), backupRoot)
      ensures !outcome.Refused? ==> manifest.Some? && Verified(old(backupRoot), manifest.value)
      ensures !outcome.Refused? && !outcome.NotStarted? ==> !Refuses(old(backupRoot))
      ensures outcome.Committed? ==>
        var effect := action(old(data), Logged(old(backupRoot), UpgradeStarted));
        !effect.raises && data == effect.data && EndsIn(backupRoot, UpgradeCommitted)
      ensures outcome.RolledBack? ==> EndsIn(backupRoot, UpgradeFailedRolledBack)
      ensures outcome.RolledBack? || outcome.RolledBackUnlogged? ==>
        var effect := action(old(data), Logged(old(backupRoot), UpgradeStarted));
        && Verified(effect.backupRoot, manifest.value)
        && data == RestoredData(effect.data, effect.backupRoot, manifest.value)
        && (Restored(data, old(backupRoot), manifest.value) <==> NoClash(old(backupRoot), manifest.value))
      ensures outcome.RollbackReported? ==> EndsIn(backupRoot, RollbackFailedEvent)
      ensures outcome.RollbackReported? || outcome.RollbackUnlogged? ==>
        var effect := action(old(data), Logged(old(backupRoot), UpgradeStarted));
        SameOutside(effect.data, data, Touched(manifest.value))
      ensures manifest.Some? ==> old(KnownManifest()) == manifest
      ensures operations >= old(operations)
      ensures Quiet(fails, old(operations), operations) ==>
        && (outcome.Refused? <==> !old(Usable()))
        && (outcome.NotStarted? <==> old(Usable()) && Refuses(old(backupRoot)))
      ensures Quiet(fails, old(operations), operations) && old(Usable()) && !Refuses(old(backupRoot)) ==>
        var effect := action(old(data), Logged(old(backupRoot), UpgradeStarted));
        && (outcome.Committed? <==> !Refuses(effect.backupRoot) && !effect.raises)
        && (outcome.RolledBack? || outcome.RolledBackUnlogged? <==>
          !Refuses(effect.backupRoot) && effect.raises && Verified(effect.backupRoot, manifest.value))
        && (outcome.RolledBackUnlogged? ==> Refuses(Logged(effect.backupRoot, RollbackComplete)))
        && (outcome.RolledBack? ==> !Refuses(Logged(effect.backupRoot, RollbackComplete)))
        && (outcome.RollbackReported? <==>
          !Refuses(effect.backupRoot) && effect.raises && !Verified(effect.backupRoot, manifest.value))
        && (outcome.RollbackUnlogged? <==> Refuses(effect.backupRoot))
        && (outcome.RollbackReported? || outcome.RollbackUnlogged? ==>
          data == if Verified(effect.backupRoot, manifest.value)
            then RestoredData(effect.data, effect.backupRoot, manifest.value) else effect.data)
      ensures AtMostOnce(fails, old(operations), operations) && manifest.Some? && !Refuses(old(backupRoot)) ==>
        var effect := action(old(data), Logged(old(backupRoot), UpgradeStarted));
        !effect.raises && Verified(effect.backupRoot, manifest.value) && !Refuses(effect.backupRoot)
          && !Refuses(Logged(effect.backupRoot, RollbackComplete))
        ==> outcome.Refused? || outcome.NotStarted? || outcome.Committed? || outcome.RolledBack?
    {
      hide SameOutside, Touched, Restored, NoClash;
      var verified := VerifyBackup();
      if verified.Err? {
        return Refused(verified.error);
      }
      var started := AppendJournal(UpgradeStarted);
      if started.Err? {
        return NotStarted(started.error);
      }
      var effect := action(data, backupRoot);
      data, backupRoot := effect.data, effect.backupRoot;
      if !effect.raises {
        var committed := AppendJournal(UpgradeCommitted);
        if committed.Ok? {
          return Committed;
        }
      }
      outcome := RollBack();
      if outcome.RolledBack? || outcome.RolledBackUnlogged? {
        RestoresTheSame(effect.data, old(backupRoot), effect.backupRoot, manifest.value);
      }
    }
  }

  // ----- What a finished backup is good for -----

  /** A finished backup passes verification by the transaction that made it exactly when its lists are short enough. */
  lemma OwnBackupUsable(transaction: UpgradeTransaction, listed: Manifest)
    requires transaction.manifest == Some(listed) && Complete(transaction.backupRoot, listed)
    ensures transaction.Usable() <==> |listed.files| <= MAX_FILES && |listed.databases| <= MAX_DATABASES
  {
  }

  /**
   * It passes verification by another transaction, as after a restart, exactly when moreover its manifest is
   * not too large to be read.
   */
  lemma ReopenedBackupUsable(transaction: UpgradeTransaction, listed: Manifest)
    requires transaction.manifest == None && Complete(transaction.backupRoot, listed)
    requires listed.dataRoot == transaction.dataRoot
    ensures transaction.Usable() <==>
      && |listed.files| <= MAX_FILES && |listed.databases| <= MAX_DATABASES
      && transaction.format.manifestBytes(listed) <= MAX_MANIFEST_BYTES
  {
  }

  // ----- Backups that do not hold what they promise -----

  /** A listed log file of a listed database is removed by the rollback that restores the database. */
  lemma SideFileLost(directory: Directory, manifest: Manifest, data: map<string, Bytes>, path: string, content: Bytes, log: Bytes)
    requires Complete(directory, manifest)
    requires manifest.files == [EntryOf(path + "-wal", log)] && manifest.databases == [EntryOf(path, content)]
    ensures Verified(directory, manifest)
    ensures path + "-wal" !in RestoredData(data, directory, manifest)
    ensures !Restored(RestoredData(data, directory, manifest), directory, manifest)
  {
    var database, file := manifest.databases[0], manifest.files[0];
    assert database in manifest.databases && file in manifest.files;
    var written := WriteFiles(data, FilesOf(directory), manifest.files);
    assert manifest.databases[..0] == [];
    assert WriteDatabases(written, DatabasesOf(directory), manifest.databases)
      == written[path := DatabasesOf(directory)[path]] - Sidecars(path);
    assert !Holds(RestoredData(data, directory, manifest), FilesOf(directory), file);
  }

  /** `backup` takes such a list without complaint, and it verifies. */
  method BackupWithLog(path: string, content: Bytes, log: Bytes, format: Format)
    returns (transaction: UpgradeTransaction, listed: Manifest)
    requires |content| <= MAX_DATABASE_BYTES && |log| <= MAX_FILE_BYTES
    ensures fresh(transaction) && transaction.manifest == Some(listed) && Verified(transaction.backupRoot, listed)
    ensures listed.files == [EntryOf(path + "-wal", log)] && listed.databases == [EntryOf(path, content)]
    ensures forall data :: path + "-wal" !in RestoredData(data, transaction.backupRoot, listed)
  {
    var logPath := path + "-wal";
    assert |logPath| != |path|;
    transaction := new UpgradeTransaction("root", _ => false, _ => false, format, map[path := content, logPath := log], Absent);
    var outcome := transaction.Backup([logPath], [path]);
    assert outcome.Finished?;
    listed := outcome.manifest;
    assert listed.files == [EntryOf(logPath, log)] && listed.databases == [EntryOf(path, content)];
    forall data ensures Verified(transaction.backupRoot, listed) && logPath !in RestoredData(data, transaction.backupRoot, listed) {
      SideFileLost(transaction.backupRoot, listed, data, path, content, log);
    }
  }

  function ManyPaths(count: nat): (paths: seq<string>)
    ensures |paths| == count && Distinct(paths)
  {
    var paths := seq(count, i requires 0 <= i < count => seq(i + 1, _ => 'f'));
    assert forall i :: 0 <= i < count ==> |paths[i]| == i + 1;
    paths
  }

  /** `backup` finishes a backup of one file more than `verify_backup` allows, which then refuses it. */
  method BackupTooMany(content: Bytes, format: Format) returns (outcome: BackupOutcome, verified: Result<Manifest>)
    requires |content| <= MAX_FILE_BYTES
    ensures outcome.Finished? && |outcome.manifest.files| == MAX_FILES + 1
    ensures verified.Err?
  {
    var paths := ManyPaths(MAX_FILES + 1);
    var data := map path | path in paths :: content;
    var transaction := new UpgradeTransaction("root", _ => false, _ => false, format, data, Absent);
    outcome := transaction.Backup(paths, []);
    assert outcome.Finished?;
    assert transaction.ListsAll(outcome.manifest.files, paths);
    verified := transaction.VerifyBackup();
  }

  /** Files with names of one character, in a directory five levels down. */
  function DeepPaths(count: nat): (paths: seq<string>)
    requires count <= 10_000
    ensures |paths| == count && Distinct(paths)
    ensures forall i :: 0 <= i < count ==> |paths[i]| == 481
  {
    var directory := seq(480, j => if j % 100 == 99 then '/' else 'd');
    var paths := seq(count, i requires 0 <= i < count => directory + [(0x4E00 + i) as char]);
    assert forall i :: 0 <= i < count ==> paths[i][480] == (0x4E00 + i) as char;
    paths
  }

  lemma {:induction false} LongPaths(entries: seq<Entry>, length: nat)
    requires forall i :: 0 <= i < |entries| ==> |entries[i].path| >= length
    ensures PathLengths(entries) >= |entries| * length
  {
    if entries != [] {
      LongPaths(entries[..|entries| - 1], length);
    }
  }

  /**
   * `backup` finishes a backup of 9000 files with long paths and the same transaction verifies it; a transaction
   * opened later, as after a restart, refuses it and cannot roll back.
   */
  method BackupTooLong(content: Bytes, format: Format)
    returns (outcome: BackupOutcome, own: Result<Manifest>, reopened: Result<Manifest>, restored: Result<()>)
    requires |content| <= MAX_FILE_BYTES && Measures(format)
    ensures outcome.Finished? && |outcome.manifest.files| == 9_000 && outcome.manifest.databases == []
    ensures own == Ok(outcome.manifest)
    ensures reopened.Err? && restored.Err?
  {
    var paths := DeepPaths(9_000);
    var data := map path | path in paths :: content;
    var transaction := new UpgradeTransaction("root", _ => false, _ => false, format, data, Absent);
    outcome := transaction.Backup(paths, []);
    assert outcome.Finished?;
    var listed := outcome.manifest;
    assert transaction.ListsAll(listed.files, paths);
    OwnBackupUsable(transaction, listed);
    own := transaction.VerifyBackup();
    LongPaths(listed.files, 481);
    reopened, restored := Reopened(transaction, listed);
  }

  /** Another transaction, without faults, on what this one left: a manifest that is too large is refused. */
  method Reopened(transaction: UpgradeTransaction, listed: Manifest) returns (reopened: Result<Manifest>, restored: Result<()>)
    requires Complete(transaction.backupRoot, listed) && listed.dataRoot == transaction.dataRoot
    requires transaction.format.manifestBytes(listed) > MAX_MANIFEST_BYTES
    ensures reopened.Err? && restored.Err?
  {
    var later := new UpgradeTransaction(
      transaction.dataRoot, _ => false, _ => false, transaction.format, transaction.data, transaction.backupRoot);
    ReopenedBackupUsable(later, listed);
    reopened := later.VerifyBackup();
    restored := later.Restore();
  }
}

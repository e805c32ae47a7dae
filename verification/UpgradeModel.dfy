/** Files, manifests and journals of the upgrade transaction (`release_hardening.py`). */
module UpgradeModel {
  newtype byte = x: int | 0 <= x < 256

  type Bytes = seq<byte>

  /** A digest stands for the content it was taken of: different contents have different digests. */
  datatype Digest = Sha256(content: Bytes)

  datatype Option<T> = None | Some(value: T)

  datatype Entry = Entry(path: string, size: nat, sha256: Digest)

  datatype Manifest = Manifest(dataRoot: string, files: seq<Entry>, databases: seq<Entry>)

  datatype EventState =
    | BackupComplete | UpgradeStarted | UpgradeCommitted | ArtifactMigrated(path: string)
    | RollbackComplete | RollbackFailedEvent | UpgradeFailedRolledBack

  datatype Journal = NoJournal | Events(events: seq<EventState>) | Unreadable

  /** The backup root: a directory with the copies, the manifest and the journal, or no directory. */
  datatype Directory =
    | Absent
    | Present(files: map<string, Bytes>, databases: map<string, Bytes>, manifest: Option<Manifest>, journal: Journal)

  /** The copies that can be read there: none if there is no directory. */
  function FilesOf(directory: Directory): map<string, Bytes> {
    if directory.Present? then directory.files else map[]
  }

  function DatabasesOf(directory: Directory): map<string, Bytes> {
    if directory.Present? then directory.databases else map[]
  }

  const EMPTY_DIRECTORY := Present(map[], map[], None, NoJournal)

  datatype Error =
    | BackupExists | PathUnsafe | FileTooLarge | DatabaseInvalid
    | BackupInvalid | RootMismatch | JournalInvalid | RollbackFailed
    | Io | ActionError

  datatype Result<T> = Ok(value: T) | Err(error: Error)

  const MAX_FILE_BYTES := 32 * 1024 * 1024
  const MAX_DATABASE_BYTES := 128 * 1024 * 1024 * 1024
  const MAX_FILES := 10_000
  const MAX_DATABASES := 128
  const JOURNAL_LIMIT := 256
  const MAX_MANIFEST_BYTES := 4 * 1024 * 1024
  const MAX_JOURNAL_BYTES := 2 * 1024 * 1024

  /** How long the JSON files are that a manifest and a list of journal events are written to. */
  datatype Format = Format(manifestBytes: Manifest -> nat, journalBytes: seq<EventState> -> nat)

  ghost function PathLengths(entries: seq<Entry>): nat {
    if entries == [] then 0 else PathLengths(entries[..|entries| - 1]) + |entries[|entries| - 1].path|
  }

  ghost function EventLengths(events: seq<EventState>): nat {
    if events == [] then 0
    else
      var last := events[|events| - 1];
      EventLengths(events[..|events| - 1]) + if last.ArtifactMigrated? then |last.path| else 0
  }

  /** Every path that is written takes at least a byte for each of its characters. */
  ghost predicate Measures(format: Format) {
    && (forall manifest :: format.manifestBytes(manifest) >= PathLengths(manifest.files) + PathLengths(manifest.databases))
    && forall events :: format.journalBytes(events) >= EventLengths(events)
  }

  function EntryOf(path: string, content: Bytes): Entry {
    Entry(path, |content|, Sha256(content))
  }

  // ----- Verified backups -----

  ghost predicate Copied(copies: map<string, Bytes>, entry: Entry) {
    entry.path in copies && entry == EntryOf(entry.path, copies[entry.path])
  }

  ghost predicate AllCopied(copies: map<string, Bytes>, entries: seq<Entry>) {
    forall entry :: entry in entries ==> Copied(copies, entry)
  }

  ghost predicate NoneLarger(entries: seq<Entry>, limit: nat) {
    forall entry :: entry in entries ==> entry.size <= limit
  }

  /** What `verify_backup` establishes. */
  ghost predicate Verified(directory: Directory, manifest: Manifest) {
    && |manifest.files| <= MAX_FILES && |manifest.databases| <= MAX_DATABASES
    && AllCopied(FilesOf(directory), manifest.files) && NoneLarger(manifest.files, MAX_FILE_BYTES)
    && AllCopied(DatabasesOf(directory), manifest.databases)
  }

  /** Two verified backups of one manifest agree on every file it lists. */
  lemma VerifiedAgree(one: Directory, other: Directory, manifest: Manifest)
    requires Verified(one, manifest) && Verified(other, manifest)
    ensures forall entry :: entry in manifest.files ==> FilesOf(one)[entry.path] == FilesOf(other)[entry.path]
    ensures forall entry :: entry in manifest.databases ==> DatabasesOf(one)[entry.path] == DatabasesOf(other)[entry.path]
  {
    forall entry | entry in manifest.files ensures FilesOf(one)[entry.path] == FilesOf(other)[entry.path] {
      assert Copied(FilesOf(one), entry) && Copied(FilesOf(other), entry);
    }
    forall entry | entry in manifest.databases ensures DatabasesOf(one)[entry.path] == DatabasesOf(other)[entry.path] {
      assert Copied(DatabasesOf(one), entry) && Copied(DatabasesOf(other), entry);
    }
  }

  // ----- Restoring -----

  ghost function WriteFiles(data: map<string, Bytes>, copies: map<string, Bytes>, entries: seq<Entry>): map<string, Bytes>
    requires forall entry :: entry in entries ==> entry.path in copies
  {
    if entries == [] then data
    else
      var last := |entries| - 1;
      WriteFiles(data, copies, entries[..last])[entries[last].path := copies[entries[last].path]]
  }

  function Temporary(path: string): string {
    path + ".restore.tmp"
  }

  /** What restoring a database leaves absent: its temporary file and the files SQLite keeps beside it. */
  function Sidecars(path: string): set<string> {
    {Temporary(path), path + "-wal", path + "-shm"}
  }

  ghost function WriteDatabases(data: map<string, Bytes>, copies: map<string, Bytes>, entries: seq<Entry>): map<string, Bytes>
    requires forall entry :: entry in entries ==> entry.path in copies
  {
    if entries == [] then data
    else
      var last := |entries| - 1;
      var path := entries[last].path;
      WriteDatabases(data, copies, entries[..last])[path := copies[path]] - Sidecars(path)
  }

  ghost function RestoredData(data: map<string, Bytes>, directory: Directory, manifest: Manifest): map<string, Bytes>
    requires Verified(directory, manifest)
  {
    WriteDatabases(WriteFiles(data, FilesOf(directory), manifest.files), DatabasesOf(directory), manifest.databases)
  }

  ghost predicate Holds(data: map<string, Bytes>, copies: map<string, Bytes>, entry: Entry) {
    entry.path in copies && entry.path in data && data[entry.path] == copies[entry.path]
  }

  /** Every file and database of the manifest has its backed-up content again. */
  ghost predicate Restored(data: map<string, Bytes>, directory: Directory, manifest: Manifest)
  {
    && (forall entry :: entry in manifest.files ==> Holds(data, FilesOf(directory), entry))
    && forall entry :: entry in manifest.databases ==> Holds(data, DatabasesOf(directory), entry)
  }

  /** Some database's restoration removes `path`, and no database listed after it puts it back. */
  ghost predicate RemovedLast(path: string, databases: seq<Entry>) {
    exists j :: 0 <= j < |databases| && RemovedAt(path, databases, j)
  }

  ghost predicate RemovedAt(path: string, databases: seq<Entry>, j: nat)
    requires j < |databases|
  {
    path in Sidecars(databases[j].path) && forall k :: j < k < |databases| ==> databases[k].path != path
  }

  ghost predicate Lists(databases: seq<Entry>, path: string) {
    exists k :: 0 <= k < |databases| && databases[k].path == path
  }

  /**
   * No listed path is removed as the sidecar of a database, and a path listed both as file and as
   * database was copied with the same content.
   */
  ghost predicate NoClash(directory: Directory, manifest: Manifest)
    requires Verified(directory, manifest)
  {
    && (forall entry :: entry in manifest.files || entry in manifest.databases ==>
      !RemovedLast(entry.path, manifest.databases))
    && forall file :: file in manifest.files && Lists(manifest.databases, file.path) ==>
      file.path in DatabasesOf(directory) && DatabasesOf(directory)[file.path] == FilesOf(directory)[file.path]
  }

  lemma SidecarIsLonger(path: string)
    ensures forall sidecar :: sidecar in Sidecars(path) ==> |sidecar| > |path|
    ensures path !in Sidecars(path)
  {
  }

  lemma {:induction false} WrittenFiles(data: map<string, Bytes>, copies: map<string, Bytes>, entries: seq<Entry>)
    requires forall entry :: entry in entries ==> entry.path in copies
    ensures forall entry :: entry in entries ==> Holds(WriteFiles(data, copies, entries), copies, entry)
  {
    if entries != [] {
      var last := |entries| - 1;
      WrittenFiles(data, copies, entries[..last]);
      assert forall entry :: entry in entries <==> entry in entries[..last] || entry == entries[last];
    }
  }

  lemma LastListed(databases: seq<Entry>, path: string)
    requires databases != []
    ensures var last := |databases| - 1;
      && (databases[last].path == path ==> Lists(databases, path) && !RemovedLast(path, databases))
      && (databases[last].path != path && path in Sidecars(databases[last].path) ==> RemovedLast(path, databases))
      && (databases[last].path != path && path !in Sidecars(databases[last].path) ==>
        && (Lists(databases, path) <==> Lists(databases[..last], path))
        && (RemovedLast(path, databases) <==> RemovedLast(path, databases[..last])))
  {
    var last := |databases| - 1;
    var before := databases[..last];
    SidecarIsLonger(databases[last].path);
    if databases[last].path == path {
    } else if path in Sidecars(databases[last].path) {
      assert RemovedAt(path, databases, last);
    } else {
      assert forall k :: 0 <= k < last ==> before[k] == databases[k];
      if RemovedLast(path, databases) {
        var j :| 0 <= j < |databases| && RemovedAt(path, databases, j);
        assert RemovedAt(path, before, j);
      }
      if RemovedLast(path, before) {
        var j :| 0 <= j < |before| && RemovedAt(path, before, j);
        assert RemovedAt(path, databases, j);
      }
    }
  }

  /** What restoring the databases leaves at one path: the last thing that was done there. */
  lemma {:induction false} DatabasesAt(data: map<string, Bytes>, copies: map<string, Bytes>, entries: seq<Entry>, path: string)
    requires forall entry :: entry in entries ==> entry.path in copies
    ensures var after := WriteDatabases(data, copies, entries);
      if RemovedLast(path, entries) then path !in after
      else if Lists(entries, path) then path in copies && path in after && after[path] == copies[path]
      else (path in after <==> path in data) && (path in data ==> after[path] == data[path])
  {
    if entries != [] {
      hide RemovedLast, Lists;
      DatabasesAt(data, copies, entries[..|entries| - 1], path);
      LastListed(entries, path);
      SidecarIsLonger(entries[|entries| - 1].path);
    }
  }

  /** A rollback brings back every listed file and database exactly when no listed path clashes. */
  lemma RestoreExact(data: map<string, Bytes>, directory: Directory, manifest: Manifest)
    requires Verified(directory, manifest)
    ensures Restored(RestoredData(data, directory, manifest), directory, manifest) <==> NoClash(directory, manifest)
  {
    var written := WriteFiles(data, FilesOf(directory), manifest.files);
    var after := RestoredData(data, directory, manifest);
    WrittenFiles(data, FilesOf(directory), manifest.files);
    forall entry | entry in manifest.files || entry in manifest.databases
      ensures RemovedLast(entry.path, manifest.databases) ==> entry.path !in after
      ensures !RemovedLast(entry.path, manifest.databases) && Lists(manifest.databases, entry.path) ==>
        Holds(after, DatabasesOf(directory), entry)
      ensures !RemovedLast(entry.path, manifest.databases) && !Lists(manifest.databases, entry.path) ==>
        entry in manifest.files && Holds(after, FilesOf(directory), entry)
    {
      DatabasesAt(written, DatabasesOf(directory), manifest.databases, entry.path);
      if entry in manifest.databases {
        var k :| 0 <= k < |manifest.databases| && manifest.databases[k] == entry;
        assert manifest.databases[k].path == entry.path;
      } else {
        assert Holds(written, FilesOf(directory), entry);
      }
    }
    if Restored(after, directory, manifest) {
      forall file | file in manifest.files && Lists(manifest.databases, file.path)
        ensures file.path in DatabasesOf(directory) && DatabasesOf(directory)[file.path] == FilesOf(directory)[file.path]
      {
        assert Holds(after, FilesOf(directory), file);
      }
    }
  }

  // ----- What a rollback may touch -----

  ghost function Touched(manifest: Manifest): set<string> {
    (set entry | entry in manifest.files :: entry.path)
    + (set entry, path | entry in manifest.databases && path in {entry.path} + Sidecars(entry.path) :: path)
  }

  ghost predicate SameOutside(before: map<string, Bytes>, after: map<string, Bytes>, touched: set<string>) {
    forall path :: path !in touched ==>
      (path in before <==> path in after) && (path in before ==> before[path] == after[path])
  }
}

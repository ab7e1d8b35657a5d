/**
 * `main.py`: `CatalogPublisher`, which publishes each catalog of a run in
 * three stages (a local copy, Google Drive, the FTP server), writes one
 * ledger record per stage, and afterwards deletes from the source folder the
 * files whose three stages all succeeded. The outcome of every external call
 * that the services cannot decide from their own state is a parameter
 * (`Outcomes`); notifications are not modelled.
 */
module Publisher {
  import opened Wrappers
  import opened Text
  import opened CatalogConfig
  import opened NameMapper
  import opened Ledger
  import FileService
  import Drive
  import Ftp

  /** One entry of `list_catalogs`. */
  datatype Catalog = Catalog(fileName: string, fullPath: string)

  /** The dictionary `process_catalog` returns. */
  datatype PublishResult = PublishResult(fileName: string, local: bool, drive: bool, ftp: bool, errors: seq<string>)

  /** What the outside world answers while one catalog is published: whether
      `shutil.copy2` works, whether the Drive search and the Drive write
      succeed and which id a new file gets, whether the FTP server can be
      reached and accepts the `STOR`. */
  datatype Outcomes = Outcomes(copied: bool, listed: bool, written: bool, newId: string,
                               reachable: bool, stored: bool)

  /** The text the mapping check looks for in the normalised name. */
  const NotFoundMarker := "No se ha encontrado"
  const LocalError := "Error al copiar archivo localmente"
  const DriveError := "Error al subir a Drive"
  const FtpError := "Error al subir a FTP"

  function NoMappingError(fileName: string): string {
    "No se encontró mapeo para el archivo: " + fileName
  }

  function ReadError(fullPath: string): string {
    "No se pudo leer el archivo: " + fullPath
  }

  // ---------- the mapping check ----------

  /** The check of `process_catalog` after normalising: the name counts as
      unmapped when the mapper's answer contains the marker or is the name
      itself. */
  predicate Rejected(fileName: string) {
    RejectedIn(CatalogNameMapping, fileName)
  }

  /** The same check against a given name table. */
  predicate RejectedIn(names: Table, fileName: string) {
    RejectedBy(names, fileName, NotFoundMarker)
  }

  predicate RejectedBy(names: Table, fileName: string, marker: string) {
    var n := NormalizeWith(names, fileName);
    Contains(n, marker) || n == fileName
  }

  /** With a marker that has a space, which no value of the table has, the
      first half of the check only fires when the second does. */
  lemma RejectedByIffUnchanged(fileName: string, marker: string)
    requires !NoSpace(marker)
    ensures RejectedBy(CatalogNameMapping, fileName, marker) <==> Normalize(fileName) == fileName
  {
    if Contains(Normalize(fileName), marker) {
      NormalizeIntroducesNoSpacedText(fileName, marker);
    }
  }

  lemma MarkerHasSpace(marker: string)
    requires marker == NotFoundMarker
    ensures !NoSpace(marker)
  {
    assert marker[2] == ' ';
  }

  /** A name is rejected exactly when the mapper returns it unchanged. */
  lemma RejectedIffUnchanged(fileName: string)
    ensures Rejected(fileName) <==> Normalize(fileName) == fileName
  {
    MarkerHasSpace(NotFoundMarker);
    RejectedByIffUnchanged(fileName, NotFoundMarker);
  }

  /** A key whose entry maps it to itself is rejected as if it had no
      mapping at all. */
  lemma IdentityEntryRejected(i: nat)
    requires i < |CatalogNameMapping| && i in IdentityEntries
    ensures Rejected(CatalogNameMapping[i].0)
  {
    NormalizeIdentityEntry(i);
  }

  /** Every other key passes the check. */
  lemma MappedKeyAccepted(i: nat)
    requires i < |CatalogNameMapping| && i !in IdentityEntries
    ensures !Rejected(CatalogNameMapping[i].0)
  {
    NormalizeKey(i);
    IdentityEntriesExact();
    RejectedIffUnchanged(CatalogNameMapping[i].0);
  }

  /** `SOLDADURA.pdf`, spelt exactly as its key, is rejected, while the
      lower-case spelling is accepted through the flexible search. */
  lemma SoldaduraRejectedOnlyWhenExact()
    ensures Rejected("SOLDADURA.pdf")
    ensures !Rejected("soldadura.pdf")
  {
    assert CatalogNameMapping[24].0 == "SOLDADURA.pdf";
    IdentityEntryRejected(24);
    NormalizeSoldaduraLowercase();
    RejectedIffUnchanged("soldadura.pdf");
  }

  /** `not file_content`: the file could not be read, or is empty. */
  predicate Unreadable(fullPath: string, source: map<string, FileService.Bytes>) {
    fullPath !in source || source[fullPath] == []
  }

  // ---------- what one catalog writes ----------

  /** The errors of the three stages, in stage order. */
  function StageErrors(local: bool, drive: bool, ftp: bool): seq<string> {
    (if local then [] else [LocalError]) + (if drive then [] else [DriveError]) + (if ftp then [] else [FtpError])
  }

  /** One error per failed stage and no other, in stage order; no error iff
      the three stages succeeded. */
  lemma StageErrorsSpec(local: bool, drive: bool, ftp: bool)
    ensures var errors := StageErrors(local, drive, ftp);
            |errors| == (if local then 0 else 1) + (if drive then 0 else 1) + (if ftp then 0 else 1) &&
            (errors == [] <==> local && drive && ftp) &&
            (LocalError in errors <==> !local) && (DriveError in errors <==> !drive) && (FtpError in errors <==> !ftp) &&
            (forall i, j :: 0 <= i < j < |errors| ==> StageRank(errors[i]) < StageRank(errors[j])) &&
            (forall m :: m in errors ==> m in [LocalError, DriveError, FtpError])
  {
  }

  /** The position of a stage's error message in stage order. */
  function StageRank(m: string): nat {
    if m == LocalError then 0 else if m == DriveError then 1 else 2
  }

  function LocalRecord(exec: string, c: Catalog, ok: bool): Record {
    if ok then Record(exec, c.fileName, "local", "success", map["source" := c.fullPath, "action" := "copy"])
    else Record(exec, c.fileName, "local", "error", map["error" := LocalError])
  }

  function DriveRecord(exec: string, c: Catalog, dr: Drive.DriveResult): Record {
    if dr.success && dr.fileId.Some?
    then Record(exec, c.fileName, "drive", "success", map["action" := dr.action, "file_id" := dr.fileId.value])
    else Record(exec, c.fileName, "drive", "error", map["error" := DriveError])
  }

  function FtpRecord(exec: string, c: Catalog, normalized: string, ok: bool): Record {
    if ok then Record(exec, c.fileName, "ftp", "success", map["normalized_name" := normalized])
    else Record(exec, c.fileName, "ftp", "error", map["error" := FtpError, "normalized_name" := normalized])
  }

  /** The three ledger records of a catalog that passed both checks. */
  function StageRecords(exec: string, c: Catalog, normalized: string, local: bool, dr: Drive.DriveResult, ftp: bool)
    : (rs: seq<Record>)
    requires dr.success ==> dr.fileId.Some?
    ensures |rs| == 3
    ensures forall i :: 0 <= i < 3 ==> rs[i].executionId == exec && rs[i].fileName == c.fileName && rs[i].operation == Stages[i]
    ensures (rs[0].status == "success" <==> local) && (rs[1].status == "success" <==> dr.success) &&
            (rs[2].status == "success" <==> ftp)
  {
    [LocalRecord(exec, c, local), DriveRecord(exec, c, dr), FtpRecord(exec, c, normalized, ftp)]
  }

  /** Appending records to a log without success records for `name`: a
      success for `op` is then one of the new records. */
  lemma {:induction false} SuccessAmongNew(before: seq<Record>, rs: seq<Record>, name: string, op: string)
    requires !HasSuccess(before, name, op)
    ensures HasSuccess(before + rs, name, op) <==> exists i :: 0 <= i < |rs| && IsSuccess(rs[i], name, op)
    decreases |rs|
  {
    if rs == [] {
      assert before + rs == before;
    } else {
      var front := rs[..|rs| - 1];
      assert (before + rs)[..|before + rs| - 1] == before + front;
      SuccessAmongNew(before, front, name, op);
      assert forall i :: 0 <= i < |front| ==> front[i] == rs[i];
    }
  }

  /** For a file the execution has not logged before, the cleanup may delete
      it after its three records exactly when all three stages succeeded. */
  lemma StageRecordsCanDelete(prior: seq<Record>, exec: string, c: Catalog, normalized: string,
                              local: bool, dr: Drive.DriveResult, ftp: bool)
    requires dr.success ==> dr.fileId.Some?
    requires forall x :: x in prior && x.executionId == exec ==> x.fileName != c.fileName
    ensures CanDelete(ForExecution(prior + StageRecords(exec, c, normalized, local, dr, ftp), exec), c.fileName)
            <==> local && dr.success && ftp
  {
    var rs := StageRecords(exec, c, normalized, local, dr, ftp);
    var before := ForExecution(prior, exec);
    ForExecutionConcat(prior, rs, exec);
    ForExecutionOwn(rs, exec);
    FreshFileCanDelete(before, rs, c.fileName);
  }

  /** Records that all belong to the execution are all selected. */
  lemma {:induction false} ForExecutionOwn(rs: seq<Record>, exec: string)
    requires forall i :: 0 <= i < |rs| ==> rs[i].executionId == exec
    ensures ForExecution(rs, exec) == rs
    decreases |rs|
  {
    if rs != [] {
      var front := rs[..|rs| - 1];
      ForExecutionOwn(front, exec);
      assert rs == front + [rs[|rs| - 1]];
    }
  }

  /** A file with no earlier records and one record per stage may be
      deleted exactly when the three records report success. */
  lemma FreshFileCanDelete(before: seq<Record>, rs: seq<Record>, name: string)
    requires forall x :: x in before ==> x.fileName != name
    requires |rs| == 3
    requires forall i :: 0 <= i < 3 ==> rs[i].fileName == name && rs[i].operation == Stages[i]
    ensures CanDelete(before + rs, name) <==>
              rs[0].status == "success" && rs[1].status == "success" && rs[2].status == "success"
  {
    NoEarlierSuccess(before, name, "local");
    NoEarlierSuccess(before, name, "drive");
    NoEarlierSuccess(before, name, "ftp");
    SuccessAmongNew(before, rs, name, "local");
    SuccessAmongNew(before, rs, name, "drive");
    SuccessAmongNew(before, rs, name, "ftp");
    StagesSucceeded(rs, name);
  }

  /** In three records for the stages in order, the success of a stage is
      the status of its own record. */
  lemma StagesSucceeded(rs: seq<Record>, name: string)
    requires |rs| == 3
    requires forall i :: 0 <= i < 3 ==> rs[i].fileName == name && rs[i].operation == Stages[i]
    ensures (exists i :: 0 <= i < |rs| && IsSuccess(rs[i], name, "local")) <==> rs[0].status == "success"
    ensures (exists i :: 0 <= i < |rs| && IsSuccess(rs[i], name, "drive")) <==> rs[1].status == "success"
    ensures (exists i :: 0 <= i < |rs| && IsSuccess(rs[i], name, "ftp")) <==> rs[2].status == "success"
  {
    assert rs[0].operation == "local" && rs[1].operation == "drive" && rs[2].operation == "ftp";
    if rs[0].status == "success" { assert IsSuccess(rs[0], name, "local"); }
    if rs[1].status == "success" { assert IsSuccess(rs[1], name, "drive"); }
    if rs[2].status == "success" { assert IsSuccess(rs[2], name, "ftp"); }
  }

  lemma NoEarlierSuccess(logs: seq<Record>, name: string, op: string)
    requires forall x :: x in logs ==> x.fileName != name
    ensures !HasSuccess(logs, name, op)
  {
    HasSuccessExists(logs, name, op);
    forall i | 0 <= i < |logs|
      ensures !IsSuccess(logs[i], name, op)
    {
      assert logs[i] in logs;
    }
  }

  // ---------- the cleanup ----------

  /** `f"{SOURCE_PATH}\\{file_name}"`. */
  function SourceFile(root: string, name: string): string {
    root + "\\" + name
  }

  function SourceFiles(root: string, names: seq<string>): set<string> {
    set n | n in names :: SourceFile(root, n)
  }

  /** Removing one more path after the paths of `names` removes the paths
      of `names + [n]`. */
  lemma SourceFilesStep(root: string, source: map<string, FileService.Bytes>, names: seq<string>, n: string)
    ensures (source - SourceFiles(root, names)) - {SourceFile(root, n)} == source - SourceFiles(root, names + [n])
  {
    assert SourceFiles(root, names + [n]) == SourceFiles(root, names) + {SourceFile(root, n)};
  }

  /** Different names give different paths. */
  lemma SourceFileInjective(root: string, a: string, b: string)
    ensures SourceFile(root, a) == SourceFile(root, b) ==> a == b
  {
    assert a == SourceFile(root, a)[|root| + 1..];
    assert b == SourceFile(root, b)[|root| + 1..];
  }

  /** `delete_file` succeeds on this path. */
  predicate Removable(path: string, source: map<string, FileService.Bytes>, locked: set<string>) {
    path !in source || path !in locked
  }

  /** The cleanup deletes the source file of this entry. */
  predicate Deletes(f: FileFlags, root: string, source: map<string, FileService.Bytes>, locked: set<string>) {
    f.canDelete && Removable(SourceFile(root, f.fileName), source, locked)
  }

  /** `deleted_files` after the loop read the entries `fs`. */
  function DeletedNames(fs: seq<FileFlags>, root: string, source: map<string, FileService.Bytes>, locked: set<string>)
    : seq<string>
  {
    if fs == [] then []
    else
      var f := fs[|fs| - 1];
      DeletedNames(fs[..|fs| - 1], root, source, locked) + (if Deletes(f, root, source, locked) then [f.fileName] else [])
  }

  /** `error_files` after the loop read the entries `fs`. */
  function FailedNames(fs: seq<FileFlags>, root: string, source: map<string, FileService.Bytes>, locked: set<string>)
    : seq<string>
  {
    if fs == [] then []
    else
      var f := fs[|fs| - 1];
      FailedNames(fs[..|fs| - 1], root, source, locked) + (if Deletes(f, root, source, locked) then [] else [f.fileName])
  }

  /** The names of `[f for f in files_to_check if not f['canDelete']]`. */
  function NonDeletable(fs: seq<FileFlags>): seq<string> {
    if fs == [] then []
    else
      var f := fs[|fs| - 1];
      NonDeletable(fs[..|fs| - 1]) + (if f.canDelete then [] else [f.fileName])
  }

  /** Exactly the entries the cleanup can delete go to `deleted_files`. */
  lemma {:induction false} DeletedNamesMembers(fs: seq<FileFlags>, root: string,
                                               source: map<string, FileService.Bytes>, locked: set<string>)
    ensures forall n :: n in DeletedNames(fs, root, source, locked) ==>
              exists i :: 0 <= i < |fs| && fs[i].fileName == n && Deletes(fs[i], root, source, locked)
    ensures forall i :: 0 <= i < |fs| && Deletes(fs[i], root, source, locked) ==> fs[i].fileName in DeletedNames(fs, root, source, locked)
  {
    if fs != [] {
      var front := fs[..|fs| - 1];
      DeletedNamesMembers(front, root, source, locked);
      assert forall i :: 0 <= i < |front| ==> front[i] == fs[i];
    }
  }

  /** Exactly the other entries go to `error_files`, one name per entry. */
  lemma {:induction false} FailedNamesMembers(fs: seq<FileFlags>, root: string,
                                              source: map<string, FileService.Bytes>, locked: set<string>)
    ensures forall n :: n in FailedNames(fs, root, source, locked) ==>
              exists i :: 0 <= i < |fs| && fs[i].fileName == n && !Deletes(fs[i], root, source, locked)
    ensures forall i :: 0 <= i < |fs| && !Deletes(fs[i], root, source, locked) ==> fs[i].fileName in FailedNames(fs, root, source, locked)
    ensures |FailedNames(fs, root, source, locked)| + |DeletedNames(fs, root, source, locked)| == |fs|
  {
    if fs != [] {
      var front := fs[..|fs| - 1];
      FailedNamesMembers(front, root, source, locked);
      assert forall i :: 0 <= i < |front| ==> front[i] == fs[i];
    }
  }

  /** Exactly the entries that may not be deleted are purged afterwards. */
  lemma {:induction false} NonDeletableMembers(fs: seq<FileFlags>)
    ensures forall n :: n in NonDeletable(fs) ==> exists i :: 0 <= i < |fs| && fs[i].fileName == n && !fs[i].canDelete
    ensures forall i :: 0 <= i < |fs| && !fs[i].canDelete ==> fs[i].fileName in NonDeletable(fs)
  {
    if fs != [] {
      var front := fs[..|fs| - 1];
      NonDeletableMembers(front);
      assert forall i :: 0 <= i < |front| ==> front[i] == fs[i];
    }
  }

  predicate DistinctNames(fs: seq<FileFlags>) {
    forall i, j :: 0 <= i < j < |fs| ==> fs[i].fileName != fs[j].fileName
  }

  predicate NamedFiles(fs: seq<FileFlags>) {
    forall i :: 0 <= i < |fs| ==> fs[i].fileName != ""
  }

  /** Each entry of `get_files_to_delete` has a name of its own. */
  lemma FilesToDeleteNamed(logs: seq<Record>)
    ensures DistinctNames(FilesToDelete(logs)) && NamedFiles(FilesToDelete(logs))
  {
    var fs, names := FilesToDelete(logs), FileNames(logs);
    forall i | 0 <= i < |fs|
      ensures fs[i].fileName != ""
    {
      assert names[i] in names;
    }
  }

  /** `deleted_files` and `error_files` partition the names: every entry is
      in exactly one of them. */
  lemma CleanupPartition(fs: seq<FileFlags>, root: string, source: map<string, FileService.Bytes>, locked: set<string>)
    requires DistinctNames(fs)
    ensures forall n :: n in DeletedNames(fs, root, source, locked) ==> n !in FailedNames(fs, root, source, locked)
    ensures forall i :: 0 <= i < |fs| ==>
              (fs[i].fileName in DeletedNames(fs, root, source, locked) || fs[i].fileName in FailedNames(fs, root, source, locked))
    ensures |DeletedNames(fs, root, source, locked)| + |FailedNames(fs, root, source, locked)| == |fs|
  {
    DeletedNamesMembers(fs, root, source, locked);
    FailedNamesMembers(fs, root, source, locked);
    forall n | n in DeletedNames(fs, root, source, locked)
      ensures n !in FailedNames(fs, root, source, locked)
    {
      var i :| 0 <= i < |fs| && fs[i].fileName == n && Deletes(fs[i], root, source, locked);
      assert forall j :: 0 <= j < |fs| && fs[j].fileName == n ==> j == i;
    }
  }

  /** A file is deleted only when the execution logged a success for each
      of its three stages. */
  lemma DeletedHaveAllStages(logs: seq<Record>, root: string, source: map<string, FileService.Bytes>, locked: set<string>)
    ensures forall n :: n in DeletedNames(FilesToDelete(logs), root, source, locked) ==> CanDelete(logs, n)
  {
    var fs := FilesToDelete(logs);
    DeletedNamesMembers(fs, root, source, locked);
    forall n | n in DeletedNames(fs, root, source, locked)
      ensures CanDelete(logs, n)
    {
      var i :| 0 <= i < |fs| && fs[i].fileName == n && Deletes(fs[i], root, source, locked);
    }
  }

  /** The collection without the records of execution `exec` whose file
      name is one of `names`. */
  function RemoveNames(records: seq<Record>, exec: string, names: seq<string>): seq<Record> {
    if records == [] then []
    else
      var rest := RemoveNames(records[..|records| - 1], exec, names);
      var last := records[|records| - 1];
      if last.executionId == exec && last.fileName in names then rest else rest + [last]
  }

  /** The purge removes exactly the records of the execution with one of
      the names. */
  lemma {:induction false} RemoveNamesMembers(records: seq<Record>, exec: string, names: seq<string>)
    ensures forall x :: x in RemoveNames(records, exec, names) <==>
              x in records && !(x.executionId == exec && x.fileName in names)
  {
    if records != [] {
      RemoveNamesMembers(records[..|records| - 1], exec, names);
      assert records == records[..|records| - 1] + [records[|records| - 1]];
    }
  }

  lemma {:induction false} RemoveNamesNone(records: seq<Record>, exec: string)
    ensures RemoveNames(records, exec, []) == records
  {
    if records != [] {
      RemoveNamesNone(records[..|records| - 1], exec);
      assert records == records[..|records| - 1] + [records[|records| - 1]];
    }
  }

  /** `delete_logs(exec, name)` after the purge of `names` is the purge of
      `names + [name]`. */
  lemma {:induction false} RemoveNamesStep(records: seq<Record>, exec: string, names: seq<string>, name: string)
    requires name != ""
    ensures Without(RemoveNames(records, exec, names), exec, Some(name)) == RemoveNames(records, exec, names + [name])
  {
    if records != [] {
      var front, last := records[..|records| - 1], records[|records| - 1];
      RemoveNamesStep(front, exec, names, name);
      var rest := RemoveNames(front, exec, names);
      assert (rest + [last])[..|rest|] == rest;
    }
  }

  /** After the cleanup the only rows of the execution with a file name
      are those of files whose three stages succeeded but whose source file
      could not be removed. */
  lemma CleanupLeavesOnlyFailedDeletions(records: seq<Record>, exec: string, root: string,
                                         source: map<string, FileService.Bytes>, locked: set<string>)
    ensures var fs := FilesToDelete(ForExecution(records, exec));
            forall x :: x in RemoveNames(records, exec, DeletedNames(fs, root, source, locked) + NonDeletable(fs)) &&
                        x.executionId == exec && x.fileName != "" ==>
                          x.fileName in FailedNames(fs, root, source, locked) &&
                          CanDelete(ForExecution(records, exec), x.fileName) &&
                          !Removable(SourceFile(root, x.fileName), source, locked)
  {
    var logs := ForExecution(records, exec);
    var fs := FilesToDelete(logs);
    var deleted := DeletedNames(fs, root, source, locked);
    RemoveNamesMembers(records, exec, deleted + NonDeletable(fs));
    DeletedNamesMembers(fs, root, source, locked);
    FailedNamesMembers(fs, root, source, locked);
    NonDeletableMembers(fs);
    forall x | x in RemoveNames(records, exec, deleted + NonDeletable(fs)) && x.executionId == exec && x.fileName != ""
      ensures x.fileName in FailedNames(fs, root, source, locked)
      ensures CanDelete(logs, x.fileName) && !Removable(SourceFile(root, x.fileName), source, locked)
    {
      assert x in logs;
      var p :| 0 <= p < |logs| && logs[p] == x;
      assert x.fileName in FileNames(logs);
      var j :| 0 <= j < |FileNames(logs)| && FileNames(logs)[j] == x.fileName;
      assert fs[j].fileName == x.fileName;
      assert x.fileName !in NonDeletable(fs) && x.fileName !in deleted;
    }
  }

  class CatalogPublisher {
    const files: FileService.FileService
    const drive: Drive.DriveService
    const ftp: Ftp.FTPService
    const mongo: MongoService
    /** `SOURCE_PATH`. */
    const sourcePath: string
    /** The table `normalize_catalog_name` reads. */
    const names: Table

    /** `__init__`; the services come in already set up. */
    constructor(files: FileService.FileService, drive: Drive.DriveService, ftp: Ftp.FTPService,
                mongo: MongoService, sourcePath: string)
      ensures this.files == files && this.drive == drive && this.ftp == ftp && this.mongo == mongo
      ensures this.sourcePath == sourcePath && names == CatalogNameMapping
    {
      this.files := files;
      this.drive := drive;
      this.ftp := ftp;
      this.mongo := mongo;
      this.sourcePath := sourcePath;
      this.names := CatalogNameMapping;
    }

    /** `process_catalog`: the mapping check, the read, then the three
        stages. */
    method ProcessCatalog(c: Catalog, exec: string, o: Outcomes) returns (result: PublishResult, ghost dr: Drive.DriveResult)
      modifies files, drive, ftp, mongo
      ensures result.fileName == c.fileName
      ensures mongo.connected == old(mongo.connected) && drive.available == old(drive.available)
      ensures files.source == old(files.source) && files.locked == old(files.locked)
      ensures RejectedIn(names, c.fileName) ==>
                result == Unmapped(c) &&
                unchanged(files, drive, ftp, mongo)
      ensures !RejectedIn(names, c.fileName) && Unreadable(c.fullPath, old(files.source)) ==>
                result == ReadFailed(c) &&
                unchanged(files, drive, ftp, mongo)
      ensures !RejectedIn(names, c.fileName) && !Unreadable(c.fullPath, old(files.source)) ==>
                Published(c, exec, NormalizeWith(names, c.fileName), old(files.source)[c.fullPath], o, result, dr,
                          old(mongo.records), old(files.dest), old(drive.files), old(ftp.dirs), old(ftp.files))
    {
      var normalized := NormalizeWith(names, c.fileName);
      dr := Drive.DriveResult(false, "created", None, c.fileName);
      if Contains(normalized, NotFoundMarker) || normalized == c.fileName {
        return Unmapped(c), dr;
      }
      var content := files.ReadFile(c.fullPath);
      if content.None? || content.value == [] {
        return ReadFailed(c), dr;
      }
      result, dr := PublishStages(c, exec, normalized, content.value, o);
    }

    /** What the three stages of `process_catalog` leave behind: the flags,
        the errors, the ledger records, the local copy, the Drive folder, and
        the FTP server's directories and files. */
    ghost predicate Published(c: Catalog, exec: string, normalized: string, content: FileService.Bytes, o: Outcomes,
                              result: PublishResult, dr: Drive.DriveResult, records0: seq<Record>,
                              dest0: map<string, FileService.Bytes>, drive0: seq<Drive.DriveFile>, dirs0: set<string>,
                              ftpFiles0: map<(string, string), FileService.Bytes>)
      reads files, drive, ftp, mongo
    {
      result.fileName == c.fileName &&
      result.local == o.copied &&
      (dr, drive.files) == Drive.UploadOrUpdateOutcome(drive0, drive.available, drive.folderId, content, c.fileName,
                                                      o.listed, o.written, o.newId) &&
      result.drive == dr.success && dr.fileName == c.fileName && (dr.success ==> dr.fileId.Some?) &&
      ftp.dirs == Ftp.ConnectedDirs(ftp.uploadPath, dirs0, ftp.denied, o.reachable) &&
      (result.ftp <==> Ftp.ConnectSucceeds(ftp.uploadPath, dirs0, ftp.denied, o.reachable) && o.stored) &&
      result.errors == StageErrors(result.local, result.drive, result.ftp) &&
      mongo.records == records0 +
        (if mongo.connected then StageRecords(exec, c, normalized, result.local, dr, result.ftp) else []) &&
      files.dest == (if result.local then dest0[c.fileName := content] else dest0) &&
      ftp.files == (if result.ftp then ftpFiles0[(ftp.uploadPath, normalized) := content] else ftpFiles0)
    }

    /** Steps 3 to 5 of `process_catalog`: each stage runs and is logged
        whatever the earlier stages did. */
    method PublishStages(c: Catalog, exec: string, normalized: string, data: FileService.Bytes, o: Outcomes)
      returns (result: PublishResult, ghost dr: Drive.DriveResult)
      requires c.fullPath in files.source && files.source[c.fullPath] == data
      modifies files, drive, ftp, mongo
      ensures mongo.connected == old(mongo.connected) && drive.available == old(drive.available)
      ensures files.source == old(files.source) && files.locked == old(files.locked)
      ensures Published(c, exec, normalized, data, o, result, dr, old(mongo.records), old(files.dest), old(drive.files),
                        old(ftp.dirs), old(ftp.files))
    {
      var errors: seq<string> := [];
      var local := LocalStage(c, exec, o.copied);
      if !local {
        errors := errors + [LocalError];
      }
      ghost var records1, dest1 := mongo.records, files.dest;
      var driveResult := DriveStage(c, exec, data, o);
      dr := driveResult;
      if !driveResult.success {
        errors := errors + [DriveError];
      }
      ghost var records2, driveFiles2 := mongo.records, drive.files;
      var uploaded := FtpStage(c, exec, normalized, data, o);
      if !uploaded {
        errors := errors + [FtpError];
      }
      result := PublishResult(c.fileName, local, driveResult.success, uploaded, errors);
      assert files.dest == dest1 && drive.files == driveFiles2;
      assert errors == StageErrors(local, dr.success, uploaded);
      assert mongo.connected ==>
               mongo.records == old(mongo.records) + StageRecords(exec, c, normalized, local, dr, uploaded) by {
        if mongo.connected {
          assert mongo.records == records2 + [FtpRecord(exec, c, normalized, uploaded)];
          assert records2 == records1 + [DriveRecord(exec, c, dr)];
          assert records1 == old(mongo.records) + [LocalRecord(exec, c, local)];
        }
      }
    }

    /** Step 3: the local copy and its record. */
    method LocalStage(c: Catalog, exec: string, copied: bool) returns (ok: bool)
      modifies files, mongo
      ensures mongo.connected == old(mongo.connected)
      ensures files.source == old(files.source) && files.locked == old(files.locked)
      ensures ok <==> c.fullPath in files.source && copied
      ensures files.dest == if ok then old(files.dest)[c.fileName := files.source[c.fullPath]] else old(files.dest)
      ensures mongo.records == old(mongo.records) + (if mongo.connected then [LocalRecord(exec, c, ok)] else [])
    {
      ok := files.CopyToDestination(c.fullPath, c.fileName, copied);
      var logged;
      if ok {
        logged := mongo.InsertLog(exec, c.fileName, "local", "success", Some(map["source" := c.fullPath, "action" := "copy"]));
      } else {
        logged := mongo.InsertLog(exec, c.fileName, "local", "error", Some(map["error" := LocalError]));
      }
    }

    /** Step 4: `upload_or_update` and its record. */
    method DriveStage(c: Catalog, exec: string, data: FileService.Bytes, o: Outcomes) returns (dr: Drive.DriveResult)
      modifies drive, mongo
      ensures mongo.connected == old(mongo.connected) && drive.available == old(drive.available)
      ensures (dr, drive.files) == Drive.UploadOrUpdateOutcome(old(drive.files), old(drive.available), drive.folderId, data,
                                                              c.fileName, o.listed, o.written, o.newId)
      ensures dr.fileName == c.fileName && (dr.success ==> dr.fileId.Some?)
      ensures mongo.records == old(mongo.records) + (if mongo.connected then [DriveRecord(exec, c, dr)] else [])
    {
      dr := drive.UploadOrUpdate(data, c.fileName, o.listed, o.written, o.newId);
      var logged;
      if dr.success {
        logged := mongo.InsertLog(exec, c.fileName, "drive", "success",
                             Some(map["action" := dr.action, "file_id" := dr.fileId.value]));
      } else {
        logged := mongo.InsertLog(exec, c.fileName, "drive", "error", Some(map["error" := DriveError]));
      }
    }

    /** Step 5: the upload under the normalised name, logged under the
        original one. */
    method FtpStage(c: Catalog, exec: string, normalized: string, data: FileService.Bytes, o: Outcomes) returns (ok: bool)
      modifies ftp, mongo
      ensures mongo.connected == old(mongo.connected)
      ensures ftp.dirs == Ftp.ConnectedDirs(ftp.uploadPath, old(ftp.dirs), ftp.denied, o.reachable)
      ensures ok <==> Ftp.ConnectSucceeds(ftp.uploadPath, old(ftp.dirs), ftp.denied, o.reachable) && o.stored
      ensures ftp.files == if ok then old(ftp.files)[(ftp.uploadPath, normalized) := data] else old(ftp.files)
      ensures mongo.records == old(mongo.records) + (if mongo.connected then [FtpRecord(exec, c, normalized, ok)] else [])
    {
      ok := ftp.UploadFile(data, normalized, o.reachable, o.stored);
      var logged;
      if ok {
        logged := mongo.InsertLog(exec, c.fileName, "ftp", "success", Some(map["normalized_name" := normalized]));
      } else {
        logged := mongo.InsertLog(exec, c.fileName, "ftp", "error", Some(map["error" := FtpError, "normalized_name" := normalized]));
      }
    }

    /** `cleanup_source_files`: deletes the source file of every entry whose
        three stages succeeded, then purges the rows of the deleted files and
        of the incomplete ones. */
    method CleanupSourceFiles(exec: string) returns (deleted: seq<string>, errorFiles: seq<string>)
      modifies files, mongo
      ensures mongo.connected == old(mongo.connected)
      ensures files.dest == old(files.dest) && files.locked == old(files.locked)
      ensures var fs := if old(mongo.connected) then FilesToDelete(ForExecution(old(mongo.records), exec)) else [];
              deleted == DeletedNames(fs, sourcePath, old(files.source), files.locked) &&
              errorFiles == FailedNames(fs, sourcePath, old(files.source), files.locked) &&
              files.source == old(files.source) - SourceFiles(sourcePath, deleted) &&
              mongo.records == if old(mongo.connected) then RemoveNames(old(mongo.records), exec, deleted + NonDeletable(fs))
                               else old(mongo.records)
      ensures forall n :: n in deleted ==> CanDelete(ForExecution(old(mongo.records), exec), n)
      ensures forall n :: n in deleted ==> n !in errorFiles
      ensures forall n :: n in deleted || n in errorFiles ==>
                exists x :: x in old(mongo.records) && x.executionId == exec && x.fileName == n
      ensures mongo.connected ==>
                forall x :: x in mongo.records && x.executionId == exec && x.fileName != "" ==>
                  x.fileName in errorFiles && CanDelete(ForExecution(old(mongo.records), exec), x.fileName)
      ensures forall x :: x in mongo.records && x.executionId != exec <==> x in old(mongo.records) && x.executionId != exec
    {
      var toCheck := mongo.GetFilesToDelete(exec);
      assert DistinctNames(toCheck) && NamedFiles(toCheck) by {
        FilesToDeleteNamed(ForExecution(mongo.records, exec));
      }
      deleted, errorFiles := DeleteCompleted(exec, toCheck);
      var nonDeletable := NonDeletable(toCheck);
      if nonDeletable != [] {
        assert forall j :: 0 <= j < |nonDeletable| ==> nonDeletable[j] != "" by {
          NonDeletableMembers(toCheck);
          assert forall j :: 0 <= j < |nonDeletable| ==> nonDeletable[j] in nonDeletable;
        }
        PurgeIncomplete(exec, old(mongo.records), deleted, nonDeletable);
      } else {
        assert deleted + nonDeletable == deleted;
      }
      assert forall n :: n in deleted ==> CanDelete(ForExecution(old(mongo.records), exec), n) by {
        DeletedHaveAllStages(ForExecution(old(mongo.records), exec), sourcePath, old(files.source), files.locked);
      }
      ghost var fs := if old(mongo.connected) then FilesToDelete(ForExecution(old(mongo.records), exec)) else [];
      CleanupPartition(fs, sourcePath, old(files.source), files.locked);
      if old(mongo.connected) {
        ListedFromRecords(old(mongo.records), exec, sourcePath, old(files.source), files.locked);
        CleanupLeavesOnlyFailedDeletions(old(mongo.records), exec, sourcePath, old(files.source), files.locked);
        RemoveNamesMembers(old(mongo.records), exec, deleted + NonDeletable(fs));
      }
    }

    /** The loop of `cleanup_source_files`. */
    method DeleteCompleted(exec: string, toCheck: seq<FileFlags>) returns (deleted: seq<string>, errorFiles: seq<string>)
      requires DistinctNames(toCheck) && NamedFiles(toCheck)
      modifies files, mongo
      ensures mongo.connected == old(mongo.connected)
      ensures files.dest == old(files.dest) && files.locked == old(files.locked)
      ensures deleted == DeletedNames(toCheck, sourcePath, old(files.source), files.locked)
      ensures errorFiles == FailedNames(toCheck, sourcePath, old(files.source), files.locked)
      ensures files.source == old(files.source) - SourceFiles(sourcePath, deleted)
      ensures mongo.records == if mongo.connected then RemoveNames(old(mongo.records), exec, deleted) else old(mongo.records)
    {
      RemoveNamesNone(mongo.records, exec);
      deleted, errorFiles := [], [];
      var k := 0;
      while k < |toCheck|
        invariant 0 <= k <= |toCheck|
        invariant mongo.connected == old(mongo.connected)
        invariant files.dest == old(files.dest) && files.locked == old(files.locked)
        invariant deleted == DeletedNames(toCheck[..k], sourcePath, old(files.source), files.locked)
        invariant errorFiles == FailedNames(toCheck[..k], sourcePath, old(files.source), files.locked)
        invariant files.source == old(files.source) - SourceFiles(sourcePath, deleted)
        invariant mongo.records == if mongo.connected then RemoveNames(old(mongo.records), exec, deleted) else old(mongo.records)
      {
        var info := toCheck[k];
        CleanupStep(toCheck, k, sourcePath, old(files.source), files.locked);
        if info.canDelete {
          var path := SourceFile(sourcePath, info.fileName);
          FreshPath(toCheck, k, sourcePath, old(files.source), files.locked);
          var ok := files.DeleteFile(path);
          if ok {
            RemoveNamesStep(old(mongo.records), exec, deleted, info.fileName);
            SourceFilesStep(sourcePath, old(files.source), deleted, info.fileName);
            deleted := deleted + [info.fileName];
            var _ := mongo.DeleteLogs(exec, Some(info.fileName));
          } else {
            errorFiles := errorFiles + [info.fileName];
          }
        } else {
          errorFiles := errorFiles + [info.fileName];
        }
        k := k + 1;
      }
      assert toCheck[..k] == toCheck;
    }

    /** `for file_info in non_deletable: delete_logs(...)`. */
    method PurgeIncomplete(exec: string, ghost records0: seq<Record>, ghost deleted: seq<string>, nonDeletable: seq<string>)
      requires forall j :: 0 <= j < |nonDeletable| ==> nonDeletable[j] != ""
      requires mongo.connected ==> mongo.records == RemoveNames(records0, exec, deleted)
      modifies mongo
      ensures mongo.connected == old(mongo.connected)
      ensures mongo.connected ==> mongo.records == RemoveNames(records0, exec, deleted + nonDeletable)
      ensures !mongo.connected ==> mongo.records == old(mongo.records)
    {
      ghost var purged := deleted;
      var j := 0;
      while j < |nonDeletable|
        invariant 0 <= j <= |nonDeletable|
        invariant purged == deleted + nonDeletable[..j]
        invariant mongo.connected == old(mongo.connected)
        invariant mongo.connected ==> mongo.records == RemoveNames(records0, exec, purged)
        invariant !mongo.connected ==> mongo.records == old(mongo.records)
      {
        var name := nonDeletable[j];
        RemoveNamesStep(records0, exec, purged, name);
        var _ := mongo.DeleteLogs(exec, Some(name));
        purged := purged + [name];
        assert nonDeletable[..j + 1] == nonDeletable[..j] + [name];
        j := j + 1;
      }
      assert nonDeletable[..j] == nonDeletable;
    }

    /** The parts of the services that a run changes. */
    ghost function Current(): Stores
      reads files, drive, ftp, mongo
    {
      Stores(files.dest, mongo.records, drive.files, ftp.dirs, ftp.files)
    }

    /** The parts of the services that a run only reads. */
    ghost function Config(): Settings
      reads files, drive, ftp, mongo
    {
      Settings(names, files.source, drive.available, mongo.connected, drive.folderId, ftp.uploadPath, ftp.denied)
    }

    /** One call of `process_catalog` as the loop of `run` sees it: the
        result and the new state are one step of the run. */
    method PublishOne(c: Catalog, exec: string, o: Outcomes) returns (result: PublishResult)
      modifies files, drive, ftp, mongo
      ensures Config() == old(Config()) && files.locked == old(files.locked)
      ensures Stepped(c, exec, o, result, Config(), old(Current()), Current())
    {
      ghost var f, before := Config(), Current();
      ghost var dr;
      result, dr := ProcessCatalog(c, exec, o);
      Processed(c, exec, o, result, dr, f, before);
    }

    /** The three outcomes of `process_catalog`, each one step of the run. */
    lemma Processed(c: Catalog, exec: string, o: Outcomes, result: PublishResult, dr: Drive.DriveResult,
                    f: Settings, before: Stores)
      requires f == Config()
      requires RejectedIn(f.names, c.fileName) ==> result == Unmapped(c) && Current() == before
      requires !RejectedIn(f.names, c.fileName) && Unreadable(c.fullPath, f.source) ==> result == ReadFailed(c) && Current() == before
      requires Attempted(f.names, c, f.source) ==>
                 Published(c, exec, NormalizeWith(f.names, c.fileName), f.source[c.fullPath], o, result, dr,
                           before.records, before.dest, before.driveFiles, before.dirs, before.ftpFiles)
      ensures Stepped(c, exec, o, result, f, before, Current())
    {
      if RejectedIn(f.names, c.fileName) {
        UnmappedReports(f.names, c, o, f.source, f.available, f.uploadPath in before.dirs);
        SteppedStill(c, exec, o, result, f, before);
      } else if Unreadable(c.fullPath, f.source) {
        ReadFailedReports(f.names, c, o, f.source, f.available, f.uploadPath in before.dirs);
        SteppedStill(c, exec, o, result, f, before);
      } else {
        var normalized, content := NormalizeWith(f.names, c.fileName), f.source[c.fullPath];
        AttemptedReports(f.names, c, o, f.source, f.available, f.uploadPath in before.dirs, result);
        PublishedLogged(c, exec, normalized, content, o, result, dr, f.source,
                        before.records, before.dest, before.driveFiles, before.dirs, before.ftpFiles);
        PublishedServed(c, exec, normalized, content, o, result, dr,
                        before.records, before.dest, before.driveFiles, before.dirs, before.ftpFiles);
      }
    }

    /** The ledger and the local copy after the three stages of one catalog. */
    lemma PublishedLogged(c: Catalog, exec: string, normalized: string, content: FileService.Bytes, o: Outcomes,
                          result: PublishResult, dr: Drive.DriveResult, source: map<string, FileService.Bytes>,
                          records0: seq<Record>, dest0: map<string, FileService.Bytes>, drive0: seq<Drive.DriveFile>,
                          dirs0: set<string>, ftpFiles0: map<(string, string), FileService.Bytes>)
      requires Attempted(names, c, source) && content == source[c.fullPath]
      requires Published(c, exec, normalized, content, o, result, dr, records0, dest0, drive0, dirs0, ftpFiles0)
      ensures Logged(names, c, exec, source, mongo.connected, result, records0, mongo.records)
      ensures Copied(c, source, result, dest0, files.dest)
    {
      if mongo.connected {
        StageRecordsFlags(exec, c, normalized, result, dr);
        assert mongo.records[|records0|..] == StageRecords(exec, c, normalized, result.local, dr, result.ftp);
      }
    }

    /** The Drive folder and the FTP server after the three stages of one
        catalog. */
    lemma PublishedServed(c: Catalog, exec: string, normalized: string, content: FileService.Bytes, o: Outcomes,
                          result: PublishResult, dr: Drive.DriveResult,
                          records0: seq<Record>, dest0: map<string, FileService.Bytes>, drive0: seq<Drive.DriveFile>,
                          dirs0: set<string>, ftpFiles0: map<(string, string), FileService.Bytes>)
      requires Attempted(names, c, files.source) && content == files.source[c.fullPath]
      requires normalized == NormalizeWith(names, c.fileName)
      requires Published(c, exec, normalized, content, o, result, dr, records0, dest0, drive0, dirs0, ftpFiles0)
      ensures Served(c, o, result, Config(), Stores(dest0, records0, drive0, dirs0, ftpFiles0), Current())
    {
    }

    /** The loop of `run` over the listed catalogs: one result per catalog,
        in order, and the run has progressed through all of them. */
    method PublishAll(exec: string, catalogs: seq<Catalog>, outcomes: seq<Outcomes>)
      returns (results: seq<PublishResult>)
      requires |outcomes| == |catalogs|
      modifies files, drive, ftp, mongo
      ensures Config() == old(Config()) && files.locked == old(files.locked)
      ensures |results| == |catalogs|
      ensures Progress(exec, catalogs, outcomes, results, Config(), old(Current()), Current())
    {
      results := [];
      ProgressStart(exec, catalogs, outcomes, Config(), Current());
      var k := 0;
      while k < |catalogs|
        invariant 0 <= k <= |catalogs| && |results| == k
        invariant Config() == old(Config()) && files.locked == old(files.locked)
        invariant Progress(exec, catalogs, outcomes, results, Config(), old(Current()), Current())
      {
        ghost var before := Current();
        var result := PublishOne(catalogs[k], exec, outcomes[k]);
        ProgressStep(exec, catalogs, outcomes, results, result, Config(), old(Current()), before, Current());
        results := results + [result];
        k := k + 1;
      }
    }

    /** The body of `run` after the execution id is drawn: nothing happens
        for an empty listing; otherwise every catalog is published in order
        and the cleanup follows. `deleted_files` and `error_files` are
        disjoint, the source folder loses exactly the deleted files, and the
        only named rows left for the execution are those of `error_files`.
        With a fresh id and distinct file names, a source file is deleted
        only if its own publication succeeded in all three stages, and a
        catalog rejected before the stages is in neither list. */
    method Run(exec: string, catalogs: seq<Catalog>, outcomes: seq<Outcomes>)
      returns (results: seq<PublishResult>, deleted: seq<string>, errorFiles: seq<string>)
      requires |outcomes| == |catalogs|
      modifies files, drive, ftp, mongo
      ensures catalogs == [] ==> results == [] && deleted == [] && errorFiles == [] && unchanged(files, drive, ftp, mongo)
      ensures |results| == |catalogs|
      ensures forall i :: 0 <= i < |catalogs| ==>
                Reports(names, catalogs[i], outcomes[i], old(files.source), old(drive.available), ftp.uploadPath in old(ftp.dirs), results[i])
      ensures files.source == old(files.source) - SourceFiles(sourcePath, deleted)
      ensures forall n :: n in deleted ==> n !in errorFiles
      ensures catalogs != [] && mongo.connected ==>
                forall x :: x in mongo.records && x.executionId == exec && x.fileName != "" ==> x.fileName in errorFiles
      ensures forall x :: x in mongo.records && x.executionId != exec <==> x in old(mongo.records) && x.executionId != exec
      ensures old(mongo.connected) ==>
                forall i :: 0 <= i < |catalogs| && catalogs[i].fileName != "" &&
                            results[i].local && results[i].drive && results[i].ftp &&
                            Removable(SourceFile(sourcePath, catalogs[i].fileName), old(files.source), files.locked) ==>
                  catalogs[i].fileName in deleted
      ensures Fresh(old(mongo.records), exec) && DistinctCatalogs(catalogs) ==>
                forall n :: n in deleted ==> exists i :: 0 <= i < |catalogs| && catalogs[i].fileName == n &&
                                                      results[i].local && results[i].drive && results[i].ftp
      ensures Fresh(old(mongo.records), exec) && DistinctCatalogs(catalogs) ==>
                forall i :: 0 <= i < |catalogs| && !Attempted(names, catalogs[i], old(files.source)) ==>
                  catalogs[i].fileName !in deleted && catalogs[i].fileName !in errorFiles
    {
      if catalogs == [] {
        return [], [], [];
      }
      results := PublishAll(exec, catalogs, outcomes);
      forall i | 0 <= i < |catalogs|
        ensures Reports(names, catalogs[i], outcomes[i], old(files.source), old(drive.available), ftp.uploadPath in old(ftp.dirs), results[i])
      {
        AllReportAt(names, catalogs, outcomes, results, old(files.source), old(drive.available), ftp.uploadPath in old(ftp.dirs), i);
      }
      ghost var ledger := mongo.records;
      deleted, errorFiles := CleanupSourceFiles(exec);
      if old(mongo.connected) {
        forall i | 0 <= i < |catalogs| && catalogs[i].fileName != "" &&
                   results[i].local && results[i].drive && results[i].ftp &&
                   Removable(SourceFile(sourcePath, catalogs[i].fileName), old(files.source), files.locked)
          ensures catalogs[i].fileName in deleted
        {
          AllRecordedAt(exec, catalogs, results, ledger, i);
          CompletedDeleted(ledger, exec, catalogs[i].fileName, sourcePath, old(files.source), files.locked);
        }
      }
      if Fresh(old(mongo.records), exec) && DistinctCatalogs(catalogs) {
        assert forall x :: x in ledger && x.executionId == exec ==> Accounted(names, x, catalogs, results, old(files.source));
        PublishedBeforeCleanup(names, exec, catalogs, results, old(files.source), ledger, deleted, errorFiles);
      }
    }
  }

  /** A file whose three stages have their success in the ledger is
      deleted by the cleanup when its source file can be removed. */
  lemma CompletedDeleted(records: seq<Record>, exec: string, name: string, root: string,
                         source: map<string, FileService.Bytes>, locked: set<string>)
    requires name != ""
    requires Recorded(records, exec, name, "local") && Recorded(records, exec, name, "drive") &&
             Recorded(records, exec, name, "ftp")
    requires Removable(SourceFile(root, name), source, locked)
    ensures name in DeletedNames(FilesToDelete(ForExecution(records, exec)), root, source, locked)
  {
    var logs := ForExecution(records, exec);
    var fs := FilesToDelete(logs);
    var xl :| xl in records && xl.executionId == exec && IsSuccess(xl, name, "local");
    var xd :| xd in records && xd.executionId == exec && IsSuccess(xd, name, "drive");
    var xf :| xf in records && xf.executionId == exec && IsSuccess(xf, name, "ftp");
    assert xl in logs && xd in logs && xf in logs;
    CanDeleteMeans(logs, name);
    var p :| 0 <= p < |logs| && logs[p] == xl;
    assert name in FileNames(logs);
    var i :| 0 <= i < |fs| && fs[i].fileName == name;
    DeletedNamesMembers(fs, root, source, locked);
  }

  /** With every record of the execution accounted for and distinct file
      names, the cleanup deletes only catalogs whose three stages succeeded,
      and lists no catalog that was rejected before its stages. */
  lemma PublishedBeforeCleanup(names: Table, exec: string, catalogs: seq<Catalog>, results: seq<PublishResult>,
                               source: map<string, FileService.Bytes>, ledger: seq<Record>,
                               deleted: seq<string>, errorFiles: seq<string>)
    requires |results| == |catalogs| && DistinctCatalogs(catalogs)
    requires forall x :: x in ledger && x.executionId == exec ==> Accounted(names, x, catalogs, results, source)
    requires forall n :: n in deleted ==> CanDelete(ForExecution(ledger, exec), n)
    requires forall n :: n in deleted || n in errorFiles ==>
               exists x :: x in ledger && x.executionId == exec && x.fileName == n
    ensures forall n :: n in deleted ==> exists i :: 0 <= i < |catalogs| && catalogs[i].fileName == n &&
                                                   results[i].local && results[i].drive && results[i].ftp
    ensures forall i :: 0 <= i < |catalogs| && !Attempted(names, catalogs[i], source) ==>
              catalogs[i].fileName !in deleted && catalogs[i].fileName !in errorFiles
  {
    forall n | n in deleted
      ensures exists i :: 0 <= i < |catalogs| && catalogs[i].fileName == n &&
                          results[i].local && results[i].drive && results[i].ftp
    {
      DeletedImpliesPublished(names, ledger, exec, catalogs, results, source, n);
    }
    forall i | 0 <= i < |catalogs| && !Attempted(names, catalogs[i], source)
      ensures catalogs[i].fileName !in deleted && catalogs[i].fileName !in errorFiles
    {
      forall x | x in ledger && x.executionId == exec
        ensures x.fileName != catalogs[i].fileName
      {
        var j :| 0 <= j < |results| && j < |catalogs| && x.fileName == catalogs[j].fileName &&
                 Attempted(names, catalogs[j], source) &&
                 (x.status == "success" ==> StageFlag(results[j], x.operation));
        assert j != i;
      }
    }
  }

  /** One round of the cleanup loop. */
  lemma CleanupStep(fs: seq<FileFlags>, k: nat, root: string, source: map<string, FileService.Bytes>, locked: set<string>)
    requires k < |fs|
    ensures DeletedNames(fs[..k + 1], root, source, locked) ==
              DeletedNames(fs[..k], root, source, locked) + (if Deletes(fs[k], root, source, locked) then [fs[k].fileName] else [])
    ensures FailedNames(fs[..k + 1], root, source, locked) ==
              FailedNames(fs[..k], root, source, locked) + (if Deletes(fs[k], root, source, locked) then [] else [fs[k].fileName])
  {
    assert fs[..k + 1][..k] == fs[..k];
  }

  /** The loop has not yet deleted the path of the entry it reads next. */
  lemma FreshPath(fs: seq<FileFlags>, k: nat, root: string, source: map<string, FileService.Bytes>, locked: set<string>)
    requires k < |fs| && DistinctNames(fs)
    ensures SourceFile(root, fs[k].fileName) !in SourceFiles(root, DeletedNames(fs[..k], root, source, locked))
  {
    var deleted := DeletedNames(fs[..k], root, source, locked);
    DeletedNamesMembers(fs[..k], root, source, locked);
    forall n | n in deleted
      ensures SourceFile(root, n) != SourceFile(root, fs[k].fileName)
    {
      var i :| 0 <= i < k && fs[..k][i].fileName == n && Deletes(fs[..k][i], root, source, locked);
      assert fs[i].fileName == n;
      SourceFileInjective(root, n, fs[k].fileName);
    }
  }

  // ---------- a whole run ----------

  /** The catalog passed the mapping check and could be read, so its three
      stages ran. */
  predicate Attempted(names: Table, c: Catalog, source: map<string, FileService.Bytes>) {
    !RejectedIn(names, c.fileName) && !Unreadable(c.fullPath, source)
  }

  /** What the result of `process_catalog` says about a catalog, given what
      the outside world answered: it carries the catalog's name; a name
      without a mapping and an unreadable file each yield exactly their
      error; otherwise the local flag is the copy's outcome, the Drive flag
      holds only if the service is available and the write works, and always
      then for a new non-empty id; the FTP flag holds only if the server is
      reachable and stores the file, and always then when the upload
      directory exists; one error per failed stage. */
  predicate Reports(names: Table, c: Catalog, o: Outcomes, source: map<string, FileService.Bytes>, available: bool,
                    uploadReady: bool, r: PublishResult) {
    r.fileName == c.fileName &&
    (RejectedIn(names, c.fileName) ==> r == Unmapped(c)) &&
    (!RejectedIn(names, c.fileName) && Unreadable(c.fullPath, source) ==> r == ReadFailed(c)) &&
    (Attempted(names, c, source) ==>
       r.local == o.copied &&
       (r.drive ==> available && o.written) && (available && o.written && o.newId != "" ==> r.drive) &&
       (r.ftp ==> o.reachable && o.stored) && (uploadReady && o.reachable && o.stored ==> r.ftp) &&
       r.errors == StageErrors(r.local, r.drive, r.ftp))
  }

  lemma UnmappedReports(names: Table, c: Catalog, o: Outcomes, source: map<string, FileService.Bytes>, available: bool,
                        uploadReady: bool)
    requires RejectedIn(names, c.fileName)
    ensures Reports(names, c, o, source, available, uploadReady, Unmapped(c))
  {
  }

  lemma ReadFailedReports(names: Table, c: Catalog, o: Outcomes, source: map<string, FileService.Bytes>, available: bool,
                          uploadReady: bool)
    requires !RejectedIn(names, c.fileName) && Unreadable(c.fullPath, source)
    ensures Reports(names, c, o, source, available, uploadReady, ReadFailed(c))
  {
  }

  lemma AttemptedReports(names: Table, c: Catalog, o: Outcomes, source: map<string, FileService.Bytes>, available: bool,
                         uploadReady: bool, r: PublishResult)
    requires Attempted(names, c, source)
    requires r.fileName == c.fileName && r.local == o.copied
    requires (r.drive ==> available && o.written) && (available && o.written && o.newId != "" ==> r.drive)
    requires (r.ftp ==> o.reachable && o.stored) && (uploadReady && o.reachable && o.stored ==> r.ftp)
    requires r.errors == StageErrors(r.local, r.drive, r.ftp)
    ensures Reports(names, c, o, source, available, uploadReady, r)
  {
  }

  /** The result of a catalog whose name has no mapping. */
  function Unmapped(c: Catalog): PublishResult {
    PublishResult(c.fileName, false, false, false, [NoMappingError(c.fileName)])
  }

  /** The result of a catalog that could not be read. */
  function ReadFailed(c: Catalog): PublishResult {
    PublishResult(c.fileName, false, false, false, [ReadError(c.fullPath)])
  }

  predicate DistinctCatalogs(catalogs: seq<Catalog>) {
    forall i, j :: 0 <= i < j < |catalogs| ==> catalogs[i].fileName != catalogs[j].fileName
  }

  /** The ledger holds no record of the execution yet. */
  predicate Fresh(records: seq<Record>, exec: string) {
    forall x :: x in records ==> x.executionId != exec
  }

  /** The flag of `result` for stage `op`. */
  function StageFlag(result: PublishResult, op: string): bool {
    if op == "local" then result.local
    else if op == "drive" then result.drive
    else if op == "ftp" then result.ftp
    else false
  }

  /** Record `x` belongs to one of the catalogs published so far that
      passed both checks, and a success it reports is that catalog's flag. */
  predicate Accounted(names: Table, x: Record, catalogs: seq<Catalog>, results: seq<PublishResult>, source: map<string, FileService.Bytes>) {
    exists i :: 0 <= i < |results| && i < |catalogs| && x.fileName == catalogs[i].fileName &&
                Attempted(names, catalogs[i], source) &&
                (x.status == "success" ==> StageFlag(results[i], x.operation))
  }

  /** The parts of the services that a run changes: the copies in the
      destination folder, the ledger, the Drive files, and the FTP server's
      directories and files. */
  datatype Stores = Stores(dest: map<string, FileService.Bytes>, records: seq<Record>,
                           driveFiles: seq<Drive.DriveFile>, dirs: set<string>,
                           ftpFiles: map<(string, string), FileService.Bytes>)

  /** The parts of the services that a run only reads: the name table,
      the source folder, whether Drive and the ledger are reachable, the
      Drive folder and the FTP upload path. */
  datatype Settings = Settings(names: Table, source: map<string, FileService.Bytes>, available: bool, connected: bool,
                               folderId: string, uploadPath: string, denied: set<string>)

  /** `rs` are the three records of a catalog's stages for the execution,
      in stage order, each a success exactly when its flag is set. */
  predicate StageLog(rs: seq<Record>, exec: string, c: Catalog, result: PublishResult) {
    |rs| == 3 &&
    (forall i :: 0 <= i < 3 ==> rs[i].executionId == exec && rs[i].fileName == c.fileName && rs[i].operation == Stages[i]) &&
    (rs[0].status == "success" <==> result.local) && (rs[1].status == "success" <==> result.drive) &&
    (rs[2].status == "success" <==> result.ftp)
  }

  /** The ledger holds a success record of the execution for stage `op` of
      `name`. */
  predicate Recorded(records: seq<Record>, exec: string, name: string, op: string) {
    exists x :: x in records && x.executionId == exec && IsSuccess(x, name, op)
  }

  /** Every stage whose flag `result` sets has its success in the ledger. */
  predicate Succeeded(records: seq<Record>, exec: string, name: string, result: PublishResult) {
    (result.local ==> Recorded(records, exec, name, "local")) &&
    (result.drive ==> Recorded(records, exec, name, "drive")) &&
    (result.ftp ==> Recorded(records, exec, name, "ftp"))
  }

  /** The ledger only grows: not at all when disconnected or when the
      catalog was rejected before its stages, and otherwise by exactly the
      catalog's three stage records; every new record is for this execution
      and a successful one matches a flag of the result. */
  predicate Logged(names: Table, c: Catalog, exec: string, source: map<string, FileService.Bytes>, connected: bool,
                   result: PublishResult, records0: seq<Record>, records1: seq<Record>) {
    records0 <= records1 && (!connected || !Attempted(names, c, source) ==> records1 == records0) &&
    (connected && Attempted(names, c, source) ==> StageLog(records1[|records0|..], exec, c, result)) &&
    forall x :: x in records1 ==>
      x in records0 ||
      (x.executionId == exec && x.fileName == c.fileName && Attempted(names, c, source) &&
       (x.status == "success" ==> StageFlag(result, x.operation)))
  }

  /** The local copy is made exactly when the local flag is set. */
  predicate Copied(c: Catalog, source: map<string, FileService.Bytes>, result: PublishResult,
                   dest0: map<string, FileService.Bytes>, dest1: map<string, FileService.Bytes>) {
    (result.local ==> c.fullPath in source && dest1 == dest0[c.fileName := source[c.fullPath]]) &&
    (!result.local ==> dest1 == dest0)
  }

  /** The two remote services after one catalog: untouched when it was
      rejected before its stages; otherwise the Drive flag and folder are
      what `upload_or_update` leaves, the FTP directories are what
      `_connect` leaves, the FTP flag is the upload's outcome, and the
      server gains the content under the normalised name exactly when that
      flag is set. */
  ghost predicate Served(c: Catalog, o: Outcomes, result: PublishResult, f: Settings, s0: Stores, s1: Stores) {
    (!Attempted(f.names, c, f.source) ==>
       s1.driveFiles == s0.driveFiles && s1.dirs == s0.dirs && s1.ftpFiles == s0.ftpFiles) &&
    (Attempted(f.names, c, f.source) ==>
       var out := Drive.UploadOrUpdateOutcome(s0.driveFiles, f.available, f.folderId, f.source[c.fullPath], c.fileName,
                                              o.listed, o.written, o.newId);
       result.drive == out.0.success && s1.driveFiles == out.1 &&
       (result.ftp <==> Ftp.ConnectSucceeds(f.uploadPath, s0.dirs, f.denied, o.reachable) && o.stored) &&
       s1.dirs == Ftp.ConnectedDirs(f.uploadPath, s0.dirs, f.denied, o.reachable) &&
       s1.ftpFiles == if result.ftp then s0.ftpFiles[(f.uploadPath, NormalizeWith(f.names, c.fileName)) := f.source[c.fullPath]]
                      else s0.ftpFiles)
  }

  /** What the loop of `run` keeps of one step on the remote services: the
      FTP directories and files only grow, and hold the normalised name
      when the FTP flag is set; the Drive search still finds what it found,
      and finds the catalog when the Drive flag is set. */
  ghost predicate Grown(names: Table, c: Catalog, result: PublishResult, folderId: string, uploadPath: string, s0: Stores, s1: Stores) {
    s0.dirs <= s1.dirs &&
    (forall k :: k in s0.ftpFiles ==> k in s1.ftpFiles) &&
    (result.ftp ==> (uploadPath, NormalizeWith(names, c.fileName)) in s1.ftpFiles) &&
    (forall n :: Drive.Lookup(s0.driveFiles, folderId, n).Some? ==> Drive.Lookup(s1.driveFiles, folderId, n).Some?) &&
    (result.drive ==> Drive.Lookup(s1.driveFiles, folderId, c.fileName).Some?)
  }

  /** One call of `process_catalog` takes the services from `s0` to `s1`:
      the result agrees with the outcomes, and the ledger, the local copies
      and the two remote services move as the predicates above say. */
  ghost predicate Stepped(c: Catalog, exec: string, o: Outcomes, result: PublishResult, f: Settings, s0: Stores, s1: Stores) {
    Reports(f.names, c, o, f.source, f.available, f.uploadPath in s0.dirs, result) &&
    Logged(f.names, c, exec, f.source, f.connected, result, s0.records, s1.records) &&
    Copied(c, f.source, result, s0.dest, s1.dest) &&
    Served(c, o, result, f, s0, s1)
  }

  /** A logged step records the success of every stage whose flag is set. */
  lemma LoggedSucceeded(names: Table, c: Catalog, exec: string, source: map<string, FileService.Bytes>, connected: bool,
                        o: Outcomes, available: bool, uploadReady: bool,
                        result: PublishResult, records0: seq<Record>, records1: seq<Record>)
    requires Logged(names, c, exec, source, connected, result, records0, records1) && connected
    requires Reports(names, c, o, source, available, uploadReady, result)
    ensures Succeeded(records1, exec, c.fileName, result)
  {
    if Attempted(names, c, source) {
      var rs := records1[|records0|..];
      assert rs[0] == records1[|records0|] && rs[1] == records1[|records0| + 1] && rs[2] == records1[|records0| + 2];
      assert rs[0] in records1 && rs[1] in records1 && rs[2] in records1;
      assert Stages[0] == "local" && Stages[1] == "drive" && Stages[2] == "ftp";
    }
  }

  /** The exact step on the remote services implies what the loop keeps. */
  lemma ServedGrown(c: Catalog, o: Outcomes, result: PublishResult, f: Settings, s0: Stores, s1: Stores)
    requires Reports(f.names, c, o, f.source, f.available, f.uploadPath in s0.dirs, result)
    requires Served(c, o, result, f, s0, s1)
    ensures Grown(f.names, c, result, f.folderId, f.uploadPath, s0, s1)
  {
    if Attempted(f.names, c, f.source) {
      var content := f.source[c.fullPath];
      var out := Drive.UploadOrUpdateOutcome(s0.driveFiles, f.available, f.folderId, content, c.fileName,
                                             o.listed, o.written, o.newId);
      forall n | Drive.Lookup(s0.driveFiles, f.folderId, n).Some?
        ensures Drive.Lookup(s1.driveFiles, f.folderId, n).Some?
      {
        Drive.UploadOrUpdateKeepsFound(s0.driveFiles, f.available, f.folderId, content, c.fileName,
                                       o.listed, o.written, o.newId, n);
      }
      Drive.UploadOrUpdateKeepsFound(s0.driveFiles, f.available, f.folderId, content, c.fileName,
                                     o.listed, o.written, o.newId, c.fileName);
    }
  }

  /** A catalog rejected before its stages leaves the services as they were. */
  lemma SteppedStill(c: Catalog, exec: string, o: Outcomes, result: PublishResult, f: Settings, s: Stores)
    requires Reports(f.names, c, o, f.source, f.available, f.uploadPath in s.dirs, result)
    requires !Attempted(f.names, c, f.source)
    ensures Stepped(c, exec, o, result, f, s, s)
  {
  }

  /** The loop of `run` has published the first `|results|` catalogs,
      taking the services from `s0` to `s`: each result agrees with its
      catalog's outcomes; the FTP directories and the ledger only grow, the
      ledger not at all when disconnected, and every record it adds is for
      this execution and accounted for; every local copy is in place, with
      the catalog's content when the names are distinct, and nothing else is
      copied; a connected ledger holds the success of every stage whose flag
      is set; the FTP server holds the normalised name of every catalog
      whose FTP flag is set, and the Drive search finds every catalog whose
      Drive flag is set. */
  ghost predicate Progress(exec: string, catalogs: seq<Catalog>, outcomes: seq<Outcomes>, results: seq<PublishResult>,
                           f: Settings, s0: Stores, s: Stores) {
    |results| <= |catalogs| == |outcomes| &&
    AllReport(f.names, catalogs, outcomes, results, f.source, f.available, f.uploadPath in s0.dirs) &&
    s0.dirs <= s.dirs &&
    LedgerProgress(exec, catalogs, results, f, s0.records, s.records) &&
    (forall i :: 0 <= i < |results| && results[i].local ==>
       catalogs[i].fileName in s.dest && catalogs[i].fullPath in f.source) &&
    (DistinctCatalogs(catalogs) ==>
       forall i :: 0 <= i < |results| && results[i].local ==>
         s.dest[catalogs[i].fileName] == f.source[catalogs[i].fullPath]) &&
    (forall n :: n in s.dest ==>
       n in s0.dest || exists i :: 0 <= i < |results| && results[i].local && catalogs[i].fileName == n) &&
    AllOnServer(f.names, catalogs, results, f.uploadPath, s.ftpFiles) &&
    (forall i :: 0 <= i < |results| && results[i].drive ==>
       Drive.Lookup(s.driveFiles, f.folderId, catalogs[i].fileName).Some?)
  }

  /** The ledger part of the progress: it only grows, not at all when
      disconnected; every record it adds is for this execution and
      accounted for; and a connected ledger holds the success of every
      stage whose flag is set. */
  ghost predicate LedgerProgress(exec: string, catalogs: seq<Catalog>, results: seq<PublishResult>, f: Settings,
                                 records0: seq<Record>, records: seq<Record>) {
    records0 <= records && (!f.connected ==> records == records0) &&
    (forall x :: x in records ==> x in records0 || (x.executionId == exec && Accounted(f.names, x, catalogs, results, f.source))) &&
    (f.connected ==> AllRecorded(exec, catalogs, results, records))
  }

  /** Each of `results` agrees with its catalog's outcomes. */
  ghost predicate AllReport(names: Table, catalogs: seq<Catalog>, outcomes: seq<Outcomes>, results: seq<PublishResult>,
                            source: map<string, FileService.Bytes>, available: bool, uploadReady: bool)
    decreases |results|
  {
    |results| <= |catalogs| && |results| <= |outcomes| &&
    (results != [] ==>
       var k := |results| - 1;
       AllReport(names, catalogs, outcomes, results[..k], source, available, uploadReady) &&
       Reports(names, catalogs[k], outcomes[k], source, available, uploadReady, results[k]))
  }

  lemma {:induction false} AllReportAt(names: Table, catalogs: seq<Catalog>, outcomes: seq<Outcomes>, results: seq<PublishResult>,
                                       source: map<string, FileService.Bytes>, available: bool, uploadReady: bool, i: nat)
    requires AllReport(names, catalogs, outcomes, results, source, available, uploadReady) && i < |results|
    ensures i < |catalogs| && i < |outcomes|
    ensures Reports(names, catalogs[i], outcomes[i], source, available, uploadReady, results[i])
    decreases |results|
  {
    var k := |results| - 1;
    if i < k {
      assert results[..k][i] == results[i];
      AllReportAt(names, catalogs, outcomes, results[..k], source, available, uploadReady, i);
    }
  }

  /** The FTP server holds the normalised name of each of the catalogs
      whose FTP flag is set. */
  ghost predicate AllOnServer(names: Table, catalogs: seq<Catalog>, results: seq<PublishResult>, uploadPath: string,
                              ftpFiles: map<(string, string), FileService.Bytes>)
    decreases |results|
  {
    |results| <= |catalogs| &&
    (results != [] ==>
       var k := |results| - 1;
       AllOnServer(names, catalogs, results[..k], uploadPath, ftpFiles) &&
       (results[k].ftp ==> (uploadPath, NormalizeWith(names, catalogs[k].fileName)) in ftpFiles))
  }

  lemma {:induction false} AllOnServerAt(names: Table, catalogs: seq<Catalog>, results: seq<PublishResult>, uploadPath: string,
                                         ftpFiles: map<(string, string), FileService.Bytes>, i: nat)
    requires AllOnServer(names, catalogs, results, uploadPath, ftpFiles) && i < |results| && results[i].ftp
    ensures i < |catalogs| && (uploadPath, NormalizeWith(names, catalogs[i].fileName)) in ftpFiles
    decreases |results|
  {
    var k := |results| - 1;
    if i < k {
      assert results[..k][i] == results[i];
      AllOnServerAt(names, catalogs, results[..k], uploadPath, ftpFiles, i);
    }
  }

  lemma {:induction false} AllOnServerGrows(names: Table, catalogs: seq<Catalog>, results: seq<PublishResult>, uploadPath: string,
                                            ftpFiles0: map<(string, string), FileService.Bytes>,
                                            ftpFiles1: map<(string, string), FileService.Bytes>)
    requires AllOnServer(names, catalogs, results, uploadPath, ftpFiles0)
    requires forall key :: key in ftpFiles0 ==> key in ftpFiles1
    ensures AllOnServer(names, catalogs, results, uploadPath, ftpFiles1)
    decreases |results|
  {
    if results != [] {
      AllOnServerGrows(names, catalogs, results[..|results| - 1], uploadPath, ftpFiles0, ftpFiles1);
    }
  }

  /** A connected ledger holds the success of every flagged stage of each
      of the catalogs published so far. */
  ghost predicate AllRecorded(exec: string, catalogs: seq<Catalog>, results: seq<PublishResult>, records: seq<Record>)
    decreases |results|
  {
    |results| <= |catalogs| &&
    (results != [] ==>
       var k := |results| - 1;
       AllRecorded(exec, catalogs, results[..k], records) &&
       Succeeded(records, exec, catalogs[k].fileName, results[k]))
  }

  lemma {:induction false} AllRecordedAt(exec: string, catalogs: seq<Catalog>, results: seq<PublishResult>,
                                         records: seq<Record>, i: nat)
    requires AllRecorded(exec, catalogs, results, records) && i < |results|
    ensures i < |catalogs| && Succeeded(records, exec, catalogs[i].fileName, results[i])
    decreases |results|
  {
    var k := |results| - 1;
    if i < k {
      assert results[..k][i] == results[i];
      AllRecordedAt(exec, catalogs, results[..k], records, i);
    }
  }

  lemma {:induction false} AllRecordedGrows(exec: string, catalogs: seq<Catalog>, results: seq<PublishResult>,
                                            records0: seq<Record>, records1: seq<Record>)
    requires AllRecorded(exec, catalogs, results, records0) && records0 <= records1
    ensures AllRecorded(exec, catalogs, results, records1)
    decreases |results|
  {
    if results != [] {
      var k := |results| - 1;
      AllRecordedGrows(exec, catalogs, results[..k], records0, records1);
      assert forall x :: x in records0 ==> x in records1 by {
        assert records1[..|records0|] == records0;
      }
    }
  }

  lemma ProgressStart(exec: string, catalogs: seq<Catalog>, outcomes: seq<Outcomes>, f: Settings, s0: Stores)
    requires |catalogs| == |outcomes|
    ensures Progress(exec, catalogs, outcomes, [], f, s0, s0)
  {
  }

  /** Publishing catalog `|results|` extends the progress by one step. */
  lemma ProgressStep(exec: string, catalogs: seq<Catalog>, outcomes: seq<Outcomes>, results: seq<PublishResult>,
                     result: PublishResult, f: Settings, s0: Stores, s: Stores, s1: Stores)
    requires Progress(exec, catalogs, outcomes, results, f, s0, s) && |results| < |catalogs|
    requires Stepped(catalogs[|results|], exec, outcomes[|results|], result, f, s, s1)
    ensures Progress(exec, catalogs, outcomes, results + [result], f, s0, s1)
  {
    var c, o := catalogs[|results|], outcomes[|results|];
    ServedGrown(c, o, result, f, s, s1);
    LedgerStep(exec, catalogs, outcomes, results, result, f, s0.records, s.records, s1.records, f.uploadPath in s.dirs);
    GrownStep(exec, catalogs, outcomes, results, result, f, s0, s, s1);
  }

  /** Publishing catalog `|results|` extends the ledger part of the
      progress. */
  lemma LedgerStep(exec: string, catalogs: seq<Catalog>, outcomes: seq<Outcomes>, results: seq<PublishResult>,
                   result: PublishResult, f: Settings, records0: seq<Record>, records: seq<Record>, records1: seq<Record>,
                   uploadReady: bool)
    requires |results| < |catalogs| == |outcomes|
    requires LedgerProgress(exec, catalogs, results, f, records0, records)
    requires Reports(f.names, catalogs[|results|], outcomes[|results|], f.source, f.available, uploadReady, result)
    requires Logged(f.names, catalogs[|results|], exec, f.source, f.connected, result, records, records1)
    ensures LedgerProgress(exec, catalogs, results + [result], f, records0, records1)
  {
    AccountedStep(f.names, records0, records, records1, exec, catalogs, results, result, f.source);
    if f.connected {
      RecordedStep(f.names, exec, catalogs, outcomes, results, result, f.source, f.available, uploadReady,
                   records, records1);
    }
  }

  /** `ProgressStep` on what the loop keeps of one step. */
  lemma GrownStep(exec: string, catalogs: seq<Catalog>, outcomes: seq<Outcomes>, results: seq<PublishResult>,
                  result: PublishResult, f: Settings, s0: Stores, s: Stores, s1: Stores)
    requires Progress(exec, catalogs, outcomes, results, f, s0, s) && |results| < |catalogs|
    requires Reports(f.names, catalogs[|results|], outcomes[|results|], f.source, f.available, f.uploadPath in s.dirs, result)
    requires LedgerProgress(exec, catalogs, results + [result], f, s0.records, s1.records)
    requires Copied(catalogs[|results|], f.source, result, s.dest, s1.dest)
    requires Grown(f.names, catalogs[|results|], result, f.folderId, f.uploadPath, s, s1)
    ensures Progress(exec, catalogs, outcomes, results + [result], f, s0, s1)
  {
    var k, grown := |results|, results + [result];
    assert grown[..k] == results;
    ReportsReady(f.names, catalogs[k], outcomes[k], f.source, f.available, f.uploadPath in s0.dirs, f.uploadPath in s.dirs, result);
    CopiedStep(catalogs, results, result, f.source, s0.dest, s.dest, s1.dest);
    AllOnServerGrows(f.names, catalogs, results, f.uploadPath, s.ftpFiles, s1.ftpFiles);
    FoundStep(catalogs, results, result, f, s, s1);
  }

  /** Publishing catalog `|results|` on a connected ledger records the
      success of each of its flagged stages, and keeps the earlier ones. */
  lemma RecordedStep(names: Table, exec: string, catalogs: seq<Catalog>, outcomes: seq<Outcomes>,
                     results: seq<PublishResult>, result: PublishResult, source: map<string, FileService.Bytes>,
                     available: bool, uploadReady: bool, records0: seq<Record>, records1: seq<Record>)
    requires |results| < |catalogs| && |results| < |outcomes| && AllRecorded(exec, catalogs, results, records0)
    requires Logged(names, catalogs[|results|], exec, source, true, result, records0, records1)
    requires Reports(names, catalogs[|results|], outcomes[|results|], source, available, uploadReady, result)
    ensures AllRecorded(exec, catalogs, results + [result], records1)
  {
    var k := |results|;
    LoggedSucceeded(names, catalogs[k], exec, source, true, outcomes[k], available, uploadReady, result, records0, records1);
    AllRecordedGrows(exec, catalogs, results, records0, records1);
    assert (results + [result])[..k] == results;
  }

  /** A result that agrees with the outcomes when the upload directory
      exists agrees with them whatever the directory. */
  lemma ReportsReady(names: Table, c: Catalog, o: Outcomes, source: map<string, FileService.Bytes>, available: bool,
                     ready0: bool, ready: bool, r: PublishResult)
    requires Reports(names, c, o, source, available, ready, r) && (ready0 ==> ready)
    ensures Reports(names, c, o, source, available, ready0, r)
  {
  }

  lemma CopiedStep(catalogs: seq<Catalog>, results: seq<PublishResult>, result: PublishResult,
                   source: map<string, FileService.Bytes>,
                   dest0: map<string, FileService.Bytes>, dest: map<string, FileService.Bytes>,
                   dest1: map<string, FileService.Bytes>)
    requires |results| < |catalogs|
    requires forall i :: 0 <= i < |results| && results[i].local ==>
               catalogs[i].fileName in dest && catalogs[i].fullPath in source
    requires DistinctCatalogs(catalogs) ==>
               forall i :: 0 <= i < |results| && results[i].local ==>
                 dest[catalogs[i].fileName] == source[catalogs[i].fullPath]
    requires forall n :: n in dest ==>
               n in dest0 || exists i :: 0 <= i < |results| && results[i].local && catalogs[i].fileName == n
    requires Copied(catalogs[|results|], source, result, dest, dest1)
    ensures var grown := results + [result];
            (forall i :: 0 <= i < |grown| && grown[i].local ==>
               catalogs[i].fileName in dest1 && catalogs[i].fullPath in source) &&
            (DistinctCatalogs(catalogs) ==>
               forall i :: 0 <= i < |grown| && grown[i].local ==>
                 dest1[catalogs[i].fileName] == source[catalogs[i].fullPath]) &&
            (forall n :: n in dest1 ==>
               n in dest0 || exists i :: 0 <= i < |grown| && grown[i].local && catalogs[i].fileName == n)
  {
    var k, grown := |results|, results + [result];
    assert forall i :: 0 <= i < k ==> grown[i] == results[i];
    assert grown[k] == result;
    assert forall n :: n in dest1 ==> n in dest || (result.local && n == catalogs[k].fileName);
  }

  lemma FoundStep(catalogs: seq<Catalog>, results: seq<PublishResult>, result: PublishResult, f: Settings,
                  s: Stores, s1: Stores)
    requires |results| < |catalogs|
    requires forall i :: 0 <= i < |results| && results[i].drive ==>
               Drive.Lookup(s.driveFiles, f.folderId, catalogs[i].fileName).Some?
    requires Grown(f.names, catalogs[|results|], result, f.folderId, f.uploadPath, s, s1)
    ensures forall i :: 0 <= i < |results| + 1 && (results + [result])[i].drive ==>
              Drive.Lookup(s1.driveFiles, f.folderId, catalogs[i].fileName).Some?
  {
    var k, grown := |results|, results + [result];
    forall i | 0 <= i < |grown| && grown[i].drive
      ensures Drive.Lookup(s1.driveFiles, f.folderId, catalogs[i].fileName).Some?
    {
      if i < k {
        assert grown[i] == results[i];
      }
    }
  }



  /** What the records of one catalog report agrees with its result. */
  lemma StageRecordsFlags(exec: string, c: Catalog, normalized: string, result: PublishResult, dr: Drive.DriveResult)
    requires dr.success ==> dr.fileId.Some?
    requires result.drive == dr.success
    ensures forall x :: x in StageRecords(exec, c, normalized, result.local, dr, result.ftp) ==>
              x.executionId == exec && x.fileName == c.fileName && (x.status == "success" ==> StageFlag(result, x.operation))
  {
    var rs := StageRecords(exec, c, normalized, result.local, dr, result.ftp);
    assert rs[0].operation == "local" && rs[1].operation == "drive" && rs[2].operation == "ftp";
  }

  /** Publishing catalog `|results|` keeps every record of the execution
      accounted for. */
  lemma AccountedStep(names: Table, old0: seq<Record>, before: seq<Record>, after: seq<Record>, exec: string,
                      catalogs: seq<Catalog>, results: seq<PublishResult>, result: PublishResult,
                      source: map<string, FileService.Bytes>)
    requires |results| < |catalogs|
    requires forall x :: x in before ==> x in old0 || (x.executionId == exec && Accounted(names, x, catalogs, results, source))
    requires forall x :: x in after ==>
               x in before ||
               (x.executionId == exec && x.fileName == catalogs[|results|].fileName && Attempted(names, catalogs[|results|], source) &&
                (x.status == "success" ==> StageFlag(result, x.operation)))
    ensures forall x :: x in after ==> x in old0 || (x.executionId == exec && Accounted(names, x, catalogs, results + [result], source))
  {
    var grown := results + [result];
    forall x | x in after && x !in old0
      ensures x.executionId == exec && Accounted(names, x, catalogs, grown, source)
    {
      if x in before {
        var i :| 0 <= i < |results| && i < |catalogs| && x.fileName == catalogs[i].fileName &&
                 Attempted(names, catalogs[i], source) && (x.status == "success" ==> StageFlag(results[i], x.operation));
        assert grown[i] == results[i];
      } else {
        assert grown[|results|] == result;
      }
    }
  }

  /** With every record of the execution accounted for and distinct file
      names, a file the cleanup may delete is a catalog whose own three
      stages succeeded. */
  lemma DeletedImpliesPublished(names: Table, ledger: seq<Record>, exec: string, catalogs: seq<Catalog>,
                                results: seq<PublishResult>, source: map<string, FileService.Bytes>, n: string)
    requires |results| == |catalogs| && DistinctCatalogs(catalogs)
    requires forall x :: x in ledger && x.executionId == exec ==> Accounted(names, x, catalogs, results, source)
    requires CanDelete(ForExecution(ledger, exec), n)
    ensures exists i :: 0 <= i < |catalogs| && catalogs[i].fileName == n &&
                        results[i].local && results[i].drive && results[i].ftp
  {
    var i1 := SuccessOwner(names, ledger, exec, catalogs, results, source, n, "local");
    var i2 := SuccessOwner(names, ledger, exec, catalogs, results, source, n, "drive");
    var i3 := SuccessOwner(names, ledger, exec, catalogs, results, source, n, "ftp");
    assert i1 == i2 == i3;
  }

  /** The catalog whose record reports the success of `op` for `n`. */
  lemma SuccessOwner(names: Table, ledger: seq<Record>, exec: string, catalogs: seq<Catalog>, results: seq<PublishResult>,
                     source: map<string, FileService.Bytes>, n: string, op: string) returns (i: nat)
    requires |results| == |catalogs|
    requires forall x :: x in ledger && x.executionId == exec ==> Accounted(names, x, catalogs, results, source)
    requires HasSuccess(ForExecution(ledger, exec), n, op)
    ensures i < |catalogs| && catalogs[i].fileName == n && StageFlag(results[i], op)
  {
    var logs := ForExecution(ledger, exec);
    HasSuccessExists(logs, n, op);
    var p :| 0 <= p < |logs| && IsSuccess(logs[p], n, op);
    var x := logs[p];
    assert x in logs;
    i :| 0 <= i < |results| && i < |catalogs| && x.fileName == catalogs[i].fileName &&
         Attempted(names, catalogs[i], source) && (x.status == "success" ==> StageFlag(results[i], x.operation));
  }

  /** Every name the cleanup lists, in either list, is the file name of a
      record of the execution. */
  lemma ListedFromRecords(records: seq<Record>, exec: string, root: string,
                          source: map<string, FileService.Bytes>, locked: set<string>)
    ensures var fs := FilesToDelete(ForExecution(records, exec));
            forall n :: n in DeletedNames(fs, root, source, locked) || n in FailedNames(fs, root, source, locked) ==>
              exists x :: x in records && x.executionId == exec && x.fileName == n
  {
    var logs := ForExecution(records, exec);
    var fs := FilesToDelete(logs);
    DeletedNamesMembers(fs, root, source, locked);
    FailedNamesMembers(fs, root, source, locked);
    forall n | n in DeletedNames(fs, root, source, locked) || n in FailedNames(fs, root, source, locked)
      ensures exists x :: x in records && x.executionId == exec && x.fileName == n
    {
      var i :| 0 <= i < |fs| && fs[i].fileName == n;
      assert FileNames(logs)[i] in FileNames(logs);
      var p :| 0 <= p < |logs| && logs[p].fileName == n;
      assert logs[p] in logs;
    }
  }
}

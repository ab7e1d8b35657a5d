# catalog-publication, modelled in Dafny

catalog-publication publishes the PDF catalogs a company drops into a source
folder. Each run lists the catalogs, and for each one:

- normalises the file name through a fixed table;
- reads the file;
- copies it to a local destination folder;
- uploads or updates it in a Google Drive folder;
- stores it on an FTP server under the normalised name.

Every stage writes one record to a MongoDB ledger. At the end of the run the
ledger decides which source files may be deleted: the files whose three
stages all succeeded in this execution. Their records and the records of the
incomplete files are then purged.

This project models that decision logic and proves its properties:

| module | source file | form |
|---|---|---|
| `CatalogConfig` | `config.py` | the name table as a constant; `validate_config` as a method |
| `CatalogKeys` | `config.py` | the proof that no two keys coincide up to case and spaces |
| `Text` | — | the Python string operations the source uses: `lower`, `replace(" ", "")`, `in`, `strip`, `split` |
| `NameMapper` | `utils/name_mapper.py` | functions and lemmas |
| `Ledger` | `services/mongo_service.py` | the `MongoService` class over a sequence of records, and the grouping loop of `get_files_to_delete` |
| `FileService` | `services/file_service.py` | the file system as maps, for the calls the publisher makes |
| `Drive` | `services/drive_service.py` | the `DriveService` class over a sequence of Drive files |
| `Ftp` | `services/ftp_service.py` | the `FTPService` class: directories, a file map, the nullable `ftp` session, and a ghost log of sent commands |
| `Publisher` | `main.py` | the `CatalogPublisher` class: `process_catalog`, `cleanup_source_files` and the body of `run` |

The outcome of each external call that a service cannot decide from its own
state is a parameter of the method that makes the call. This covers:

- the copy;
- the Drive search, write and new id;
- whether the FTP server can be reached, and whether it accepts a `STOR` or an `NLST`.

The ledger's `connected` flag, the Drive service's `available` flag and the
FTP server's directories are state.

The publisher holds the name table it normalises with as the constant
`names`. Its constructor sets it to `CATALOG_NAME_MAPPING`, so every run uses
that table. The publisher's contracts are stated for whatever table `names`
holds, and the lemmas of `NameMapper` and the rejection lemmas of
`Publisher` say what that table gives.

The model follows the code in two places where the code does something
unexpected:

- The mapping check of `process_catalog` (main.py:74) rejects a name whose
  normalised form equals the name itself. The eight table entries that map a
  name to itself are therefore rejected when spelt exactly, while their
  case variants are accepted. `SOLDADURA.pdf` is one of them
  (`IdentityEntryRejected`, `SoldaduraRejectedOnlyWhenExact`).
- The eight identity entries are on lines 89, 92, 95, 101, 105, 106, 111
  and 112 of `config.py`. `CatalogConfig.IdentityEntries` holds their
  positions 2, 5, 8, 14, 18, 19, 24 and 25.

## Model

| member | source | states |
|---|---|---|
| CatalogConfig.KeysDistinct | config.py:86-115 | the table has 28 entries and no key occurs twice |
| CatalogConfig.ValuesDistinct | config.py:86-115 | no two entries map to the same value, so the mapping is injective |
| CatalogConfig.IdentityEntriesExact | config.py:86-115 | an entry maps its key to itself exactly when its position is one of the eight identity positions |
| CatalogConfig.KeysArePdf | config.py:86-115 | every key ends in `.pdf` |
| CatalogConfig.ValuesArePdf | config.py:86-115 | every value ends in `.pdf` |
| CatalogConfig.ValuesWithoutSpaces | config.py:86-115 | no value contains a space |
| CatalogConfig.ValidateConfig | config.py:118-135 | valid iff host, user and password are all set and non-empty, iff there is no error; one message per missing setting, in the order host, user, password, and no other message |
| CatalogKeys.FlexKeysUnique | config.py:86-115 | no two keys coincide once lowered and stripped of spaces, so the flexible search has at most one match |
| NameMapper.ExactIndexSpec | utils/name_mapper.py:19-21 | the position the exact search finds is the first whose key is the name; no position means no key is the name |
| NameMapper.FlexIndexSpec | utils/name_mapper.py:24-30 | the position the flexible search finds is the first, in table order, whose lowered key without spaces equals the lowered input without spaces; none means no key matches |
| NameMapper.NormalizeWithSpec | utils/name_mapper.py:8-34 | an exact key gives its value; otherwise the first flexible match gives its value; with neither, the input comes back; the result is always the input or one of the table's values |
| NameMapper.NormalizeKey | utils/name_mapper.py:19-21 | each key of the table is normalised to its own value |
| NameMapper.NormalizeIdentityEntry | utils/name_mapper.py:19-21 | a key of an identity entry is normalised to itself |
| NameMapper.NormalizeFlexible | utils/name_mapper.py:24-30 | a name that is not a key but matches key `i` up to case and spaces is normalised to value `i` |
| NameMapper.NormalizeUnmapped | utils/name_mapper.py:33-34 | a name that matches no key in either way is returned unchanged |
| NameMapper.NormalizeSoldaduraLowercase | utils/name_mapper.py:24-30 | `soldadura.pdf` resolves to `SOLDADURA.pdf` through the flexible search |
| NameMapper.FlexTwinIsNoKey | utils/name_mapper.py:18-30 | a name that matches a key up to case and spaces without being that key is no key at all |
| NameMapper.NormalizeIntroducesNoSpacedText | utils/name_mapper.py:18-34 | the mapper's result contains a text with a space only when the result is the input |
| NameMapper.ToMap | utils/name_mapper.py:37-44 | the dictionary's keys are exactly the table's keys |
| NameMapper.ToMapEntries | utils/name_mapper.py:37-44 | with distinct keys, the dictionary maps every key to its entry's value |
| NameMapper.GetAllMappedNames | utils/name_mapper.py:37-44 | the copy has exactly the table's keys, each with its value; being a value, a caller's change to it cannot reach the table |
| Ledger.ForExecution | services/mongo_service.py:94 | exactly the records whose execution id matches, and no more records than the collection has |
| Ledger.Without | services/mongo_service.py:117-122 | exactly the records that do not match the filter remain; an absent or empty name matches every record of the execution |
| Ledger.ForExecutionCounts | services/mongo_service.py:94 | every copy of a record of the execution is selected, and no copy of any other record |
| Ledger.WithoutCounts | services/mongo_service.py:117-122 | every copy of a matching record is deleted, and every copy of any other record is kept |
| Ledger.ForExecutionConcat | services/mongo_service.py:94 | selecting from two parts of the collection gives the two selections one after the other, so collection order is kept |
| Ledger.WithoutConcat | services/mongo_service.py:117-122 | deleting from two parts of the collection leaves the two remainders one after the other, so the order of the kept records stays |
| Ledger.SingleRecordFilters | services/mongo_service.py:94-122 | a single record is selected iff it belongs to the execution, and kept iff it does not match the filter |
| Ledger.HasSuccessExists | services/mongo_service.py:163-166 | a stage flag is set iff some record of the file reports success for that stage |
| Ledger.FileNames | services/mongo_service.py:150-161 | exactly the non-empty file names of the records, each once |
| Ledger.FilesToDelete | services/mongo_service.py:168-175 | one entry per collected name, in order; `canDelete` iff success records exist for local, drive and ftp |
| Ledger.MongoService.InsertLog | services/mongo_service.py:57-73 | disconnected: returns false, collection unchanged; connected: appends exactly one record with the given fields, details defaulting to empty |
| Ledger.MongoService.GetLogsByExecution | services/mongo_service.py:79-100 | connected: the records of the execution in collection order; disconnected: empty |
| Ledger.MongoService.DeleteLogs | services/mongo_service.py:102-130 | connected: removes exactly the matching records and returns how many; disconnected: returns 0 and changes nothing |
| Ledger.MongoService.GetFilesToDelete | services/mongo_service.py:132-180 | connected: the file summary of the execution's records; disconnected or without records: empty |
| Ledger.GroupByFile | services/mongo_service.py:148-166 | the keys of `file_status` in first-appearance order, and for each the flags its success records set |
| Ledger.FlagsOfAbsent | services/mongo_service.py:155-161 | a name without records has all three flags false |
| Ledger.FlagsOfStep | services/mongo_service.py:163-166 | a record changes only its own file's flags, and only the flag of its stage when it is a success |
| Ledger.CanDeleteMeans | services/mongo_service.py:148-173 | `canDelete` holds iff there are success records for the file for each of local, drive and ftp |
| Ledger.CanDeleteOrderFree | services/mongo_service.py:163-173 | `canDelete` depends only on which records exist, not on their order |
| Ledger.SameSuccess | services/mongo_service.py:163-166 | two logs with the same records set the same flags |
| Ledger.IrrelevantRecordKeepsFlags | services/mongo_service.py:163-166 | an error record, or one for another operation, changes no flag |
| Ledger.FlagsMonotone | services/mongo_service.py:163-166 | a flag once set stays set |
| Ledger.FileNamesFirstAppearance | services/mongo_service.py:150-161 | a name listed before another first occurs in a record before any record of the other |
| Ledger.WithoutOtherExecutions | services/mongo_service.py:117-122 | deleting the logs of one execution leaves every other execution's records as they were, in order |
| FileService.FileService.ReadFile | services/file_service.py:58-82 | the bytes of an existing file, none for a missing one |
| FileService.FileService.CopyToDestination | services/file_service.py:84-114 | succeeds iff the source exists and the copy works; then the destination holds the source's bytes under the new name |
| FileService.FileService.DeleteFile | services/file_service.py:116-139 | succeeds iff the file is already absent or is not locked; the file is then gone |
| Drive.Lookup | services/drive_service.py:73-88 | the first file in listing order whose name equals the name exactly, in the folder and not trashed; none if there is no such file |
| Drive.SetContent | services/drive_service.py:157-161 | only the content of the file with that id changes; ids, names, folders and order stay |
| Drive.VisibleCount | services/drive_service.py:73-81 | zero iff no file matches the query |
| Drive.DriveService.SearchFile | services/drive_service.py:58-92 | the first match when the service is available and the listing works; otherwise none |
| Drive.DriveService.UploadFile | services/drive_service.py:94-132 | available and created: one new file with the name, in the configured folder, and its id is returned; otherwise none and no change |
| Drive.DriveService.UpdateFile | services/drive_service.py:134-168 | true iff available, the write works and the id exists; then only that file's content is replaced |
| Drive.UploadOrUpdateOutcome | services/drive_service.py:170-201 | the result names the file; a success has a file id and needs an available service and a working write; an available service with a working write and a non-empty new id always succeeds |
| Drive.UploadOrUpdateKeepsFound | services/drive_service.py:170-201 | after a successful `upload_or_update` the search finds a file of that name, and any file the search found before is still found |
| Drive.DriveService.UploadOrUpdate | services/drive_service.py:170-201 | a found file: `updated` with its id, success from the update, and only that file's content replaced on success; otherwise: `created`, success iff the create returned a non-empty id, one new file on a working write; the name is always the input; unavailable gives `created` without success and no change; result and files are `UploadOrUpdateOutcome` of the old files |
| Drive.LookupAfterCreate | services/drive_service.py:110-125 | after a create the search finds the earlier visible file if there was one, else the new file |
| Drive.VisibleCountAppend | services/drive_service.py:110-125 | a create adds one match for its own name in its folder |
| Drive.SetContentKeepsVisible | services/drive_service.py:157-161 | an update changes neither which files match nor how many |
| Drive.RepeatedUploadUpdates | services/drive_service.py:170-201 | a second upload of the same name after a create finds and updates that file, leaving one file of that name with the new content |
| Ftp.Strip | services/ftp_service.py:59 | no leading or trailing `/` remains, and a string without `/` at either end comes back unchanged |
| Ftp.StripSlice | services/ftp_service.py:59 | the result is one slice of the input, and only `/` lies outside that slice |
| Ftp.Split | services/ftp_service.py:59 | at least one part, none containing `/` |
| Ftp.JoinSplit | services/ftp_service.py:59 | joining the parts with `/` gives the string back |
| Ftp.PrefixesAt | services/ftp_service.py:60-63 | the `i`-th value of `current_path` is `/p1/…/p(i+1)` |
| Ftp.PrefixesGrow | services/ftp_service.py:60-63 | each prefix is longer than the one before, so no directory is visited twice |
| Ftp.DirectoriesOfEnd | services/ftp_service.py:59-63 | one directory per part, and the last is the stripped path behind a `/` |
| Ftp.WalkVisitsAll | services/ftp_service.py:62-71 | the walk sends `cwd` to every prefix in order, whatever `mkd` does |
| Ftp.WalkMkdOnlyMissing | services/ftp_service.py:64-68 | `mkd` is sent only for a prefix that was not a directory, right after the `cwd` into it failed |
| Ftp.Creatable | services/ftp_service.py:67-71 | exactly the prefixes that the server does not refuse to create |
| Ftp.Walk | services/ftp_service.py:59-71 | the loop leaves the working directory, the directories and the commands that the whole walk prescribes |
| Ftp.ConnectedDirs | services/ftp_service.py:23-50 | the directories after `_connect` include those before; a new one needs a reachable server, is a prefix of the upload path and is not refused |
| Ftp.ConnectCreatesUploadPath | services/ftp_service.py:35-42 | when the upload directory is missing, `_connect` succeeds on a reachable server iff the server does not refuse to create the upload directory itself |
| Ftp.FTPService.CreateDirectoryRecursive | services/ftp_service.py:52-71 | the server gains every prefix it allows to be created; the commands are the walk's |
| Ftp.FTPService.Connect | services/ftp_service.py:23-50 | the directories are `ConnectedDirs` of the old ones (unchanged unless the server is reachable and the upload directory is missing, then the walk's), success is `ConnectSucceeds` on the old state, a session in the upload directory exactly on success and none on failure; the commands sent are `ConnectCommands`: none, `CWD`, or `CWD`, the walk and `CWD` again |
| Ftp.FTPService.CreateAndEnter | services/ftp_service.py:38-41 | the `except error_perm` branch: the server gains the creatable prefixes of the upload path, the walk's commands and a second `CWD` are sent, and the result is whether the upload directory now exists, with the session in it or dropped |
| Ftp.FTPService.Disconnect | services/ftp_service.py:73-84 | no session afterwards; `QUIT` is sent only if there was one |
| Ftp.FTPService.UploadFile | services/ftp_service.py:86-115 | true iff `_connect` succeeds on the old state and the store works; then the content is under exactly the remote name in the upload directory, otherwise nothing is stored; the directories are those `_connect` leaves; no session afterwards; the commands are `_connect`'s, then `STOR` and `QUIT` only when it succeeded |
| Ftp.FTPService.FileExists | services/ftp_service.py:117-143 | true iff `_connect` succeeds on the old state, the listing works and the name was in the upload directory; files unchanged, directories as `_connect` leaves them; no session afterwards; the commands are `_connect`'s, then `NLST` and `QUIT` only when it succeeded |
| Ftp.FTPService.DeleteFile | services/ftp_service.py:145-168 | true iff `_connect` succeeds on the old state and the file existed, which is then removed and nothing else; directories as `_connect` leaves them; no session afterwards; the commands are `_connect`'s, then `DELE` and `QUIT` only when it succeeded |
| Ftp.FTPService.TestConnection | services/ftp_service.py:170-179 | true iff `_connect` succeeds on the old state; files unchanged, directories as `_connect` leaves them; no session afterwards; the commands are `_connect`'s, then `QUIT` only when it succeeded |
| Publisher.RejectedIffUnchanged | main.py:72-74 | a name is rejected exactly when the mapper returns it unchanged; the marker text, which has a space, never comes out of the table |
| Publisher.RejectedByIffUnchanged | main.py:74 | with any marker that contains a space, the check reduces to "the name came back unchanged" |
| Publisher.IdentityEntryRejected | main.py:74 | a key that maps to itself is rejected as unmapped |
| Publisher.MappedKeyAccepted | main.py:74 | every other key passes the check |
| Publisher.SoldaduraRejectedOnlyWhenExact | main.py:74 | `SOLDADURA.pdf` is rejected; `soldadura.pdf` is accepted |
| Publisher.StageErrorsSpec | main.py:106-166 | one error per failed stage and no other message, in stage order (local, drive, ftp); no error iff all three stages succeeded |
| Publisher.StageRecords | main.py:99-159 | three records, for local, drive and ftp in that order, under the execution and the original name; each is a success iff its stage succeeded |
| Publisher.SuccessAmongNew | main.py:99-159 | with no earlier success for a stage, a success after the new records is one of them |
| Publisher.StageRecordsCanDelete | main.py:97-166 | for a file new to the execution, its three records make it deletable iff all three stages succeeded |
| Publisher.FreshFileCanDelete | main.py:97-166 | a file with no earlier records is deletable iff its three stage records are successes |
| Publisher.SourceFileInjective | main.py:201 | different names give different source paths |
| Publisher.DeletedNamesMembers | main.py:195-207 | `deleted_files` holds exactly the entries with `canDelete` whose file could be removed |
| Publisher.FailedNamesMembers | main.py:195-219 | `error_files` holds exactly the other entries, one name per entry, and the two lists together are as long as the entries |
| Publisher.NonDeletableMembers | main.py:222 | the purge list holds exactly the entries without `canDelete` |
| Publisher.FilesToDeleteNamed | services/mongo_service.py:150-161 | the entries of `get_files_to_delete` have distinct, non-empty names |
| Publisher.CleanupPartition | main.py:190-219 | `deleted_files` and `error_files` are disjoint, cover every entry, and their sizes add up to the number of entries |
| Publisher.DeletedHaveAllStages | main.py:199-205 | a file is deleted only when the execution logged success for each of its three stages |
| Publisher.RemoveNamesMembers | main.py:205-225 | the purge removes exactly the execution's records with one of the names |
| Publisher.RemoveNamesStep | main.py:207 | one more `delete_logs(exec, name)` extends the purge by that name |
| Publisher.CleanupLeavesOnlyFailedDeletions | main.py:205-225 | after the cleanup the only named records of the execution that remain belong to files that were deletable but whose removal failed |
| Publisher.CatalogPublisher.ProcessCatalog | main.py:45-175 | rejected: exactly the mapping error, nothing else changes; unreadable or empty: exactly the read error, nothing else changes; otherwise all three stages run: the local flag is the copy's outcome, the Drive flag and Drive files are `upload_or_update`'s, the FTP flag and FTP directories are `upload_file`'s on the old server, the errors are `StageErrors` of the flags, the ledger gains the three stage records when connected, and the copy and the FTP file are in place exactly when their flags are set |
| Publisher.CatalogPublisher.PublishStages | main.py:97-166 | each stage runs and is logged whatever the earlier ones returned; the flags, errors, ledger, copy, Drive files, FTP directories and FTP file are as `ProcessCatalog` states |
| Publisher.CatalogPublisher.LocalStage | main.py:97-118 | the copy under the original name, and its record when the ledger is connected |
| Publisher.CatalogPublisher.DriveStage | main.py:120-143 | `upload_or_update` under the original name: result and Drive files are `UploadOrUpdateOutcome` of the old files, availability unchanged, and its record when connected |
| Publisher.CatalogPublisher.FtpStage | main.py:145-166 | the upload under the normalised name, logged under the original one; success iff `_connect` succeeds on the old server and the store works; the directories are those `_connect` leaves |
| Publisher.CatalogPublisher.CleanupSourceFiles | main.py:177-229 | the deleted and failed lists as the loop builds them, disjoint, each name with a ledger row of the execution; the source folder loses exactly the deleted files; the collection loses the records of deleted and non-deletable files, and the named rows left for the execution belong to failed files; other executions' rows stay; every deleted file had three successes |
| Publisher.CatalogPublisher.DeleteCompleted | main.py:195-219 | the loop of the cleanup: the two lists, the removed files and the purged records after every entry |
| Publisher.CatalogPublisher.PurgeIncomplete | main.py:221-225 | purges the records of every non-deletable file |
| Publisher.CatalogPublisher.PublishOne | main.py:262-264 | the result agrees with the catalog's outcomes (`Reports`): its name, the mapping or read error when rejected before the stages, otherwise the local flag is the copy's outcome, the Drive flag holds only with an available service and a working write and always with a non-empty new id, the FTP flag holds only on a reachable server that stores and always when the upload directory existed, and the errors are one per failed stage; a catalog rejected before its stages changes nothing; otherwise a connected ledger gains exactly three records of this catalog and execution, for local, drive and ftp in order, each a success iff its flag is set, the copy is in place exactly when the local flag is set, the Drive flag and files are `upload_or_update`'s on the old files, the FTP directories are what `_connect` leaves, the FTP flag is the upload's outcome, and the server gains the content under the normalised name exactly when that flag is set; the settings are unchanged |
| Publisher.CatalogPublisher.PublishAll | main.py:260-264 | one result per catalog, in order, each agreeing with its own outcomes as for `PublishOne`; the ledger only grows, not at all when disconnected, and every record added is for this execution and accounted for by a catalog's result; a connected ledger holds a success record of the execution for every stage flag set in a result; every local copy is in place, with its content when names are distinct, and nothing else is copied; the FTP server holds the normalised name of every catalog whose FTP flag is set; the Drive search finds every catalog whose Drive flag is set |
| Publisher.CatalogPublisher.Run | main.py:244-267 | an empty listing changes nothing; otherwise one result per catalog, each agreeing with its outcomes; the deleted and failed lists are disjoint, the source folder loses exactly the deleted files, the only named rows left for the execution are those of failed files, and other executions' rows stay; with a connected ledger, a catalog with a name whose three stages succeeded is deleted when its source file can be removed; with a fresh execution id and distinct names, every deleted file is a catalog whose own three stages succeeded, and a catalog rejected or unreadable before its stages is in neither list |
| Publisher.AllReportAt | main.py:260-264 | the per-catalog agreement that the loop accumulates holds for each catalog on its own |
| Publisher.ProgressStep | main.py:260-264 | publishing the next catalog extends the loop's invariant by one catalog |
| Publisher.PublishedBeforeCleanup | main.py:190-219 | with every ledger row of the execution accounted for and distinct names, the cleanup deletes only catalogs whose three stages succeeded and lists no catalog rejected before its stages |
| Publisher.ListedFromRecords | main.py:190-219 | every name in the deleted or failed list has a ledger row of the execution |
| Publisher.StageRecordsFlags | main.py:99-159 | each record of a catalog names it, and reports success only for a stage its result marks as successful |
| Publisher.AccountedStep | main.py:262-264 | publishing one more catalog keeps every record of the execution accounted for |
| Publisher.DeletedImpliesPublished | main.py:199-205 | with every record accounted for and distinct names, a deletable file is a catalog with all three flags true |
| Publisher.SuccessOwner | main.py:262-264 | a success record for a stage belongs to a catalog whose result has that stage's flag |
| Publisher.CompletedDeleted | main.py:195-205 | a named file with a success record of the execution for each of the three stages is in `deleted_files` when its source file can be removed |
| Publisher.LoggedSucceeded | main.py:97-166 | after one catalog on a connected ledger, every stage whose flag is set has a success record of the execution |
| Publisher.LedgerStep | main.py:262-264 | publishing one more catalog keeps the ledger growing, every new record accounted for, and every flagged stage recorded |
| Publisher.ServedGrown | main.py:262-264 | the exact step on Drive and FTP keeps every file the Drive search found and every FTP file, and adds the catalog where its flags say |

## Left out

- Logging (`utils/logger.py`), the notifications to the notifier, and the console output of
  `validate_config` are side effects without state the model needs. The messages
  `validate_config` prints are returned instead.
- The scheduler loop `run_scheduled`, the final summary notification of `run`, the generic
  exception handler of `run`, and `close` are left out: they concern timing and process
  control.
- The execution id (`uuid` and `time`) and the `datetime.now()` timestamp of a record are left
  out. Ids are opaque parameters. `Run` assumes nothing about freshness. It states that a
  completed catalog is deleted for any id, and its safety property for a fresh id.
- Loading the environment and parsing the integer settings (config.py:1-81) are not modelled.
  The FTP settings are inputs.
- The connection set-up of pymongo, the Google authentication and the `ftplib` socket calls are
  left out. Only their success or failure is modelled, as flags and parameters.
- `insert_one` failing while connected is not modelled. A connected ledger always stores the
  record.
- Listing the source folder (`list_catalogs`), the destination's `mkdir` and file timestamps
  are left out. The listing is the `catalogs` parameter of `Run`.
- The Drive query is matched on exact name, folder and trash flag. No escaping or injection of
  quotes is considered.
- `str.lower()` is modelled for ASCII and Latin-1 capitals only. This covers every character
  of the table, including `Ñ`. Full Unicode case mapping is left out.
- FTP directory paths are opaque strings. A relative `cwd` or `..` has no meaning in the model.
  The server's refusals to create a directory are the `denied` set.
- A network failure in the middle of the walk of `_create_directory_recursive` is not modelled.
  A connection that can be opened stays open until the operation ends. An `nlst` that fails is
  the `listed` parameter.
- `find` and `delete_many` failing while the ledger is connected
  (services/mongo_service.py:98-100 and 128-130) are not modelled: a connected ledger always
  answers. In the source, `get_logs_by_execution` then returns no records and `delete_logs`
  returns 0. A failed `delete_many` during the cleanup leaves the records of a file whose
  source was already removed. `CleanupSourceFiles` and `CleanupLeavesOnlyFailedDeletions`
  do not cover that outcome.
- The Drive calls catch only `HttpError` (services/drive_service.py:90, 130 and 166). Any
  other exception leaves `process_catalog`, and the generic handler of `run` (main.py:301)
  ends the run before the cleanup. The model treats every Drive failure as a handled
  `listed` or `written` false, and goes on to the next catalog.
- Publisher.CatalogPublisher.PublishAll: states only the presence of Drive and FTP files,
  not their content. It states the content of local copies only when the catalog names are
  distinct; with repeated names a later copy overwrites an earlier one. `ProcessCatalog`
  and `PublishStages` state the exact new state of each call, and so does `PublishOne`,
  except for the detail maps of the ledger records.
- Publisher.CatalogPublisher.PublishOne: states the execution, name, operation and status of
  the three records a connected ledger gains, not their detail maps (`source`, `action`,
  `file_id`, `normalized_name`, `error`). `ProcessCatalog` states those records in full.
- Publisher.CleanupLeavesOnlyFailedDeletions: speaks of records with a non-empty file name.
  Records with an empty name are ignored by `get_files_to_delete`, never purged, and stay in
  the collection, as the source does.
- Publisher.CatalogPublisher.Run: the safety property "deleted only after three successes in
  this execution" is stated for a fresh execution id and distinct catalog names. Without them,
  earlier records of the same id, or two catalogs of one name, could supply the successes. In
  every case `CleanupSourceFiles` still guarantees the three success records.

# DynamoDB table backup, modelled in Dafny

This project models the script that backs up every DynamoDB table of an
account into one JSON file per table. The script makes one `list_tables`
call. Then, for each listed table in order, it runs a paginated `scan`
loop into a fresh accumulator and a fresh cursor, and writes the
accumulated items to `Backup_dynamodb_tables/<name>_backup.json`. Errors
are handled at three places:

- a scan page that raises ends that table's scan and keeps the items read
  so far;
- an `IOError` while writing is caught, and the run goes on with the next
  table;
- a failure of `list_tables` is caught by the outer handler, and no table is
  touched.

The model has five modules.

- `DynamoTypes` holds the values exchanged with DynamoDB: pages, cursors
  and errors. It also holds the account during one run (`Backend`), where
  each table's responses form a finite sequence. `Respond` answers a
  request from its cursor: with no cursor it gives the first response, and
  with the cursor of response i it gives response i + 1. `Truthy` is
  Python truthiness of the cursor variable: `None` and the empty dict are
  false.
- `DynamoClient` holds the client handle as a class over a fixed account.
  A ghost log records every `scan` call, with the table, the start key sent
  and the response.
- `TableScanner` holds the scan loop of one table. `ScanTable` is the
  imperative loop. It is proved against `ScanLog`, the pure sequence of
  calls the loop makes, and against `Snapshot` and `StatusOf`, what the
  loop accumulates and how it ends.
- `SnapshotWriter` holds `os.path.join` on POSIX and the snapshot path. It
  also holds the directory as a class `FileStore`, whose write failures are
  an oracle per path: either `open` fails and the file is untouched, or the
  dump fails after `open` has truncated the file.
- `BackupOrchestrator` holds the table loop and the outer handler
  (`BackupTable`, `BackupTables`, `RunBackup`). These are proved against
  the pure `Reports`, `RunScans`, `FilesAfter`, `RunSpec` and `RunLog`.
  The lemmas beside them state what a whole run does.

Three points of the script's behaviour that the model keeps:

- The loop ends on a falsy `LastEvaluatedKey`, not only on an absent one.
  An empty dict also ends the scan.
- A table whose scan was cut short by a page error is still written, with
  its partial items. The write is then logged as successful. The model
  reports such a table as `Partial` in its outcome, beside the write status.
- The script creates the backup directory itself with `os.makedirs` before
  anything else. The model starts from a directory that exists.

## Model

| member | source | states |
|---|---|---|
| DynamoTypes.PositionOf | Backup_aws_services/DynamoDB-Backup/aws-dynamodb-backup.py:36-39 | Finds the first response that handed out a given cursor. When it finds none, no response of the table ever handed out that cursor. |
| DynamoTypes.RespondAfter | Backup_aws_services/DynamoDB-Backup/aws-dynamodb-backup.py:36-39 | When cursors are never repeated, sending the cursor of response i brings back response i + 1. |
| DynamoClient.Client.Scan | Backup_aws_services/DynamoDB-Backup/aws-dynamodb-backup.py:39 | A scan call answers what the account answers for that table and start key. It appends exactly that exchange to the call log. |
| DynamoClient.Client.ListTables | Backup_aws_services/DynamoDB-Backup/aws-dynamodb-backup.py:21-22 | `list_tables` answers the account's listing or its error. |
| TableScanner.StopFrom | Backup_aws_services/DynamoDB-Backup/aws-dynamodb-backup.py:43-47 | Finds the first response from position i on that ends the scan. Every response before it carries a truthy cursor. |
| TableScanner.CollectedAppend | Backup_aws_services/DynamoDB-Backup/aws-dynamodb-backup.py:40 | What two runs of calls accumulate, one after the other, is the first run's items followed by the second's. |
| TableScanner.ScanFromShape | Backup_aws_services/DynamoDB-Backup/aws-dynamodb-backup.py:33-47 | From response i on, the calls read responses i, i + 1, … up to the first that ends the scan. Each call is for the same table, and each carries the cursor of the call before it. |
| TableScanner.ScanFromCollects | Backup_aws_services/DynamoDB-Backup/aws-dynamodb-backup.py:40-44 | The items accumulated from response i on are the items of responses i up to the first that ends the scan, in order. |
| TableScanner.ScanLogThreadsCursor | Backup_aws_services/DynamoDB-Backup/aws-dynamodb-backup.py:30-41 | The first request carries no `ExclusiveStartKey`. Every later request carries the truthy `LastEvaluatedKey` of the response before it. Every request names the table. |
| TableScanner.ScanLogStopsAtFirstFinalResponse | Backup_aws_services/DynamoDB-Backup/aws-dynamodb-backup.py:41-47 | The scan reads the responses in order. It stops right after the first response that raised or had no truthy cursor. |
| TableScanner.SnapshotOfCompleteScan | Backup_aws_services/DynamoDB-Backup/aws-dynamodb-backup.py:40-44 | A complete snapshot is the concatenation, in order, of the items of every response up to the first without a cursor. That response is a page with a falsy cursor. |
| TableScanner.SnapshotOfPartialScan | Backup_aws_services/DynamoDB-Backup/aws-dynamodb-backup.py:45-47 | When the request for response k raises, the snapshot is exactly the items of responses 0 to k - 1. It is empty when the first request raises. |
| TableScanner.SnapshotOfPagesWithoutItems | Backup_aws_services/DynamoDB-Backup/aws-dynamodb-backup.py:40 | `response.get('Items', [])` adds nothing for a page without `Items`. A table none of whose responses carries items gets an empty snapshot, however many pages are read. |
| TableScanner.ScanOfMissingTable | Backup_aws_services/DynamoDB-Backup/aws-dynamodb-backup.py:39-47 | Scanning a table the account does not have makes one request, which raises. The snapshot is empty and the scan is partial. |
| TableScanner.ScanTable | Backup_aws_services/DynamoDB-Backup/aws-dynamodb-backup.py:29-47 | The loop makes exactly the calls of `ScanLog`. It returns what they accumulate and how the scan ended. |
| SnapshotWriter.AfterWrite | Backup_aws_services/DynamoDB-Backup/aws-dynamodb-backup.py:52-56 | A write changes only its own path. A successful write replaces whatever was there, a failed `open` leaves the file alone, and a failed dump leaves a truncated file. |
| SnapshotWriter.BackupPathShape | Backup_aws_services/DynamoDB-Backup/aws-dynamodb-backup.py:50 | The path of a table whose name does not start with '/' is `Backup_dynamodb_tables/<name>_backup.json`. Every path ends in `_backup.json`. |
| SnapshotWriter.BackupPathInjective | Backup_aws_services/DynamoDB-Backup/aws-dynamodb-backup.py:50 | Distinct tables never share a snapshot path. |
| SnapshotWriter.FileStore.Write | Backup_aws_services/DynamoDB-Backup/aws-dynamodb-backup.py:51-56 | The `open`/`json.dump` step. An `IOError` comes back as the outcome, and the directory changes as `AfterWrite` says. |
| BackupOrchestrator.ReportsFollowListing | Backup_aws_services/DynamoDB-Backup/aws-dynamodb-backup.py:26-56 | There is one outcome per listed name, in listing order. Each is that table's own outcome: its path, snapshot, scan status and write status. |
| BackupOrchestrator.RunScansThreadCursorsPerTable | Backup_aws_services/DynamoDB-Backup/aws-dynamodb-backup.py:26-41 | Over the whole run, a start key is only ever sent right after a response of the same table that handed it out. Every request is for a listed table. |
| BackupOrchestrator.FilesAfterDistinct | Backup_aws_services/DynamoDB-Backup/aws-dynamodb-backup.py:50-56 | With distinct paths, each path holds the result of its own write, and every other path is unchanged. |
| BackupOrchestrator.FilesAfterUntouched | Backup_aws_services/DynamoDB-Backup/aws-dynamodb-backup.py:50-56 | A path that no write targets keeps its content. |
| BackupOrchestrator.ReportPathsDistinct | Backup_aws_services/DynamoDB-Backup/aws-dynamodb-backup.py:50 | Distinct listed names give outcomes with distinct paths. |
| BackupOrchestrator.RunArtifacts | Backup_aws_services/DynamoDB-Backup/aws-dynamodb-backup.py:26-56 | Each listed table's file holds what its own write left there. A table whose write succeeds gets its whole snapshot, complete or partial, whatever failed for the other tables. |
| BackupOrchestrator.RunLeavesOtherFiles | Backup_aws_services/DynamoDB-Backup/aws-dynamodb-backup.py:19-59 | A run changes no file other than the listed tables' snapshots. A listing failure changes no file at all. |
| BackupOrchestrator.RerunIsIdempotent | Backup_aws_services/DynamoDB-Backup/aws-dynamodb-backup.py:50-53 | A second run against the same account and directory leaves the same files as the first. |
| BackupOrchestrator.SinglePageOutcome | Backup_aws_services/DynamoDB-Backup/aws-dynamodb-backup.py:33-44 | A table whose first page has no cursor is read with one request. Its snapshot is that page's items. |
| BackupOrchestrator.FailedSecondPageOutcome | Backup_aws_services/DynamoDB-Backup/aws-dynamodb-backup.py:33-47 | When the second request raises, there are exactly two requests, the second carrying the first cursor, and the snapshot is the first page's items. |
| BackupOrchestrator.OrdersAndUsersScenario | Backup_aws_services/DynamoDB-Backup/aws-dynamodb-backup.py:19-56 | `Orders` has two items on one page and `Users` has none. Both tables complete, and the files hold a two-element array and an empty array. |
| BackupOrchestrator.PartialScanAndWriteFailureScenario | Backup_aws_services/DynamoDB-Backup/aws-dynamodb-backup.py:19-56 | The second `Orders` page raises, and `open` fails for `Users`. The requests are exactly the three expected. `Orders` keeps its first page. The `Users` file is unchanged. |
| BackupOrchestrator.BackupTable | Backup_aws_services/DynamoDB-Backup/aws-dynamodb-backup.py:29-56 | The loop body: a fresh scan, then the write of what it accumulated. The result is the table's outcome, its calls and its write. |
| BackupOrchestrator.BackupTables | Backup_aws_services/DynamoDB-Backup/aws-dynamodb-backup.py:26-56 | The table loop gives the outcomes of all listed tables in order. It goes on past failed writes. It makes all their scan calls and all their writes. |
| BackupOrchestrator.RunBackup | Backup_aws_services/DynamoDB-Backup/aws-dynamodb-backup.py:19-59 | The top level matches `RunSpec`, `RunLog` and `FilesAfter`. A listing failure makes no scan call and changes no file. |

The lemmas `TwoReports`, `TwoScans`, `TwoWrites`, `ReportsStep`,
`ScansStep` and `WritesStep` of `BackupOrchestrator`, and `AppendAssoc`,
`CollectedCons`, `ItemsBetweenSplit` and `ItemsBetweenOfEmptyPages` of
`TableScanner`, and `LookupExtensional` of `BackupOrchestrator`, are proof
helpers. Each unfolds a definition one step, so they have no rows.

## Left out

- Session and client setup (`boto3.Session()`, `session.client`), lines 11-13. The client is a parameter fixed by the account.
- `os.makedirs(backup_dir, exist_ok=True)`, line 17. The directory is taken to exist.
- Every logging call, and the final message on line 61. They do not change what is read or written.
- The contents of the JSON text (`indent=4`, item encoding). A snapshot file is modelled as the item sequence it holds. Items are opaque, so DynamoDB's typed attribute format is not modelled.
- Pagination of `list_tables`. The script reads one `list_tables` response and ignores its `LastEvaluatedTableName`, so tables past the first page (100 names) are silently skipped. The model takes the listing to be the names that this one call returns.
- Uncaught crashes are not modelled:
  - the `KeyError` when a response lacks `TableNames` (line 22);
  - a `TypeError` from `json.dump` on binary attributes (line 53);
  - any exception outside the two caught AWS families.
- Scan loops that never end. If a table hands out a truthy cursor it handed out before, the script's `while True` loop (line 33) goes back to an earlier page and never stops, and `all_items` grows without bound. `ValidBackend` rules this out, so the model does not cover such an account.
- Real termination of the scan loop. The service is modelled as a finite per-table list of responses. Termination rests on `ValidBackend`: a table never hands out the same cursor twice. A request past the end of the list gets an empty page without a cursor.
- The write failures are an oracle per path, with two kinds: `open` fails, or the dump fails after truncation. The model does not decide which real I/O conditions cause which kind.
- Concurrency and timing: the script is sequential, and hung calls are not modelled.
- Paths are compared as exact strings, which assumes a case-sensitive filesystem. DynamoDB table names are case-sensitive, so `Orders` and `orders` can both be listed. On a case-insensitive filesystem the second write would truncate the first table's file. `BackupPathInjective`, `ReportPathsDistinct` and `RunArtifacts` do not cover that case.
- BackupOrchestrator.RerunIsIdempotent: every dump that fails after truncation is modelled as the same `Corrupt` content. Real truncated bytes depend on where the write stopped, so for a path whose dump fails, this lemma promises only that the file is corrupt both times, not that the bytes are equal.

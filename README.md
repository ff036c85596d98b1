# Feature service backup, modelled in Dafny

`Feature_Service_GDB_Download.py` backs up ArcGIS Online feature services as
file geodatabases. The script works like this:

1. It requests a token and lists the services directory.
2. It creates a run directory named after today's date. On a name collision it tries `<date>__1`, `<date>__2`, ... until a name is free.
3. It starts a log file in that directory with a header line.
4. It walks the rows of a catalog workbook. For each row it asks every listed service for its metadata. When a service's `serviceItemId` equals the row's `ServiceId`, it:
   - submits a `createReplica` job;
   - polls the job until its status is "Completed";
   - downloads the result over `<ServiceName>__<timestamp>.zip`;
   - appends a log line: service name, start time, end time, elapsed seconds, and the result URL with the token.

The model follows the script's own form:

- `Files` (files.dfy): the filesystem the script touches.
  - Windows-style paths (exact strings, `\\` as the only separator) and a `FileSystem` class with directories and files.
  - One method per operating-system call the script makes: `os.path.exists`, `os.mkdir`, `os.remove`, `open(..., "wb")` and `open(..., "a+")`.
- `Decimal` (decimal.dfy): how Python writes a non-negative integer.
- `ArchiveDir` (archive_dir.dfy): the run-directory search loop, as a method on the filesystem.
- `Rest` (rest.dfy): requests and responses as data.
  - A request is tagged with the line of the script it comes from.
  - What the platform answers about a listed service is attached to that service:
    - its metadata;
    - whether the submission raised;
    - the successive status replies;
    - the result download: `urlopen` raises, or reading the body raises, or the bytes.
- `Poll` (poll.dfy): the status-polling loop, as a method proved against a specification function.
- `Ledger` (ledger.dfy): the log header, the log lines and `timedelta.seconds`.
- `Workflow` (workflow.dfy): the catalog × services loops as functions of the state before them.
- `Backup` (backup.dfy): the script itself.
  - The catalog loop runs over a class that holds the script's changing variables: `data`, the requests sent, the clock readings taken and, as a ghost, the downloads logged.
  - Each method is proved to compute the matching `Workflow` function.
  - `Run` strings the steps together, from the token request to the end of the catalog.
- `Properties` (properties.dfy): what the loops promise, proved about the `Workflow` functions.

The clock is a stream of readings, `clock(i)` being the i-th call to
`datetime.datetime.now()` inside the catalog loop. The current directory,
today's formatted date and the run timestamp `_datetime` are inputs. So is
the services root URL `servicesRoot`: it stands for the `serviceURL` that
line 67 leaves as an empty placeholder to be filled in (left empty, the
listing request at line 73 fails).

The script's own text calls the logged number the total execution run time
(the comment at line 195, the label "Time elapsed (seconds)" at line 200 and
the header field `SecondsElapsed` at line 106), but the code writes `calc_runtime.seconds`:
the seconds field of a Python `timedelta`, which drops whole days. The model
follows the code: `Ledger.ElapsedSeconds` is ⌊(end − start) / 1 s⌋ mod 86400.

## Model

| member | source | states |
|---|---|---|
| `Decimal.Dec` | Feature_Service_GDB_Download.py:97 | the decimal text of a number is non-empty and made of digits only |
| `Decimal.ParseDecOfDec` | Feature_Service_GDB_Download.py:97 | reading back the decimal text of a collision number gives the number |
| `Decimal.DecDistinct` | Feature_Service_GDB_Download.py:97 | distinct collision numbers are written differently |
| `Files.ParentOfJoin` | Feature_Service_GDB_Download.py:104 | a name without separator joined to a directory lies directly in that directory |
| `Files.Appended` | Feature_Service_GDB_Download.py:105-106 | appending to a log file leaves it text holding the old text followed by the new, creating it when absent; other paths are unchanged |
| `Files.FileSystem.Exists` | Feature_Service_GDB_Download.py:92 | a path exists exactly when it is a directory or a file |
| `Files.FileSystem.MakeDir` | Feature_Service_GDB_Download.py:93 | the new directory is added; files and the filesystem invariant are kept |
| `Files.FileSystem.Remove` | Feature_Service_GDB_Download.py:190 | removal succeeds exactly on a file and deletes only that path |
| `Files.FileSystem.WriteBytes` | Feature_Service_GDB_Download.py:192-193 | a binary write succeeds exactly when the parent directory exists and the path is not a directory; the path then holds exactly the bytes |
| `Files.FileSystem.AppendText` | Feature_Service_GDB_Download.py:105-106 | an append succeeds under the same condition and leaves the content given by `Appended` |
| `ArchiveDir.SuffixedDistinct` | Feature_Service_GDB_Download.py:97 | distinct collision numbers name distinct directories |
| `ArchiveDir.SuffixedShape` | Feature_Service_GDB_Download.py:97 | a candidate is the current directory, a separator, the date, then `__` and the collision number in decimal |
| `ArchiveDir.SuffixedInCwd` | Feature_Service_GDB_Download.py:97 | every candidate lies directly in the current directory |
| `ArchiveDir.FirstFreeUnique` | Feature_Service_GDB_Download.py:89-102 | the smallest free name is unique |
| `ArchiveDir.MakeArchiveDir` | Feature_Service_GDB_Download.py:89-102 | creates the plain date directory when free, otherwise the suffixed one with the smallest free number; no other directory or file changes; the loop terminates |
| `Poll.Verdict` | Feature_Service_GDB_Download.py:170-180 | polling never ends exactly when every reply is pending; it ends by a raise exactly when the first non-pending reply raised, and otherwise at a "Completed" reply whose `resultUrl` is the result |
| `Poll.PollCount` | Feature_Service_GDB_Download.py:170-177 | the number of status requests is at most the replies supplied; every reply but the last is pending; when polling ends the last one is not; when it never ends all supplied replies are consumed |
| `Poll.StopIndex` | Feature_Service_GDB_Download.py:173-177 | every reply before the stop index is pending and the reply at it is not |
| `Poll.PollJob` | Feature_Service_GDB_Download.py:170-177 | the poll loop ends as `Verdict` says after `PollCount` requests |
| `Poll.CompletedAt` | Feature_Service_GDB_Download.py:174 | first "Completed" at index k, after answered replies: exactly k + 1 requests, ending with that reply |
| `Poll.NeverCompleted` | Feature_Service_GDB_Download.py:174 | with no completing reply and no reply that raised, the polling does not end |
| `Rest.ReplicaUrlShape` | Feature_Service_GDB_Download.py:147 | the createReplica URL is the services root, `/`, the service name, then `/FeatureServer/createReplica` |
| `Rest.ReplicaFlags` | Feature_Service_GDB_Download.py:149-157 | the replica parameters have exactly nine keys, and `returnAttachments=true`, `returnAttachmentsDatabyURL=false`, `syncModel=none`, `dataFormat=filegdb`, `async=true` whatever the service |
| `Rest.StatusQueryShape` | Feature_Service_GDB_Download.py:170 | the polled URL is the status URL, then `?f=json&token=`, then the token |
| `Rest.ResultQueryShape` | Feature_Service_GDB_Download.py:182 | the download URL is the result URL, then `?token=`, then the token |
| `Rest.FormsCarryToken` | Feature_Service_GDB_Download.py:143-157 | both dicts bound to `data` carry `f=json` and the token; the replica name is `<name>_replica` and the layers are the given ids |
| `Ledger.ElapsedSeconds` | Feature_Service_GDB_Download.py:199-200 | the elapsed seconds are below one day, and are the whole seconds of the difference when it lies between zero and one day |
| `Ledger.OneLinePerRecord` | Feature_Service_GDB_Download.py:203 | a record with no line break in its fields is written as exactly one line |
| `Ledger.LedgerLines` | Feature_Service_GDB_Download.py:203 | the log body holds one line per record, when no field of a record holds a line break |
| `Ledger.HeaderThenLines` | Feature_Service_GDB_Download.py:106-203 | the header followed by the log body holds one line more than there are records, when no field of a record holds a line break |
| `Ledger.LogLine` | Feature_Service_GDB_Download.py:203 | a log line ends with its line break |
| `Ledger.LogLineFields` | Feature_Service_GDB_Download.py:203 | a log line is the service name, start time, end time, elapsed seconds and result URL joined by ", " and followed by a line break; when no field holds a comma, reading the line back as fields gives those five values in that order |
| `Ledger.FieldsOfRow` | Feature_Service_GDB_Download.py:203 | fields without commas, joined by ", ", are read back as written |
| `Ledger.HeaderColumns` | Feature_Service_GDB_Download.py:106 | the header is one line whose fields are the five column names `ServiceName`, `StartTime`, `EndTime`, `SecondsElapsed`, `ReplicaURL`, as many as the values of every log line |
| `Workflow.ArchiveIsNotLog` | Feature_Service_GDB_Download.py:187 | an archive path never is the log path |
| `Workflow.LogPathShape` | Feature_Service_GDB_Download.py:104 | the log path is the run directory, a separator, then `log_<_datetime>.txt` |
| `Workflow.ArchivePathShape` | Feature_Service_GDB_Download.py:187-192 | the archive path is the run directory, a separator, the catalog `ServiceName`, then `__<_datetime>.zip` |
| `Workflow.ArchivePathDistinct` | Feature_Service_GDB_Download.py:187-192 | distinct service names are archived at distinct paths |
| `Workflow.LogPathParent` | Feature_Service_GDB_Download.py:104 | the log lies directly in the run directory |
| `Workflow.Store` | Feature_Service_GDB_Download.py:187-203 | writing the archive and the log line keeps the log a text file |
| `Workflow.Replicate` | Feature_Service_GDB_Download.py:143-203 | the replica workflow keeps the log a text file |
| `Workflow.ServiceStep` | Feature_Service_GDB_Download.py:131-138 | one services-loop iteration keeps the log a text file |
| `Workflow.ServicesFold` | Feature_Service_GDB_Download.py:131-204 | the services loop keeps the log a text file |
| `Workflow.EntryStep` | Feature_Service_GDB_Download.py:113-131 | one catalog row keeps the log a text file |
| `Workflow.CatalogFold` | Feature_Service_GDB_Download.py:113-204 | the catalog loop keeps the log a text file |
| `Workflow.ServicesFoldStops` | Feature_Service_GDB_Download.py:131-204 | once a service ends the run, the remaining services are not visited |
| `Workflow.CatalogFoldStops` | Feature_Service_GDB_Download.py:113-204 | once a row ends the run, the remaining rows are not visited |
| `Backup.Backup.WriteArchive` | Feature_Service_GDB_Download.py:187-193 | the archive is written exactly when its path is not a directory and its directory exists; the path then holds exactly the bytes, any earlier file there is gone, and no other path changes |
| `Backup.Backup.Store` | Feature_Service_GDB_Download.py:187-203 | removes any file at the archive path, writes the bytes, reads the clock and appends the log line, as `Workflow.Store` |
| `Backup.Backup.Replicate` | Feature_Service_GDB_Download.py:143-203 | submits, polls, fetches and stores, as `Workflow.Replicate` |
| `Backup.Backup.VisitService` | Feature_Service_GDB_Download.py:132-139 | sends the metadata request with the current `data` and replicates on a match, as `Workflow.ServiceStep` |
| `Backup.Backup.VisitServices` | Feature_Service_GDB_Download.py:131-204 | visits the listed services in order until one ends the run, as `Workflow.ServicesFold` |
| `Backup.Backup.VisitEntry` | Feature_Service_GDB_Download.py:118-131 | reads the start time and walks every listed service, as `Workflow.EntryStep` |
| `Backup.Backup.VisitCatalog` | Feature_Service_GDB_Download.py:113-204 | walks the catalog rows, as `Workflow.CatalogFold` |
| `Backup.Run` | Feature_Service_GDB_Download.py:48-107 | a token failure exits after one request with no directory or file created; a listing failure crashes before the run directory; otherwise the smallest free run directory is created, the log starts as the header, and the rest is the catalog loop |
| `Properties.StepTrace` | Feature_Service_GDB_Download.py:131-184 | a visit sends the metadata request, then on a match the submission, the polls and the download, whatever happens to the files |
| `Properties.PollSentShape` | Feature_Service_GDB_Download.py:168-184 | a submitted job sends its status requests first, then at most the download request |
| `Properties.PollSentQuiet` | Feature_Service_GDB_Download.py:170-184 | polls and downloads are neither metadata nor createReplica requests |
| `Properties.StepSends` | Feature_Service_GDB_Download.py:134-162 | a visit sends one metadata request and one createReplica request exactly when the service matches |
| `Properties.FoldSends` | Feature_Service_GDB_Download.py:131-166 | a completed services loop asked every service for its metadata and every matching service, in order, for a replica, with no break after a match |
| `Properties.CatalogSends` | Feature_Service_GDB_Download.py:113-166 | a catalog loop that leaves the script running asked, row after row, for replicas of exactly the matching services, with no break after a match |
| `Properties.UnmatchedEntry` | Feature_Service_GDB_Download.py:137-138 | a row matching no service, every metadata request answered, sends only metadata requests: no createReplica, no file, no log line, `data` unchanged |
| `Properties.SubmitRaisedSkips` | Feature_Service_GDB_Download.py:158-166 | a raising createReplica skips to the next service with files and log unchanged |
| `Properties.OtherFailuresAbort` | Feature_Service_GDB_Download.py:135-184 | every other failed request or missing key up to the opening of the download ends the run with files and log unchanged |
| `Properties.PollSentPolls` | Feature_Service_GDB_Download.py:168-184 | the status requests of a submitted job are exactly its polls |
| `Properties.SentPolls` | Feature_Service_GDB_Download.py:170-177 | the status requests of a visit are exactly the polls of its job |
| `Properties.PollRequests` | Feature_Service_GDB_Download.py:170-177 | first "Completed" at k: exactly k + 1 status requests, all to the status URL with the token |
| `Properties.PollsForever` | Feature_Service_GDB_Download.py:174-177 | no completing reply and no reply that raised: the run is stuck polling |
| `Properties.LayersAndTablesUnused` | Feature_Service_GDB_Download.py:119-122 | the row's `Layers` and `Tables` have no effect |
| `Properties.SuccessfulDownload` | Feature_Service_GDB_Download.py:180-203 | a download overwrites the archive path with the bytes, appends one line with `resultUrl?token=<token>`, and changes no other path |
| `Properties.ReadFailureEmptiesArchive` | Feature_Service_GDB_Download.py:184-193 | a download whose body cannot be read ends the run with an empty file at the archive path, the earlier archive gone, every other path, the log and the records unchanged |
| `Properties.SameNameTwice` | Feature_Service_GDB_Download.py:187-193 | two downloads under the same service name, from one catalog row or from two rows, leave one archive holding the second download |
| `Properties.DataRebound` | Feature_Service_GDB_Download.py:131-157 | after a match `data` holds the replica parameters, and the next metadata request is sent with them |
| `Properties.MatchRebindsData` | Feature_Service_GDB_Download.py:149-157 | a visit of a matching service leaves `data` bound to its replica parameters, whatever its outcome |
| `Properties.DataCarriesToken` | Feature_Service_GDB_Download.py:69-70 | through the catalog loop `data` always carries `f=json` and the token |
| `Properties.EntryKeepsToken` | Feature_Service_GDB_Download.py:118-204 | through one catalog row `data` keeps carrying `f=json` and the token |
| `Properties.ServicesKeepToken` | Feature_Service_GDB_Download.py:149-157 | through the services loop `data` always carries `f=json` and the token |
| `Properties.NoDownloadKeepsLog` | Feature_Service_GDB_Download.py:141-203 | a visit that does not download leaves the log and the downloads unchanged |
| `Properties.StepJournal` | Feature_Service_GDB_Download.py:203 | after a visit the log is its first text followed by one line per download |
| `Properties.EntryJournal` | Feature_Service_GDB_Download.py:118-204 | after one catalog row the log is its first text followed by one line per download |
| `Properties.ServicesJournal` | Feature_Service_GDB_Download.py:131-204 | the services loop keeps the log its first text followed by one line per download |
| `Properties.CatalogJournal` | Feature_Service_GDB_Download.py:113-204 | the catalog loop keeps the log its first text followed by one line per download |
| `Properties.RunLog` | Feature_Service_GDB_Download.py:104-203 | a run's log is the header followed by one line per download, in order; when no field of a record holds a line break, the whole log has one line more than there are downloads |

## Left out

- The HTTP transport, URL-encoding and JSON decoding (`sendRequest`, lines 41-45). A response is modelled as what the script reads out of it, or as the fact that the request raised. The order of keys in an encoded form is not modelled: a form is a map.
- Responses are fixed per listed service. The same answers come back for a service each time a catalog row visits it.
- A status poll whose replies run out without "Completed" stands for a job that never completes: the source loops for ever, and the model stops with status `Hung`.
- `Poll.PollCount`: for a job that never completes it counts the replies supplied, not an unbounded number.
- The Python-version check, the prompts for username and password, and the printed messages.
- `time.sleep(5)` between polls: it has no effect on the state.
- `pandas.read_excel`: the catalog is an input sequence of rows whose cells are strings.
- `strftime` formatting: the formatted date, `_datetime` and each reading's displayed text are inputs. They are assumed to hold no path separator.
- `os.getcwd()` is an input directory. A current directory at a drive root is not modelled: there `os.path.join` adds no second separator.
- Missing keys that are not modelled. In the source each raises `KeyError` and ends the run:
  - a listing entry without `name` or `url` (lines 132-133): every listed service has both in the model;
  - a matching metadata response without `layers` (line 145);
  - a layer without `id` (line 145).

  The model treats metadata as `serviceItemId` plus plain layer ids. The other missing keys the script reads are modelled as `None`: `token`, `services`, `serviceItemId`, `statusUrl`, `status` and `resultUrl`.
- Appending log text to a path that holds binary data is excluded by the precondition of `Files.FileSystem.AppendText`. The log path ends in `.txt` and an archive path ends in `.zip`, so the script never does this.
- Concurrent changes to the filesystem by other processes.
- Windows path semantics: paths are compared as exact strings and `'\\'` is the only separator. Names that differ only in letter case (NTFS ignores case), a `/` or a `..` inside a `ServiceName`, and a non-Windows host (where `"\\"` is no separator, so the archive lands in the current directory) are not modelled: for such names the real script may overwrite or place a file elsewhere than the model says.
- `Files.FileSystem.AppendText`: the log text is not encoded. A `ServiceName` outside the locale's code page makes the log write at line 203 raise after the archive is written; the model's append always succeeds.
- `Workflow.Store`, `Workflow.Replicate`, `Workflow.ServiceStep`, `Workflow.ServicesFold`, `Workflow.EntryStep` and `Workflow.CatalogFold` state in their own contracts only that the log stays a text file. What they compute is stated by the `Properties` lemmas and by the `Backup` methods proved equal to them.

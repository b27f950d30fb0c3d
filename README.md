# cocli core, modelled in Dafny

`cocli` is the command-line client of the coScene data platform. This project models its core:

- the **resumable multipart uploader**. It routes each file to one PUT or to a multipart upload. In the multipart case:
  - it cuts the file into parts with minio's part geometry;
  - it keeps a per-file checkpoint store (upload id, parts done, bytes done);
  - a dispatcher hands out part numbers inside a sliding window, tracked by a min-heap;
  - a collector checkpoints every finished part;
  - the upload is completed with the parts sorted by number, then the checkpoint is deleted.

  It also covers the progress readers and the two status monitors that display the upload;
- the **resource names** (`projects/<p>/records/<r>`, `.../files/<f>`, `.../actionRuns/<a>`, `users/<u>`): parsed by anchored regular expressions and formatted back;
- the **login profiles** and the profile manager: validation, adding, deleting and switching profiles, and authorization against the server;
- the **API client pieces**:
  - the auth header interceptor (Bearer for JWTs, Basic with base64 otherwise);
  - the retry interceptor;
  - paged listing of records, files, events, actions and action runs;
  - the record and action filters;
  - id-to-name resolution;
- the **record update command**: label merging and the field mask;
- the **terminal prompts**: text, yes/no, profile chooser;
- **file discovery** for uploads (directory walk);
- the **table builder** of the printers.

Calls to the servers, the file system, the checkpoint database and the terminal are outcomes passed in as parameters: functions from the request to a result, or plain flags.

One module per concern:

| file | module | models |
|---|---|---|
| `wrappers.dfy` | `Wrappers` | Option and Result. |
| `strings.dfy` | `Strings` | The parts of Go's `strings`/`strconv` the core uses. |
| `utf8.dfy` | `Utf8` | Go strings as UTF-8 bytes. |
| `names.dfy` | `ResourceNames` | The regular-expression name parsers and formatters. |
| `profiles.dfy` | `Config` | The `Profile` and `ProfileManager` classes. |
| `heap.dfy` | `Heap` | The uploader's `IntHeap` class and `FindMinMissingInteger`. |
| `sorting.dfy` | `Sorting` | `sort.Ints` and `slices.SortFunc`, as a specified sort. |
| `upload_parts.dfy` | `UploadParts` | Part geometry and window width. |
| `upload_checkpoint.dfy` | `UploadCheckpoint` | The checkpoint store and the upload-id decision. |
| `upload_dispatch.dfy` | `UploadDispatch` | The dispatcher: its specification and the `Dispatcher` class. |
| `upload_manager.dfy` | `UploadEngine` | The `UploadManager` class: single PUT, multipart upload, collector, completion. |
| `upload_progress.dfy` | `UploadProgress` | The counting readers. |
| `upload_status_monitor.dfy` | `UploadStatusMonitor` | The status monitor of `pkg/cmd_utils/upload_utils`. |
| `prompts_upload_monitor.dfy` | `PromptsUploadMonitor` | The monitor of `internal/prompts`. |
| `api_auth.dfy`, `api_retry.dfy`, `api_record.dfy`, `api_action.dfy` | | The API client. |
| `record_update.dfy` | `RecordUpdate` | `record update`. |
| `string_prompt.dfy`, `prompts_choice.dfy` | | The prompts. |
| `file_walk.dfy` | `FileWalk` | `GenerateFiles`. |
| `tables.dfy` | `Tables` | `ColumnDefs2Table`. |

The multipart upload's goroutines are sequentialised. The collector repeatedly takes any one of the parts currently uploading (a nondeterministic choice), so every order in which parts can finish is covered by the proofs. When nothing is uploading while parts are still awaited, the source's collector waits for ever; the model ends that run with the outcome `Stalled`. The three channels between dispatcher, workers and collector each buffer `NumThreads` values, and the dispatcher reads completions only between two fills of its window. A fill that leaves more parts unacknowledged than the pipeline can hold (`Capacity`: 4·`NumThreads` + 1) therefore blocks every goroutine for ever; the model ends that run with the outcome `Deadlocked`.

## Model

| member | source | states |
|---|---|---|
| ResourceNames.MatchTwoSound | internal/name/record.go:30 | A match of the two-group name pattern splits the input at an occurrence of the separator after the prefix, and no later occurrence exists (the first group is greedy). |
| ResourceNames.MatchTwoGreedy | internal/name/record.go:30 | Every newline-free input that decomposes as prefix, group, separator, group is matched, with a first group at least as long as the decomposition's. |
| ResourceNames.MatchTwoExact | internal/name/record.go:30 | When the separator occurs only where the decomposition puts it, the match returns exactly the decomposition's two groups. |
| ResourceNames.MatchThreeSound | internal/name/file.go:31 | A match of the three-group file pattern is a decomposition of the input into prefix, first group, first separator, second group, second separator and third group, and the input holds no newline. |
| ResourceNames.MatchThreeGreedy | internal/name/file.go:31 | Every newline-free three-group decomposition is matched, with groups at least as long as the decomposition's (leftmost-longest). |
| ResourceNames.MatchThreeExact | internal/name/file.go:31 | With each separator occurring only at its place, the match is exactly the three groups. |
| ResourceNames.RecordString | internal/name/record.go:45-47 | A record name starts with `projects/<project>/records/` and ends with the record id. |
| ResourceNames.RecordProject | internal/name/record.go:41-43 | A record's name lies under its project's name. |
| ResourceNames.RecordParseFormat | internal/name/record.go:33-39 | Every name NewRecord accepts formats back to itself, has no newline, and has no `/records/` after the one following the project id. |
| ResourceNames.RecordAccepts | internal/name/record.go:33-39 | Every newline-free formatted record name is accepted, with a project id at least as long as the formatted one's. |
| ResourceNames.RecordFormatParse | internal/name/record.go:33-47 | Format then parse is the identity when `/records/` occurs once in the name. |
| ResourceNames.FileString | internal/name/file.go:46-48 | A file name starts with the record's name followed by `/files/` and ends with the file name. |
| ResourceNames.FileProject | internal/name/file.go:42-44 | A file's name lies under its project's name. |
| ResourceNames.FileParseFormat | internal/name/file.go:34-40 | Every name NewFile accepts formats back to itself and has no newline. |
| ResourceNames.FileAccepts | internal/name/file.go:34-40 | Every newline-free formatted file name is accepted, the project id (then the record id) taken as long as possible. |
| ResourceNames.FileRejects | internal/name/file.go:31-40 | Names without the `projects/` prefix, or with a newline, are rejected. |
| ResourceNames.FileFormatParse | internal/name/file.go:34-48 | Format then parse is the identity when each separator occurs once. |
| ResourceNames.FileNameIsRecordName | internal/name/record.go:30-39 | A file name is also accepted as a record name, its `/files/...` tail becoming part of the record id. |
| ResourceNames.ActionRunString | internal/name/action_run.go:45-47 | An action-run name starts with `projects/<project>/actionRuns/` and ends with the run id. |
| ResourceNames.ActionRunProject | internal/name/action_run.go:41-43 | An action run's name lies under its project's name. |
| ResourceNames.ActionRunParseFormat | internal/name/action_run.go:33-39 | Every accepted action-run name formats back to itself and has no newline. |
| ResourceNames.ActionRunRejects | internal/name/action_run.go:30-39 | Names without the prefix, or without `/actionRuns/` after it, are rejected. |
| ResourceNames.ActionRunFormatParse | internal/name/action_run.go:33-47 | Format then parse is the identity when `/actionRuns/` occurs once. |
| ResourceNames.UserString | internal/name/user.go:40-42 | A user name is `users/` followed by exactly the user id. |
| ResourceNames.NewUser | internal/name/user.go:29-38 | Accepts exactly the newline-free names starting with `users/`; what it accepts formats back to the input. |
| ResourceNames.UserFormatParse | internal/name/user.go:32-42 | A user whose id has no newline formats and parses back to itself. |
| Config.Row | internal/config/profile.go:55-75 | A verbose line: the caption left-justified in 20 columns, a space, the value, a newline. |
| Config.Profile.StringWithOpts | internal/config/profile.go:55-75 | The plain form is the name, with ` (*)` appended when starred. The verbose form is the four labelled rows. |
| Config.Profile.Validate | internal/config/profile.go:82-96 | No error exactly when the name is set, the endpoint starts with `https://openapi.`, the token and the project are set. Otherwise the first failing check in that order is reported. |
| Config.Profile.GetBaseUrl | internal/config/profile.go:128-136 | Always an `https://` URL. The dev endpoint maps to its own site; any other endpoint drops the `openapi.` host prefix. |
| Config.Profile.Auth | internal/config/profile.go:104-125 | The error is AuthVerdict of the old fields and the lookups: the organization lookup is consulted only when the organization is empty, then the project lookup only when the project name is empty. The new organization and project name are AuthedOrg and AuthedProjectName of the same inputs: each is filled only when empty and only from a successful lookup, and a failed organization lookup leaves the project name untouched. |
| Config.ProblemInNoneIff | internal/config/profile_manager.go:36-58 | The validation loop meets no problem in the first n profiles exactly when their names are distinct and each validates. |
| Config.ProblemPersists | internal/config/profile_manager.go:36-58 | The first problem the loop meets is its verdict. |
| Config.ValidateIff | internal/config/profile_manager.go:36-58 | The manager is valid exactly when names are unique, every profile validates, and the current profile is among them (or empty with no profiles). |
| Config.FirstNamed | internal/config/profile_manager.go:139-148 | The index of the first profile with that name, or none exactly when no profile has it. |
| Config.ProfileManager.Validate | internal/config/profile_manager.go:36-58 | The loop over the profiles with the set of names seen returns the verdict characterised by ValidateIff. |
| Config.ProfileManager.IsEmpty | internal/config/profile_manager.go:61-63 | True exactly when there are no profiles. |
| Config.ProfileManager.GetCurrentProfile | internal/config/profile_manager.go:139-148 | Returns a profile exactly when one has the current name, and then the first such. |
| Config.ProfileManager.AddProfile | internal/config/profile_manager.go:156-174 | An invalid profile changes nothing and returns its validation error. A valid one gets the organization and project name AuthedOrg/AuthedProjectName of its old fields; when AuthVerdict is an error, that error is returned wrapped and the manager is unchanged. Otherwise the profile is appended, becomes current if none was, and the error is the whole manager's validation verdict; a duplicate name is always reported. |
| Config.ProfileManager.DeleteProfile | internal/config/profile_manager.go:207-220 | Removes the first profile with the name and keeps the rest in order; an unknown name is an error. Deleting the current profile makes the new first one current, which panics when none is left. |
| Config.ProfileManager.SwitchProfile | internal/config/profile_manager.go:223-237 | An unknown name changes nothing. A known name becomes current even when the following validation or authorization fails; only the chosen profile can change. When the manager then validates, the error is the wrapped AuthVerdict of the chosen profile (none when it authorizes) and its organization and project name are AuthedOrg/AuthedProjectName of its old fields and the lookups. |
| Config.DuplicateRejected | internal/config/profile_manager.go:36-58 | Appending a profile whose name is taken always makes validation fail. |
| Heap.HeapMinAtRoot | pkg/cmd_utils/upload_utils/heap.go:32-37 | The root of a non-empty heap is its minimum. |
| Heap.PushLargestKeepsHeap | pkg/cmd_utils/upload_utils/heap.go:20-22 | The plain append Push keeps the heap order when the value is no smaller than every element, which is how the dispatcher uses it. |
| Heap.SwapRemoveFacts | pkg/cmd_utils/upload_utils/heap.go:44-46 | Removing by moving the last element into the hole keeps the elements before it and loses exactly the removed element. |
| Heap.IntHeap.constructor | pkg/cmd_utils/upload_utils/heap.go:10-14 | NewHeap yields a heap holding exactly the given elements. |
| Heap.IntHeap.Push | pkg/cmd_utils/upload_utils/heap.go:20-22 | Appends the value, with no sift-up. |
| Heap.IntHeap.Pop | pkg/cmd_utils/upload_utils/heap.go:24-30 | Removes and returns the last element. |
| Heap.IntHeap.Peek | pkg/cmd_utils/upload_utils/heap.go:32-37 | The minimum of a non-empty heap, 0 for an empty one. |
| Heap.IntHeap.Remove | pkg/cmd_utils/upload_utils/heap.go:39-50 | Removes every occurrence of the value, keeps all other elements with their multiplicities, and restores the heap order. |
| Heap.IntHeap.Init | pkg/cmd_utils/upload_utils/heap.go:49 | heap.Init establishes the heap order over the same elements. |
| Heap.IntHeap.Down | pkg/cmd_utils/upload_utils/heap.go:49 | heap.down sifts one element down: heap order from that position on, same elements. |
| Heap.IncreasingPositiveBounds | pkg/cmd_utils/upload_utils/heap.go:52-69 | In a strictly increasing positive list the k-th entry is at least k+1, and equality forces all earlier equalities: the fact the binary search relies on. |
| Heap.FindMinMissingInteger | pkg/cmd_utils/upload_utils/heap.go:52-69 | Always ends at a boundary where `arr[k] == k+1` stops holding. On a strictly increasing positive list the result is the smallest positive integer absent from it. |
| Sorting.SortBy | pkg/cmd_utils/upload_utils/upload_manager.go:502-504 | The parts come out ordered by part number and are a permutation of the input. |
| Sorting.SortInts | pkg/cmd_utils/upload_utils/upload_manager.go:330 | The part numbers come out in ascending order and are a permutation of the input. |
| UploadParts.OptimalPartInfo | pkg/cmd_utils/upload_utils/upload_manager.go:345-348 | minio's part geometry. A geometry with a non-zero part size tiles the file exactly. A configured part size is used as is, and only within minio's limits; out-of-range sizes are errors. Left to choose, it fails exactly above 5 TiB, and for an object under 10000 bytes it yields part size 0 and the part count int(+Inf), the smallest int64, with the whole object as the last part. |
| UploadParts.WindowHoldsAPart | pkg/cmd_utils/upload_utils/upload_manager.go:362-375 | For every file the uploader accepts whose part size is not 0, the dispatcher's window holds at least one part. |
| UploadParts.PartRanges | pkg/cmd_utils/upload_utils/upload_manager.go:426-431 | Each part reads a non-empty range inside the file; consecutive parts are adjacent and the last ends at the file's end. |
| UploadParts.PrefixCoversFile | pkg/cmd_utils/upload_utils/upload_manager.go:426-431 | Parts 1..k cover exactly the bytes before part k+1, so all parts cover the file. |
| UploadCheckpoint.CheckpointReadBack | pkg/cmd_utils/upload_utils/upload_manager.go:478-487 | What the collector writes reads back as the same upload id, parts and byte count. |
| UploadCheckpoint.StoredSizeCases | pkg/cmd_utils/upload_utils/upload_manager.go:296-309 | A stored size that is present and parses is used; a missing or unparsable one counts as 0. |
| UploadCheckpoint.ReconcileUploadId | pkg/cmd_utils/upload_utils/upload_manager.go:270-293 | A stored id is reused exactly when the server still lists parts for it. A stale id resets the store, and a reset failure is its own error. Otherwise the id is a new multipart upload's. |
| UploadCheckpoint.PartNumbers | pkg/cmd_utils/upload_utils/upload_manager.go:327-329 | The part numbers of the checkpointed parts, one per part, in the same order. |
| Strings.ParseFormatInt | pkg/cmd_utils/upload_utils/upload_manager.go:303 | Formatting an int64 in decimal and parsing it back gives the same number. |
| Strings.ParseInt | pkg/cmd_utils/upload_utils/upload_manager.go:303 | strconv.ParseInt in base 10 and 64 bits: an empty string fails, and every accepted value is within the int64 range. |
| UploadDispatch.NextMissing | pkg/cmd_utils/upload_utils/upload_manager.go:375-382 | The first part at or after a number that the checkpoint lacks; every part skipped on the way is held. |
| UploadDispatch.CorrectedStartAgrees | pkg/cmd_utils/upload_utils/upload_manager.go:369-371 | On a checkpoint without repeated part numbers, the binary search's start is not held, so starting the window at the next missing part is the source's `minPart := curPart`. |
| UploadDispatch.FillKeepsWindowOk | pkg/cmd_utils/upload_utils/upload_manager.go:375-382 | The fill loop hands out parts once each, in increasing order, only parts the checkpoint lacks, and stops at the window's or the file's end. |
| UploadDispatch.FillAddsSent | pkg/cmd_utils/upload_utils/upload_manager.go:375-382 | The parts a fill pushes on the heap are exactly the parts it hands out. |
| UploadDispatch.FillWithinWindow | pkg/cmd_utils/upload_utils/upload_manager.go:375-382 | A fill only appends to the parts handed out, and every part it adds lies at or after the current part, before the window's end and within the file. |
| UploadDispatch.FillReaches | pkg/cmd_utils/upload_utils/upload_manager.go:375-382 | Every missing part between the current part and the window's end is handed out. |
| UploadDispatch.CorrectedFillLeavesNothingBehind | pkg/cmd_utils/upload_utils/upload_manager.go:388-397 | With the corrected acknowledgement, a fill leaves nothing uploading only when every missing part has been handed out. |
| UploadDispatch.EnoughMissing | pkg/cmd_utils/upload_utils/upload_manager.go:457 | From the binary search's start (line 369), at least as many parts are missing as the collector waits for. |
| UploadDispatch.AckKeepsWindowOk | pkg/cmd_utils/upload_utils/upload_manager.go:388-397 | Both acknowledgement rules keep the dispatcher's invariant. |
| UploadDispatch.AsWrittenAckStalls | pkg/cmd_utils/upload_utils/upload_manager.go:390-394 | A concrete run where the source's rule leaves nothing uploading while parts are missing, and the corrected rule hands them out (see Findings). |
| UploadDispatch.Dispatcher.constructor | pkg/cmd_utils/upload_utils/upload_manager.go:362-371 | Starts at the binary search's result with an empty heap and the window at the first missing part. |
| UploadDispatch.Dispatcher.Fill | pkg/cmd_utils/upload_utils/upload_manager.go:375-382 | The imperative fill loop over the heap refines FillWindow. |
| UploadDispatch.Dispatcher.Ack | pkg/cmd_utils/upload_utils/upload_manager.go:388-397 | As written: removes the acknowledged part from the heap; the window then starts at the heap's minimum, or at the part number plus the window width when the heap is empty. Refines AckAsWritten. |
| UploadDispatch.Dispatcher.AckToNextMissing | pkg/cmd_utils/upload_utils/upload_manager.go:388-397 | Corrected acknowledgement (see Findings): as Ack, but an empty heap starts the window at the next missing part. Refines AckCorrected. |
| UploadEngine.PartsForAt | pkg/cmd_utils/upload_utils/upload_manager.go:468-476 | The i-th collected part is the receipt of the i-th part to arrive. |
| UploadEngine.SomePartUploading | pkg/cmd_utils/upload_utils/upload_manager.go:458-462 | While the collector still waits, some handed-out part has not been collected, so a result can arrive. |
| UploadEngine.AckThenFill | pkg/cmd_utils/upload_utils/upload_manager.go:388-397 | With the corrected acknowledgement (see Findings), one collector step keeps "uploading" equal to "handed out and not collected", and leaves nothing uploading only once every missing part has been handed out. The source's rule keeps only the first half (AckAsWrittenThenFill). |
| UploadEngine.CollectCoversAllParts | pkg/cmd_utils/upload_utils/upload_manager.go:457-492 | On a consistent checkpoint, once total − \|checkpoint\| distinct missing parts are collected, every part of the file is in the checkpoint or collected. |
| UploadEngine.StartDispatcher | pkg/cmd_utils/upload_utils/upload_manager.go:359-382 | Creates the dispatcher and hands out the first window; the collector's invariant holds from the start. Without a checkpoint, and with at least `w` parts, the first fill hands out `w` parts. |
| UploadEngine.PickUploading | pkg/cmd_utils/upload_utils/upload_manager.go:462 | When some part is uploading, picks one (any one may finish next); it is a missing part of the file that was handed out and not yet collected. |
| UploadEngine.Advance | pkg/cmd_utils/upload_utils/upload_manager.go:388-397 | The collector step as written: the acknowledgement at line 490 and the refill keep "uploading" equal to "handed out and not collected", but may leave nothing uploading while parts are missing. |
| UploadEngine.AdvanceCorrected | pkg/cmd_utils/upload_utils/upload_manager.go:388-397 | The collector step with the corrected acknowledgement keeps the same invariant and also keeps something uploading until every missing part has been handed out. |
| UploadEngine.AckAsWrittenThenFill | pkg/cmd_utils/upload_utils/upload_manager.go:388-397 | The source's acknowledgement followed by the refill keeps "uploading" equal to "handed out and not collected". |
| UploadEngine.LiveHasUploading | pkg/cmd_utils/upload_utils/upload_manager.go:457-462 | With the corrected acknowledgement, while the collector still waits for parts the dispatcher's heap of uploading parts is not empty, so the collector does not stall for lack of a part. It says nothing about channel capacity (see Collect's `Deadlocked`). |
| UploadEngine.CollectedAll | pkg/cmd_utils/upload_utils/upload_manager.go:457-492 | When the collector's count is reached, every part of the file is in the checkpoint or collected. |
| UploadEngine.CollectedStep | pkg/cmd_utils/upload_utils/upload_manager.go:466-476 | Collecting one uploaded part adds its receipt and its exact length. |
| UploadEngine.Collect | pkg/cmd_utils/upload_utils/upload_manager.go:457-492 | Collects up to total − \|checkpoint\| distinct missing parts, each checkpointed before it is acknowledged. The parts and byte count are exactly those of the parts collected, and the store holds the last batch. It ends early only on a failed part upload, a failed batch write, a stall (nothing uploading while parts are awaited) or, as written, a deadlock: more than Capacity(threads) parts unacknowledged after a fill. On both the source waits for ever. As written, without a checkpoint, a window wider than the pipeline and no wider than the file deadlocks before any part is collected. The corrected engine (corrected acknowledgement, completions read while filling) neither stalls nor deadlocks. Success means every part of the file is accounted for. |
| UploadEngine.Wrapf | pkg/cmd_utils/upload_utils/upload_manager.go:498 | Wrapping a nil error yields nil. |
| UploadEngine.SizeMismatchReportsSuccess | pkg/cmd_utils/upload_utils/upload_manager.go:497-499 | The size check as written returns success on a mismatch (see Findings). |
| UploadEngine.SizeCheck | pkg/cmd_utils/upload_utils/upload_manager.go:497-499 | Corrected check: completion goes ahead exactly when the sizes match; a mismatch is an error. |
| UploadEngine.ResumeWithLargerPartsSkipsCompletion | pkg/cmd_utils/upload_utils/upload_manager.go:457-499 | A concrete resume with a grown part size: the check as written reports success without completing, and the corrected one stops with a size mismatch. |
| UploadEngine.UploadKey | pkg/cmd_utils/upload_utils/upload_manager.go:197-200 | The URL path must start with `/default/`; the object key is the rest. |
| UploadEngine.FirstValues | pkg/cmd_utils/upload_utils/upload_manager.go:185-194 | One tag per query key: its first value, or "" when it has none. |
| UploadEngine.InUse | pkg/cmd_utils/upload_utils/upload_manager.go:275-287 | The checkpoint resumed from: empty after a stale id, otherwise as stored. |
| UploadEngine.SortedCheckpoint | pkg/cmd_utils/upload_utils/upload_manager.go:327-330 | Sorting consistent checkpoint part numbers gives a strictly increasing list within the file. |
| UploadEngine.CompletedPartsCover | pkg/cmd_utils/upload_utils/upload_manager.go:502-506 | Every part number of the file is among the parts sent for completion. |
| UploadEngine.CompletedPartsOrigin | pkg/cmd_utils/upload_utils/upload_manager.go:502-506 | Every part sent for completion is a checkpointed part or the receipt of a part uploaded now. |
| UploadEngine.CompletionFacts | pkg/cmd_utils/upload_utils/upload_manager.go:502-509 | The completion request carries the bucket, key, upload id and sorted parts described by CompletedAs. |
| UploadEngine.UploadManager.AddErr | pkg/cmd_utils/upload_utils/upload_manager.go:155-161 | Records the file's error and reports it failed to the monitor (when one is attached). |
| UploadEngine.UploadManager.Reconcile | pkg/cmd_utils/upload_utils/upload_manager.go:262-293 | Opens (creating) the file's store and settles the upload id as ReconcileUploadId decides; a stale id resets the store. |
| UploadEngine.UploadManager.FMultipartPutObject | pkg/cmd_utils/upload_utils/upload_manager.go:248-516 | A file over 500 GiB and setup failures are errors that complete nothing. Only the file's own store changes. A completion is made at most once, with the reconciled id and the parts of CompletedAs. The store is deleted exactly when it was made and nothing failed; otherwise it holds CheckpointAfter of the parts collected. No error and no completion means the byte count differed from the file size. Of the messages the manager sends itself, the monitor is told the resumed size and then "completing"; the part readers' progress reports are not in this log. |
| UploadEngine.UploadManager.UploadParts | pkg/cmd_utils/upload_utils/upload_manager.go:314-515 | Geometry, then file opening, then collection of the missing parts, then completion, for a settled upload id. The store is gone exactly when a completion was made without error; otherwise it holds CheckpointAfter of the parts collected, whatever failed. No error and no completion means the byte count differed from the file size. On success the manager's own messages are only "completing"; the part readers' progress reports are left out of the log. |
| UploadEngine.UploadManager.CollectAndComplete | pkg/cmd_utils/upload_utils/upload_manager.go:350-515 | Once the geometry is chosen and the file is open: only the file's store changes, and it is gone exactly when a completion was made without error; otherwise it holds CheckpointAfter of the parts collected. A completion is made at most once, with the parts of CompletedAs for the geometry's part count. No error and no completion means the stored plus collected byte count differs from the file size. On success the manager's own messages are only "completing"; the part readers' progress reports are left out of the log. |
| UploadEngine.CollectAll | pkg/cmd_utils/upload_utils/upload_manager.go:457-492 | Collects the missing parts with the source's acknowledgement. The file's store becomes CheckpointAfter of the parts collected, on success and on failure alike, and no other store changes; the byte count is the stored one plus theirs. A failure is a failed part upload, a failed batch write, a stall or a deadlock. With an empty checkpoint and a window of more than Capacity(threads) parts, no more than the part count, it deadlocks at once, collecting nothing. With part size 0 nothing is collected, and it succeeds exactly when the checkpoint is empty. On success every part number of the file is checkpointed or collected, whenever the sorted checkpoint fits the file (CoversFrom). |
| UploadEngine.NarrowPipelineGeometry | pkg/cmd_utils/upload_utils/upload_manager.go:345-374 | A 1 GiB file cut into 32 MiB parts has 32 parts and a window of 32, against a pipeline of 17 for four workers; the default 128 MiB parts give a window of 8, which fits. |
| UploadEngine.NarrowPipelineDeadlocks | pkg/cmd_utils/upload_utils/upload_manager.go:350-394 | Collecting that file with four workers and no checkpoint ends in `Deadlocked`, whatever the environment does. |
| UploadEngine.UploadManager.Complete | pkg/cmd_utils/upload_utils/upload_manager.go:494-515 | Completion as written: the monitor is told "completing"; a byte count that differs from the file size ends with no error, no completion and the store kept. Otherwise the completion is made from the checkpointed and collected parts, a permutation of them that satisfies CompletedAs, and the store is deleted only after it succeeds; the error is the completion's, else the deletion's. |
| UploadEngine.UploadManager.CompleteSorted | pkg/cmd_utils/upload_utils/upload_manager.go:506-515 | Completion is recorded exactly when the server accepts it. The error is the completion's, else the deletion's. The store is removed exactly on success. |
| UploadEngine.UploadManager.FPutObject | pkg/cmd_utils/upload_utils/upload_manager.go:208-246 | A missing file info or an unparsable part size fails at once. A file no larger than the part size is one PUT; a larger one is the multipart upload. The outcome is recorded as an error or a completed status; a stall or a deadlock (Hangs), where the source never returns, records nothing. A multipart upload reported completed either made its completion and deleted its store, or skipped both on a size mismatch. The log holds the manager's own messages, without the readers' progress reports. |
| UploadEngine.UploadManager.UploadFileThroughUrl | pkg/cmd_utils/upload_utils/upload_manager.go:178-204 | URL and tag parse failures and paths outside `/default/` are errors that change nothing. Otherwise the file goes to bucket `default` under the rest of the path, with the first value of each tag. |
| UploadEngine.UploadManager.constructor | pkg/cmd_utils/upload_utils/upload_manager.go:91-112 | NewUploadManager: no errors, no messages, no puts or completions yet; the monitor is attached unless hidden; the part size and the number of upload workers are kept. |
| UploadEngine.UploadManager.Send | pkg/cmd_utils/upload_utils/upload_manager.go:115-119 | UpdateMonitor: the message reaches the monitor exactly when one is attached; nothing else changes. |
| UploadProgress.GoDiv | pkg/cmd_utils/upload_utils/upload_manager.go:531 | Go's division truncates toward zero: the remainder has the sign of the dividend and is smaller than the divisor in magnitude. |
| UploadProgress.MonitorSeesReported | pkg/cmd_utils/upload_utils/upload_status_monitor.go:78-88 | Applying a reader's reports raises the monitor's byte count by exactly their sum and keeps the total. |
| UploadProgress.ProgressReader.Read | pkg/cmd_utils/upload_utils/upload_manager.go:527-537 | For the whole-file reader, and the same for the section reader at lines 555-565: counts the bytes read and reports the unreported amount exactly when it exceeds a twentieth of the total or the total is reached. The reports always add up to the checkpoint. |
| UploadProgress.TotalFullyReported | pkg/cmd_utils/upload_utils/upload_manager.go:531-533 | Once the whole total is read, everything read has been reported. |
| UploadProgress.ProgressReader.constructor | pkg/cmd_utils/upload_utils/upload_manager.go:518-525 | A reader (and the section reader of lines 545-552) starts with nothing read and nothing reported. |
| UploadStatusMonitor.ApplyUpdate | pkg/cmd_utils/upload_utils/upload_status_monitor.go:78-88 | A positive total replaces the total, a positive byte count is added, a set status replaces the status; nothing else changes. |
| UploadStatusMonitor.CountsBounded | pkg/cmd_utils/upload_utils/upload_status_monitor.go:151-155 | Completed plus skipped files never exceed the listed files. |
| UploadStatusMonitor.RemainingIffPending | pkg/cmd_utils/upload_utils/upload_status_monitor.go:151-155 | The remaining count is shown exactly when some listed file is neither completed nor previously uploaded. |
| UploadStatusMonitor.Monitor.constructor | pkg/cmd_utils/upload_utils/upload_status_monitor.go:43-51 | NewUploadStatusMonitor: no files listed, an empty status map, width 0. |
| UploadStatusMonitor.Monitor.Update | pkg/cmd_utils/upload_utils/upload_status_monitor.go:101-117 | Window size, add-file (appends the name, again if already listed, and resets its status), update (via ApplyUpdate; an unknown name crashes), quit and key messages each change exactly what they name, and the file list and map stay in step. |
| UploadStatusMonitor.Monitor.View | pkg/cmd_utils/upload_utils/upload_status_monitor.go:119-157 | None (a panic in `strings.Repeat`) exactly when some in-progress file's bar cannot be drawn: NaN or infinite progress, or a filled count at most −1 or at least 2^63 (see Ratio, BarPanics). Otherwise the header, one line per listed file in order, then the summary with its counts. |
| UploadStatusMonitor.Ratio | pkg/cmd_utils/upload_utils/upload_status_monitor.go:91-94 | The percentage is a number exactly when the total is not zero, and then it is uploaded·100/total; a zero total gives NaN for nothing uploaded and +Inf for a positive count. |
| UploadStatusMonitor.ProperProgressDraws | pkg/cmd_utils/upload_utils/upload_status_monitor.go:140-143 | A progress between 0 and 100 on a bar of width below 2^63 never makes `strings.Repeat` panic. |
| UploadStatusMonitor.RenderFiles | pkg/cmd_utils/upload_utils/upload_status_monitor.go:119-147 | None exactly when some listed file's progress bar cannot be drawn; otherwise the lines of the files in order and the numbers skipped and completed. |
| UploadStatusMonitor.AnyPanicsIff | pkg/cmd_utils/upload_utils/upload_status_monitor.go:122-146 | The line-by-line panic test over the list is true exactly when some listed file's line panics. |
| UploadStatusMonitor.EmptyFileInProgressPanics | pkg/cmd_utils/upload_utils/upload_status_monitor.go:91-94 | An empty file shown in progress (0 of 0 bytes) has NaN progress, so its line panics. |
| PromptsUploadMonitor.Progress | internal/prompts/upload_monitor.go:104-117 | A fully uploaded multipart file shows 99% until completion, then 100%. |
| PromptsUploadMonitor.ProgressFullIff | internal/prompts/upload_monitor.go:104-117 | Progress is 100% exactly when the file is fully uploaded and not awaiting multipart completion. |
| PromptsUploadMonitor.RatioIsHundred | internal/prompts/upload_monitor.go:104-117 | The ratio of uploaded to total bytes is 100% exactly when they are equal. |
| PromptsUploadMonitor.CountsBounded | internal/prompts/upload_monitor.go:147-183 | Skipped plus succeeded files never exceed the listed files. |
| PromptsUploadMonitor.RemainingIffPending | internal/prompts/upload_monitor.go:147-183 | The remaining count is shown exactly when some listed file is neither skipped nor at 100%. |
| PromptsUploadMonitor.Monitor.constructor | internal/prompts/upload_monitor.go:40-47 | NewUploadStatusMonitor: no files listed, an empty status map, width 0. |
| PromptsUploadMonitor.Monitor.AddUploadedFile | internal/prompts/upload_monitor.go:55-60 | Lists the file (again if present) with a fresh skipped entry. |
| PromptsUploadMonitor.Monitor.AddFile | internal/prompts/upload_monitor.go:70-80 | Lists the file with its size as total, nothing uploaded, and its multipart flag. |
| PromptsUploadMonitor.Monitor.UpdateFile | internal/prompts/upload_monitor.go:89-91 | Replaces the byte count by the value given. |
| PromptsUploadMonitor.Monitor.CompleteMultipart | internal/prompts/upload_monitor.go:99-101 | Marks the multipart completion done, nothing else. |
| PromptsUploadMonitor.Monitor.Update | internal/prompts/upload_monitor.go:124-145 | Dispatches each message to its operation; an update for a file never added crashes. |
| PromptsUploadMonitor.RenderFiles | internal/prompts/upload_monitor.go:151-171 | Fails exactly when a skipped file's padding would be negative or another file's progress bar cannot be drawn: a negative bar width, NaN or infinite progress, or a filled count at most −1 or at least 2^63. Otherwise: the lines of the files in order, the number skipped and the number at 100%. |
| PromptsUploadMonitor.Monitor.View | internal/prompts/upload_monitor.go:147-183 | Panics exactly when RenderFiles fails: a skipped file's negative padding or a progress bar that cannot be drawn. Otherwise: the lines in order and the summary. |
| PromptsUploadMonitor.AnyPanicsIff | internal/prompts/upload_monitor.go:151-171 | The line-by-line panic test over the list is true exactly when some listed file's line panics. |
| PromptsUploadMonitor.EmptyFilePanics | internal/prompts/upload_monitor.go:104-117 | An empty single-part file (0 of 0 bytes) has NaN progress, so its line panics. |
| ApiAuth.Base64RoundTrip | api/api_utils/auth_interceptor.go:36 | The standard base64 encoding is undone by a decoder of the same alphabet, for every byte string. |
| ApiAuth.Base64Encode | api/api_utils/auth_interceptor.go:36 | Standard padded base64: four characters per started group of three bytes. |
| ApiAuth.TransformToken | api/api_utils/auth_interceptor.go:31-41 | A token with exactly two dots gets `Bearer `. Any other is `Basic ` followed by the base64 of `apikey:<token>`. |
| ApiAuth.TransformBasic | api/api_utils/auth_interceptor.go:35-37 | A token without exactly two dots is sent as `Basic ` and the base64 of the bytes of `apikey:<token>`. |
| ApiAuth.CredentialsBytes | api/api_utils/auth_interceptor.go:36 | For an ASCII token, the bytes of `apikey:<token>` number one per character. |
| Utf8.EncodeAscii | api/api_utils/auth_interceptor.go:36 | The byte conversion of ASCII text gives one byte per character, the character's code. |
| ApiAuth.BasicCredentialsLength | api/api_utils/auth_interceptor.go:36 | The Basic header has four characters per three bytes of the credentials. |
| ApiAuth.Header.Set | api/api_utils/auth_interceptor.go:49-50 | Set replaces every value of the key. |
| ApiAuth.AuthInterceptor.constructor | api/api_utils/auth_interceptor.go:31-41 | The interceptor holds the transformed token. |
| ApiAuth.AuthInterceptor.SetAuthHeaders | api/api_utils/auth_interceptor.go:43-78 | Both auth headers carry exactly the token; other headers are untouched. |
| ApiRetry.ConnectCode | api/api_utils/unary_retry_interceptor.go:67-74 | The code of the first connect error in the wrap chain. |
| ApiRetry.RetryableThroughWraps | api/api_utils/unary_retry_interceptor.go:67-74 | Wrapping never changes whether an error is retried. |
| ApiRetry.Innermost | api/api_utils/unary_retry_interceptor.go:65-74 | The end of an error's wrap chain, which is never itself a wrapper. |
| ApiRetry.ChainShape | api/api_utils/unary_retry_interceptor.go:65-74 | Every error is its wrap messages applied, outermost first, to its innermost error. |
| ApiRetry.WrappedConnectRetried | api/api_utils/unary_retry_interceptor.go:65-74 | A connect error under any number of wraps needs no retry exactly when its code is not UNKNOWN, INTERNAL, UNAVAILABLE or ABORTED. |
| ApiRetry.WrappedPlainNotRetried | api/api_utils/unary_retry_interceptor.go:65-74 | An error with no connect error anywhere in its wrap chain never needs a retry. |
| ApiRetry.MaxRetries | api/api_utils/unary_retry_interceptor.go:51 | `uint64(retryMax)`: a negative count wraps to a huge one. |
| ApiRetry.RetryFrom | api/api_utils/unary_retry_interceptor.go:39-53 | Attempts go on while the error is retryable and retries remain; the last attempt's error is returned. |
| ApiRetry.Intercept | api/api_utils/unary_retry_interceptor.go:33-63 | At most retryMax+1 attempts. A non-retryable final error is returned as is; a retryable one is wrapped. |
| ApiRetry.ExhaustedRetries | api/api_utils/unary_retry_interceptor.go:53-60 | A call that always fails retryably is tried retryMax+1 times, and the error is wrapped. |
| ApiRetry.FirstNonRetryableReturned | api/api_utils/unary_retry_interceptor.go:39-57 | A first outcome that needs no retry is returned unchanged after one attempt. |
| RecordApi.FirstStop | api/record.go:249-265 | The first page that ends the listing (an error or an empty page). |
| RecordApi.ListPaged | api/record.go:249-267 | Requests pages 0, 100, 200, … with the filter until the first error (reported with its offset) or empty page; returns the items of the pages before, in order. |
| RecordApi.ListedItemsComeFromPages | api/record.go:249-267 | Every listed item comes from a page that was requested. |
| RecordApi.ListOfFixedCollection | api/record.go:249-267 | Against a server holding a fixed collection, the listing returns it whole. |
| RecordApi.RecordFilterEmptyIff | api/record.go:270-282 | The filter is empty exactly when archived records are included and no titles are given. |
| RecordApi.RecordFilterArchivedIff | api/record.go:270-282 | The filter starts with `is_archived=false` exactly when archived records are excluded. |
| RecordApi.RecordFilterTitles | api/record.go:270-282 | With titles, the filter ends with one parenthesised clause of `title:"<t>"` terms joined by ` OR `. |
| RecordApi.SingleTitleVerbatim | api/record.go:277 | Titles are inserted without escaping. |
| RecordApi.TitleTerms | api/record.go:277 | One `title:"<t>"` term per title, in order. |
| RecordApi.ListAll | api/record.go:237-268 | An empty project id is rejected before any request; otherwise the filtered paged listing. |
| RecordApi.DropDirectories | api/record.go:181-183 | Keeps only entries whose file name does not end in `/`. |
| RecordApi.DropDirectoriesCounts | api/record.go:181-183 | Each directory entry occurs 0 times in the result; every other entry as often as in the input. |
| RecordApi.DropDirectoriesKeepsOrder | api/record.go:181-183 | Filtering distributes over concatenation and keeps a single entry exactly when it is not a directory, so the kept entries stay in their input order. |
| RecordApi.ListAllFiles | api/record.go:155-184 | The recursive paged listing, with directories dropped. |
| RecordApi.ListAllEvents | api/record.go:210-235 | The unfiltered paged listing of events. |
| RecordApi.CopyPairs | api/record.go:137-153 | One pair per file, source and destination the file's name. It is undefined (a nil dereference) exactly when some file name does not parse. |
| RecordApi.CopyResult | api/record.go:121-135 | Success exactly when exactly one record is returned; any other count is an error naming it. |
| RecordApi.RecordId2Name | api/record.go:295-311 | A full name is returned without a request. An id is looked up in the project, and is an error exactly when the lookup fails. |
| ActionApi.FilterRun | api/action.go:168-180 | No record list gives the empty filter. A list (even empty) gives `match.records==[…]` with the quoted names joined by commas. |
| ActionApi.FilterRunEmptyList | api/action.go:168-180 | A non-nil empty list still filters, on `[]`. |
| ActionApi.FilterRunOneRecord | api/action.go:168-180 | One record gives its quoted name between the brackets. |
| ActionApi.QuotedNames | api/action.go:176 | One quoted record name per record, in order. |
| ActionApi.ListUntilShort | api/action.go:92-111 | Requests pages until an error or a page shorter than 100; the short page's items are included. |
| ActionApi.ListAllActions | api/action.go:84-116 | Lists actions with the (always empty) action filter. |
| ActionApi.ListAllActionRuns | api/action.go:138-166 | Lists action runs with filterRun's filter. |
| ActionApi.ListOfFixedCollection | api/action.go:92-111 | Against a fixed collection, the loop returns it whole after \|all\|/100+1 requests. |
| ActionApi.ActionId2Name | api/action.go:182-207 | A full name needs no lookup, and a non-UUID is an error. A UUID is looked up in the project first, then at organization level; the name of the first found is parsed. |
| RecordUpdate.EffectiveUpdateLabels | pkg/cmd/record/update.go:45-49 | An explicitly given but empty `--update-labels` becomes `[""]`; otherwise the list is as given. |
| RecordUpdate.Kept | pkg/cmd/record/update.go:81-87 | The current labels whose display name is not deleted, in order. |
| RecordUpdate.ToAppendMembers | pkg/cmd/record/update.go:89-92 | A name is looked up exactly when it is appended and not among the kept labels' names. |
| RecordUpdate.ResolveFailsAt | pkg/cmd/record/update.go:93-96 | Resolution stops at the first lookup that fails, with its error. |
| RecordUpdate.DeleteSet | pkg/cmd/record/update.go:70-73 | The delete set holds exactly the deleted names. |
| RecordUpdate.KeepLabels | pkg/cmd/record/update.go:81-87 | The loop keeps exactly Kept, and collects exactly their display names. |
| RecordUpdate.AppendLabels | pkg/cmd/record/update.go:89-98 | The loop appends the resolved labels of the names not kept, or fails at the first failed lookup. |
| RecordUpdate.AddUpdateLabels | pkg/cmd/record/update.go:105-111 | Resolves each update name in order and appends its label; the first failed lookup is the error. (Clearing on `[""]` is MergeLabels' branch at lines 101-103.) |
| RecordUpdate.MergeLabels | pkg/cmd/record/update.go:67-112 | The labels sent are MergedLabels of the inputs. |
| RecordUpdate.FieldMask | pkg/cmd/record/update.go:114-124 | `title`, `description` and `labels` appear exactly when their inputs are set, each once, in that order. |
| RecordUpdate.ClearingUpdateEmptiesLabels | pkg/cmd/record/update.go:101-103 | `[""]` as update list yields no labels. Its first clause also covers append and delete lists, which the command rejects alongside update labels (line 143). |
| RecordUpdate.ExplicitEmptyUpdateClears | pkg/cmd/record/update.go:101-103 | Giving `--update-labels` with no values (the flag of lines 45-49) clears the labels. |
| RecordUpdate.UpdateOnlyReplaces | pkg/cmd/record/update.go:67-112 | With no append or delete, the result is exactly the resolved update labels: the current labels are dropped. |
| RecordUpdate.DeleteOnlyKeepsTheRest | pkg/cmd/record/update.go:67-112 | With only deletions, the result is the current labels without the deleted names. |
| RecordUpdate.AppendingPresentLabelsIsNoOp | pkg/cmd/record/update.go:89-92 | Appending names the record already carries changes nothing. |
| RecordUpdate.KeptNothingDeleted | pkg/cmd/record/update.go:81-87 | With nothing deleted, every label is kept. |
| RecordUpdate.RepeatedAppendAddsTwice | pkg/cmd/record/update.go:85-97 | Appending the same new name twice adds its label twice, since appended names are not added to the seen set. |
| RecordUpdate.DeleteThenAppendMovesToEnd | pkg/cmd/record/update.go:81-97 | Deleting and appending the same name moves its label to the end. The command rejects this combination of flags (line 143); the lemma is about MergeLabels alone. |
| StringPrompt.BackspaceAsWritten | internal/prompts/string.go:45-48 | Backspace as written drops the last byte. |
| StringPrompt.BackspaceSplitsCharacter | internal/prompts/string.go:45-48 | After typing `é`, one backspace leaves a lone lead byte (see Findings). |
| StringPrompt.Backspace | internal/prompts/string.go:45-48 | Corrected backspace: drops a non-empty proper suffix, and leaves empty input alone. |
| StringPrompt.BackspaceUndoesRune | internal/prompts/string.go:44-48 | Corrected backspace after typing a character restores the previous text exactly. |
| StringPrompt.Update | internal/prompts/string.go:39-65 | As written: runes append their UTF-8 bytes and backspace drops the last byte. Enter quits, taking the default for an empty entry. Ctrl+C, Esc and Ctrl+D quit and abandon. |
| StringPrompt.TypedThenEnter | internal/prompts/string.go:39-65 | Typing a word and pressing enter yields the word, whatever the default. |
| StringPrompt.TypeEraseEnter | internal/prompts/string.go:39-65 | As written, typing one character, erasing and pressing enter yields the default exactly when the character is ASCII; otherwise its UTF-8 bytes but the last. |
| StringPrompt.RunCorrected | internal/prompts/string.go:39-65 | The run of the prompt with the corrected backspace keeps the prompt text and default, and is abandoned only by a quitting message. |
| StringPrompt.TypeEraseEnterGivesDefault | internal/prompts/string.go:39-65 | With the corrected backspace, typing any one character, erasing it and pressing enter yields the default. |
| StringPrompt.PromptString | internal/prompts/string.go:79-89 | The entered text, or none exactly when the prompt was abandoned (the process exits). |
| StringPrompt.View | internal/prompts/string.go:67-77 | An empty entry shows the default with `(type to change)` directly after it; otherwise the entry. |
| YesNoPrompt.Update | internal/prompts/yn.go:39-60 | `y` confirms and `n` declines; `q`, Ctrl+C and Ctrl+D abandon. Each of those quits, and other keys change nothing. |
| YesNoPrompt.PromptYN | internal/prompts/yn.go:66-76 | The answer, or none exactly when the prompt was abandoned. |
| YesNoPrompt.FirstDecisiveKeyDecides | internal/prompts/yn.go:39-76 | The first of `y`, `n`, `q`, Ctrl+C, Ctrl+D among the keys decides the result. |
| ProfileSwitch.IndexOf | pkg/cmd/login/switch.go:120 | slices.Index: the first position of the name, or −1 exactly when absent. |
| ProfileSwitch.Update | pkg/cmd/login/switch.go:71-91 | Up/down move the cursor within the list. Enter selects the cursor and quits; q and Ctrl+C quit without selecting. |
| ProfileSwitch.CursorStaysInRange | pkg/cmd/login/switch.go:77-84 | A cursor on the list stays on it, whatever the keys. |
| ProfileSwitch.RunInBounds | pkg/cmd/login/switch.go:71-91 | Cursor and selection stay within −1 … \|profiles\|−1. |
| ProfileSwitch.AbsentCurrentStartsOffList | pkg/cmd/login/switch.go:116-123 | With the current profile absent, the cursor starts at −1. Up keeps it there, down moves it to 0. |
| ProfileSwitch.PromptForProfile | pkg/cmd/login/switch.go:116-133 | The selected profile, or an error exactly when nothing was selected. |
| ProfileSwitch.EnterPicksCurrent | pkg/cmd/login/switch.go:116-133 | Pressing enter at once picks the current profile when it is listed, and fails otherwise. |
| FileWalk.Visit | internal/fs/iterator.go:40-68 | A file is emitted exactly when hidden files are allowed or its name does not start with a dot. Only directories are skipped, and `.cocli` always is. |
| FileWalk.GenerateFiles | internal/fs/iterator.go:35-77 | A root that cannot be found yields nothing and stops the walk. |
| FileWalk.WalkSound | internal/fs/iterator.go:40-69 | Every emitted path is a file the walk should reach (allowed names all the way, depth limited without recursion). |
| FileWalk.WalkComplete | internal/fs/iterator.go:40-69 | A walk that meets no error emits every file it should reach. |
| FileWalk.HiddenRootYieldsNothing | internal/fs/iterator.go:45-57 | A hidden root without includeHidden, or a root named `.cocli`, yields nothing. |
| FileWalk.NonRecursiveDepth | internal/fs/iterator.go:59-62 | Without recursion only the root file itself, or the files directly in the root, are reached. |
| Tables.KeptIndices | internal/printer/table/utils.go:20-26 | The positions of the columns whose resolved name is not omitted: each once, increasing, and all of them. |
| Tables.KeptColumns | internal/printer/table/utils.go:20-26 | The kept columns in their original order. |
| Tables.ColumnDefs2Table | internal/printer/table/utils.go:19-44 | One definition per kept column, in order. One row per item, each holding exactly the kept columns' cells for that item. |

## Left out

- Goroutines, channels and context cancellation of the multipart upload. The dispatcher, workers and collector are sequentialised. The collector picks any part currently uploading, so completion order is arbitrary. Cancellation via `ctx.Done()` is not modelled.
- The JSON encoding of the checkpoint's parts list is not modelled. It is a stored value that either decodes (`Encoded`) or does not (`Undecodable`). A marshalling failure, which cannot happen for these values, is left out. The checkpoint database's file layout (upload_db.go) is not part of this model; a store is a map entry keyed by record id, SHA-256 and path.
- `Send` messages carry the status monitor's message type; the terminal program itself is not modelled.
- The MIME type chosen for the multipart upload, the server-side encryption options and debug logging are not modelled.
- The PUT of a small file is one outcome (`putOk`). Its progress reader is modelled separately in `UploadProgress`.
- UploadEngine.UploadManager.FMultipartPutObject: `messages` omits the progress reports of the section readers (upload_manager.go:555-565), which every part's PUT sends to the monitor between the resumed size and "completing". Those readers are modelled on their own in `UploadProgress` (ProgressReader.Read, MonitorSeesReported); the log states only the messages the manager sends itself.
- UploadParts (UploadEngine.UploadManager.UploadParts): the same as FMultipartPutObject; its `messages` ensures leaves out the section readers' progress reports.
- CollectAndComplete (UploadEngine.UploadManager.CollectAndComplete): the same as FMultipartPutObject; its `messages` ensures leaves out the section readers' progress reports.
- UploadEngine.UploadManager.FPutObject: the log of a single PUT ("in progress", then "completed" or "failed") leaves out the whole-file reader's progress reports (upload_manager.go:527-537), modelled in `UploadProgress`; on the multipart path it omits the section readers' reports as above.
- int64 overflow of byte counts and part offsets is not modelled: sizes are unbounded integers. Files are capped at 500 GiB, far below the limit.
- RecordApi.ListAll, ListAllFiles, ListAllEvents: the page offset is sent as `int32(skip)` (api/record.go:167, 220, 253), which truncates once more than 2^31 − 1 items have been skipped; the model's offset is an unbounded `nat`.
- OptimalPartInfo: the part count int(+Inf) is modelled as amd64 converts it, to the smallest int64. On arm64 the conversion saturates to the largest int64, the fill loop then divides by the part size 0 (upload_manager.go:375) and the program panics; that platform is not modelled.
- CollectAll: with part size 0 the collector's count `totalPartsCount - len(partNumbers)` wraps around to a huge positive int64 when the checkpoint is not empty; the model states the consequence (a stall) rather than computing the wrapped value.
- Collect: a stall, where the source's collector waits for ever on a channel nothing will write, is modelled as the outcome `Stalled`, and a blocked pipeline as `Deadlocked`; FPutObject records neither (the source never returns from that call).
- Collect, CollectAll: the model ends with `Deadlocked` as soon as a fill leaves more than Capacity(threads) parts unacknowledged. The source's collector may still receive up to `NumThreads` + 1 parts already in flight before everything blocks; a failure among them returns an error instead of hanging, and their batches are written. The model does not follow those last steps. Only the no-checkpoint case is characterised (Collect's ensures); with a checkpoint the as-written heap can hold up to 2w − 1 parts, and no bound on the window that rules out the deadlock is stated.
- LiveHasUploading: speaks only of the dispatcher's heap. It does not mean the upload finishes: the channel-capacity deadlock is Collect's outcome `Deadlocked`.
- UploadCheckpoint.CompletePart: the four checksum fields of `minio.CompletePart` (upload_manager.go:468-475) are not modelled; they are copied unchanged from the part's response into the checkpoint and the completion request, and the model keeps only the part number and the ETag.
- MergeLabels: the command marks `--append-labels`, `--update-labels` and `--delete-labels` mutually exclusive (pkg/cmd/record/update.go:143), so cobra rejects any two of them before the merge runs. MergedLabels, MergeLabels, ClearingUpdateEmptiesLabels and DeleteThenAppendMovesToEnd also describe those combined inputs.
- ListPaged, ListUntilShort: against a server that never returns an empty page (api/record.go:249-265) or a short page (api/action.go:92-111) the source loops for ever. The model requires a page that ends the listing to exist (the ghost `last`), so that unending run is not modelled.
- UploadEngine.UploadManager.FPutObject: its ensures on the multipart path states the success case and the preserved stores; the failure case's exact error is stated on FMultipartPutObject instead.
- Progress percentages are reals, with NaN and ±Inf for a zero total; float64 rounding is not modelled. The filled count `int(progress*barWidth/100)` is taken as amd64 converts it: NaN, ±Inf and values outside int64 become the smallest int64, so `strings.Repeat` panics. On arm64 the conversion saturates and NaN becomes 0; that platform is not modelled. The text of a drawn progress line is a parameter.
- Word wrapping (`wordwrap.String`) and terminal widths are parameters. The yes/no prompt's View and the profile chooser's View are not modelled; the chooser's View indexes `profiles[cursor]`, which panics on an empty list or a cursor of −1.
- Bubbletea's program lifecycle is not modelled: `os.Exit`, `log.Fatalf`, and errors from `p.Run()`. An abandoned prompt yields `None`.
- Config.ProfileManager: `SetProfile` (a merge through `mergo`), `ProjectName` and the pass-through delegate methods (lines 66-136) are not modelled. Auth's nil-receiver check (profile.go 105-107) cannot arise, since a profile is an object reference.
- `api/project.go`, `name.Action`, `name.IsUUID` and the organization name are not part of this model. ActionApi.ActionId2Name takes the name parser and the UUID test as parameters.
- Header canonicalisation of the auth interceptor is not modelled: header keys are compared as given.
- The exponential backoff's timing and its maximum elapsed time are not modelled. With the default 15-minute cap, real runs can stop retrying earlier than retryMax+1 attempts.
- Byte versus character lengths: names, paths, filters and labels are `string` (a character sequence). Only the text prompt works on UTF-8 bytes, where the difference matters.
- `record update` reads the record and its project name through calls passed in as results. The label lookups (`GetByDisplayNameOrCreate`) are a function from name to result. The printed output and `log.Fatalf` exits are not modelled.
- The order of files emitted by the walk is not stated (only which files are emitted). Symlinks and path cleaning in `filepath.Join` are not modelled.

## Findings

| source | as written | input that shows it | evidently intended | confidence | as-written member | corrected member |
|---|---|---|---|---|---|---|
| pkg/cmd_utils/upload_utils/upload_manager.go:390-394 | When the heap empties, the window jumps to `partNumber + window`. The parts in between may all be in the checkpoint, so nothing is uploading while parts are still missing, and the collector waits forever. | Checkpoint parts 2–6 of 8, window of 2 parts: part 1 is sent. On its acknowledgement the window moves to 3–4, which are held; parts 7 and 8 are never sent. | When nothing is uploading, the window starts at the next part still missing. | medium, not executed | UploadDispatch.AckAsWritten, UploadDispatch.AsWrittenAckStalls, UploadDispatch.Dispatcher.Ack, UploadEngine.Advance | UploadDispatch.AckCorrected, UploadDispatch.Dispatcher.AckToNextMissing, UploadDispatch.CorrectedFillLeavesNothingBehind, UploadEngine.AdvanceCorrected, UploadEngine.LiveHasUploading |
| pkg/cmd_utils/upload_utils/upload_manager.go:497-499 | On a size mismatch the function returns `errors.Wrapf(err, …)`. At that point `err` is nil, so the result is nil and the file is reported as completed, without completing the upload. | A checkpoint holding parts 1 and 2 of 5 MiB (10 MiB), resumed for a 20 MiB file now cut into 10 MiB parts: no part is awaited and 10 MiB ≠ 20 MiB. | A mismatch is an error. | high, not executed | UploadEngine.SizeCheckAsWritten, UploadEngine.SizeMismatchReportsSuccess, UploadEngine.ResumeWithLargerPartsSkipsCompletion, UploadEngine.UploadManager.Complete | UploadEngine.SizeCheck |
| pkg/cmd_utils/upload_utils/upload_manager.go:352-389 | The three channels each buffer `NumThreads` values; the dispatcher sends a whole window (line 378) before it reads a completion (line 387), and the collector's acknowledgement (line 490) blocks too. A window of more than 4·`NumThreads` + 1 parts fills every buffer and every goroutine waits for ever. | A 1 GiB file with `--part-size 32Mib -P 4`: a window of 32 parts against a pipeline of 17. | The upload never hangs, whatever part size and parallelism are chosen. | high, not executed | UploadEngine.NarrowPipelineGeometry, UploadEngine.NarrowPipelineDeadlocks, UploadEngine.Collect, UploadEngine.CollectAll | UploadEngine.Collect |
| internal/prompts/string.go:45-48 | Backspace drops the last byte of the entered string, which splits a multi-byte UTF-8 character. | Type `é` (bytes C3 A9), press backspace: C3 remains. | Backspace removes the last character. | high, not executed | StringPrompt.BackspaceAsWritten, StringPrompt.BackspaceSplitsCharacter, StringPrompt.Update, StringPrompt.TypeEraseEnter | StringPrompt.Backspace, StringPrompt.BackspaceUndoesRune, StringPrompt.TypeEraseEnterGivesDefault |

The upload engine runs the source as written: Dispatcher.Ack, Advance and Complete follow lines 390-394 and 497-499. Collect takes a flag that runs the corrected engine instead (the corrected acknowledgement, and completions that reach the dispatcher while it fills), and then never stalls or deadlocks.

The model's dispatcher, as written and corrected alike, starts its window at NextMissing, the first part number not in the checkpoint. UploadDispatch.CorrectedStartAgrees shows that this equals the source's `minPart := curPart` (upload_manager.go:368-371, after `FindMinMissingInteger`) whenever the checkpoint has no repeated part number, which holds for every checkpoint the collector writes.

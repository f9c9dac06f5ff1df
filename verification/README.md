# Verification of the chunked file exchange

A Dafny model of how files are published in chunks, served, discovered and downloaded, with proofs about every
run of the download.

A publisher cuts a file into chunks of a fixed size and records the hash of each. A server holds a copy, checks it
against the hashes and answers byte-range requests. A downloader keeps, per file hash, the set of chunk indices
still outstanding; in rounds it starts one task per outstanding index, and each task requests its range, verifies
the hash, writes into the shared output file under the file's lock, and removes its index.

Run `dafny verify dfyconfig.toml`.

## Structure

| file | contents |
|---|---|
| Basics, Arithmetic, Text | bytes, outcomes, quotients, strings and decimal numbers |
| ChunkFiles | manifest records, chunk ranges and what they cover |
| BufferedReads, FileReader, LocalFileSystem, OutputFile | what a buffer hands out, reading and chunking loops, the object store, writing at a position |
| Validation, Entries | checking local files and configuration entries |
| Protocol | the download as a step machine: `Enabled`, `Apply`, `Exec` |
| Assembly | what the parts of a file make up when each is written where its index says |
| ProtocolInvariant | what every step keeps |
| ProtocolResults, ProtocolProgress, ProtocolSuccess | safety and correctness, bounds and deadlock freedom, when success is possible and when it is certain |
| ChunkDownload, Downloader | the retry loop and the downloader object, proved against the step machine |
| PublishedDownload | which cuts by the publisher a successful download puts together again |
| Urls, RangeHeader, Serving, HonestPath | request texts, the server's answers, publisher to downloader end to end |
| Finder, Admin | discovery, and the served map over all admin requests |
| Examples | five inputs on which the code disappoints, one it gets right against the odds, and texts, paths and parts spelled out |

## How the program is modelled

- The hash (SHA-256 and base64) is a function parameter. Collision freedom is a hypothesis about the published
  parts, never an axiom.
- A manifest is described by the parts its hashes are of (`GoodConfig`): any cut of the files that short reads by
  the publisher can make. Records of whole chunks are the special case `WholeConfig`.
- `buffer_unordered(0)` of futures 0.3 is taken to start nothing and never to complete (subfile_finder/mod.rs:75).
- A call returns a value, an error or a panic. Indexing out of bounds, dividing by zero and overflowing 64-bit
  arithmetic are panics; overflow is taken as checked, as in the development profile.
- A run of the download is a sequence of events. Replies are arbitrary bytes or errors; seeks and writes may fail,
  and a failing write leaves any prefix; a task may panic while requesting. When a task panics the main thread
  gives up that file, and its other tasks keep running beside the next file. Cargo.toml:8-12 makes a panic abort
  the process in both of its profiles, so there no task outlives another's panic: the model's runs include those
  of that build and more. Such leftover tasks are the only reason why a claim about an entry after another has
  failed asks for a hash and name of its own.
- Tasks of one file share one cursor. The lock is taken, the cursor moved, and the data written piece by piece in
  separate steps, so other tasks' steps fall in between.
- Counters `requests`, `rounds`, `barren` and `won` record history and do not influence any step.
- `read` on a local file may return fewer bytes than asked for, in any way, in none, or as a buffer of a given
  capacity over full reads makes it. The last is the publisher's reader, with 8192 bytes by default.

## Findings

- A file published in whole chunks whose size is a multiple of its chunk size, or zero, cannot be validated or
  downloaded: the index loop asks for one chunk more than was published (`ServableIff`, `UnservablePanics`,
  `WholeSuccessPossibleIff`).
- Two manifest entries with one hash share one outstanding set, so the second file is left empty although the
  download reports success (`SuccessCorrectIff`, `TwoNamesLeaveOneEmpty`).
- The publisher takes one read through a buffer for one chunk. A chunk size below the buffer's capacity that does
  not divide it gives, for every file larger than the buffer, a record that does not validate
  (`BufferedPublishThenValidateIff`, `BufferedPublishFails`).
- The downloader compares hashes but no lengths, so it can take such a record's parts for its chunks: 8193 bytes
  published in chunks of 5000 download with success and lack the last byte (`LastByteIsLost`). A file comes back
  exactly if each chunk is its part padded with zeros (`CutDownloadIff`). That a buffer does not fit is not always a
  loss (`ZerosComeBack`), but it is unless the first byte after the buffer is a zero (`BufferedDownload`).
- docs/feature_checklist.md:37 says that a file is added to the service once verified; start-up ignores a failed
  verification (`StartedValidIff`, `UnverifiedIsServed`). The model follows the code.
- A blocked endpoint is left out only by the next availability check; within a run it is chosen as before, so no
  claim is made that blocking helps a run.

## Model

| member | source | states |
|---|---|---|
| ProtocolInvariant.RunKeepsInv | subfile-exchange/src/subfile_client/mod.rs:167-241 | every run of the download, from any state satisfying the invariant, ends in one: request and data of each task, locks, outstanding sets, rounds and output files |
| ProtocolInvariant.StepKeepsInv | subfile-exchange/src/subfile_client/mod.rs:180-233 | each single step of the main thread or of a task keeps that invariant, whatever the reply and even when a seek or write fails |
| ProtocolInvariant.InitInv | subfile-exchange/src/subfile_client/mod.rs:124-135 | the state after targeting satisfies the invariant, whatever the output directory held |
| ProtocolInvariant.FetchablePart | subfile-exchange/src/subfile_client/mod.rs:269-274 | an index with a range and a hash has a part of the published file, non-empty and at most a chunk long, and no other data has its hash |
| ProtocolInvariant.WriteExtends | subfile-exchange/src/subfile_client/mod.rs:376-382 | a write of the next bytes of a part, complete or cut short, extends what is in place, keeps everything already in place, and leaves nothing else in the file but zeros |
| ProtocolInvariant.RoundShrinks | subfile-exchange/src/subfile_client/mod.rs:183-232 | at the end of a round the outstanding set is the round's start less exactly as many indices as joined tasks succeeded |
| ProtocolResults.ChunksInPlace | subfile-exchange/src/subfile_client/mod.rs:192-205 | in every reachable state, a tracked entry (one whose name and hash are its own, or, while no entry has failed, the first of its hash until its name is opened again) has each index that is no longer outstanding stored: from the start of the requested range its file holds the published part, which has the recorded hash |
| ProtocolResults.WholeChunkInPlace | subfile-exchange/src/subfile_client/mod.rs:269-274 | for a file published in whole chunks those bytes are exactly the requested range of the published file |
| ProtocolResults.ChunksStayInPlace | subfile-exchange/src/subfile_client/mod.rs:352-406 | no continuation of the run, failed and partial writes included, disturbs a chunk once in place while its entry is tracked |
| ProtocolResults.SoloStaysInPlace | subfile-exchange/src/subfile_client/mod.rs:352-406 | for an entry whose name and hash are its own that holds in every later state, whatever fails |
| ProtocolResults.OutstandingNeverGrows | subfile-exchange/src/subfile_client/mod.rs:196-202 | no step after targeting adds an index to an outstanding set |
| ProtocolResults.SuccessLeaves | subfile-exchange/src/subfile_client/mod.rs:123-153 | for records of any cut of their files, whole chunks or not, all runs that return Ok leave the same output files: each name holds the parts of the last entry with that name, each at the position of its index with zeros between, or nothing if an earlier entry had that entry's hash |
| ProtocolResults.SuccessCorrectIff | subfile-exchange/src/subfile_client/mod.rs:123-153 | for records of any cut, after a run that returns Ok every output file equals its published content if and only if, for each name, the last entry with it is the first with its hash, has the content of all entries of that name, and was cut so that each chunk is its part padded with zeros |
| PublishedDownload.WholeSuccessCorrectIff | subfile-exchange/src/subfile_client/mod.rs:123-153 | for records of whole chunks (the hypothesis `WholeConfig`), if and only if, for each name, the last entry with it is the first with its hash and has the content of all entries of that name |
| PublishedDownload.CutDownloadIff | subfile-exchange/src/subfile_client/mod.rs:374-383 | where a download can succeed, every Ok download leaves an entry's published file if and only if each chunk is the part recorded for it, padded with zeros |
| PublishedDownload.CutDownloadWholeIff | subfile-exchange/src/subfile_client/mod.rs:374-383 | for a file without zero bytes that is: if and only if every part but the last is full and the chunk size does not divide the size |
| PublishedDownload.BufferedDownload | subfile-exchange/src/subfile/file_reader.rs:45-69 | for a file published through a buffer, an Ok download leaves it exactly if it is put together again; if the first byte after the buffer is not a zero, exactly if the buffer fits and the chunk size does not divide the size |
| PublishedDownload.CutReassembles | subfile-exchange/src/subfile_client/mod.rs:269-274 | a cut into whole chunks is put together again unless the chunk size divides the size, which no cut survives; of a file without zero bytes no other cut is |
| Assembly.ReassemblesIff | subfile-exchange/src/subfile_client/mod.rs:376-381 | the parts written at the positions of their indices are the content if and only if each chunk is its part padded with zeros, and the last its part |
| Examples.LastByteIsLost | subfile-exchange/src/subfile_client/mod.rs:374-383 | any 8193 bytes published in chunks of 5000 can be downloaded with Ok, and each such download leaves the first 8192 |
| Examples.ZerosComeBack | subfile-exchange/src/subfile_client/mod.rs:374-383 | 18192 zeros published in chunks of 5000 are not cut into whole chunks, and each Ok download leaves them all the same |
| ProtocolResults.DistinctManifestSoundIff | subfile-exchange/src/subfile_client/mod.rs:41-42 | with distinct names and distinct hashes the manifest's condition is that of each record alone |
| ProtocolResults.FinishedAskable | subfile-exchange/src/subfile_client/mod.rs:180-187 | a download that returned Ok had only records with a range and a hash for every index of the loop |
| ChunkFiles.AskableIff | subfile-exchange/src/subfile_client/mod.rs:269-274 | for a record of whole chunks that is: the size is no multiple of the chunk size, and the ranges fit 64 bits |
| ProtocolResults.NothingOutstanding | subfile-exchange/src/subfile_client/mod.rs:180-240 | a tracked file with nothing outstanding is its record's parts at the positions of their indices, with nothing between them but zeros |
| ProtocolSuccess.SuccessPossibleIff | subfile-exchange/src/subfile_client/mod.rs:108-153 | for records of any cut, some run returns Ok if and only if there is an endpoint (or no entry) and every index of every loop has a range within 64 bits and a hash |
| PublishedDownload.WholeSuccessPossibleIff | subfile-exchange/src/subfile_client/mod.rs:108-153 | for records of whole chunks, if and only if there is an endpoint (or no entry), no file's size is a multiple of its chunk size, and no range overflows 64 bits |
| ProtocolSuccess.HonestRunSucceeds | subfile-exchange/src/subfile_client/mod.rs:123-240 | when every reply passes the check and every open and write succeeds, then under every schedule no entry fails, no entry needs a second round, the run is no longer than a bound computed from the manifest, and no step is possible exactly when the download has returned Ok |
| ProtocolSuccess.EntryCostIs | subfile-exchange/src/subfile_client/mod.rs:167-240 | that bound counts for each entry six steps, and for each index eight and one more per byte of a chunk |
| ProtocolSuccess.HonestRunEnds | subfile-exchange/src/subfile_client/mod.rs:123-240 | every such run, however far it has got, can be continued to Ok |
| ProtocolSuccess.FailureCause | subfile-exchange/src/subfile_client/mod.rs:228-263 | over every run, an entry fails only when there is no endpoint to choose or a task has panicked; a task that returned an error only costs a round |
| ProtocolSuccess.CrashCause | subfile-exchange/src/subfile_client/mod.rs:174-277 | over every run, the main thread panics only when an output file does not open or some index of the manifest has no range or no hash |
| HonestPath.HonestServerReply | subfile-exchange/src/subfile_client/mod.rs:362-405 | in every reachable state, a requesting task accepts what a server with validated files answers to its request |
| HonestPath.ServedRunSucceeds | subfile-service/src/subfile_server/routes.rs:107-145 | a run answered by servers with validated files, of which there may be many, is bounded, loses no entry, and stops exactly in Ok; then each name holds the published content of the last entry with it, or nothing if an earlier entry had that hash |
| HonestPath.ServedRunEnds | subfile-exchange/src/subfile_client/mod.rs:123-240 | every state of such a run can be continued to Ok with one such server's answers alone |
| HonestPath.HonestServerWhole | subfile-exchange/src/subfile/mod.rs:144-171 | a server can only have validated a record of whole chunks, so what it serves is put together again |
| ProtocolProgress.RoundsBounded | subfile-exchange/src/subfile_client/mod.rs:180-233 | rounds of a file that had a success are at most total_bytes / chunk_size + 1, and when they are that many the loop ends |
| ProtocolProgress.RoundLoss | subfile-exchange/src/subfile_client/mod.rs:180-233 | over any run, a finished round has removed exactly the number of its tasks that succeeded |
| ProtocolProgress.RoundsCounted | subfile-exchange/src/subfile_client/mod.rs:180-233 | a finished round is counted, as barren exactly when none of its tasks succeeded, and the counts start again with each file |
| ProtocolProgress.RequestsBounded | subfile-exchange/src/subfile_client/mod.rs:356-405 | a task sends at most max(1, max_retry) requests |
| ProtocolProgress.OneWritePerSuccess | subfile-exchange/src/subfile_client/mod.rs:374-383 | a task that returned Ok has completed exactly one write, one that returned an error none |
| ProtocolProgress.StepsBounded | subfile-exchange/src/subfile_client/mod.rs:352-406 | each step of a task uses up one of a measure that never falls below zero |
| ProtocolProgress.TaskStepsBounded | subfile-exchange/src/subfile_client/mod.rs:352-406 | over a whole run a task takes at most max(1, max_retry) + chunk_size + 5 steps |
| ProtocolProgress.DeadlockFree | subfile-exchange/src/subfile_client/mod.rs:228-232 | until the download has returned or panicked some step is possible; joining never waits on a lock nobody can release |
| ProtocolProgress.BlocklistIff | subfile-exchange/src/subfile_client/mod.rs:206-220 | over every run, if no endpoint URL runs into the route, blocked beside what was blocked before are exactly the endpoints asked by tasks that ended in an error, under their own URLs |
| ProtocolProgress.FailedIsBlocked | subfile-exchange/src/subfile_client/mod.rs:206-220 | over every run, each task that ended in an error asked an endpoint of the list, and that endpoint is blocked |
| ProtocolProgress.BlocklistGrows | subfile-exchange/src/subfile_client/mod.rs:206-220 | no step takes a URL off the blocklist |
| ProtocolProgress.BlocksOnlyEndpoints | subfile-exchange/src/subfile_client/mod.rs:206-220 | a run blocks only endpoints of the list, under their own URLs, if no endpoint URL runs into the route |
| ProtocolProgress.TaskPossible | subfile-exchange/src/subfile_client/mod.rs:352-406 | what can happen to a task: any reply to a request, or a panic instead; a seek and each write may fail; the lock can be taken exactly while no task of the file has it |
| ProtocolProgress.MainPossible | subfile-exchange/src/subfile_client/mod.rs:167-287 | what the main thread can do: spawn any outstanding index at any endpoint of the list, join a task exactly when it has ended or panicked |
| ChunkDownload.DownloadChunkAndWriteToFile | subfile-exchange/src/subfile_client/mod.rs:352-406 | the retry loop as a method: result, requests sent and file contents as the meaning of the replies and of the seek and write outcomes |
| ChunkDownload.RequestLoopIff | subfile-exchange/src/subfile_client/mod.rs:356-405 | the first reply that is no error decides, if it comes within the allowed number; it is verified exactly when it has the expected hash |
| ChunkDownload.LoopIsProtocol | subfile-exchange/src/subfile_client/mod.rs:362-405 | the step machine's task goes through exactly the loop's phase and request count on the same replies |
| ChunkDownload.TaskIsProtocol | subfile-exchange/src/subfile_client/mod.rs:352-406 | a task that finds its lock free does in the step machine what the method does: as many requests, success in the same cases, the same file after failed seeks and cut-short writes |
| Downloader.SubfileDownloader.TargetChunks | subfile-exchange/src/subfile_client/mod.rs:108-119 | inserts all indices of each entry into the set of its hash; panics exactly when the bound of an index loop divides by zero or overflows |
| Downloader.TargetsAreIndexSets | subfile-exchange/src/subfile_client/mod.rs:108-119 | a fresh downloader's set for each entry is exactly that entry's own indices, duplicates of a hash included |
| Downloader.TargetsIff | subfile-exchange/src/subfile_client/mod.rs:108-119 | outstanding for a hash are exactly the indices of all entries with that hash, beside those that were before |
| Downloader.SubfileDownloader.AvailabilityCheck | subfile-exchange/src/subfile_client/mod.rs:289-335 | the endpoint list becomes exactly the static endpoints that are not blocked, name an operator and list the subfile, an error when there is none; with no endpoint to ask it never returns |
| Downloader.SubfileDownloader.StepMain | subfile-exchange/src/subfile_client/mod.rs:167-287 | each action of the main thread on the shared fields is the corresponding step of the machine |
| Downloader.SubfileDownloader.StepTask | subfile-exchange/src/subfile_client/mod.rs:193-223 | each action of a task on file, outstanding sets and blocklist is the corresponding step of the machine |
| Downloader.SubfileDownloader.DownloadSubfile | subfile-exchange/src/subfile_client/mod.rs:123-153 | the state it ends in is that of the schedule run from the targeted state, with exactly the endpoints the check found, and the result is that state's: Ok for every schedule that runs to success, an error, a panic, or none yet; Ok means every file is what the manifest says a download leaves; an error means no endpoint or a task that panicked; a panic means a file that did not open or an index without range or hash |
| Protocol.RunIsExec | subfile-exchange/src/subfile_client/mod.rs:167-240 | a schedule whose every step is possible is run to its end |
| Protocol.RequestExact | subfile-exchange/src/subfile_client/mod.rs:266-287 | a request goes to the endpoint's URL, `/subfiles/id/` and the subfile's hash, and asks for the file's hash, the chunk's first and last byte, its hash and the retry limit; it can be built exactly when the index has a range and a hash |
| Examples.TwoNamesLeaveOneEmpty | subfile-exchange/src/subfile_client/mod.rs:109-119 | a manifest listing one file under two names can be downloaded with Ok, and each such download leaves the second file empty |
| ChunkFiles.RangesPartition | subfile-exchange/src/subfile/mod.rs:144-147 | for a servable record the loop's ranges are non-empty, in order and disjoint, cover the file, fit 64 bits, and position b lies in range b / chunk_size |
| ChunkFiles.LastRangeNonEmptyIff | subfile-exchange/src/subfile_client/mod.rs:115 | the last index has a non-empty range if and only if the size is no multiple of the chunk size |
| ChunkFiles.ServableIff | subfile-exchange/src/subfile_client/mod.rs:269-274 | every index of the loop has a range and a hash if and only if the record is servable |
| ChunkFiles.ServableLoopFits | subfile-exchange/src/subfile/mod.rs:144 | the loop bound overflows only for chunks of one byte and 2^64 - 1 of them, and never for a servable record |
| ChunkFiles.RangeOfCountedChunk | subfile-exchange/src/subfile_client/mod.rs:269-273 | the range computed for an index of a chunk is that chunk, and overflow is the only way it can fail |
| ChunkFiles.AllChunksMakeTheFile | subfile-exchange/src/subfile_client/mod.rs:376-381 | content that agrees with the published bytes on every chunk and is no longer is the published content |
| ChunkFiles.ChunksConcatenate | subfile-exchange/src/subfile/file_reader.rs:45-69 | the chunks of a file, one after the other, are the file |
| FileReader.ChunkFileLoop | subfile-exchange/src/subfile/file_reader.rs:45-69 | for every schedule of short reads and positive chunk size: terminates, parts are non-empty and at most chunk_size long, concatenate to the file, total_bytes is their sum; on full reads they are the chunks, through a buffer they are the buffer's answers; a chunk size of zero gives nothing |
| FileReader.NewChunkFile | subfile-exchange/src/subfile/mod.rs:55-68 | the record of a file: its size and the hash of each part, for any cut the reads make; on full reads a record of whole chunks |
| FileReader.FormatPathIs | subfile-exchange/src/subfile/file_reader.rs:71-78 | one separator stands between directory and name |
| Validation.PathsAgreeIff | subfile-exchange/src/subfile/mod.rs:136-137 | publisher and validator mean the same file by a directory and a name exactly when the directory is named and the name is relative |
| Validation.PathPushIs | subfile-exchange/src/subfile/mod.rs:136-137 | an absolute name replaces the path; otherwise one separator stands between them |
| Examples.Paths | subfile-exchange/src/subfile/file_reader.rs:71-78 | both paths, spelled out |
| FileReader.ReadChunk | subfile-exchange/src/subfile/file_reader.rs:10-42 | seek and exact read give the slice with inclusive bounds, a range error out of bounds, a panic on bounds in the wrong order |
| FileReader.FileSlice | subfile-exchange/src/subfile/file_reader.rs:19-41 | succeeds exactly for start <= end inside the file, with the end - start + 1 bytes from start on |
| FileReader.CutIsChunksIff | subfile-exchange/src/subfile/file_reader.rs:45-69 | the parts of the read loop are the chunks exactly when all but the last are full |
| BufferedReads.BufferedPartsFullIff | subfile-exchange/src/subfile/file_reader.rs:47-62 | a buffered reader cuts no part but the last short if and only if the chunk size is at least the buffer's capacity, or divides it, or the file fits the buffer |
| FileReader.BufferedChunksIff | subfile-exchange/src/subfile/file_reader.rs:45-69 | through a buffer the parts are a cut of the file, and its chunks exactly under that condition |
| LocalFileSystem.Store.MultipartWrite | subfile-exchange/src/subfile/local_file_system.rs:115-144 | the object is exactly the bytes given, for every step that can be used, in as many writes as there are parts; otherwise a panic and an unchanged store |
| LocalFileSystem.WriteThenRead | subfile-exchange/src/subfile/local_file_system.rs:78-144 | writing with one step and reading with another gives the bytes back, for all data and all steps, explicit or default, that can be used |
| LocalFileSystem.ReadBack | subfile-exchange/src/subfile/local_file_system.rs:90-111 | multipart read returns parts that concatenate to the object, exactly when the step is positive and does not overflow |
| LocalFileSystem.DefaultStepFitsIff | subfile-exchange/src/subfile/local_file_system.rs:127-134 | the default step can be used for every size but zero |
| LocalFileSystem.StepFitsIff | subfile-exchange/src/subfile/local_file_system.rs:98-103 | a step can be used exactly when it is not zero and every range bound of the loop fits 64 bits |
| LocalFileSystem.PartCountBound | subfile-exchange/src/subfile/local_file_system.rs:90-103 | with the default step and concurrency k, sizes from k up give k + 1 to 2k parts, and sizes below give the whole and an empty part |
| LocalFileSystem.DefaultParts | subfile-exchange/src/subfile/local_file_system.rs:44-45 | by default an object of 16 bytes or more is read in 17 to 32 parts, and one of 8 or more written in 9 to 16 |
| LocalFileSystem.ExplicitParts | subfile-exchange/src/subfile/local_file_system.rs:90-111 | with a chunk size, part i holds the bytes from i times that size on |
| LocalFileSystem.MissingObject | subfile-exchange/src/subfile/local_file_system.rs:78-89 | reading or chunking an object that is not there is an error |
| LocalFileSystem.ChunkersAgreeIff | subfile-exchange/src/subfile/local_file_system.rs:162-183 | publisher's and store's chunker give equal records for the same explicit size exactly when it is below the file size and does not divide it |
| Validation.ReadAndValidateFile | subfile-exchange/src/subfile/mod.rs:131-173 | the loop's outcome is that of the first index whose range, hash, read or comparison does not succeed |
| Validation.ValidateLocalSubfile | subfile-exchange/src/subfile/mod.rs:115-128 | the outcome of the first file that does not validate |
| Validation.ValidateFromOkIff | subfile-exchange/src/subfile/mod.rs:144-172 | validation succeeds exactly when every index of the loop checks out |
| Validation.CheckChunkIs | subfile-exchange/src/subfile/mod.rs:144-171 | one turn of the loop, case by case: panics, file and range errors, and the error for bytes of another hash |
| Validation.FirstTurnDecides | subfile-exchange/src/subfile/mod.rs:144-172 | otherwise the outcome is that of the first index that does not check out |
| Validation.FirstFileDecides | subfile-exchange/src/subfile/mod.rs:122-124 | and for a subfile that of its first file that does not validate |
| Validation.ValidateFileIs | subfile-exchange/src/subfile/mod.rs:131-144 | a chunk size of zero or an index too many panics; of any other file the turns are taken at the path of the subfile extended by the name |
| Validation.ValidatorExact | subfile-exchange/src/subfile/mod.rs:131-173 | a local file of a published record is accepted if and only if the record is servable and the published content is a prefix of the file |
| Validation.UnservablePanics | subfile-exchange/src/subfile/mod.rs:144-154 | on a file that holds the content, a record that is not servable makes the validator panic |
| Validation.PublishThenValidateIff | subfile-exchange/src/subfile/mod.rs:55-68 | publishing under any short reads and validating in place succeeds if and only if every part but the last was full and the record is servable |
| Validation.BufferedPublishThenValidateIff | subfile-exchange/src/subfile/mod.rs:55-68 | publishing through a buffer and validating in place succeeds if and only if the chunk size is at least the capacity or divides it or the file fits the buffer, and the record is servable |
| Examples.BufferedPublishFails | subfile-exchange/src/subfile/file_reader.rs:47-62 | any 8193 bytes published in chunks of 3000 through the reader's own buffer of 8192 give a record that does not validate on the same file |
| Examples.ExactMultiplePanics | subfile-exchange/src/subfile/mod.rs:144-154 | two bytes published in chunks of two make the validator panic on the same file |
| Entries.ValidateSubfileEntries | subfile-exchange/src/subfile/mod.rs:177-185 | all entries accepted, in order, or an error |
| Entries.ValidateEntriesIff | subfile-exchange/src/subfile/mod.rs:177-185 | the entries are accepted exactly when each is, and refused otherwise |
| Entries.ValidateEntryIff | subfile-exchange/src/subfile/mod.rs:188-217 | an entry is accepted exactly when it is a hash of 46 characters beginning with Qm, one colon and an existing path |
| Finder.ReadSubfile | subfile-exchange/src/subfile/subfile_reader.rs:89-113 | succeeds exactly when the manifest and every record it names can be fetched; the files are the manifest's in order, each with the record fetched by its hash |
| Finder.SubfileAvailabilities | subfile-exchange/src/subfile_finder/mod.rs:35-88 | contains exactly the endpoints of the checklist that name their operator and list the subfile, with that operator |
| Finder.AvailabilityMap.FileAvailability | subfile-exchange/src/subfile_finder/mod.rs:121-165 | one endpoint adds, at itself only, the subfiles up to the first failed manifest that contain the target; Ok exactly when everything was fetched and every target is served somewhere |
| Finder.AvailabilityMap.Record | subfile-exchange/src/subfile_finder/mod.rs:139-150 | one subfile is appended for exactly the targets its manifest contains |
| Finder.AvailabilityMap.UnavailableFiles | subfile-exchange/src/subfile_finder/mod.rs:221-231 | exactly the targets without an endpoint, each once |
| Finder.FileDiscovery | subfile-exchange/src/subfile_finder/mod.rs:90-118 | keys are exactly the hashes of the manifest's files, and each list is the concatenation of what the endpoints were found to serve |
| Finder.DiscoveredIff | subfile-exchange/src/subfile_finder/mod.rs:110-150 | a subfile is in a list exactly when an endpoint of the checklist names its operator, lists the subfile before any it cannot be asked about, and the subfile's manifest has the target |
| Finder.MatchingIs | subfile-exchange/src/subfile_finder/mod.rs:132-150 | the order of a list: subfile after subfile, until one's manifest cannot be fetched |
| Finder.FoundAllDistinct | subfile-exchange/src/subfile_finder/mod.rs:110-114 | with distinct endpoints each list is what that endpoint alone serves |
| Finder.MatchingIff | subfile-exchange/src/subfile_finder/mod.rs:132-150 | a subfile is listed exactly when it contains the target and all manifests up to it could be fetched |
| Finder.UnavailableIff | subfile-exchange/src/subfile_finder/mod.rs:153-161 | a target's entry is empty if and only if no endpoint of the checklist serves it |
| Urls.BaseUrlRoundTripIff | subfile-exchange/src/subfile_client/mod.rs:458-464 | the base URL taken from a request is the endpoint's URL if and only if that URL with a slash does not contain the route |
| Urls.ExtractBaseUrlIff | subfile-exchange/src/subfile_client/mod.rs:458-464 | the base URL is what stands before the first occurrence of the route, and there is none without one; blocked is the base URL, or the whole without one |
| Text.TrimRepeated | subfile-service/src/subfile_server/routes.rs:79 | trimming removes the prefix however often it is repeated, and nothing else |
| RangeHeader.RangeRoundTrip | subfile-service/src/subfile_server/range.rs:13-39 | the printed range of any two numbers is read back as that pair, and refused when one exceeds 64 bits |
| RangeHeader.ParseRangeIff | subfile-service/src/subfile_server/range.rs:18-38 | exactly the texts `bytes=x-y` of two 64-bit numerals are accepted, with their values |
| Text.ParseU64Iff | subfile-service/src/subfile_server/range.rs:31-36 | a numeral is digits after an optional plus sign whose value fits 64 bits |
| Text.PrintParse | subfile-exchange/src/subfile_client/mod.rs:417 | decimal text parses back to the number exactly when it fits 64 bits |
| Text.CanonicalIsPrinted | subfile-exchange/src/subfile_client/mod.rs:417 | the printed form of a number is the one text of digits with its value and no leading zero |
| Examples.Texts | subfile-exchange/src/subfile_client/mod.rs:417 | the range header, the content range and the URL of a request, spelled out |
| Serving.ServeFileRange | subfile-service/src/subfile_server/range.rs:41-125 | seek and exact read give the partial response, or the error response of the failing check |
| Serving.ServerAgreesWithValidator | subfile-service/src/subfile_server/range.rs:73-124 | server and validator succeed on the same ranges with the same end - start + 1 bytes, and fail alike |
| Serving.UnauthorizedIff | subfile-service/src/subfile_server/routes.rs:89-105 | a request is answered 401, without a byte of a file, if and only if the server has a token and the request's is another or none |
| Serving.NotFoundAnswers | subfile-service/src/subfile_server/routes.rs:107-157 | an admitted request is answered 404 for an unknown identifier or file hash and 406 without a file hash |
| Serving.WholeFileAnswers | subfile-service/src/subfile_server/range.rs:127-142 | without a range an admitted request gets the whole file with 200, or 500 when it cannot be read |
| Serving.RangeAnswers | subfile-service/src/subfile_server/range.rs:41-125 | with a range it gets 206, the bytes from first to last and their content range, 416 out of bounds, a panic for the wrong order, 500 without the file, and an error for any other text |
| Serving.AcceptedBodyIff | subfile-exchange/src/subfile_client/mod.rs:439-455 | the client takes the body of a successful answer that has a content range, and no other |
| Serving.AcceptedIsPartial | subfile-exchange/src/subfile_client/mod.rs:439-455 | of this server's answers that are exactly those with 206 |
| Serving.RoutedId | subfile-service/src/subfile_server/routes.rs:79 | the identifier of a request path is recovered however often the route is repeated before it |
| HonestPath.HonestReply | subfile-service/src/subfile_server/routes.rs:107-145 | every request the downloader can build, received under the path of its own URL, is answered 206 by a server whose files validated, with bytes that verify |
| HonestPath.RequestRouted | subfile-exchange/src/subfile_client/mod.rs:408-437 | the server finds the subfile's identifier, the token, the file hash and the range in the request that the downloader builds |
| HonestPath.PublishedIsServed | subfile-service/src/subfile_server/routes.rs:122-145 | for published, servable files whose content the server's files begin with, each reply is exactly the published chunk |
| HonestPath.ValidatedIndex | subfile-exchange/src/subfile/mod.rs:144-171 | after validation every index has a request, and its range of the local file has the expected hash |
| Admin.ServerState.AddSubfile | subfile-service/src/subfile_server/admin.rs:112-165 | the new map is the old one with the prefix of addable entries inserted in order; the response is success exactly when all were |
| Admin.ServerState.RemoveSubfile | subfile-service/src/subfile_server/admin.rs:168-215 | all hashes removed, or nothing when one has not the form of a hash |
| Admin.AddOutcomeIff | subfile-service/src/subfile_server/admin.rs:112-165 | the response is 200 exactly when all entries are of the right form, can be read and validate; the first that is not accepted makes the server panic if its validation does, and is refused with 400 otherwise |
| Admin.AddedKeys | subfile-service/src/subfile_server/admin.rs:139-159 | a key is served afterwards exactly when it was before, or an entry names it that was accepted with all entries before it |
| Admin.RemovedExact | subfile-service/src/subfile_server/admin.rs:191-209 | exactly the listed keys are gone when all have the form of a hash, and none otherwise |
| Admin.AddableCount | subfile-service/src/subfile_server/admin.rs:139-159 | the first entry that cannot be read or does not validate ends the batch |
| Admin.InsertedContents | subfile-service/src/subfile_server/admin.rs:156-158 | a key is in the map after the inserts exactly when it was before or was inserted, and an inserted subfile was read and validated then |
| Admin.LastInsertStays | subfile-service/src/subfile_server/admin.rs:156-158 | of several entries with one hash the last one stays |
| Admin.InitializeSubfileServerContext | subfile-service/src/subfile_server/mod.rs:86-134 | start-up serves every entry, or ends with the first that cannot be read or whose validation panics |
| Admin.StartedOkIff | subfile-service/src/subfile_server/mod.rs:123-130 | start-up succeeds exactly when every entry can be read and no validation panics: a validation error is ignored |
| Admin.FirstEntryDecides | subfile-service/src/subfile_server/mod.rs:123-130 | otherwise the first entry that cannot be read or whose validation panics decides how start-up ends |
| Admin.StartUpIs | subfile-service/src/subfile_server/mod.rs:95-130 | a configuration with an entry of the wrong form is refused, and any other gone through entry by entry |
| Admin.StartedKeys | subfile-service/src/subfile_server/mod.rs:123-130 | after start-up a key is served exactly when an entry names it |
| Admin.StartedContents | subfile-service/src/subfile_server/mod.rs:123-130 | the last entry of a hash determines the subfile served under it |
| Admin.StartedValidIff | subfile-service/src/subfile_server/mod.rs:123-130 | everything served after start-up validates if and only if every entry with no later entry of its hash does |
| Examples.UnverifiedIsServed | subfile-service/src/subfile_server/mod.rs:123-130 | with an empty disk, start-up succeeds and serves a subfile whose validation is an error |
| Admin.StartedKeysOk | subfile-service/src/subfile_server/mod.rs:127-129 | start-up keys are the subfiles' own hashes and have the form of a hash |
| Admin.ServedMapInvariant | subfile-service/src/subfile_server/admin.rs:126-209 | over every run of admin requests keys stay the subfiles' own valid hashes, and whatever is served was there from the start or was read and validated by a request of the run |

## Left out

- HTTP, the async runtime and real files: replies are nondeterministic, critical sections are steps, files are byte
  sequences, and device errors are modelled for the output file only.
- IPFS and YAML or JSON parsing: manifests and records are maps given to the model.
- SHA-256, base64 and the Merkle helpers: the hash is a parameter.
- Receipts, wallets, contracts and the transaction manager: not connected to the exchange of files.
- Random choice of an endpoint, and pauses between retries: any endpoint of the list may be chosen.
- The order in which concurrent availability checks complete: the list is in checklist order, and is only ever chosen from.
- Aliases of one path (such as `a` and `./a`) in output names: names are compared as strings.
- Byte length of text that is not ASCII in the hash form check: a string's length is its number of characters.
- Health, version, cost and operator routes, listing of subfiles, price updates and token checks of the admin route.
- Overflow that wraps around instead of panicking, as in a release build.
- Changes of a local file between two calls, and between the size check and the read within one call.
- Downloader.SubfileDownloader.DownloadSubfile: covers a fresh downloader; calling it again on the same object, with tasks of the first call still running, is not modelled.
- Termination of the round loop without assumptions: it does not hold, since every task of every round may fail; bounds are in terms of rounds with a success.

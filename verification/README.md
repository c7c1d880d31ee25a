# Verified models of CockroachDB's command-line and base packages

A Dafny model of the parts of `pkg/cli`, `pkg/blobs` and `pkg/base` in which order, concurrency or
failure decides correctness.  `dafny verify dfyconfig.toml` checks the whole project.

| files | what they model |
|---|---|
| `LogEntries`, `FileStream`, `BufferedStream`, `MergeHeap`, `BufferedMerge`, `LostEntries`, `LogPipeline`, `MergeLogs` | `cockroach debug merge-logs`: one file as a stream that is peeked, closed and reopened; the channel buffer over it; the k-way merge on a binary heap whose root changes in place; the merge over any number of buffered streams that share one context; the three goroutines that read, buffer and write; and all of it together |
| `BlobStream`, `BlobTransfer` | blob streaming: chunking, re-slicing reads, uploads published by a temporary file and a move |
| `Shutdown` | the startup and shutdown goroutines of `cockroach start`, over all interleavings |
| `DeadReplicas` | `removeDeadReplicas`: what stores that decide on their own do together |
| `RaftCheck`, `MvccStats`, `StatsPool` | `cockroach debug check-store`: the one-pass raft check, the statistics of a range, and the worker pool that recomputes them |
| `SyncTest` | `cockroach debug synctest`: epochs of writes on storage that loses unacknowledged ones |
| `Decommission` | the loop of `cockroach node decommission` against any sequence of replies |
| `PebbleTokens`, `SortedAttrs`, `StoreSpecs`, `StoreText`, `StoreRoundTrip` | the `--store` flag: tokenizer, attribute list, parser, printer, and reading back what was printed |
| `NodeId` | the set-once node ID cell under concurrent setters |
| `Common` | small shared definitions |

Concurrent code is a state machine: a `State`, the steps goroutines can take (`Enabled`, `Do`), and
`IsRun(b, ...)` for a finite run.  The results hold in every state of every run.  Code that updates
fields, buffers or local variables in loops is a class or a method proved against a specification
function, about which the lemmas then speak.

Where the code does not do what its comments or callers expect, the model follows the code, a lemma
shows an input, and another says exactly when the expectation holds:

* A log file whose first entry in range is stamped before 1970 delivers it twice
  (`FileStream.ReopenIsFaithful`, `FileStream.EntryDeliveredTwice`), and is not a plain filter of the
  file (`FileStream.SortedFileIsFiltered`).
* When one log file fails, another can lose its last entries while later ones of the failing file are
  still merged (`LostEntries.EntryIsLost`).  A stream that has ended is missing entries exactly if its
  goroutine gave up, which needs another file's failure (`BufferedMerge.LostExactlyWhen`), and then the
  command reports an error (`BufferedMerge.FailureIsReported`).
* A blob is reported as completely sent although it is not, exactly when some `Send` answers EOF and all
  before it succeed (`BlobStream.StreamContent`, `BlobStream.NothingSent`).
* `PreStart` can begin after draining was raised, exactly when it was raised between startup's check
  and the call (`Shutdown.LateStartExactly`, `Shutdown.LateStartIsPossible`).
* The raft check does not see log entries with index 0 (`RaftCheck.CheckSeesNonzero`); they mislead it
  exactly as `RaftCheck.ZeroMisleadsExactlyWhen` says (`RaftCheck.IndexZeroHidesGaps`,
  `RaftCheck.IndexZeroRaisesAlarm`).
* Stores that are given different dead sets can both rewrite one valid range, exactly when the one with
  the lower ID takes the other for dead, and neither itself, and the other takes any store for dead
  (`DeadReplicas.SplitExactlyWhen`, `DeadReplicas.DifferentDeadSetsSplit`).
* The pebble tokenizer never ends on an opening bracket without a closing one
  (`PebbleTokens.TerminatesExactlyWhenClosed`).
* `StoreSpec.String` is documented as fully parsable; it drops RocksDB options and a zero ballast size,
  and newlines inside brackets (`StoreRoundTrip.TextRoundTripsExactlyWhen`).
* The node ID is documented as unable to change once set; `Get` can see it change before the process
  aborts (`NodeId.ValueChangesExactlyWhen`, `NodeId.ValueCanChange`).

## Model

| member | source | states |
|---|---|---|
| `FileStream.SearchLoop` | pkg/cli/debug_merge_logs.go:576-592 | the binary search as a loop is the recursive search, including a predicate that panics |
| `FileStream.SearchBoundary` | pkg/cli/debug_merge_logs.go:576-592 | binary search ends on a boundary: no at the offset before, yes at the offset, whether or not the predicate is monotone |
| `FileStream.SeekLands` | pkg/cli/debug_merge_logs.go:560-606 | after a successful seek the first entry decoded is at or after `from` |
| `FileStream.SeekSplits` | pkg/cli/debug_merge_logs.go:560-606 | in a file sorted by time the seek passes over exactly the entries before `from` |
| `FileStream.SeekIgnoresEnd` | pkg/cli/debug_merge_logs.go:560-606 | a file that breaks off is opened where it would be if it ended there, unless the search runs into the break, which it does only in such a file |
| `FileStream.ScanIsFilter` | pkg/cli/debug_merge_logs.go:528-544 | stopping at the first ratcheted time past `to` delivers what filtering the whole ratcheted remainder would |
| `FileStream.RatchetIsLatest` | pkg/cli/debug_merge_logs.go:528-533 | a ratcheted time is the latest of the times so far |
| `FileStream.StraightEnds` | pkg/cli/debug_merge_logs.go:534-544 | reading ends in EOF if some ratcheted entry after the seek is past `to`, which is so exactly if one is past it by itself or 1970 is, and in the file's own end otherwise |
| `FileStream.WithinAppend` | pkg/cli/debug_merge_logs.go:534-543 | filtering by [from, to] goes entry by entry and keeps their order |
| `FileStream.StraightInOrder` | pkg/cli/debug_merge_logs.go:528-544 | what a file delivers is in time order and inside [from, to], for any file |
| `FileStream.SortedFileIsFiltered` | pkg/cli/debug_merge_logs.go:528-606 | for a file sorted by time, seek-then-scan is a plain filter of the file if and only if the first entry at or after `from` is not negative, or past `to`, or missing |
| `FileStream.ReopenIsFaithful` | pkg/cli/debug_merge_logs.go:461-545 | peek, close and reopen deliver what a stream never closed delivers if and only if the first entry decoded is not negative, or missing, or 1970 is past `to`; otherwise the first entry comes twice |
| `FileStream.EntryDeliveredTwice` | pkg/cli/debug_merge_logs.go:509-545 | a file of one entry before 1970, delivered twice |
| `FileStream.FileLogStream.constructor` | pkg/cli/debug_merge_logs.go:461-479 | a new stream has everything of the file left to deliver |
| `FileStream.FileLogStream.Close` | pkg/cli/debug_merge_logs.go:481-485 | closing touches only the decoder |
| `FileStream.FileLogStream.Open` | pkg/cli/debug_merge_logs.go:487-507 | opening ends at the record the seek finds, or records the error of the seek |
| `FileStream.FileLogStream.Turn` | pkg/cli/debug_merge_logs.go:509-545 | one turn of the peek loop changes nothing about what is left to deliver, and makes progress |
| `FileStream.FileLogStream.Peek` | pkg/cli/debug_merge_logs.go:509-545 | peek returns the first of what is left and leaves it there; it fails exactly when nothing is left, with the error that `StraightEnds` gives for a new stream |
| `FileStream.FileLogStream.Pop` | pkg/cli/debug_merge_logs.go:547-553 | pop returns the first of what is left and removes just that |
| `FileStream.NewFileLogStream` | pkg/cli/debug_merge_logs.go:461-479 | no stream exactly when the file has nothing in range, and then an error exactly when the file ends in one and no entry past `to` comes before it; otherwise a closed stream that delivers the peeked-and-reopened sequence |
| `BufferedStream.ActKeeps` | pkg/cli/debug_merge_logs.go:377-438 | whatever the goroutine and the merge do, what was passed on, what is held and what is left of the file make up the file; a goroutine that gave up has dropped something |
| `BufferedStream.DeliversPrefix` | pkg/cli/debug_merge_logs.go:420-438 | the merge is given a prefix of the file; once it sees the end, all of it exactly if the goroutine did not give up |
| `BufferedStream.CanGoOn` | pkg/cli/debug_merge_logs.go:398-432 | a stream the merge waits for has a step that is not a cancellation |
| `MergeHeap.RootIsLeast` | pkg/cli/debug_merge_logs.go:237-244 | the heap order makes the root no later than any other stream |
| `MergeHeap.MergedStream.Init` | pkg/cli/debug_merge_logs.go:193-233 | building the heap permutes the streams into heap order |
| `MergeHeap.MergedStream.Down` | pkg/cli/debug_merge_logs.go:264-279 | sift-down repairs a heap that is wrong only at one place, permuting the streams and leaving the tail |
| `MergeHeap.MergedStream.Up` | pkg/cli/debug_merge_logs.go:246-255 | sift-up repairs a heap that is wrong only at its last place, permuting the streams |
| `MergeHeap.MergedStream.HeapPop` | pkg/cli/debug_merge_logs.go:246-255 | removes the root of a heap whose root key may have just changed, and leaves a heap of the others |
| `MergeHeap.MergedStream.HeapPush` | pkg/cli/debug_merge_logs.go:246-255 | adds one stream and keeps the heap order |
| `MergeHeap.MergedStream.constructor` | pkg/cli/debug_merge_logs.go:193-233 | the streams with entries are in heap order and nothing has been taken |
| `MergeHeap.MergedStream.Peek` | pkg/cli/debug_merge_logs.go:257-262 | returns an entry no other stream has an earlier one than; fails exactly when all is merged or the root failed |
| `MergeHeap.MergedStream.Restore` | pkg/cli/debug_merge_logs.go:272-278 | taking the advanced root out and pushing it back, or only taking it out when it has ended, gives a heap of the streams that remain |
| `MergeHeap.MergedStream.Pop` | pkg/cli/debug_merge_logs.go:264-279 | takes one entry from the root stream only, restores the heap order, drops an exhausted stream, and keeps a failed one at the root and reports it |
| `MergeHeap.InOrderStep` | pkg/cli/debug_merge_logs.go:264-279 | taking a least head keeps the output sorted and no later than anything left |
| `MergeHeap.Drain` | pkg/cli/debug_merge_logs.go:67-78 | popping until it fails partitions what every stream delivers into merged and left, in order, and ends with nothing left or a failed stream at the root |
| `MergeHeap.MergeAll` | pkg/cli/debug_merge_logs.go:193-279 | over whatever the streams deliver: it fails if and only if some stream fails; if none does the merge is an exact interleaving, sorted when they are; if it fails, some failing stream was emitted completely |
| `MergeHeap.MergeEnds` | pkg/cli/debug_merge_logs.go:264-279 | when nothing more is offered, a failure is at the root exactly if some stream fails, and otherwise nothing is missing |
| `MergeHeap.ReorderExists` | pkg/cli/debug_merge_logs.go:264-279 | the heap can always be put back in order |
| `BufferedMerge.InvHolds` | pkg/cli/debug_merge_logs.go:193-279 | in every interleaving of all goroutines and the reader: the heap holds the streams that have not ended, only a failure cancels, only a cancelled stream gives up, and what was emitted of each file is what was delivered |
| `BufferedMerge.AlwaysInOrder` | pkg/cli/debug_merge_logs.go:193-279 | in every run, failing or not, the output is in time order and holds a prefix of every file |
| `BufferedMerge.BufferIsTransparent` | pkg/cli/debug_merge_logs.go:377-438 | without a failing file nothing is ever cancelled, and a stream that ends has delivered its whole file |
| `BufferedMerge.LostExactlyWhen` | pkg/cli/debug_merge_logs.go:398-418 | a stream that has ended is missing entries if and only if its goroutine gave up; that takes the failure of another file and two entries or more |
| `BufferedMerge.FailureIsReported` | pkg/cli/debug_merge_logs.go:264-295 | the reader is given an error at the end if and only if some file fails; otherwise the output is a complete interleaving |
| `BufferedMerge.NeverDeadlocked` | pkg/cli/debug_merge_logs.go:398-438 | while the reader is not done, it or the goroutine it waits for can go on without a cancellation |
| `BufferedMerge.MergeTerminates` | pkg/cli/debug_merge_logs.go:193-279 | runs are bounded by the number of entries, so no read blocks for ever |
| `BufferedMerge.RunToEnd` | pkg/cli/debug_merge_logs.go:193-279 | any run can be continued to the end of the merge without a further cancellation |
| `BufferedMerge.CompleteRun` | pkg/cli/debug_merge_logs.go:193-279 | over any files that could be opened there is a run to the end |
| `BufferedMerge.HeadsDecide` | pkg/cli/debug_merge_logs.go:237-244 | ordering by the entries held ready is ordering by everything left |
| `BufferedMerge.ReadDisturbsRoot` | pkg/cli/debug_merge_logs.go:270-272 | when the awaited entry has come, the heap is in order everywhere but at the root |
| `BufferedMerge.Settle` | pkg/cli/debug_merge_logs.go:264-279 | what the heap operations of the merged stream leave after an awaited read is a step of the concurrent merge |
| `LostEntries.EntryIsLost` | pkg/cli/debug_merge_logs.go:398-418 | a run in which a file that does not fail loses an entry and a later one of the failing file is emitted |
| `LogPipeline.AppendPrinted` | pkg/cli/debug_merge_logs.go:94-129 | an entry that does not match leaves the buffer as it was, one that matches without groups or is not filtered adds its rendering, one with groups the captured bytes in order and a newline; the buffer is longest right after rendering or at the end |
| `LogPipeline.ConcatAppend` | pkg/cli/debug_merge_logs.go:119-124 | the captured groups are strung together in their order |
| `LogPipeline.FilterSelects` | pkg/cli/debug_merge_logs.go:101-107 | a filter without groups prints what is printed without a filter of the matching entries |
| `LogPipeline.InvHolds` | pkg/cli/debug_merge_logs.go:64-149 | in every state of every run, bytes written, bytes in either buffer and entries still to come make up the whole output, and the pending buffer is not the one being written except during the swap |
| `LogPipeline.OutputIsExact` | pkg/cli/debug_merge_logs.go:64-149 | under any interleaving the bytes written are a prefix of the in-order output; when the run ends without error they are all of it and the stream did not fail |
| `LogPipeline.FilteredOutputIsExact` | pkg/cli/debug_merge_logs.go:64-149 | under any interleaving and a filter without groups, the bytes written are a prefix of the renderings of the matching entries in order, and all of them when the run ends without error |
| `LogPipeline.HandedBufferIsStable` | pkg/cli/debug_merge_logs.go:79-145 | no step changes a buffer while it is being written |
| `LogPipeline.PendingIsBounded` | pkg/cli/debug_merge_logs.go:79-137 | the pending buffer never exceeds the limit plus one entry's rendering or output, not even between rendering and truncating |
| `LogPipeline.NeverDeadlocked` | pkg/cli/debug_merge_logs.go:64-149 | a state that is not final has a step that is not an I/O fault |
| `LogPipeline.PipelineTerminates` | pkg/cli/debug_merge_logs.go:64-149 | runs are bounded by entries and output, and end final or can go on without a fault |
| `LogPipeline.RunToEnd` | pkg/cli/debug_merge_logs.go:64-149 | any run can be continued until all goroutines have returned, failing only if it had failed or the stream fails |
| `LogPipeline.CompleteRun` | pkg/cli/debug_merge_logs.go:64-149 | there is a run to the end that fails exactly if the stream does |
| `MergeLogs.PrintedInOrder` | pkg/cli/debug_merge_logs.go:42-150 | end to end, over any run of the merge of the buffered streams and any run of the pipeline: what is written is a prefix of the rendering of a time-ordered merge of prefixes of the files; if a file fails the command fails; if the command does not fail, nothing is missing |
| `MergeLogs.CommandRuns` | pkg/cli/debug_merge_logs.go:42-150 | for any files that could be opened there are runs of merge and pipeline to the end, failing exactly if a file does |
| `MergeLogs.StreamInOrder` | pkg/cli/debug_merge_logs.go:461-545 | what any file delivers is in time order, and it fails exactly when the file ends in an error and no entry past `to` stops the reading before it |
| `MergeLogs.WholeFile` | pkg/cli/debug_merge_logs.go:461-606 | if the first entry is not negative, what is merged of a file is what reading it straight through delivers, and for a sorted file the plain filter of the file |
| `BlobStream.CopyInto` | pkg/blobs/stream.go:114 | copying changes just the target range |
| `BlobStream.BlobStreamReader.constructor` | pkg/blobs/stream.go:60-77 | a new reader has the whole stream pending |
| `BlobStream.BlobStreamReader.UseLast` | pkg/blobs/stream.go:84-95 | the cached leftover is handed out first, and what does not fit stays cached |
| `BlobStream.BlobStreamReader.Place` | pkg/blobs/stream.go:105-115 | a chunk fills the buffer and its rest is cached |
| `BlobStream.BlobStreamReader.Fill` | pkg/blobs/stream.go:96-118 | receiving until full moves bytes from pending to the buffer in order; it stops short with no error only at the end |
| `BlobStream.BlobStreamReader.Read` | pkg/blobs/stream.go:79-118 | bytes returned plus leftover plus chunks to come are the stream; a short read with no error means the end was reached; the rest of the buffer is untouched |
| `BlobStream.ReadSizes` | pkg/blobs/stream.go:79-118 | any sequence of read sizes returns the stream in order, and all of it once a read reports an end |
| `BlobStream.ReadToEnd` | pkg/blobs/stream.go:79-118 | reading on terminates with all that was pending and the end the stream had |
| `BlobStream.StreamContent` | pkg/blobs/stream.go:131-147 | sending stops at the first `Send` that does not succeed; success is reported if and only if all of a content that ended cleanly was sent, or some `Send` answers EOF and all before it succeed, and then the tail is missing |
| `BlobStream.ChunksAreContent` | pkg/blobs/stream.go:131-147 | the chunks to send are the content, none empty or longer than `chunkSize` |
| `BlobStream.ChunksAreFull` | pkg/blobs/stream.go:131-147 | all but the last chunk of a content that returns as much as it is asked for have `chunkSize` bytes |
| `BlobStream.NothingSent` | pkg/blobs/stream.go:131-147 | if the first `Send` answers EOF, nothing of a non-empty blob is sent and success is reported |
| `BlobStream.ClientWrite` | pkg/blobs/client.go:83-97 | the chunks sent are exactly the first n bytes, all full but the one that ends the write; no error exactly when n is everything |
| `BlobTransfer.RemoteRead` | pkg/blobs/service.go:55-62 | seek, chunking and re-slicing together: the client gets a prefix of the file's bytes from the offset, nothing past the end, an error before the start; it is told success if and only if it got them all from a good disk, or a `Send` answered EOF after successful ones |
| `BlobTransfer.ClientRead` | pkg/blobs/client.go:63-76 | any read sizes return all the chunks of a stream, and then its end |
| `BlobTransfer.LocalWriter.constructor` | pkg/blobs/local_storage.go:104-132 | opening a writer creates an empty temporary file and nothing else |
| `BlobTransfer.LocalWriter.Write` | pkg/blobs/local_storage.go:79-81 | a good write appends to the temporary file; no other file changes |
| `BlobTransfer.LocalWriter.Close` | pkg/blobs/local_storage.go:83-101 | success exactly when not cancelled and nothing fails; then the destination holds the temporary file's bytes, otherwise it is untouched |
| `BlobTransfer.CopyTo` | pkg/blobs/service.go:84-87 | copying succeeds only with a cleanly closed stream whose bytes are all in the temporary file |
| `BlobTransfer.PutStream` | pkg/blobs/service.go:65-91 | the destination holds the whole stream, or no file but the temporary one has changed; a clean stream and a good disk always succeed |
| `BlobTransfer.WriteAll` | pkg/blobs/client.go:83-97 | any sequence of client writes sends a prefix of their concatenation, all of it if no send fails |
| `BlobTransfer.Upload` | pkg/blobs/client.go:99-112 | end to end, for any writes, failures and cancellation: the destination is untouched or holds exactly the concatenation of all bytes written |
| `Shutdown.InvHolds` | pkg/cli/start.go:589-694 | the invariant of startup, main, drain and stopper goroutines holds in every state of every interleaving |
| `Shutdown.DrainOnlyAfterStart` | pkg/cli/start.go:774-827 | a drain runs only after `PreStart` succeeded once, and never while it runs |
| `Shutdown.NoStartAfterEarlySignal` | pkg/cli/start.go:615-648 | if draining is raised before startup's check, `PreStart` is never called and nothing drains |
| `Shutdown.DrainOrTooEarly` | pkg/cli/start.go:774-912 | no run both drains and closes `stopWithoutDrain` |
| `Shutdown.DrainsExactlyWhenStarted` | pkg/cli/start.go:774-827 | if the server had started when draining was raised, the drain goroutine goes on to the stopper only after `Drain` has been called until it failed or nothing was left; if not, it is never drained and `stopWithoutDrain` is closed |
| `Shutdown.DrainIsPossible` | pkg/cli/start.go:774-827 | a run that starts, drains twice, stops and returns |
| `Shutdown.ReturnsForAReason` | pkg/cli/start.go:720-912 | the main goroutine returns only on a startup error, a stopped stopper, a closed `stopWithoutDrain` or a harder signal, and an error is sent exactly when startup fails |
| `Shutdown.LateStartExactly` | pkg/cli/start.go:615-648 | `PreStart` is called with draining raised if and only if it was raised between the check and the call |
| `Shutdown.LateStartIsPossible` | pkg/cli/start.go:615-648 | such a run |
| `Shutdown.DrainLoop` | pkg/cli/start.go:796-824 | the drain loop ends at the first failure or zero; it is verbose exactly after some earlier drain made no progress |
| `DeadReplicas.Decide` | pkg/cli/debug.go:1139-1213 | the loop decides as the rule does: the live new-config voter with the largest store ID rewrites a range that has a dead replica and lost a majority of its old or new voters |
| `DeadReplicas.ProgressIsMajority` | pkg/roachpb/metadata_replicas.go:453-484 | a range can make progress if and only if more than half of its incoming voters are live, and of its outgoing ones unless there are none |
| `DeadReplicas.ProgressIsRafts` | pkg/roachpb/metadata_replicas.go:361-408 | it can make progress if and only if its live replicas are a quorum of its raft configuration, joint or not |
| `DeadReplicas.RewriteIsByQuorum` | pkg/cli/debug.go:1170-1186 | the designated survivor rewrites a range with a dead replica if and only if the replicas left are no quorum of its raft configuration |
| `DeadReplicas.RemoveDeadReplicas` | pkg/cli/debug.go:1119-1221 | a dead store refuses; any other rewrites exactly the ranges the rule gives it, in order |
| `DeadReplicas.RewritesAppend` | pkg/cli/debug.go:1139-1221 | descriptors are decided one by one, in order |
| `DeadReplicas.AtMostOneRewrites` | pkg/cli/debug.go:1133-1186 | two stores with the same dead set never both rewrite a range |
| `DeadReplicas.SomeoneRewritesExactlyWhen` | pkg/cli/debug.go:1133-1186 | some store rewrites a range if and only if it has a dead replica, lost a majority and has a live new-config voter |
| `DeadReplicas.RewriteIsSound` | pkg/cli/debug.go:1187-1213 | a rewrite keeps the range's identity, leaves one full voter on the live store with the next replica ID, keeps IDs below the next one, gives a valid descriptor, and can make progress |
| `DeadReplicas.OneCopyCanMakeProgress` | pkg/roachpb/metadata_replicas.go:420-480 | after a rewrite that copy can make progress and no copy left alone can |
| `DeadReplicas.SecondRunIsIdle` | pkg/cli/debug.go:1139-1213 | a second run rewrites nothing |
| `DeadReplicas.DifferentDeadSetsSplit` | pkg/cli/debug.go:1133-1186 | a valid range on two stores that take each other for dead is rewritten by both |
| `DeadReplicas.SplitExactlyWhen` | pkg/cli/debug.go:1133-1186 | two stores can both rewrite some valid range if and only if the one with the lower ID has the other in its dead set, neither has itself, and the other has any store in its own |
| `RaftCheck.CheckRaftState` | pkg/cli/debug_check_store.go:209-317 | the one pass over interleaved keys and the final sweep report exactly what the declarative scan reports |
| `RaftCheck.QuietIsInterval` | pkg/cli/debug_check_store.go:267-283 | the scan stays quiet about a range exactly while its log indices form an interval |
| `RaftCheck.EndsOfLog` | pkg/cli/debug_check_store.go:267-283 | what is remembered of a range's log is its first and last index |
| `RaftCheck.ScanRemembers` | pkg/cli/debug_check_store.go:248-266 | of applied, committed and truncated index the scan remembers the last stored |
| `RaftCheck.CheckIsExact` | pkg/cli/debug_check_store.go:232-311 | with indices of at least 1, nothing is reported if and only if every range has a gapless log, applied inside it, applied <= committed <= last, and a truncated index of zero or just before the first |
| `RaftCheck.CheckSeesNonzero` | pkg/cli/debug_check_store.go:232-311 | for any ascending logs, index 0 included: nothing is reported if and only if every range is well formed once the entries of index 0 are taken away |
| `RaftCheck.ZeroMisleadsExactlyWhen` | pkg/cli/debug_check_store.go:232-311 | a malformed store is passed if and only if all is well without index 0 and some log has a gap after it; a well-formed one is reported if and only if some log goes on after 0 with nothing applied or a truncated index |
| `RaftCheck.IndexZeroHidesGaps` | pkg/cli/debug_check_store.go:267-283 | with index 0 in a log a gap goes unreported |
| `RaftCheck.IndexZeroRaisesAlarm` | pkg/cli/debug_check_store.go:267-311 | a well-formed log of 0 and 1 is reported |
| `StatsPool.InvHolds` | pkg/cli/debug_check_store.go:141-184 | in every state of every schedule each item is in exactly one place |
| `StatsPool.NeverPanics` | pkg/cli/debug_check_store.go:160-184 | nobody sends on a closed channel or closes one twice |
| `StatsPool.ExactlyOneEach` | pkg/cli/debug_check_store.go:160-199 | when the pool is done there is one result for each descriptor, and one for a failed iteration |
| `StatsPool.NeverDeadlocked` | pkg/cli/debug_check_store.go:160-199 | with at least one worker an unfinished pool has a step |
| `StatsPool.PoolTerminates` | pkg/cli/debug_check_store.go:160-199 | schedules are bounded, and end finished or can go on |
| `StatsPool.RunToEnd` | pkg/cli/debug_check_store.go:160-199 | any schedule can be continued until the pool is done |
| `StatsPool.TallyUp` | pkg/cli/debug_check_store.go:186-207 | the loop counts all results and the bad ones, adds up the good statistics, and raises the flag exactly when a result is bad |
| `MvccStats.PlusAddsUp` | pkg/storage/enginepb/mvcc.go:127-176 | a sum of statistics is as of the later time, its ages are both ages brought to that time, and every other field is the sum of the two |
| `MvccStats.PlusSwaps` | pkg/storage/enginepb/mvcc.go:127-176 | statistics add up to the same in any order, ages included |
| `StatsPool.SumPermutes` | pkg/cli/debug_check_store.go:186-199 | the sum does not depend on the order of the results |
| `StatsPool.ScheduleIndependent` | pkg/cli/debug_check_store.go:141-207 | any two finished schedules, with any numbers of workers, give the same flag, counts and total statistics, all fields and ages |
| `StatsPool.TalliesInOrder` | pkg/cli/debug_check_store.go:141-207 | any finished schedule gives the tally of going through the descriptors in order |
| `StatsPool.ProblemFoundExactlyWhen` | pkg/cli/debug_check_store.go:102-139 | in any finished schedule a problem is found if and only if the iteration failed, some statistics could not be read or recomputed, or some recomputed ones are not zero, differ from the stored ones, and those are not marked as estimates |
| `StatsPool.TotalsAreRecomputed` | pkg/cli/debug_check_store.go:186-199 | in any finished schedule the totals are those of the recomputed statistics of the good ranges, and the ranges with estimates are counted among those |
| `SyncTest.VerifyKeys` | pkg/cli/debug_synctest.go:131-154 | the check passes exactly on keys 1..m with m no less than expected, and tells a strange key from lost writes |
| `SyncTest.VerdictIsExact` | pkg/cli/debug_synctest.go:131-154 | over any store: the check passes if and only if its keys are 1..m and nothing acknowledged is missing |
| `SyncTest.CheckStore` | pkg/cli/debug_synctest.go:131-154 | iterating over any store and checking it finds the last key if and only if nothing is missing or strange |
| `SyncTest.ReopenedKeys` | pkg/cli/debug_synctest.go:150-154 | whatever survives of unacknowledged writes, the store reopens with 1..m, m the last acknowledged key or the next |
| `SyncTest.ReopenedEnumeration` | pkg/cli/debug_synctest.go:131-154 | so does its iteration |
| `SyncTest.WriteNext` | pkg/cli/debug_synctest.go:177-212 | a write advances the sequence number exactly when acknowledged, and never puts more than the next key in doubt |
| `SyncTest.Retry` | pkg/cli/debug_synctest.go:214-232 | the attempts after a failure advance the sequence number by the acknowledged ones, and fail exactly when the nemesis must be switched off and cannot be |
| `SyncTest.WriteUntilFailure` | pkg/cli/debug_synctest.go:214-240 | the sequence number advances by exactly the acknowledged writes, the attempts after the first failure included; it says exactly when an epoch ends in an error and when by running out of time |
| `SyncTest.RunSyncer` | pkg/cli/debug_synctest.go:113-241 | an epoch on any store alarms if and only if the store is not intact; otherwise it fails or runs out of time exactly as its writes do, or advances from the keys found by the acknowledged writes and leaves the disk as the next epoch expects |
| `SyncTest.RunSyncTest` | pkg/cli/debug_synctest.go:75-106 | over all epochs and patterns of failed writes there is no false alarm on storage that keeps acknowledged writes, and an error or an end only if some epoch has one |
| `Decommission.DrainTargets` | pkg/cli/node.go:534-552 | drains are sent to every target but the local node, in order, all successful or up to the first that fails |
| `Decommission.Totals` | pkg/cli/node.go:523-528 | the loop finds whether a member is active and how many replicas there are in all |
| `Decommission.IdleMeans` | pkg/cli/node.go:523-530 | the targets are idle if and only if no line of the response shows an active member or a replica |
| `Decommission.TargetsAre` | pkg/cli/node.go:534-543 | every node named except the local one is drained, as often as it is named |
| `Decommission.TargetsAppend` | pkg/cli/node.go:534-543 | in the order in which they are named |
| `Decommission.ReportsExactlyWhen` | pkg/cli/node.go:499-521 | replicas are asked for by name if and only if the last 16 responses repeat the ones before them |
| `Decommission.LeastMeans` | pkg/cli/node.go:577-580 | the minimum kept is the least replica count seen |
| `Decommission.Finish` | pkg/cli/node.go:530-567 | the closing sequence: all drains, then one mark, or a stop at the first failed drain |
| `Decommission.Turn` | pkg/cli/node.go:482-581 | one poll ends the loop, for the reason it gives, or extends the trace by that poll, with a reset exactly on a new minimum; a failed print ends it exactly if the response changed and that print fails |
| `Decommission.Run` | pkg/cli/node.go:446-583 | the whole trace of requests against any sequence of replies, and success exactly as `DoneExactlyWhen` says |
| `Decommission.DoneExactlyWhen` | pkg/cli/node.go:446-583 | the nodes end up decommissioned if and only if a reply shows them idle, those before it led to another poll, every changed response could be printed, and all drains and the last request succeed |
| `Decommission.OneOutcome` | pkg/cli/node.go:446-583 | the replies and what succeeds decide the number of polls, the trace and the result |
| `Decommission.MarkedOnceAndLast` | pkg/cli/node.go:530-567 | DECOMMISSIONED is sent at most once, as the last request, right after a reply with no active member and no replicas and successful drains of every target but the local node |
| `Decommission.ResetsAndLeast` | pkg/cli/node.go:577-580 | every backoff reset lowers the least replica count seen |
| `Decommission.ResetsAreBounded` | pkg/cli/node.go:577-580 | in any run there are at most as many resets as the first replica count plus one |
| `PebbleTokens.Normalize` | pkg/base/store_spec.go:362-389 | on closed brackets the loop ends with the normal form: each run of white space outside brackets is one newline, the rest is as it was |
| `PebbleTokens.TurnIsNorm` | pkg/base/store_spec.go:370-389 | a turn shortens the input and moves exactly that part of the normal form to the output |
| `PebbleTokens.TerminatesExactlyWhenClosed` | pkg/base/store_spec.go:368-389 | the loop ends if and only if every '[' has a later ']' |
| `PebbleTokens.OpenBracketNeverEnds` | pkg/base/store_spec.go:378-382 | on "[" it never does |
| `PebbleTokens.NormKeepsVisible` | pkg/base/store_spec.go:368-389 | every character that is not white space is kept, in order |
| `PebbleTokens.NormKeepsBrackets` | pkg/base/store_spec.go:378-382 | bracketed text is kept verbatim, and normalising twice is normalising once |
| `PebbleTokens.NormRun` | pkg/base/store_spec.go:383-388 | a run of white space outside brackets becomes one newline, with the text around it in place |
| `PebbleTokens.NormBracket` | pkg/base/store_spec.go:378-382 | a bracketed piece is copied and the rest normalised |
| `PebbleTokens.RoundTripsExactlyWhen` | pkg/base/store_spec.go:228-233 | options printed and normalised again are the same if and only if no bracketed piece holds a newline |
| `PebbleTokens.NewlineInBracketsIsLost` | pkg/base/store_spec.go:228-233 | a bracketed piece with a newline comes back as another |
| `SortedAttrs.SplitJoin` | pkg/base/store_spec.go:218-227 | splitting joined pieces gives them back |
| `SortedAttrs.BeforeMeans` | pkg/base/store_spec.go:350-353 | strings are sorted by their first differing character, a prefix first |
| `SortedAttrs.SortedUnique` | pkg/base/store_spec.go:350-353 | a set of strings has one sorted list |
| `SortedAttrs.ParseAttrs` | pkg/base/store_spec.go:341-353 | a repeated attribute is refused; otherwise the list is sorted and does not depend on the order in which the map is walked |
| `SortedAttrs.AttrsMean` | pkg/base/store_spec.go:341-353 | attributes are accepted if and only if none is repeated, and then are those named, sorted |
| `StoreSpecs.StoreSize` | pkg/base/store_spec.go:313-326 | an accepted size is either at least 640 MiB or between 1 and 100 percent, and the other is zero |
| `StoreSpecs.BallastOf` | pkg/base/store_spec.go:327-340 | an accepted ballast size is not negative, in bytes or in at most 50 percent |
| `StoreSpecs.FractionIsPercent` | pkg/base/store_spec.go:82-110 | a fraction of 1 is the size that a hundred times as many percent is |
| `StoreSpecs.SetField` | pkg/base/store_spec.go:310-400 | a field is set if and only if its value is acceptable; a pebble value with an open bracket never finishes |
| `StoreSpecs.TakePiece` | pkg/base/store_spec.go:284-301 | a piece is taken exactly when it is empty or sets a new field to an acceptable value |
| `StoreSpecs.SpecWith` | pkg/base/store_spec.go:310-400 | giving a field a value changes just that field of the spec |
| `StoreSpecs.NewStoreSpec` | pkg/base/store_spec.go:277-417 | a flag is accepted if and only if its pieces set distinct fields to acceptable values and the spec is complete; it never returns if and only if the pieces before an open pebble bracket are good |
| `StoreSpecs.AcceptedExactlyWhen` | pkg/base/store_spec.go:402-415 | good pieces are accepted if and only if they give a path, or `type=mem` and a size and neither a path nor a ballast size |
| `StoreSpecs.CaseDoesNotMatter` | pkg/base/store_spec.go:288-297 | the case of a field's name makes no difference |
| `StoreSpecs.BarePath` | pkg/base/store_spec.go:288-292 | a flag without commas and equals signs is a path |
| `StoreSpecs.NamelessIsPassedOver` | pkg/base/store_spec.go:298-305 | a piece with an empty name is passed over, once |
| `StoreSpecs.GoodIsBag` | pkg/base/store_spec.go:284-301 | what makes a list of pieces good can be said without their order |
| `StoreSpecs.OrderDoesNotMatter` | pkg/base/store_spec.go:277-417 | permuting the comma-separated pieces changes neither acceptance nor the spec |
| `StoreSpecs.AllOrdersReturnExactlyWhen` | pkg/base/store_spec.go:362-389 | every order of the pieces is answered, with a spec or an error, if and only if no pebble field has an open bracket |
| `StoreText.ToText` | pkg/base/store_spec.go:195-239 | the buffer with its last comma cut is the printed pieces joined by commas |
| `StoreRoundTrip.AttrsRead` | pkg/base/store_spec.go:218-227 | accepted attributes are read back from their text |
| `StoreRoundTrip.OptionsRead` | pkg/base/store_spec.go:228-233 | accepted pebble options are read back if and only if no bracketed piece holds a newline |
| `StoreRoundTrip.TextSplits` | pkg/base/store_spec.go:195-239 | the printed text of an accepted spec splits into just the printed fields |
| `StoreRoundTrip.TextRoundTripsExactlyWhen` | pkg/base/store_spec.go:194-239 | parsing the text of an accepted spec gives the spec back if and only if it has no RocksDB options, no newline in a bracketed section, and sizes read back from their text, which a zero ballast never is |
| `StoreRoundTrip.RocksDBOptionsAreLost` | pkg/base/store_spec.go:194-239 | a family of accepted specs whose text is that of another |
| `NodeId.InvHolds` | pkg/base/node_id.go:85-105 | in every interleaving the swaps form a chain, each returning what the one before wrote |
| `NodeId.AgreeOrAbort` | pkg/base/node_id.go:76-105 | in every state some call is bound to abort, or all calls that swapped agree and `Get` and `String` show nothing or that ID |
| `NodeId.AbortsExactlyWhen` | pkg/base/node_id.go:85-105 | a finished run aborted if and only if an ID was invalid, two differed, or a call other than the first to swap was for the wrong kind of server |
| `NodeId.GetIsZeroOrTheId` | pkg/base/node_id.go:49-83 | in a finished run without abort `Get` returned 0 or the one ID at every moment, and `String` none or that |
| `NodeId.ReturnedIsShown` | pkg/base/node_id.go:85-105 | once a call has returned, `Get` shows an ID and `String` that of a call that returned, with its prefix |
| `NodeId.RunsAreBounded` | pkg/base/node_id.go:85-105 | runs are bounded, so every run can finish |
| `NodeId.ValueChangesExactlyWhen` | pkg/base/node_id.go:76-105 | `Get` could see two IDs if and only if two calls with different IDs have swapped |
| `NodeId.ValueCanChange` | pkg/base/node_id.go:85-105 | such a run, in which the first call has already returned |

## Left out

- Decoding, rendering, matching, redaction and colouring of log entries are parameters; a decoder depends on the byte offset only and yields no zero entry.
- `BufferedMerge.FailureIsReported`: a file that fails before its first entry ends the command when the streams are opened, and is not part of a run; the outer context is never cancelled.
- `BlobTransfer.Upload`: the move into place is atomic; copying across file systems in `pkg/util/fileutil` is not modelled.
- `BlobTransfer.PutStream`: a failed publish may leave the temporary file behind, as the code does.
- Path containment in `pkg/blobs/local_storage.go`, and `Stat`, `List` and `Delete`: easy or out of scope.
- Signals, process exit and logging in `pkg/cli/start.go` are terminal steps; what `Drain` does inside is a number of remaining items.
- `DeadReplicas.RewriteIsSound`: replica IDs are unbounded, so the overflow of a 32-bit next replica ID is not modelled.
- `DeadReplicas.RemoveDeadReplicas`: writing the batch (intent resolution, stats) after the list of descriptors is not modelled; a store's own ID is positive.
- `RaftCheck.CheckRaftState`: keys and values that fail to decode, which end the check with an error, are not modelled.
- `MvccStats.PlusSwaps`: 64-bit overflow of statistics is not modelled.
- `SyncTest.RunSyncTest`: the path that recovers from a panic inside a write is not modelled.
- `Decommission.Totals`: the sum of replica counts is unbounded, so a 64-bit overflow is not modelled.
- `StoreRoundTrip.TextRoundTripsExactlyWhen`: how sizes and percentages are printed and parsed are parameters; their texts are assumed not empty and free of commas.
- `PebbleTokens.Normalize`: strings are ASCII; multi-byte white space and case folding outside ASCII are not modelled.
- `NodeId.AbortsExactlyWhen`: `Reset`, and a container that changes its kind during the run, are not modelled.
- Command-line registration, RPC clients, key printing, zip and statement bundles, and the other commands of `pkg/cli`: wiring and I/O that would add only easy members.

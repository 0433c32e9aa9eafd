# Verification of the graph-sync measurement core

This project models, in Dafny, the parts of the repository that decide something: the daily
graph-sync engine, the second sampler, the fault-injection proxy and three small algorithms. It
proves what they do for every input and every run: where that is what their documentation and tests
promise, the promise; where it is not, the exact condition under which it is.

- **Canonical text.** `JsonText.dfy` prints JSON values as `json.dumps(obj, sort_keys=True)` does,
  character by character, and proves the text unambiguous; `JsonRead.dfy` is a JSON reader that reads it
  back. `CanonicalValues.dfy` proves that
  `_canonical_value` is a complete invariant of equality up to list order.
- **Merge and digest.** `GraphRecords.dfy`, `NodeDigest.dfy`, `ChannelDigest.dfy` and
  `ChannelOrder.dfy` hold the last-writer-wins merges, which are folded both across pages and inside
  the digest, and `PayloadLayout.dfy` what the digest reads of a record. A digest is represented by the
  text that is hashed. Numbers, schemas and letter case are pinned to how they are written.
- **Pagination.** `Pagination.dfy`, `PaginationTheorems.dfy` and `SnapshotDigest.dfy`: the
  fail-closed cursor walk against an arbitrary server, and against a well-behaved one.
- **Log reader.** `AggregateLog.dfy`: incremental reading against reading at once.
- **Convergence.** `Convergence.dfy` is the step of the monitoring loop, `ConvergenceTheorems.dfy`
  proves that its scalars stand for the whole history and that the online verdict is a property of
  that history. `SafeRun.dfy` says what log and samples are behind a converged run, `GraphScan.dfy` is
  one scan of peers, nodes and channels, `MonitoredRun.dfy` runs the loop with its log reader over file
  states and RPC answers, and `Freshness.dfy` decides when a converged run has used a new aggregate line.
- **Artifacts and retries.** `Artifacts.dfy` and `Attempt.dfy`: bounded archive, atomic
  installation, finalisation under any pattern of failures of the separate file operations, and the
  retry loop with its assertions.
- **Sampler.** `Sampler.dfy`: many targets, event counters and the stability verdict.
- **Proxy.** `RpcProxy.dfy`: lock sections of one handler interleaved with control calls.
- **Arithmetic.** `CompactTarget.dfy`, `U128.dfy` and `ExpiryLevels.dfy`.

`Ordering.dfy` and `Wrappers.dfy` hold what the others share.

Time is a real number. RPC results, file contents, file failures and clock readings are parameters,
so every theorem holds for whatever they are. Recognising an aggregate inside one complete log line
is a parameter too.

Four results differ from what the repository's own words suggest; the model follows the code.

- The channel digest is meant not to depend on the order of the records. `_merge_channel` compares
  UDT scripts with Python's `==`, which takes `True` for `1`, keeps the first script, and the digest
  prints it. Paging never matters (`ChannelOrder.ChannelDigestPremerged`); two orders of the same records
  agree exactly when they have the same first scripts (`ChannelOrder.DigestSameIff`).
  `ChannelOrder.DigestOrderFreeIff` gives the exact condition under which order is irrelevant, `ChannelOrder.OrderCanMatter` a pair of valid records for which it is not, and
  `SnapshotDigest.OrderShowsInSnapshot` two servers of those records whose snapshots differ in digest.
- `completion_since or sample_ts` reads a time of exactly zero as absent.
  `ConvergenceTheorems.VerdictIffWindow` states the verdict with that exception, as one on the history,
  `ConvergenceTheorems.ConvergedIffWindow` without it for a clock that is positive at the start, and
  `ConvergenceTheorems.ZeroClockMissesWindow` shows a run that it affects.
- `block_after(n)` is documented to let exactly `n` more requests through. It limits passing the
  gate; a request that has already passed when it is called is forwarded in addition. In every state
  the largest possible number is `n` plus that request (`RpcProxy.LimitAttained`), so the documented
  limit holds exactly when none stood there (`RpcProxy.ArmingExact`). Blocking methods and the
  auto-block trigger are alike (`RpcProxy.BlockingExact`, `RpcProxy.TriggerExact`).
- The module docstring asks for an aggregate line emitted after the last change of peers. The gate
  compares lines read, and a line written between a poll and the end of the next scan is read
  later. `Freshness.NewLineUsedIff` states exactly from which histories every converging run uses a line
  completed after the scan that showed the change, and `Freshness.SwapCanMislead` is a swap of one peer
  for another that converges on the line of the old one.

## Model

| member | source | states |
|---|---|---|
| JsonText.PrintInjective | framework/daily_graph_sync.py:560-561 | No printed value is a prefix of another where a value may end, with any separator blank: strings with their escapes and surrogate pairs, numbers, lists and key-sorted objects |
| JsonText.TextDeterminesValue | framework/daily_graph_sync.py:560-561 | Two JSON values that print the same text are the same value |
| JsonRead.TextIsReadBack | framework/daily_graph_sync.py:560-561 | The printed text of every value, compact or with blanks after separators, is read by a JSON reader as that value |
| JsonText.CanonOrder | framework/daily_graph_sync.py:602-606 | Comparing values by their canonical text is a total order on values, so a tie in it is equality |
| CanonicalValues.CanonicalDecides | framework/daily_graph_sync.py:564-571 | Two values normalise to the same value if and only if one can be turned into the other by reordering lists, at every depth |
| CanonicalValues.CanonicalIdempotent | framework/daily_graph_sync.py:564-571 | Normalising a second time changes nothing |
| GraphRecords.DigestTextFaithful | framework/daily_graph_sync.py:684 | The text that is hashed is the same exactly when the list of payloads is the same |
| GraphRecords.Separators | framework/daily_graph_sync.py:560-561 | The hashed text has a blank after commas and colons, the text that decides ties has none |
| GraphRecords.StandsRead | framework/daily_graph_sync.py:294-319 | A JSON number, decimal text with a sign or not, and hexadecimal text in either case are read as the number they stand for, and pass as unsigned exactly when it is not negative |
| GraphRecords.NotANumber | framework/daily_graph_sync.py:294-319 | Null, lists, objects, empty text and text with a character that is no digit read as zero and do not pass as unsigned |
| GraphRecords.ValidNodeIff | framework/daily_graph_sync.py:330-348 | The node validator accepts exactly the records that have every field of the schema in its type |
| GraphRecords.ValidUpdateIff | framework/daily_graph_sync.py:351-367 | So does the validator of a directional update, which also accepts null |
| GraphRecords.ValidChannelIff | framework/daily_graph_sync.py:370-388 | So does the channel validator, with both updates present and valid |
| NodeDigest.PayloadOrder | framework/daily_graph_sync.py:591-606 | Timestamp first, canonical payload second is a total order on announcements |
| NodeDigest.MergeIsMaximum | framework/daily_graph_sync.py:591-606 | The merge of two announcements is one of them and not less than either |
| NodeDigest.NewerAnnouncementWins | framework/daily_graph_sync.py:591-601 | Of two announcements whose timestamps stand for different numbers, however written, the one with the greater number is kept, in either order |
| NodeDigest.NodesDigest | framework/daily_graph_sync.py:675-684 | The loop over the announcements hashes the payloads of the in-order fold, without the node under test |
| NodeDigest.DigestKeepsGreatest | framework/daily_graph_sync.py:675-684 | The digest has one entry per announced key, a record of the list, greatest among the records of that key |
| NodeDigest.DigestKeepsNewest | framework/daily_graph_sync.py:675-684 | No record of the list is newer, by the numbers their timestamps stand for, than the one hashed for its key |
| NodeDigest.NodeDigestByContent | framework/daily_graph_sync.py:549-557 | The node digest is a function of the set of announced payloads: order, repetition and letter case cannot change it |
| NodeDigest.NodeDigestPremerged | framework/daily_graph_sync.py:556-557 | Merging a page beforehand, wherever it stands in the stream, leaves the node digest as it is |
| NodeDigest.NeverSelf | framework/daily_graph_sync.py:676-682 | No entry of the digest carries the key of the node under test |
| NodeDigest.PayloadIffSameNode | framework/daily_graph_sync.py:574-588 | For schema-valid nodes the payloads are equal if and only if key, timestamp, name with its fallback, version, chain, funding amount, the multisets of addresses and of features, and the UDT settings up to list order are equal |
| PayloadLayout.NodeLaidOut | framework/daily_graph_sync.py:574-588 | The payload of a valid node has exactly nine keys, each read from its field: lower-cased, as the number it stands for, with the fallback name, sorted, verbatim, or up to list order |
| ChannelDigest.MergeChannel | framework/daily_graph_sync.py:622-672 | The field-by-field merge equals the join of both records, or raises when some identity field clashes |
| ChannelDigest.NewerOfTwo | framework/daily_graph_sync.py:609-619 | Per direction the merge keeps one of the two updates, not older than either |
| ChannelDigest.NewerUpdateWins | framework/daily_graph_sync.py:609-619 | Of two updates whose timestamps stand for different numbers the greater one is kept, in either order |
| ChannelDigest.NumbersClash | framework/daily_graph_sync.py:645-653 | Two records clash in creation time or capacity exactly when the fields stand for different numbers |
| ChannelDigest.TextsClash | framework/daily_graph_sync.py:634-644 | Two records clash in outpoint, node or chain exactly when the texts differ in more than case |
| ChannelDigest.JoinedCovers | framework/daily_graph_sync.py:622-672 | A merge says everything either record said and loses no newer update of any record merged before |
| ChannelDigest.ChannelsDigest | framework/daily_graph_sync.py:703-711 | The loop over the channels hashes the payloads of the in-order fold, or raises with the first conflict |
| ChannelDigest.FoldSummarises | framework/daily_graph_sync.py:703-710 | After any prefix each keyed record covers all records of its channel and says nothing that none of them said; if the fold failed, two records of one channel disagree |
| ChannelDigest.ConflictIffContradiction | framework/daily_graph_sync.py:634-666 | A conflict is raised if and only if two records of one channel disagree on an identity field, wherever they stand in the stream |
| ChannelDigest.PayloadIffSameChannel | framework/daily_graph_sync.py:687-700 | The payloads are equal if and only if outpoint, both nodes, chain, creation time, capacity, the script up to list order and both updates are equal |
| PayloadLayout.ChannelLaidOut | framework/daily_graph_sync.py:687-700 | The payload of a channel has exactly nine keys, each read from its field: lower-cased, as the number it stands for, the script up to list order, the updates verbatim |
| ChannelOrder.ConflictOrderFree | framework/daily_graph_sync.py:622-672 | Every reordering and repetition of the records raises a conflict if one of them does |
| ChannelOrder.FoldKeepsFirst | framework/daily_graph_sync.py:657-668 | The merge of a stream keeps, for each channel, the first script that a record of it carries |
| ChannelOrder.DigestSameIff | framework/daily_graph_sync.py:549-557 | Two streams of the same records, in any order and with any repetition, have the same digest if and only if each channel has the same first script in both |
| ChannelOrder.DigestOrderFreeIff | framework/daily_graph_sync.py:549-557 | Without a conflict, every reordering and repetition gives the same channel digest if and only if the records of each channel that carry a UDT script agree on one canonical script |
| ChannelOrder.OrderCanMatter | framework/daily_graph_sync.py:657-668 | Two schema-valid records whose scripts differ in true against 1 raise no conflict, and their order shows in the digest |
| ChannelOrder.ChannelDigestPremerged | framework/daily_graph_sync.py:549-557 | Merging a page beforehand, wherever it stands in the stream, neither makes nor hides a conflict, and never changes the digest |
| Pagination.Paginate | framework/daily_graph_sync.py:922-993 | The nested loops return the items of the recursive walk in order of first appearance, or the error that ended it, against any server |
| PaginationTheorems.WalkComplete | framework/daily_graph_sync.py:925-934 | Against a server of fewer than 10000 answers with a non-empty list under "nodes" or "channels" and good cursors under "last_cursor" the walk is the in-order merge of all items, errors included |
| PaginationTheorems.WalkSound | framework/daily_graph_sync.py:925-930 | Whatever the server does, a successful walk has seen a chain of non-empty pages with distinct non-empty cursors, ended by an empty page, and merged all of their items |
| PaginationTheorems.TooLongFails | framework/daily_graph_sync.py:940-993 | A stream of 10000 or more pages fails; it is never cut short |
| PaginationTheorems.BadAnswerFails | framework/daily_graph_sync.py:941-959 | One answer that is not an object with the list and a string cursor under these names fails the walk, after however many good pages |
| PaginationTheorems.WalkErrorsFrom | framework/daily_graph_sync.py:934-993 | A walk fails with the error of a call that failed, or with an error of the stream: shape, schema, cursor, page cap or conflict |
| PaginationTheorems.AbsorbIsFold | framework/daily_graph_sync.py:970-982 | Merging acceptable items one by one is the fold of their records, with the same error |
| PaginationTheorems.AbsorbRefuses | framework/daily_graph_sync.py:970-980 | One item without identity or against the schema fails the walk |
| PaginationTheorems.RefusedIffInvalid | framework/daily_graph_sync.py:970-980 | An item is refused exactly when it is no object or does not meet the schema of its kind |
| SnapshotDigest.SnapshotIsMergeOfStream | framework/daily_graph_sync.py:922-993 | A successful snapshot has exactly one record per lower-cased identity, and folding it gives what folding all records served gives |
| SnapshotDigest.PageSizeIrrelevant | framework/daily_graph_sync.py:922-993 | Two servers that cut one stream into pages differently give the same snapshot |
| SnapshotDigest.NodeDigestOfSnapshot | framework/daily_graph_sync.py:932-934 | Against a well-behaved server the node walk succeeds exactly when all items are acceptable, and its snapshot has one record per key and, for any node under test, the digest of all records served |
| SnapshotDigest.ChannelDigestOfSnapshot | framework/daily_graph_sync.py:932-934 | Against a well-behaved server a channel snapshot has one record per outpoint and the digest of all records served; for an acceptable stream the walk fails exactly when two records of one channel disagree |
| SnapshotDigest.OrderShowsInSnapshot | framework/daily_graph_sync.py:657-668 | Two servers that serve the same two valid records in opposite orders give successful snapshots whose channel digests differ |
| SnapshotDigest.NodeCountMatchesDigest | framework/daily_graph_sync.py:1549-1550 | The reported node count is the number of payloads hashed into the node digest |
| SnapshotDigest.ChannelCountMatchesDigest | framework/daily_graph_sync.py:1551 | The reported channel count is the number of payloads hashed into the channel digest |
| SnapshotDigest.CountChangeShows | framework/daily_graph_sync.py:1572-1582 | A change of either count changes the text of the corresponding digest |
| AggregateLog.SplitExact | framework/daily_graph_sync.py:761-762 | Lines and unfinished end give the log back and contain no newline |
| AggregateLog.SplitResumes | framework/daily_graph_sync.py:760-762 | Splitting in two readings is splitting at once when the unfinished end is carried over |
| AggregateLog.AggregateReader.Poll | framework/daily_graph_sync.py:737-776 | A poll keeps the reader's state equal to a single reading of all bytes consumed; one that raises changes nothing but the cap flag; otherwise exactly the bytes beyond the offset are consumed |
| AggregateLog.RaisesWhen | framework/daily_graph_sync.py:737-757 | A poll raises for a file over the cap, shorter than what was read, or grown and unreadable, and never otherwise |
| AggregateLog.AggregateReader.ConsumeLines | framework/daily_graph_sync.py:763-775 | The loop over the complete lines counts every aggregate once and keeps the last one and the history flag |
| AggregateLog.ViewTells | framework/daily_graph_sync.py:763-775 | The state read off the lines: the last recognised line is the latest aggregate, the sequence number counts the recognised lines, the history flag says that one of them had a finished peer |
| AggregateLog.AnyScheduleReadsPrefix | framework/daily_graph_sync.py:717-725 | What polls of a growing log read, on any schedule, is a prefix of it, and all of it once a poll sees the whole log |
| AggregateLog.ViewMonotone | framework/daily_graph_sync.py:771-775 | While the log grows the sequence number and the history flag never go back, and an unchanged number means an unchanged state |
| Convergence.FingerprintIffSamePeers | framework/daily_graph_sync.py:391-393 | Two peer lists have one fingerprint exactly when they are equal as multisets of key and address; its length is the number of peers |
| Convergence.Monitor.Step | framework/daily_graph_sync.py:1406-1723 | One pass of the loop updates the scalars and gives the verdict of the step function |
| ConvergenceTheorems.ScalarsMeanHistory | framework/daily_graph_sync.py:1376-1395 | After every prefix of every run the scalars stand for the history: newest aggregate, last change of peers, start of the current complete run, last change of counts and of digests |
| ConvergenceTheorems.CompletionMeans | framework/daily_graph_sync.py:1605-1619 | The completion test on the scalars is the six conditions on the history |
| ConvergenceTheorems.VerdictIffWindow | framework/daily_graph_sync.py:1605-1691 | The loop judges the graph stable at an observation if and only if a stretch of the history ending there proves it and the complete run that ends there did not begin at clock value zero |
| ConvergenceTheorems.ConvergedIffWindow | framework/daily_graph_sync.py:1605-1696 | On a clock positive at the start, convergence is declared exactly when such a stretch exists and the process is alive |
| ConvergenceTheorems.DoneConverges | framework/daily_graph_sync.py:125-136 | After a change of peers, samples at most 10 seconds apart over 30 seconds of the same n > 0 peers and the same graph, with newer lines saying that all n have finished or are passive, be it none of them finished any more, end in convergence |
| ConvergenceTheorems.ZeroClockMissesWindow | framework/daily_graph_sync.py:1660-1665 | A run on a clock that starts at zero has a stable stretch and is not declared converged |
| ConvergenceTheorems.PeerSetChangesExact | framework/daily_graph_sync.py:1472-1489 | The counter is the number of neighbouring fingerprints that differ in the sequence of fingerprints before and after every completed scan |
| SafeRun.ConvergedIsBacked | framework/daily_graph_sync.py:1691-1708 | A converged run's consumed log contains an aggregate with a finished peer, its last aggregate accounts for exactly the current peers with none active, one was consumed after the last change of peers was observed, and at least four linked samples of one peer set and one non-empty graph span the window after that change; on any monotone clock |
| SafeRun.SpanBounded | framework/daily_graph_sync.py:396-398 | Linked samples span at most one sample gap per step |
| SafeRun.PolledRunIsOverLog | framework/daily_graph_sync.py:1406-1408 | Observations that carry the reader's state after polls of a growing log form a run over that log, as those of the loop do |
| SafeRun.WindowContentUnchanged | framework/daily_graph_sync.py:1572-1583 | When each accepted sample's digests are those of its snapshot, all snapshots in a stable window have the same node and channel payloads |
| GraphScan.ListPeers | framework/daily_graph_sync.py:904-920 | A list of peers is accepted exactly when it is an object with a list of objects that have a string key and a string address, and then lists them in order |
| GraphScan.PeersRead | framework/daily_graph_sync.py:904-920 | What a peer list is, on the JSON answer; anything else is malformed |
| GraphScan.FingerprintOfReplies | framework/daily_graph_sync.py:391-393 | Two answers have one fingerprint exactly when they show the same keys at the same addresses, each as often |
| GraphScan.SnapshotValid | framework/daily_graph_sync.py:1435-1440 | Every record of a snapshot, merged ones included, is schema-valid, so the second validation never refuses one |
| GraphScan.ScanGraph | framework/daily_graph_sync.py:1427-1466 | A scan gives what its calls give in order: the first failure, classified; a discarded sample when the peers moved; otherwise the counts and digests of both walks |
| GraphScan.FailuresClassified | framework/daily_graph_sync.py:1427-1478 | The first failing call decides: one that may pass makes a failed scan, the deadline stops, an error of the stream is raised and not retried |
| GraphScan.SuccessClassified | framework/daily_graph_sync.py:1427-1500 | A scan without a failing call is accepted exactly when the peers did not move |
| GraphScan.ReportAnnounces | framework/daily_graph_sync.py:1549-1583 | An accepted scan reports how many payloads the streams served announced, and the digests of exactly those payloads |
| MonitoredRun.WatchLog | framework/daily_graph_sync.py:1397-1723 | The loop with its own reader, scans and scalars: it has consumed what the polls made of the file states, and ends at the first verdict of the observations this gives; an exit of the process or a poll that raises ends it with a failure that is not retried |
| MonitoredRun.BadPassEnds | framework/daily_graph_sync.py:737-757 | The exit of the process or a bad log file ends the loop in a failure that is not retried |
| MonitoredRun.FailedPass | framework/daily_graph_sync.py:1443-1478 | A scan that fails in a way that may pass never ends the loop and breaks every window over it; the deadline stops the loop; a wrong shape, schema, cursor, page count or conflict ends it in a failure that is not retried |
| MonitoredRun.FirstVerdictExact | framework/daily_graph_sync.py:1397-1708 | The loop converges at an observation exactly when nothing ended it before, the history up to there is the first that proves the graph stable, and the process is alive |
| MonitoredRun.ConvergedLoopIsBacked | framework/daily_graph_sync.py:1397-1708 | Whatever the schedule of polls of a growing log, when the loop converges the log read so far and the samples of the run so far back it |
| MonitoredRun.WindowAnnounces | framework/daily_graph_sync.py:1572-1583 | In a stable window all streams served in any scan announced the same node and channel payloads |
| MonitoredRun.ConvergedLoopAnnounces | framework/daily_graph_sync.py:1691-1708 | When the loop converges, its counts and digests are those of the payloads that every stream served during a stable window announced |
| Freshness.NewLineOrDescribed | framework/daily_graph_sync.py:14-20 | A converged run that used no aggregate line completed after the scan of its last change had, at the end of that scan, an unread line in a log that already described as many peers as done |
| Freshness.QuietConverges | framework/daily_graph_sync.py:1526-1546 | From every such history some continuation converges with nothing more written to the log |
| Freshness.NewLineUsedIff | framework/daily_graph_sync.py:14-20 | Every converging continuation after a change of peers uses a line completed after the scan that showed it, if and only if the log did not already describe the changed peers with a line not yet read |
| Freshness.SwapCanMislead | framework/daily_graph_sync.py:19-20 | Swapping the only peer for another can end in a converged run with the line of the old peer alone |
| Artifacts.CopyIsExactPrefix | framework/daily_graph_sync.py:1117-1126 | Despite short reads and growth, a copy that ends well is exactly the first snapshot bytes of the log |
| Artifacts.CopiedIff | framework/daily_graph_sync.py:1117-1126 | The copy ends well exactly when no read comes up empty and none of its reads and writes fails |
| Artifacts.CopySucceeds | framework/daily_graph_sync.py:1119-1126 | The copy ends well when nothing fails and the log keeps at least the snapshot size |
| Artifacts.ReportDir.ArchiveLog | framework/daily_graph_sync.py:1095-1133 | Success installs exactly the first snapshot bytes of an append-only log and leaves no temporary file; failure leaves the destination as it was; success and the size refusal are characterised exactly |
| Artifacts.ReportDir.WriteResultFiles | framework/daily_graph_sync.py:1151-1172 | Each file is the old one or the new one, the summary changes only after the samples are in place, no other file is touched, and it succeeds exactly when none of its five operations fails |
| Artifacts.ReportDir.ClearStale | framework/daily_graph_sync.py:1247-1262 | It succeeds exactly when nothing stale is stuck; a stale file stays exactly when it or an earlier one cannot be removed; nothing else is touched |
| Attempt.SyncResult.RecordArtifactFailure | framework/daily_graph_sync.py:1179-1185 | Records the reason, withdraws convergence and forbids a retry |
| Attempt.SyncResult.RecordCleanupFailure | framework/daily_graph_sync.py:1188-1194 | Records the reason, withdraws convergence and forbids a retry |
| Attempt.StopDecides | framework/daily_graph_sync.py:1397-1749 | The verdict at which the loop stops decides convergence, and whether its end is one that a second attempt could clear |
| Attempt.MonitorIffProven | framework/daily_graph_sync.py:1397-1708 | On a monotone clock the monitoring of an attempt converges exactly when its history holds a first proof of stability with the process alive |
| Attempt.ConvergedAttemptIsBacked | framework/daily_graph_sync.py:1397-1708 | An attempt whose monitoring converges over a growing log is backed by the log read and the samples taken up to that pass |
| Attempt.ReportedIsAnnounced | framework/daily_graph_sync.py:1696-1708 | The counts and digests that a converged attempt reports are those of the payloads announced by all streams served during a stable window of its run |
| Attempt.Body | framework/daily_graph_sync.py:1242-1749 | There is a node exactly when clearing and setup succeeded; the body converges exactly when clearing succeeded, the binary is verified and the loop converges; otherwise it may be retried exactly after a cleared, transient failure; the result says of the graph what the loop last saw; a stale summary or log stays exactly when it could not be removed |
| Attempt.Finalise | framework/daily_graph_sync.py:1757-1800 | Whatever fails in stop, shredding, archive and cleanup: a cleanup failure is recorded exactly if stop, shredding or removal failed, an artifact failure exactly if size or archive failed, the result stays converged exactly if neither did, the directory is cleaned exactly if stop did not fail, and the report gets the beginning of the log exactly if it could be archived |
| Attempt.SucceedsIff | framework/daily_graph_sync.py:1228-1838 | An attempt succeeds exactly when nothing stale is stuck, the expected binary runs, the loop converges, and stop, shredding, size, archive and cleanup all succeed |
| Attempt.RetriedIff | framework/daily_graph_sync.py:1208-1225 | It may be retried exactly when nothing stale is stuck, it ended out of time, at the deadline or with a passing exception, and nothing failed afterwards |
| Attempt.ReturnsIff | framework/daily_graph_sync.py:1151-1172 | It returns its result exactly when none of the five operations on the result files fails |
| Attempt.RunAttempt | framework/daily_graph_sync.py:1228-1838 | The environment and the files before decide everything: a result is returned exactly when both result files could be installed; it is converged exactly when clearing, body and finalisation succeed, and then its history proves stability; it may be retried exactly after a transient failure with nothing failing afterwards; it records a cleanup or artifact failure exactly when there is one; it shows the counts and digests of convergence, those of the last sample when time ran out, or none; the report holds this attempt's log, a stale one that could not be removed, or none; a summary without this attempt's samples is a stale one that could not be removed |
| Attempt.RunAttempts | test_cases/fiber/daily/test_daily_graph_sync.py:76-131 | Each further attempt follows exactly one that may be retried; the loop ends early only at a result that may not, or when an attempt raises |
| Attempt.Judge | test_cases/fiber/daily/test_daily_graph_sync.py:132-159 | The assertions after the loop, in order; those on graph and commit are about the last converged result |
| Attempt.RunDaily | test_cases/fiber/daily/test_daily_graph_sync.py:76-159 | The test passes if and only if the first attempt succeeds, or it may be retried and the second succeeds; in every other case the last attempt made decides which assertion fails; the assertions on the graph and on the commit cannot fail |
| Attempt.PrevIsLast | framework/daily_graph_sync.py:1728-1734 | The scalars reported when time runs out are count and digest of the last sample taken, and absent exactly if there was none |
| Sampler.SampleUntilStable | framework/graph_sync_metrics.py:308-563 | Every target ends with exactly one summary, that of its state after the rounds run, and the loop ends after the first round in which all are stable or the time is up |
| Sampler.FinalTells | framework/graph_sync_metrics.py:225-277 | Every number of a summary is the one that the polls made give: samples, differences, sums of rises and falls, polls above and below the one before, failed polls, time of the last change and since, and calls, failures, average and maximum per call; it is of the polls up to stability, or of all at the end |
| Sampler.CountersAreOfPolls | framework/graph_sync_metrics.py:416-434 | While a target is polled its counters are those of its successful polls |
| Sampler.CountersConserve | framework/graph_sync_metrics.py:416-434 | Final minus initial counts equal added minus removed, and growths and regressions together account for every change |
| Sampler.SummaryConserves | framework/graph_sync_metrics.py:225-277 | The same in every summary, for either reason |
| Sampler.CallsAccounted | framework/graph_sync_metrics.py:166-173 | Each call was made once per poll until the target was done: samples plus failed graph polls; its failures and total time are those of these polls |
| Sampler.SlowestKept | framework/graph_sync_metrics.py:171 | The maximum on record is the slowest call of the polls made |
| Sampler.StableIffSteady | framework/graph_sync_metrics.py:525-536 | A target is declared stable at a poll if and only if a span of samples ending there was steady for the required time |
| CompactTarget.RoundTrip | framework/helper/miner.py:136-159 | Encoding and decoding never increases a target, loses less than one part in 65536, and is exact up to three bytes |
| CompactTarget.OverflowIffTooWide | framework/helper/miner.py:146 | The overflow flag of an encoded target is set exactly from 2^256 on |
| CompactTarget.EncodeMonotone | framework/helper/miner.py:150-159 | Encoding is monotone |
| CompactTarget.DecodedSurvives | framework/helper/miner.py:136-159 | The value of any compact form survives encoding and decoding unchanged |
| CompactTarget.EncodingIsFixedPoint | framework/helper/miner.py:136-159 | Decoding an encoding and encoding again gives the same compact form |
| CompactTarget.Encoded | framework/helper/miner.py:158 | The bitwise or never mixes mantissa and exponent |
| CompactTarget.Decoded | framework/helper/miner.py:136-147 | For every compact form with leading byte e and mantissa m the target is m * 256^e / 256^3 rounded down, and the flag is set exactly when e > 32 and m is not zero |
| U128.ToBigUint128Le | framework/util.py:146-158 | The word loop writes the sixteen little-endian bytes, or rejects the number |
| U128.ToIntFromBigUint128Le | framework/util.py:161-175 | The in-place reversal and big-endian reading give the little-endian value |
| U128.DecodeEncode | framework/util.py:146-175 | Encoding accepts exactly 0 to 2^128 - 1, with one error below and another above, and decoding gives the number back |
| U128.EncodeDecode | framework/util.py:146-175 | Canonical lower-case text of sixteen bytes is the encoding of its value |
| U128.DecodeIff | framework/util.py:161-175 | A text is read as a number exactly when, after an optional "0x", it spells the little-endian bytes of that number: two digits of either case a byte, ASCII blanks around the pairs |
| ExpiryLevels.CollapseExpiryLevels | test_cases/fiber/cch/test_htlc_delta.py:61-69 | The levels descend by more than two seconds, are inputs, and every input lies at most two seconds below one of them |
| ExpiryLevels.InputOrderIrrelevant | test_cases/fiber/cch/test_htlc_delta.py:63 | These properties determine the levels, whatever the order and repetition of the input |
| ExpiryLevels.LevelsOptimal | test_cases/fiber/cch/test_htlc_delta.py:61-69 | The number of levels is the size of the largest pairwise separated selection of inputs and the least number of tolerance-length intervals that cover them |
| RpcProxy.CkbRpcProxy.Drive | framework/ckb_rpc_proxy.py:182-288 | Any interleaving of control calls, arrivals and lock sections takes the object where the run takes its state, with the same marks for the client |
| RpcProxy.CkbRpcProxy.DriveLimited | framework/ckb_rpc_proxy.py:101-117 | After block_after(n) on the object, any session that leaves the limit alone forwards at most n requests, plus the one in flight, counts what passes the gate, and refuses there only at n |
| RpcProxy.CkbRpcProxy.DriveBlocked | framework/ckb_rpc_proxy.py:134-148 | Once auto-blocked, no session without unblocking or arming forwards anything |
| RpcProxy.NewProxyForwards | framework/ckb_rpc_proxy.py:41-56 | A new proxy that nobody configures forwards every request that arrives |
| RpcProxy.GateBudget | framework/ckb_rpc_proxy.py:101-117 | In any interleaving after block_after(n), the forwarded count is the number of requests that passed the gate, at most n, and the gate refuses only when exactly n have passed |
| RpcProxy.ForwardedAfterArming | framework/ckb_rpc_proxy.py:101-107 | At most n requests are forwarded after block_after(n), plus the one already past the gate |
| RpcProxy.LimitAttained | framework/ckb_rpc_proxy.py:101-107 | From every state some session forwards n requests plus the one in flight |
| RpcProxy.ArmingExact | framework/ckb_rpc_proxy.py:101-107 | At most n requests are forwarded in every session after block_after(n) if and only if no request stood between gate and forwarding when it was called |
| RpcProxy.ResumeOpensGate | framework/ckb_rpc_proxy.py:113-117 | After resume the gate refuses nothing and counts nothing until it is armed again |
| RpcProxy.BlockedMethodsStop | framework/ckb_rpc_proxy.py:69-80 | After block_methods none of them is forwarded but a request past the error section, and only they are answered with an error, the default one, until the table changes |
| RpcProxy.ConfiguredErrorAnswers | framework/ckb_rpc_proxy.py:82-93 | After block_method_with_error requests for the method are answered with that code and message and not forwarded but for one past the section; other methods stay as they were |
| RpcProxy.UnblockMethodsClears | framework/ckb_rpc_proxy.py:95-99 | After unblock_methods no method is answered with an error until the table is set again |
| RpcProxy.BlockingExact | framework/ckb_rpc_proxy.py:69-80 | No session after block_methods forwards one of them if and only if no request for one was between the error section and forwarding |
| RpcProxy.PassesAndForwards | framework/ckb_rpc_proxy.py:248-269 | Passes and forwards differ by the request in flight; the total counts the forwards |
| RpcProxy.RejectsExactly | framework/ckb_rpc_proxy.py:58-67 | reject_next(n) resets exactly the first n requests that arrive |
| RpcProxy.OneOutcomeEach | framework/ckb_rpc_proxy.py:182-271 | Every request that arrives has exactly one outcome or is still open |
| RpcProxy.AutoBlockInvariant | framework/ckb_rpc_proxy.py:198-219 | While auto-blocked no request is past the auto-block section |
| RpcProxy.NothingAfterAutoBlock | framework/ckb_rpc_proxy.py:134-148 | After an auto-block nothing passes the gate and nothing is forwarded until unblocking or arming again |
| RpcProxy.TriggerFires | framework/ckb_rpc_proxy.py:134-148 | After auto_block_on_method the proxy is blocked exactly when a request for that method has been refused, nothing is refused before, and no such request is forwarded but one past the section |
| RpcProxy.TriggerExact | framework/ckb_rpc_proxy.py:134-148 | No session after auto_block_on_method forwards a request for that method if and only if none was between the auto-block section and forwarding |
| RpcProxy.UnblockLifts | framework/ckb_rpc_proxy.py:312-316 | After unblock the auto-block refuses nothing until it is set again |
| RpcProxy.NotifiedIffForwarded | framework/ckb_rpc_proxy.py:119-132 | After notify_on_method the event is set exactly when a request for that method is forwarded |

## Left out

- JsonText.PrintInjective: floating-point numbers and lone surrogates, which `json.dumps` also prints, are not values of the model; neither occurs in the graph RPCs.
- JsonText.TextDeterminesValue: the same, for the same reason.
- JsonText.CanonOrder: the order is total on the values of the model, which have no floating-point numbers.
- Process control, signals, ports, permissions, YAML, environment variables, HTTP and JSON-RPC transport.
- SHA-256, gzip and UTF-8 decoding: digests are compared by the text that is hashed, an archive by what it decompresses to, and the regular expression for an aggregate is a parameter over lines.
- Progress output, heartbeats, rounding of reported times, and the diagnostic text of a failed attempt.
- `_validate_*` error messages: only acceptance or refusal of an item is modelled, and a record whose text fields hold something other than a string counts as not having them.
- GraphRecords.Lower: lower-cases ASCII letters only.
- GraphRecords.ParseInt: reads an optional sign and ASCII digits; the blanks, underscores and other digits that Python's `int` also takes are not modelled.
- CompactTarget.TargetToCompact: targets are non-negative; Python would also shift a negative number.
- The pacing of the monitoring loop and its deadline: what its passes meet is a parameter, and the loop ends with them.
- `match_bootnodes`, URL validation and commit-token matching: their outcomes are parameters.
- Sampler.SampleUntilStable: peer-change events, the longest change gap and the list of sample records are not kept; they feed no decision.
- The proxy's `block`, `stop` and restart of the listening socket, and more than one handler at a time.
- Attempt.RunAttempt: the bytes of samples and summary are given, not derived from the result, and `node_log_capped` is not kept.
- GraphScan.ScanGraph: the calls of one scan are answered by parameters; an exception between an accepted scan and its verdict is one too.

/** The monitoring loop over a log file: every pass polls the log and scans the graph. */
module MonitoredRun {
  import opened Wrappers
  import opened AggregateLog
  import opened Convergence
  import opened ConvergenceTheorems
  import opened SafeRun
  import opened JsonText
  import opened GraphRecords
  import opened NodeDigest
  import opened ChannelDigest
  import opened Pagination
  import opened PaginationTheorems
  import opened GraphScan

  // ----- the first verdict -----

  ghost predicate Undecided(start: real, trace: seq<Observation>, k: nat)
    requires k <= |trace|
  {
    forall j: nat :: j < k ==> VerdictOf(After(start, trace, j), trace[j]) == Continue
  }

  /** The loop ends at observation `k`, with this verdict. */
  ghost predicate FirstVerdict(start: real, trace: seq<Observation>, k: nat, v: Verdict) {
    && v != Continue && k < |trace|
    && VerdictOf(After(start, trace, k), trace[k]) == v
    && Undecided(start, trace, k)
  }

  lemma FirstVerdictUnique(start: real, trace: seq<Observation>, k: nat, v: Verdict, k': nat, v': Verdict)
    requires FirstVerdict(start, trace, k, v) && FirstVerdict(start, trace, k', v')
    ensures k == k' && v == v'
  {
  }

  /** The scalars depend on the observations made, not on those to come. */
  lemma {:induction false} AfterPrefix(start: real, trace: seq<Observation>, n: nat, k: nat)
    requires k <= n <= |trace|
    ensures After(start, trace[..n], k) == After(start, trace, k)
  {
    if k > 0 {
      AfterPrefix(start, trace, n, k - 1);
    }
  }

  lemma EndsRun(s: Scalars, o: Observation)
    requires VerdictOf(s, o) in {Continue, Converged, NodeGone}
    ensures o.scan.Failed? || o.scan.Scanned?
  {
  }

  lemma ClockedPrefix(start: real, trace: seq<Observation>, n: nat)
    requires n <= |trace| && Clocked(start, trace)
    ensures Clocked(start, trace[..n])
  {
  }

  /** The history up to observation `j` proves the graph stable. */
  ghost predicate ProvenAt(trace: seq<Observation>, j: nat)
    requires j < |trace|
  {
    Credited(trace[..j + 1], j)
  }

  /** The judgement at observation `j` is one about the history up to it. */
  lemma JudgedSoFar(start: real, trace: seq<Observation>, j: nat)
    requires j < |trace| && Clocked(start, trace) && Ongoing(trace[..j + 1])
    ensures VerdictOf(After(start, trace, j), trace[j]) in {Continue, Converged, NodeGone}
    ensures VerdictOf(After(start, trace, j), trace[j]) in {Converged, NodeGone} <==> ProvenAt(trace, j)
    ensures VerdictOf(After(start, trace, j), trace[j]) == Converged <==> ProvenAt(trace, j) && Alive(trace, j)
  {
    hide VerdictOf, After, Credited;
    var h := trace[..j + 1];
    ClockedPrefix(start, trace, j + 1);
    AfterPrefix(start, trace, j + 1, j);
    assert h[j] == trace[j];
    OngoingVerdict(After(start, trace, j), trace[j]);
    AliveDecides(After(start, trace, j), trace[j]);
    VerdictIffWindow(start, h, j);
  }

  lemma OngoingPrefix(trace: seq<Observation>, m: nat, n: nat)
    requires m <= n <= |trace| && Ongoing(trace[..n])
    ensures Ongoing(trace[..m])
  {
    assert forall k :: 0 <= k < m ==> trace[..m][k] == trace[..n][k];
  }

  lemma UndecidedIsOngoing(start: real, trace: seq<Observation>, k: nat)
    requires k <= |trace| && Undecided(start, trace, k)
    ensures Ongoing(trace[..k])
  {
    hide VerdictOf, After;
    forall j: nat | j < k ensures trace[..k][j].scan.Failed? || trace[..k][j].scan.Scanned? {
      EndsRun(After(start, trace, j), trace[j]);
    }
  }

  /** The loop converges at observation `k` exactly when nothing ended the run before, the history up
      to `k` is the first to prove the graph stable, and the process is alive. */
  lemma FirstVerdictExact(start: real, trace: seq<Observation>, k: nat)
    requires k < |trace| && Clocked(start, trace)
    ensures FirstVerdict(start, trace, k, Converged) <==>
      && Ongoing(trace[..k + 1]) && Alive(trace, k) && ProvenAt(trace, k)
      && forall j: nat :: j < k ==> !ProvenAt(trace, j)
  {
    hide VerdictOf, After, ProvenAt, Alive, Clocked;
    if FirstVerdict(start, trace, k, Converged) {
      UndecidedIsOngoing(start, trace, k);
      EndsRun(After(start, trace, k), trace[k]);
      assert Ongoing(trace[..k + 1]) by {
        assert forall j :: 0 <= j < k ==> trace[..k + 1][j] == trace[..k][j];
      }
    }
    if Ongoing(trace[..k + 1]) {
      forall j: nat | j <= k
        ensures VerdictOf(After(start, trace, j), trace[j]) in {Continue, Converged, NodeGone}
        ensures VerdictOf(After(start, trace, j), trace[j]) in {Converged, NodeGone} <==> ProvenAt(trace, j)
        ensures VerdictOf(After(start, trace, j), trace[j]) == Converged <==> ProvenAt(trace, j) && Alive(trace, j)
      {
        OngoingPrefix(trace, j + 1, k + 1);
        JudgedSoFar(start, trace, j);
      }
    }
  }

  // ----- polls and scans -----

  /** What is fixed for a run: the aggregate in a log line, the cap of the log, the node under test, and
      whether a list of peers has a configured bootnode. */
  datatype Setting = Setting(parse: LineParser, maxBytes: nat, selfPubkey: string, bootnodes: Bootnodes)

  /** What one pass through the loop meets: the process has exited, or the log file as the poll finds it
      and then the answers to the scan. */
  datatype Pass = Exited | Polled(file: FileState, graph: GraphInput)

  /** The log file at each pass; a pass that does not poll reads as little as one without a file. */
  function Files(passes: seq<Pass>): seq<FileState> {
    seq(|passes|, k requires 0 <= k < |passes| => if passes[k].Exited? then Missing else passes[k].file)
  }

  /** What had been read before pass `k`. */
  function ReadBefore(passes: seq<Pass>, maxBytes: nat, k: nat): seq<byte>
    requires k <= |passes|
  {
    Read(Files(passes)[..k], maxBytes)
  }

  /** Neither the exit of the process nor a poll that raises may be retried. */
  ghost function ScanOf(setting: Setting, passes: seq<Pass>, k: nat): Scan
    requires k < |passes|
  {
    if passes[k].Exited? || Raises(passes[k].file, |ReadBefore(passes, setting.maxBytes, k)|, setting.maxBytes).Some?
    then Raised(false)
    else Report(setting.selfPubkey, setting.bootnodes, passes[k].graph)
  }

  /** The observations of the loop: the scan, and the reader as the poll leaves it. */
  ghost function TraceOf(setting: Setting, passes: seq<Pass>): seq<Observation> {
    seq(|passes|, k requires 0 <= k < |passes| =>
      Observation(OneShot(setting.parse, ReadBefore(passes, setting.maxBytes, k + 1)), ScanOf(setting, passes, k)))
  }

  lemma ReadNext(passes: seq<Pass>, maxBytes: nat, k: nat)
    requires k < |passes|
    ensures ReadBefore(passes, maxBytes, k + 1) ==
      if passes[k].Exited? || Raises(passes[k].file, |ReadBefore(passes, maxBytes, k)|, maxBytes).Some?
      then ReadBefore(passes, maxBytes, k)
      else ReadBefore(passes, maxBytes, k) + NewBytes(passes[k].file, |ReadBefore(passes, maxBytes, k)|)
  {
    hide Raises, NewBytes;
    var files := Files(passes);
    assert files[..k + 1][..k] == files[..k] && files[..k + 1][k] == files[k];
    if passes[k].Exited? {
      MissingReadsNothing(|ReadBefore(passes, maxBytes, k)|, maxBytes);
    }
  }

  lemma MissingReadsNothing(offset: nat, maxBytes: nat)
    ensures Raises(Missing, offset, maxBytes) == None && NewBytes(Missing, offset) == []
  {
  }

  lemma ReadNothing(passes: seq<Pass>, maxBytes: nat)
    ensures ReadBefore(passes, maxBytes, 0) == []
  {
  }

  lemma ExitFails(s: Scalars, v: View)
    ensures VerdictOf(s, Observation(v, Raised(false))) == Failure
  {
  }

  /** An exception of a kind that may be retried. */
  predicate Retryable(o: Observation) {
    o.scan.Raised? && o.scan.retryable
  }

  /** One pass: the loop's exit check, the poll and the scan. */
  method OnePass(setting: Setting, passes: seq<Pass>, k: nat, start: real, m: Monitor, reader: AggregateReader)
    returns (verdict: Verdict, retryable: bool)
    requires k < |passes| && reader.Valid() && reader.parse == setting.parse && reader.maxBytes == setting.maxBytes
    requires reader.consumed == ReadBefore(passes, setting.maxBytes, k)
    requires m.State() == After(start, TraceOf(setting, passes), k)
    modifies m, reader
    ensures reader.Valid() && reader.consumed == ReadBefore(passes, setting.maxBytes, k + 1)
    ensures verdict == VerdictOf(After(start, TraceOf(setting, passes), k), TraceOf(setting, passes)[k])
    ensures retryable == Retryable(TraceOf(setting, passes)[k])
    ensures verdict != Failure ==> m.State() == After(start, TraceOf(setting, passes), k + 1)
  {
    hide VerdictOf, Next, Raises, NewBytes, OneShot, ReadBefore, Report;
    ghost var o := TraceOf(setting, passes)[k];
    ReadNext(passes, setting.maxBytes, k);
    if passes[k].Exited? {
      ExitFails(m.State(), o.reader);
      return Failure, false;
    }
    var polled := reader.Poll(passes[k].file);
    if polled.Err? {
      ExitFails(m.State(), o.reader);
      return Failure, false;
    }
    var scan := ScanGraph(setting.selfPubkey, setting.bootnodes, passes[k].graph);
    verdict := m.Step(Observation(View(reader.latest, reader.seqNo, reader.everFinished), scan));
    retryable := scan.Raised? && scan.retryable;
  }

  /** The loop ends after `k` passes with this verdict, or runs out of passes (of time). */
  ghost predicate Stops(start: real, trace: seq<Observation>, k: nat, verdict: Verdict) {
    if verdict == Continue then k == |trace| && Undecided(start, trace, k)
    else k > 0 && FirstVerdict(start, trace, k - 1, verdict)
  }

  lemma DecidedAt(start: real, trace: seq<Observation>, k: nat, verdict: Verdict)
    requires k < |trace| && Undecided(start, trace, k) && verdict == VerdictOf(After(start, trace, k), trace[k])
    ensures if verdict == Continue then Undecided(start, trace, k + 1) else Stops(start, trace, k + 1, verdict)
  {
    hide VerdictOf, After;
  }

  /** The monitoring loop with its log reader: it consumes what a single reading of the log would give
      and stops at the first verdict of the observations it makes. */
  method WatchLog(start: real, setting: Setting, passes: seq<Pass>)
    returns (verdict: Verdict, k: nat, retryable: bool, m: Monitor, reader: AggregateReader)
    ensures k <= |passes| && Stops(start, TraceOf(setting, passes), k, verdict)
    ensures reader.Valid() && reader.consumed == ReadBefore(passes, setting.maxBytes, k)
    ensures verdict != Failure ==> m.State() == After(start, TraceOf(setting, passes), k)
    ensures verdict == Failure ==> k > 0 && retryable == Retryable(TraceOf(setting, passes)[k - 1])
  {
    hide VerdictOf, Next, ReadBefore, Stops, Undecided, TraceOf;
    ghost var trace := TraceOf(setting, passes);
    TraceLength(setting, passes);
    reader := new AggregateReader(setting.parse, setting.maxBytes);
    m := new Monitor(start);
    k := 0;
    verdict, retryable := Continue, false;
    ReadNothing(passes, setting.maxBytes);
    NothingDecided(start, trace);
    while k < |passes| && verdict == Continue
      invariant k <= |passes| && fresh(m) && fresh(reader)
      invariant reader.Valid() && reader.parse == setting.parse && reader.maxBytes == setting.maxBytes
      invariant reader.consumed == ReadBefore(passes, setting.maxBytes, k)
      invariant verdict != Failure ==> m.State() == After(start, trace, k)
      invariant verdict == Failure ==> k > 0 && retryable == Retryable(trace[k - 1])
      invariant if verdict == Continue then Undecided(start, trace, k) else Stops(start, trace, k, verdict)
      decreases |passes| - k
    {
      verdict, retryable := OnePass(setting, passes, k, start, m, reader);
      DecidedAt(start, trace, k, verdict);
      k := k + 1;
    }
    RunOut(start, trace, k, verdict);
  }

  lemma NothingDecided(start: real, trace: seq<Observation>)
    ensures Undecided(start, trace, 0)
  {
  }

  lemma RunOut(start: real, trace: seq<Observation>, k: nat, verdict: Verdict)
    requires k <= |trace| && (if verdict == Continue then k == |trace| && Undecided(start, trace, k) else Stops(start, trace, k, verdict))
    ensures Stops(start, trace, k, verdict)
  {
  }

  // ----- what each pass does to the loop -----

  /** The log file has outgrown its cap, is shorter than what was read of it, or has grown and cannot be
      opened. */
  predicate BadFile(file: FileState, read: nat, maxBytes: nat) {
    file.Present? && (file.size > maxBytes || file.size < read || (file.size > read && file.content.None?))
  }

  lemma BadFileRaises(file: FileState, read: nat, maxBytes: nat)
    ensures Raises(file, read, maxBytes).Some? <==> BadFile(file, read, maxBytes)
  {
  }

  lemma ScanVerdicts(s: Scalars, o: Observation)
    ensures o.scan == Failed ==> (
      VerdictOf(s, o) == Continue && Next(s, o).completionSince == None && Next(s, o).lastSampleTs == None)
    ensures o.scan == DeadlineHit ==> VerdictOf(s, o) == Stopped
    ensures o.scan.Raised? ==> VerdictOf(s, o) == Failure
  {
  }

  lemma PassScan(setting: Setting, passes: seq<Pass>, k: nat)
    requires k < |passes|
    ensures var scan := TraceOf(setting, passes)[k].scan;
      if passes[k].Exited? || BadFile(passes[k].file, |ReadBefore(passes, setting.maxBytes, k)|, setting.maxBytes)
      then scan == Raised(false)
      else scan == Report(setting.selfPubkey, setting.bootnodes, passes[k].graph)
  {
    hide Report, Raises, BadFile, OneShot, ReadBefore;
    if passes[k].Polled? {
      BadFileRaises(passes[k].file, |ReadBefore(passes, setting.maxBytes, k)|, setting.maxBytes);
    }
  }

  /** The exit of the process or a bad log file ends the loop, and it is not retried. */
  lemma BadPassEnds(start: real, setting: Setting, passes: seq<Pass>, k: nat)
    requires k < |passes| && |TraceOf(setting, passes)| == |passes| && Undecided(start, TraceOf(setting, passes), k)
    requires passes[k].Exited? || BadFile(passes[k].file, |ReadBefore(passes, setting.maxBytes, k)|, setting.maxBytes)
    ensures FirstVerdict(start, TraceOf(setting, passes), k, Failure) && !Retryable(TraceOf(setting, passes)[k])
  {
    hide TraceOf, VerdictOf, After, BadFile, ReadBefore, Undecided;
    PassScan(setting, passes, k);
    ScanVerdicts(After(start, TraceOf(setting, passes), k), TraceOf(setting, passes)[k]);
  }

  /** A scan whose first failing call fails in a way that may pass never ends the loop, and breaks the
      window; one that meets the deadline stops it; one that finds a wrong shape, schema, cursor, page
      count or conflict ends it for good. */
  lemma FailedPass(start: real, setting: Setting, passes: seq<Pass>, k: nat, e: GraphError)
    requires k < |passes| && |TraceOf(setting, passes)| == |passes| && Undecided(start, TraceOf(setting, passes), k)
    requires passes[k].Polled? && !BadFile(passes[k].file, |ReadBefore(passes, setting.maxBytes, k)|, setting.maxBytes)
    requires FailsWith(passes[k].graph, e)
    ensures var trace := TraceOf(setting, passes);
      && (e == CallFailed ==> (
            && Undecided(start, trace, k + 1)
            && After(start, trace, k + 1).completionSince == None && After(start, trace, k + 1).lastSampleTs == None
            && forall i: nat, j: nat :: i <= k <= j < |trace| ==> !StableWindow(trace, i, j)))
      && (e == OutOfTime ==> FirstVerdict(start, trace, k, Stopped))
      && (OfStream(e) ==> FirstVerdict(start, trace, k, Failure) && !Retryable(trace[k]))
  {
    hide TraceOf, VerdictOf, Next, BadFile, ReadBefore, Report, FailsWith, OfStream;
    var trace := TraceOf(setting, passes);
    PassScan(setting, passes, k);
    FailuresClassified(setting.selfPubkey, setting.bootnodes, passes[k].graph, e);
    ScanVerdicts(After(start, trace, k), trace[k]);
    if e == CallFailed {
      forall i: nat, j: nat | i <= k <= j < |trace| ensures !StableWindow(trace, i, j) {
        NoWindowOver(trace, i, j, k);
      }
    }
  }

  lemma NoWindowOver(trace: seq<Observation>, i: nat, j: nat, k: nat)
    requires i <= k <= j < |trace| && !trace[k].scan.Scanned?
    ensures !StableWindow(trace, i, j)
  {
    hide Completed;
    NotCompleted(trace, k);
  }

  // ----- a converged run over a growing log -----

  /** The observations of the first passes. */
  lemma TracePrefix(setting: Setting, passes: seq<Pass>, n: nat)
    requires n <= |passes|
    ensures TraceOf(setting, passes)[..n] == TraceOf(setting, passes[..n])
  {
    hide OneShot, Read, Raises, Report;
    forall k: nat | k <= n ensures ReadBefore(passes[..n], setting.maxBytes, k) == ReadBefore(passes, setting.maxBytes, k) {
      assert Files(passes[..n])[..k] == Files(passes)[..k];
    }
  }

  /** The observations of polls of a growing log form a run over that log. */
  lemma PassesOverLog(setting: Setting, passes: seq<Pass>, log: seq<byte>)
    requires Growing(Files(passes), log)
    ensures OverLog(TraceOf(setting, passes), setting.parse, log, ReadLengths(Files(passes), setting.maxBytes))
  {
    hide OneShot, Read, Raises, Growing, Report;
    PolledRunIsOverLog(TraceOf(setting, passes), setting.parse, Files(passes), log, setting.maxBytes);
  }

  lemma GrowingPrefix(passes: seq<Pass>, log: seq<byte>, n: nat)
    requires n <= |passes| && Growing(Files(passes), log)
    ensures Growing(Files(passes[..n]), log)
  {
    assert Files(passes[..n]) == Files(passes)[..n];
    assert forall i :: 0 <= i < n ==> Files(passes)[..n][i] == Files(passes)[i];
  }

  /** When the loop converges at pass `k`, on any schedule of polls of a growing log, the log read so
      far and the samples of the run so far back it. */
  lemma ConvergedLoopIsBacked(start: real, setting: Setting, passes: seq<Pass>, k: nat, log: seq<byte>)
    returns (i: nat, c: nat)
    requires FirstVerdict(start, TraceOf(setting, passes), k, Converged)
    requires Clocked(start, TraceOf(setting, passes)) && Growing(Files(passes), log)
    ensures var trace, lens := TraceOf(setting, passes[..k + 1]), ReadLengths(Files(passes[..k + 1]), setting.maxBytes);
      && Ongoing(trace) && OverLog(trace, setting.parse, log, lens)
      && BackedBySamples(trace, k, i) && BackedByLog(trace, setting.parse, log, lens, k, c) && c < i
  {
    hide VerdictOf, After, Growing, OverLog, BackedBySamples, BackedByLog, Ongoing, Clocked, TraceOf, ReadLengths, Credited;
    var trace := TraceOf(setting, passes);
    assert |trace| == |passes| by {
      TraceLength(setting, passes);
    }
    TracePrefix(setting, passes, k + 1);
    FirstVerdictExact(start, trace, k);
    ClockedPrefix(start, trace, k + 1);
    AfterPrefix(start, trace, k + 1, k);
    GrowingPrefix(passes, log, k + 1);
    PassesOverLog(setting, passes[..k + 1], log);
    i, c := ConvergedIsBacked(start, trace[..k + 1], k, setting.parse, log, ReadLengths(Files(passes[..k + 1]), setting.maxBytes));
  }

  lemma TraceLength(setting: Setting, passes: seq<Pass>)
    ensures |TraceOf(setting, passes)| == |passes|
  {
  }

  // ----- the graph of a converged run -----

  /** The graph of each pass whose scan was accepted. */
  ghost function SnapshotsOf(passes: seq<Pass>): seq<Snapshot> {
    seq(|passes|, k requires 0 <= k < |passes| =>
      if passes[k].Exited? then Snapshot([], [])
      else Snapshot(SnapshotOf(passes[k].graph.nodes, Nodes), SnapshotOf(passes[k].graph.channels, Channels)))
  }

  /** An accepted observation is a scan, and shows what its streams announced. */
  lemma AcceptedAnnounces(setting: Setting, passes: seq<Pass>, k: nat)
    requires k < |passes| && Accepted(TraceOf(setting, passes), k)
    ensures passes[k].Polled?
    ensures var nodes := NodeEntries(SnapshotsOf(passes)[k].nodes, Lower(setting.selfPubkey));
      var channels := ChannelEntries(SnapshotsOf(passes)[k].channels);
      var scan := TraceOf(setting, passes)[k].scan;
      && channels.Ok? && Announces(setting.selfPubkey, passes[k].graph, nodes, channels.value)
      && scan.nodes == |nodes| && scan.channels == |channels.value| && scan.digest == (DigestText(nodes), DigestText(channels.value))
  {
    hide OneShot, ReadBefore, Raises, Report, Announces, NodeEntries, ChannelEntries, DigestText, SnapshotOf;
    ReportAnnounces(setting.selfPubkey, setting.bootnodes, passes[k].graph);
  }

  lemma AcceptedDigests(setting: Setting, passes: seq<Pass>)
    ensures DigestsOf(TraceOf(setting, passes), SnapshotsOf(passes), Lower(setting.selfPubkey))
  {
    hide TraceOf, SnapshotsOf, Announces, NodeEntries, ChannelEntries, DigestText;
    TraceLength(setting, passes);
    SnapshotsLength(passes);
    forall k | 0 <= k < |passes| && Accepted(TraceOf(setting, passes), k)
      ensures ChannelEntries(SnapshotsOf(passes)[k].channels).Ok?
      ensures TraceOf(setting, passes)[k].scan.digest == (
        DigestText(NodeEntries(SnapshotsOf(passes)[k].nodes, Lower(setting.selfPubkey))),
        DigestText(ChannelEntries(SnapshotsOf(passes)[k].channels).value))
    {
      AcceptedAnnounces(setting, passes, k);
    }
  }

  lemma SnapshotsLength(passes: seq<Pass>)
    ensures |SnapshotsOf(passes)| == |passes|
  {
  }

  /** Every pass from `i` to `k` was a scan, and all streams served in any of them announced exactly
      these node and channel payloads. */
  ghost predicate SteadyGraph(setting: Setting, passes: seq<Pass>, i: nat, k: nat, nodes: seq<Json>, channels: seq<Json>)
    requires k < |passes|
  {
    forall j: nat :: i <= j <= k ==> passes[j].Polled? && Announces(setting.selfPubkey, passes[j].graph, nodes, channels)
  }

  /** In a stable window all streams served announced the same payloads, those that the last sample
      reports by number and digest. */
  lemma WindowAnnounces(setting: Setting, passes: seq<Pass>, i: nat, k: nat) returns (nodes: seq<Json>, channels: seq<Json>)
    requires k < |passes| && |TraceOf(setting, passes)| == |passes| && StableWindow(TraceOf(setting, passes), i, k)
    ensures SteadyGraph(setting, passes, i, k, nodes, channels)
    ensures Accepted(TraceOf(setting, passes), k)
    ensures CountOf(TraceOf(setting, passes)[k].scan) == (|nodes|, |channels|)
    ensures DigestOf(TraceOf(setting, passes)[k].scan) == (DigestText(nodes), DigestText(channels))
  {
    hide TraceOf, SnapshotsOf, Announces, NodeEntries, ChannelEntries, DigestText, Completed, DigestsOf;
    var trace, snapshots := TraceOf(setting, passes), SnapshotsOf(passes);
    SnapshotsLength(passes);
    assert Completed(trace, i);
    WindowOneGraph(trace, i, k);
    AcceptedDigests(setting, passes);
    AcceptedAnnounces(setting, passes, k);
    nodes := NodeEntries(snapshots[k].nodes, Lower(setting.selfPubkey));
    channels := ChannelEntries(snapshots[k].channels).value;
    forall j: nat | i <= j <= k
      ensures passes[j].Polled? && Announces(setting.selfPubkey, passes[j].graph, nodes, channels)
    {
      AcceptedAnnounces(setting, passes, j);
      WindowContentUnchanged(trace, snapshots, Lower(setting.selfPubkey), i, k, j);
    }
  }

  /** When the loop converges at pass `k`, the counts and digests it reports are those of the payloads
      that all streams served during a stable window announced. */
  lemma ConvergedLoopAnnounces(start: real, setting: Setting, passes: seq<Pass>, k: nat)
    returns (i: nat, nodes: seq<Json>, channels: seq<Json>)
    requires FirstVerdict(start, TraceOf(setting, passes), k, Converged) && Clocked(start, TraceOf(setting, passes))
    ensures k < |passes| && StableWindow(TraceOf(setting, passes[..k + 1]), i, k)
    ensures SteadyGraph(setting, passes, i, k, nodes, channels)
    ensures var s := After(start, TraceOf(setting, passes), k + 1);
      && s.prevCount == Some((|nodes|, |channels|)) && s.prevDigest == Some((DigestText(nodes), DigestText(channels)))
  {
    hide VerdictOf, Next, Ongoing, Clocked, TraceOf, StableWindow, RunStart, DigestText, Announces;
    var trace := TraceOf(setting, passes);
    TraceLength(setting, passes);
    TraceLength(setting, passes[..k + 1]);
    TracePrefix(setting, passes, k + 1);
    FirstVerdictExact(start, trace, k);
    assert ProvenAt(trace, k);
    i :| StableWindow(trace[..k + 1], i, k);
    nodes, channels := WindowAnnounces(setting, passes[..k + 1], i, k);
    assert trace[..k + 1][k] == trace[k];
    GraphOf(After(start, trace, k), trace[k]);
    forall j: nat | i <= j <= k ensures passes[j].Polled? && Announces(setting.selfPubkey, passes[j].graph, nodes, channels) {
      assert passes[..k + 1][j] == passes[j];
    }
  }
}

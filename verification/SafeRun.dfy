/** A converged run, end to end: what its log, its peers and its samples must have been. */
module SafeRun {
  import opened Wrappers
  import opened AggregateLog
  import opened Convergence
  import opened ConvergenceTheorems
  import opened GraphRecords
  import opened NodeDigest
  import opened ChannelDigest

  /** The observations of one run over one growing log: before scan `k` the reader had consumed
      the first `lens[k]` bytes, and its state was that of reading them at once. */
  ghost predicate OverLog(trace: seq<Observation>, parse: LineParser, log: seq<byte>, lens: seq<nat>) {
    && |lens| == |trace|
    && (forall k :: 0 <= k < |lens| ==> lens[k] <= |log|)
    && (forall j, k :: 0 <= j < k < |lens| ==> lens[j] <= lens[k])
    && (forall k :: 0 <= k < |trace| ==> trace[k].reader == OneShot(parse, log[..lens[k]]))
  }

  /** The aggregates in the log consumed before scan `k`. */
  function Seen(parse: LineParser, log: seq<byte>, n: nat): seq<SyncAggregate>
    requires n <= |log|
  {
    Aggregates(parse, Lines(log[..n]))
  }

  lemma SeenGrows(parse: LineParser, log: seq<byte>, m: nat, n: nat)
    requires m <= n <= |log|
    ensures Seen(parse, log, m) <= Seen(parse, log, n)
  {
    assert log[..n] == log[..m] + log[m..n];
    SplitResumes(log[..m], log[m..n]);
    AggregatesConcat(parse, Lines(log[..m]), Lines(Unfinished(log[..m]) + log[m..n]));
  }

  /** Once there is an aggregate, the newest one known is the last one read. */
  lemma NewestIsLast(trace: seq<Observation>, parse: LineParser, log: seq<byte>, lens: seq<nat>, k: nat, agg: SyncAggregate)
    requires OverLog(trace, parse, log, lens) && k < |trace| && Newest(trace, k, agg)
    ensures var seen := Seen(parse, log, lens[k]); seen != [] && seen[|seen| - 1] == agg
  {
    hide Aggregates, Lines;
    var j: nat :| j <= k && trace[j].reader.latest == Some(agg)
      && forall i: nat :: j < i <= k ==> trace[i].reader.latest.None?;
    assert trace[j].reader == ViewOf(Seen(parse, log, lens[j]));
    assert trace[k].reader == ViewOf(Seen(parse, log, lens[k]));
    SeenGrows(parse, log, lens[j], lens[k]);
  }

  /** `m` linked samples cannot span more than `m - 1` sample gaps. */
  lemma {:induction false} SpanBounded(trace: seq<Observation>, i: nat, k: nat)
    requires i <= k < |trace| && forall j: nat :: i < j <= k ==> Linked(trace, j)
    ensures Ts(trace, k) - Ts(trace, i) <= (k - i) as real * 10.0
  {
    if i < k {
      assert Linked(trace, k);
      SpanBounded(trace, i, k - 1);
      assert (k - i) as real == (k - 1 - i) as real + 1.0;
    }
  }

  lemma {:induction false} OnePeerSet(trace: seq<Observation>, i: nat, k: nat)
    requires i <= k < |trace| && Completed(trace, i) && forall j: nat :: i < j <= k ==> Linked(trace, j)
    ensures Accepted(trace, k)
    ensures forall j: nat :: i <= j <= k ==> Accepted(trace, j) && trace[j].scan.after == trace[k].scan.after
  {
    hide Completed;
    CompletedIsAccepted(trace, i + 1);
    if i < k {
      assert Linked(trace, k);
      OnePeerSet(trace, i, k - 1);
    }
  }

  lemma ReportedGraph(trace: seq<Observation>, k: nat)
    requires k < |trace| && Completed(trace, k)
    ensures Accepted(trace, k) && trace[k].scan.nodes > 0 && trace[k].scan.channels > 0 && trace[k].scan.bootnode
  {
  }

  /** These aggregates account for exactly that many peers: the last of them shows none active, and
      some of them had a finished peer. */
  ghost predicate Describes(seen: seq<SyncAggregate>, peers: nat) {
    && seen != [] && AllDone(seen[|seen| - 1], peers)
    && exists j :: 0 <= j < |seen| && seen[j].finished > 0
  }

  /** `i` to `k` are a stable window of at least four samples of one peer set and one non-empty graph. */
  ghost predicate BackedBySamples(trace: seq<Observation>, k: nat, i: nat)
    requires k < |trace|
  {
    && StableWindow(trace, i, k) && k - i >= 3
    && Accepted(trace, k) && trace[k].scan.nodes > 0 && trace[k].scan.channels > 0 && trace[k].scan.bootnode
    && (forall j: nat :: i <= j <= k ==> (
          && Accepted(trace, j) && trace[j].scan.after == trace[k].scan.after
          && CountOf(trace[j].scan) == CountOf(trace[k].scan) && DigestOf(trace[j].scan) == DigestOf(trace[k].scan)))
  }

  /** The log consumed at observation `k` accounts for exactly the current peers, none of them active,
      and at least one aggregate was consumed after `c`, the last change of peers, was observed. */
  ghost predicate BackedByLog(trace: seq<Observation>, parse: LineParser, log: seq<byte>, lens: seq<nat>, k: nat, c: nat)
    requires OverLog(trace, parse, log, lens) && k < |trace| && Accepted(trace, k)
  {
    && Describes(Seen(parse, log, lens[k]), |trace[k].scan.after|)
    && LastChange(trace, k + 1, c)
    && |Seen(parse, log, lens[k])| > |Seen(parse, log, lens[c])|
  }

  lemma WindowSamples(trace: seq<Observation>, i: nat, k: nat)
    requires k < |trace| && StableWindow(trace, i, k)
    ensures BackedBySamples(trace, k, i)
  {
    hide Completed, Linked, SameGraph;
    assert Completed(trace, k) && Completed(trace, i);
    ReportedGraph(trace, k);
    SpanBounded(trace, i, k);
    assert (k - i) as real * 10.0 >= 30.0;
    OnePeerSet(trace, i, k);
    WindowOneGraph(trace, i, k);
  }

  lemma CompletedLog(trace: seq<Observation>, k: nat, parse: LineParser, log: seq<byte>, lens: seq<nat>) returns (c: nat)
    requires k < |trace| && OverLog(trace, parse, log, lens) && Completed(trace, k)
    ensures BackedByLog(trace, parse, log, lens, k, c)
  {
    hide Seen, OneShot, Newest, PeersChanged, Describes;
    var agg :| Newest(trace, k, agg) && AllDone(agg, |trace[k].scan.after|);
    NewestIsLast(trace, parse, log, lens, k, agg);
    FinishedSeen(trace, parse, log, lens, k);
    assert Describes(Seen(parse, log, lens[k]), |trace[k].scan.after|) by {
      DescribesFrom(Seen(parse, log, lens[k]), agg);
    }
    c :| LastChange(trace, k + 1, c) && trace[k].reader.seqNo > trace[c].reader.seqNo;
    SeenCount(trace, parse, log, lens, k);
    SeenCount(trace, parse, log, lens, c);
  }

  lemma DescribesFrom(seen: seq<SyncAggregate>, agg: SyncAggregate)
    requires seen != [] && seen[|seen| - 1] == agg && AllDone(agg, agg.total)
    requires exists j :: 0 <= j < |seen| && seen[j].finished > 0
    ensures Describes(seen, agg.total)
  {
  }

  lemma SeenCount(trace: seq<Observation>, parse: LineParser, log: seq<byte>, lens: seq<nat>, k: nat)
    requires OverLog(trace, parse, log, lens) && k < |trace|
    ensures trace[k].reader.seqNo == |Seen(parse, log, lens[k])|
  {
    hide Aggregates, Lines;
    assert trace[k].reader == ViewOf(Seen(parse, log, lens[k]));
  }

  lemma ChangeBeforeWindow(trace: seq<Observation>, i: nat, k: nat, c: nat)
    requires k < |trace| && StableWindow(trace, i, k) && LastChange(trace, k + 1, c)
    ensures c < i
  {
    hide Completed;
    if i <= c {
      assert Completed(trace, c);
      CompletedKeepsPeers(trace, c);
    }
  }

  /** A converged run is backed by its samples and by its log, and its peers last changed before the
      window. */
  lemma ConvergedIsBacked(start: real, trace: seq<Observation>, k: nat, parse: LineParser, log: seq<byte>, lens: seq<nat>)
    returns (i: nat, c: nat)
    requires k < |trace| && Ongoing(trace) && Clocked(start, trace)
    requires OverLog(trace, parse, log, lens)
    requires VerdictOf(After(start, trace, k), trace[k]) == Converged
    ensures BackedBySamples(trace, k, i) && BackedByLog(trace, parse, log, lens, k, c) && c < i
  {
    hide BackedByLog, OverLog, Completed, Next, VerdictOf, RunStart;
    VerdictIffWindow(start, trace, k);
    i :| StableWindow(trace, i, k);
    WindowSamples(trace, i, k);
    assert Completed(trace, k);
    c := CompletedLog(trace, k, parse, log, lens);
    assert LastChange(trace, k + 1, c) by {
      BackedLastChange(trace, parse, log, lens, k, c);
    }
    ChangeBeforeWindow(trace, i, k, c);
  }

  lemma BackedLastChange(trace: seq<Observation>, parse: LineParser, log: seq<byte>, lens: seq<nat>, k: nat, c: nat)
    requires OverLog(trace, parse, log, lens) && k < |trace| && Accepted(trace, k)
    requires BackedByLog(trace, parse, log, lens, k, c)
    ensures LastChange(trace, k + 1, c)
  {
  }

  lemma FinishedSeen(trace: seq<Observation>, parse: LineParser, log: seq<byte>, lens: seq<nat>, k: nat)
    requires OverLog(trace, parse, log, lens) && k < |trace|
    requires exists j: nat :: j <= k && trace[j].reader.everFinished
    ensures var seen := Seen(parse, log, lens[k]); exists j :: 0 <= j < |seen| && seen[j].finished > 0
  {
    hide Aggregates, Lines;
    var j: nat :| j <= k && trace[j].reader.everFinished;
    assert trace[j].reader == ViewOf(Seen(parse, log, lens[j]));
    SeenGrows(parse, log, lens[j], lens[k]);
    var seen := Seen(parse, log, lens[j]);
    var m :| 0 <= m < |seen| && seen[m].finished > 0;
    assert Seen(parse, log, lens[k])[m] == seen[m];
  }

  // ----- the reader of the run -----

  /** How much of the log had been read at each observation. */
  function ReadLengths(files: seq<FileState>, maxBytes: nat): seq<nat> {
    seq(|files|, k requires 0 <= k < |files| => |Read(files[..k + 1], maxBytes)|)
  }

  lemma {:induction false} ReadMore(files: seq<FileState>, maxBytes: nat, j: nat, k: nat)
    requires j <= k <= |files|
    ensures Read(files[..j], maxBytes) <= Read(files[..k], maxBytes)
  {
    if j < k {
      ReadMore(files, maxBytes, j, k - 1);
      assert files[..k][..k - 1] == files[..k - 1];
    }
  }

  /** If each observation carries the state of the reader after its poll of a growing log, the run
      is over that log. */
  lemma PolledRunIsOverLog(trace: seq<Observation>, parse: LineParser, files: seq<FileState>, log: seq<byte>, maxBytes: nat)
    requires |trace| == |files| && Growing(files, log)
    requires forall k :: 0 <= k < |trace| ==> trace[k].reader == OneShot(parse, Read(files[..k + 1], maxBytes))
    ensures OverLog(trace, parse, log, ReadLengths(files, maxBytes))
  {
    hide OneShot, Read;
    var lens := ReadLengths(files, maxBytes);
    forall k | 0 <= k < |files| ensures lens[k] <= |log| && log[..lens[k]] == Read(files[..k + 1], maxBytes) {
      assert forall i :: 0 <= i < k + 1 ==> files[..k + 1][i] == files[i];
      AnyScheduleReadsPrefix(files[..k + 1], log, maxBytes);
    }
    forall j, k | 0 <= j < k < |files| ensures lens[j] <= lens[k] {
      ReadMore(files, maxBytes, j + 1, k + 1);
    }
  }

  // ----- the graph of the run -----

  /** The graph snapshot of one scan. */
  datatype Snapshot = Snapshot(nodes: seq<Dict>, channels: seq<Dict>)

  /** The digest of each accepted sample is that of its snapshot. */
  ghost predicate DigestsOf(trace: seq<Observation>, snapshots: seq<Snapshot>, selfPk: string) {
    && |snapshots| == |trace|
    && forall k :: 0 <= k < |trace| && Accepted(trace, k) ==>
         && ChannelEntries(snapshots[k].channels).Ok?
         && trace[k].scan.digest == (
              DigestText(NodeEntries(snapshots[k].nodes, selfPk)),
              DigestText(ChannelEntries(snapshots[k].channels).value))
  }

  /** A stable window is a stretch of unchanged graph content, not only of unchanged digests:
      every snapshot in it has the same node and channel payloads. */
  lemma WindowContentUnchanged(trace: seq<Observation>, snapshots: seq<Snapshot>, selfPk: string, i: nat, k: nat, j: nat)
    requires k < |trace| && StableWindow(trace, i, k) && i <= j <= k && DigestsOf(trace, snapshots, selfPk)
    ensures NodeEntries(snapshots[j].nodes, selfPk) == NodeEntries(snapshots[k].nodes, selfPk)
    ensures ChannelEntries(snapshots[j].channels) == ChannelEntries(snapshots[k].channels)
  {
    hide Completed, NodeEntries, ChannelEntries, DigestText;
    assert Completed(trace, i);
    WindowOneGraph(trace, i, k);
    DigestTextFaithful(NodeEntries(snapshots[j].nodes, selfPk), NodeEntries(snapshots[k].nodes, selfPk));
    DigestTextFaithful(ChannelEntries(snapshots[j].channels).value, ChannelEntries(snapshots[k].channels).value);
  }
}

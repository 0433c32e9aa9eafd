/** The online verdict against the history it stands for. */
module ConvergenceTheorems {
  import opened Wrappers
  import opened AggregateLog
  import opened Convergence

  // ----- the history, without the scalars -----

  /** Observation `k` is a sample: a successful scan bracketed by one fingerprint. */
  predicate Accepted(trace: seq<Observation>, k: nat)
    requires k < |trace|
  {
    trace[k].scan.Scanned? && trace[k].scan.before == trace[k].scan.after
  }

  /** The time of observation `k`. */
  function Ts(trace: seq<Observation>, k: nat): real
    requires k < |trace|
  {
    if trace[k].scan.Scanned? then trace[k].scan.ts else 0.0
  }

  /** The fingerprint of the last completed scan before observation `k`. */
  function FpBefore(trace: seq<Observation>, k: nat): Option<Fingerprint>
    requires k <= |trace|
  {
    if k == 0 then None
    else if trace[k - 1].scan.Scanned? then Some(trace[k - 1].scan.after)
    else FpBefore(trace, k - 1)
  }

  /** Scan `k` showed another peer set than the one known before, or two. */
  predicate PeersChanged(trace: seq<Observation>, k: nat)
    requires k < |trace|
  {
    && trace[k].scan.Scanned?
    && (trace[k].scan.before != trace[k].scan.after || FpBefore(trace, k) != Some(trace[k].scan.after))
  }

  /** The last change of peers before observation `k` was scan `c`. */
  ghost predicate LastChange(trace: seq<Observation>, k: nat, c: nat)
    requires k <= |trace|
  {
    c < k && PeersChanged(trace, c) && forall j: nat :: c < j < k ==> !PeersChanged(trace, j)
  }

  /** The aggregates read up to observation `k` are newer than those known at the last change. */
  ghost predicate Fresh(trace: seq<Observation>, k: nat)
    requires k < |trace|
  {
    exists c: nat :: LastChange(trace, k + 1, c) && trace[k].reader.seqNo > trace[c].reader.seqNo
  }

  /** The newest aggregate seen up to observation `k`. */
  ghost predicate Newest(trace: seq<Observation>, k: nat, agg: SyncAggregate)
    requires k < |trace|
  {
    exists j: nat :: j <= k && trace[j].reader.latest == Some(agg)
      && forall i: nat :: j < i <= k ==> trace[i].reader.latest.None?
  }

  /** The aggregate accounts for exactly that many peers, each finished or passive, and at least one. */
  predicate AllDone(agg: SyncAggregate, peers: nat) {
    agg.total == peers && agg.total > 0 && agg.active == 0 && agg.finished + agg.passive == agg.total
  }

  /** Sample `k` met all six completion conditions. */
  ghost predicate Completed(trace: seq<Observation>, k: nat)
    requires k < |trace|
  {
    && Accepted(trace, k)
    && (exists j: nat :: j <= k && trace[j].reader.everFinished)
    && (exists agg :: Newest(trace, k, agg) && AllDone(agg, |trace[k].scan.after|))
    && Fresh(trace, k)
    && trace[k].scan.bootnode
    && trace[k].scan.nodes > 0 && trace[k].scan.channels > 0
  }

  /** Samples `k - 1` and `k` are at most 10 seconds apart and saw the same peers. */
  predicate Linked(trace: seq<Observation>, k: nat)
    requires 0 < k < |trace|
  {
    && Accepted(trace, k - 1) && Accepted(trace, k)
    && trace[k].scan.ts - trace[k - 1].scan.ts <= 10.0
    && trace[k].scan.after == trace[k - 1].scan.after
  }

  predicate SameGraph(trace: seq<Observation>, k: nat)
    requires 0 < k < |trace| && Accepted(trace, k - 1) && Accepted(trace, k)
  {
    && trace[k].scan.nodes == trace[k - 1].scan.nodes && trace[k].scan.channels == trace[k - 1].scan.channels
    && trace[k].scan.digest == trace[k - 1].scan.digest
  }

  /** Observations `i` to `k` prove the graph stable: every one of them is a complete sample,
      neighbours are linked and show one graph, and they span at least 30 seconds. */
  ghost predicate StableWindow(trace: seq<Observation>, i: nat, k: nat)
    requires k < |trace|
  {
    && i <= k
    && (forall j: nat :: i <= j <= k ==> Completed(trace, j))
    && (forall j: nat :: i < j <= k ==> Linked(trace, j) && SameGraph(trace, j))
    && Ts(trace, k) - Ts(trace, i) >= 30.0
  }

  /** Samples are taken on one clock that does not run backwards. */
  ghost predicate Clocked(start: real, trace: seq<Observation>) {
    && (forall k :: 0 <= k < |trace| && trace[k].scan.Scanned? ==> start <= trace[k].scan.ts)
    && (forall j, k :: 0 <= j < k < |trace| && trace[j].scan.Scanned? && trace[k].scan.Scanned? ==>
          trace[j].scan.ts <= trace[k].scan.ts)
  }

  /** The run is still going: no observation so far ended it. */
  ghost predicate Ongoing(trace: seq<Observation>) {
    forall k :: 0 <= k < |trace| ==> trace[k].scan.Failed? || trace[k].scan.Scanned?
  }

  // ----- what the scalars mean -----

  ghost predicate AggregatesMean(s: Scalars, trace: seq<Observation>, k: nat)
    requires k <= |trace|
  {
    && (s.everFinished <==> exists j: nat :: j < k && trace[j].reader.everFinished)
    && (s.latestAgg.None? ==> forall j: nat :: j < k ==> trace[j].reader.latest.None?)
    && (s.latestAgg.Some? ==> k > 0 && Newest(trace, k - 1, s.latestAgg.value))
  }

  lemma AggregatesStep(s: Scalars, t: Scalars, trace: seq<Observation>, k: nat)
    requires k < |trace| && AggregatesMean(s, trace, k)
    requires t.everFinished == AfterPoll(s, trace[k].reader).everFinished
    requires t.latestAgg == AfterPoll(s, trace[k].reader).latestAgg
    ensures AggregatesMean(t, trace, k + 1)
  {
    if trace[k].reader.latest.Some? {
      assert Newest(trace, k, t.latestAgg.value);
    } else if s.latestAgg.Some? {
      var agg := s.latestAgg.value;
      var j: nat :| j <= k - 1 && trace[j].reader.latest == Some(agg)
        && forall i: nat :: j < i <= k - 1 ==> trace[i].reader.latest.None?;
      assert Newest(trace, k, agg);
    }
  }

  lemma NewestUnique(trace: seq<Observation>, k: nat, a: SyncAggregate, b: SyncAggregate)
    requires k < |trace| && Newest(trace, k, a) && Newest(trace, k, b)
    ensures a == b
  {
  }

  ghost predicate PeersMean(s: Scalars, trace: seq<Observation>, k: nat)
    requires k <= |trace|
  {
    && s.prevPeerFp == FpBefore(trace, k)
    && (s.prevPeerFp.None? ==> forall c: nat :: c < k ==> !trace[c].scan.Scanned?)
    && (s.prevPeerFp.Some? ==> exists c: nat :: LastChange(trace, k, c) && s.peerChangeSeq == trace[c].reader.seqNo)
  }

  lemma PeersStep(s: Scalars, trace: seq<Observation>, k: nat)
    requires k < |trace| && PeersMean(s, trace, k)
    ensures PeersMean(Next(s, trace[k]), trace, k + 1)
  {
    hide AfterGraph, AfterCompletion, Complete;
    var t, o := Next(s, trace[k]), trace[k];
    PeersOf(s, o);
    if PeersChanged(trace, k) {
      assert LastChange(trace, k + 1, k);
    } else if s.prevPeerFp.Some? {
      var c: nat :| LastChange(trace, k, c) && s.peerChangeSeq == trace[c].reader.seqNo;
      assert LastChange(trace, k + 1, c);
    }
  }

  /** The peer scalars of one step. */
  lemma PeersOf(s: Scalars, o: Observation)
    ensures var t := Next(s, o);
      if o.scan.Scanned? then
        && t.prevPeerFp == Some(o.scan.after)
        && t.peerChangeSeq == (if o.scan.before != o.scan.after || s.prevPeerFp != Some(o.scan.after)
                               then o.reader.seqNo else s.peerChangeSeq)
      else
        t.prevPeerFp == s.prevPeerFp && t.peerChangeSeq == s.peerChangeSeq
  {
  }

  /** With the meaning of the scalars, the code's completion test is the six conditions. */
  lemma CompletionMeans(s: Scalars, trace: seq<Observation>, k: nat)
    requires k < |trace| && Accepted(trace, k)
    requires AggregatesMean(s, trace, k + 1) && PeersMean(s, trace, k + 1)
    ensures Complete(s, trace[k].reader.seqNo, trace[k].scan) <==> Completed(trace, k)
  {
    if Completed(trace, k) {
      var agg :| Newest(trace, k, agg) && AllDone(agg, |trace[k].scan.after|);
      var j: nat :| j <= k && trace[j].reader.latest == Some(agg);
      NewestUnique(trace, k, agg, s.latestAgg.value);
      var c: nat :| LastChange(trace, k + 1, c) && trace[k].reader.seqNo > trace[c].reader.seqNo;
      var c': nat :| LastChange(trace, k + 1, c') && s.peerChangeSeq == trace[c'].reader.seqNo;
      LastChangeUnique(trace, k + 1, c, c');
    }
    if Complete(s, trace[k].reader.seqNo, trace[k].scan) {
      var c': nat :| LastChange(trace, k + 1, c') && s.peerChangeSeq == trace[c'].reader.seqNo;
      assert Fresh(trace, k);
    }
  }

  lemma LastChangeUnique(trace: seq<Observation>, k: nat, c: nat, c': nat)
    requires k <= |trace| && LastChange(trace, k, c) && LastChange(trace, k, c')
    ensures c == c'
  {
  }

  // ----- the window -----

  /** Complete samples from `i` to `k - 1`, each linked to the one before. */
  ghost predicate CompleteRun(trace: seq<Observation>, i: nat, k: nat)
    requires k <= |trace|
  {
    && i < k
    && (forall j: nat :: i <= j < k ==> Completed(trace, j))
    && (forall j: nat :: i < j < k ==> Linked(trace, j))
  }

  /** The complete run up to `k - 1` begins at `i`: it cannot be extended backwards. */
  ghost predicate RunStart(trace: seq<Observation>, k: nat, i: nat)
    requires k <= |trace|
  {
    CompleteRun(trace, i, k) && (i > 0 ==> !(Completed(trace, i - 1) && Linked(trace, i)))
  }

  ghost predicate SinceMeans(s: Scalars, trace: seq<Observation>, k: nat, i: nat)
    requires k <= |trace|
  {
    && s.lastSampleTs == (if k > 0 && Accepted(trace, k - 1) then Some(trace[k - 1].scan.ts) else None)
    && (s.completionSince.Some? <==> k > 0 && Completed(trace, k - 1))
    && (s.completionSince.Some? ==> RunStart(trace, k, i) && s.completionSince.value == Ts(trace, i))
  }

  /** A change of peers leaves no fresh aggregate, so a complete sample saw the known peers. */
  lemma CompletedKeepsPeers(trace: seq<Observation>, k: nat)
    requires k < |trace| && Completed(trace, k)
    ensures !PeersChanged(trace, k) && FpBefore(trace, k) == Some(trace[k].scan.after)
  {
    var c: nat :| LastChange(trace, k + 1, c) && trace[k].reader.seqNo > trace[c].reader.seqNo;
  }

  /** The window scalar of one accepted sample. */
  lemma SinceOf(s: Scalars, o: Observation)
    requires o.scan.Scanned? && o.scan.before == o.scan.after
    ensures var t := Next(s, o);
      && t.lastSampleTs == Some(o.scan.ts)
      && (t.completionSince.Some? <==> Complete(t, o.reader.seqNo, o.scan))
      && (t.completionSince.Some? ==> (t.completionSince.value ==
        if s.completionSince.Some? && s.prevPeerFp == Some(o.scan.after) && !SampleGapExceeded(s.lastSampleTs, o.scan.ts)
        then s.completionSince.value else o.scan.ts))
  {
  }

  lemma SinceStep(s: Scalars, trace: seq<Observation>, k: nat, i: nat) returns (i': nat)
    requires k < |trace| && Ongoing(trace)
    requires SinceMeans(s, trace, k, i) && PeersMean(s, trace, k)
    requires AggregatesMean(Next(s, trace[k]), trace, k + 1) && PeersMean(Next(s, trace[k]), trace, k + 1)
    ensures SinceMeans(Next(s, trace[k]), trace, k + 1, i')
  {
    hide Complete, AggregatesMean, Completed, Sampled;
    var t, o := Next(s, trace[k]), trace[k];
    i' := k;
    if Accepted(trace, k) {
      SinceOf(s, o);
      CompletionMeans(t, trace, k);
      if Completed(trace, k) {
        CompletedKeepsPeers(trace, k);
        if k > 0 && Completed(trace, k - 1) && Linked(trace, k) {
          i' := i;
        } else {
          assert k > 0 && Completed(trace, k - 1) ==> Accepted(trace, k - 1) by {
            CompletedIsAccepted(trace, k);
          }
        }
      }
    } else {
      NotCompleted(trace, k);
    }
  }

  lemma CompletedIsAccepted(trace: seq<Observation>, k: nat)
    requires k <= |trace|
    ensures k > 0 && Completed(trace, k - 1) ==> Accepted(trace, k - 1)
  {
  }

  lemma NotCompleted(trace: seq<Observation>, k: nat)
    requires k < |trace| && !Accepted(trace, k)
    ensures !Completed(trace, k)
  {
  }

  // ----- the last changes of the graph -----

  /** `i` is the sample of the last change of a reading, which took the value `v`; before any
      sample the scalar still holds the start of the run. */
  ghost predicate ChangeMeans<T(!new)>(reading: Scan -> T, prev: Option<T>, changeTs: real, start: real,
                                       trace: seq<Observation>, k: nat, i: nat)
    requires k <= |trace|
  {
    if prev.None? then
      changeTs == start && forall j: nat :: j < k ==> !Accepted(trace, j)
    else
      && i < k && Accepted(trace, i) && changeTs == trace[i].scan.ts
      && (forall j: nat :: i <= j < k && Accepted(trace, j) ==> reading(trace[j].scan) == prev.value)
      && (i > 0 && Accepted(trace, i - 1) ==> reading(trace[i - 1].scan) != reading(trace[i].scan))
  }

  lemma ChangeStep<T(!new)>(reading: Scan -> T, prev: Option<T>, changeTs: real, start: real,
                            trace: seq<Observation>, k: nat, i: nat) returns (i': nat)
    requires k < |trace| && ChangeMeans(reading, prev, changeTs, start, trace, k, i)
    ensures Accepted(trace, k) ==> (
      var v := reading(trace[k].scan);
      ChangeMeans(reading, Some(v), if prev == Some(v) then changeTs else trace[k].scan.ts, start, trace, k + 1, i'))
    ensures !Accepted(trace, k) ==> ChangeMeans(reading, prev, changeTs, start, trace, k + 1, i')
  {
    i' := if Accepted(trace, k) && prev != Some(reading(trace[k].scan)) then k else i;
  }

  function CountOf(scan: Scan): (nat, nat) {
    if scan.Scanned? then (scan.nodes, scan.channels) else (0, 0)
  }

  function DigestOf(scan: Scan): (string, string) {
    if scan.Scanned? then scan.digest else ("", "")
  }

  /** The graph scalars of one step. */
  lemma GraphOf(s: Scalars, o: Observation)
    ensures var t := Next(s, o);
      if o.scan.Scanned? && o.scan.before == o.scan.after then
        && t.prevCount == Some(CountOf(o.scan)) && t.prevDigest == Some(DigestOf(o.scan))
        && t.lastCountChangeTs == (if s.prevCount == t.prevCount then s.lastCountChangeTs else o.scan.ts)
        && t.lastDigestChangeTs == (if s.prevDigest == t.prevDigest then s.lastDigestChangeTs else o.scan.ts)
      else
        && t.prevCount == s.prevCount && t.prevDigest == s.prevDigest
        && t.lastCountChangeTs == s.lastCountChangeTs && t.lastDigestChangeTs == s.lastDigestChangeTs
  {
  }

  lemma AggregatesOf(s: Scalars, o: Observation)
    ensures Next(s, o).everFinished == AfterPoll(s, o.reader).everFinished
    ensures Next(s, o).latestAgg == AfterPoll(s, o.reader).latestAgg
  {
  }

  // ----- all scalars over a run -----

  ghost predicate Means(start: real, trace: seq<Observation>, k: nat, since: nat, count: nat, digest: nat)
    requires k <= |trace|
  {
    var s := After(start, trace, k);
    && AggregatesMean(s, trace, k)
    && PeersMean(s, trace, k)
    && SinceMeans(s, trace, k, since)
    && ChangeMeans(CountOf, s.prevCount, s.lastCountChangeTs, start, trace, k, count)
    && ChangeMeans(DigestOf, s.prevDigest, s.lastDigestChangeTs, start, trace, k, digest)
    && (s.prevCount.Some? <==> s.prevDigest.Some?)
  }

  /** After every prefix of every run the scalars stand for the history. */
  lemma {:induction false} ScalarsMeanHistory(start: real, trace: seq<Observation>, k: nat)
    returns (since: nat, count: nat, digest: nat)
    requires k <= |trace| && Ongoing(trace)
    ensures Means(start, trace, k, since, count, digest)
  {
    hide Next, AggregatesMean, PeersMean, SinceMeans, ChangeMeans;
    if k == 0 {
      since, count, digest := 0, 0, 0;
      NothingYet(start, trace);
    } else {
      since, count, digest := ScalarsMeanHistory(start, trace, k - 1);
      var s, o := After(start, trace, k - 1), trace[k - 1];
      AggregatesOf(s, o);
      AggregatesStep(s, Next(s, o), trace, k - 1);
      PeersStep(s, trace, k - 1);
      since := SinceStep(s, trace, k - 1, since);
      GraphOf(s, o);
      count := ChangeStep(CountOf, s.prevCount, s.lastCountChangeTs, start, trace, k - 1, count);
      digest := ChangeStep(DigestOf, s.prevDigest, s.lastDigestChangeTs, start, trace, k - 1, digest);
    }
  }

  lemma NothingYet(start: real, trace: seq<Observation>)
    ensures Means(start, trace, 0, 0, 0, 0)
  {
  }

  // ----- the theorem -----

  /** The verdict, read off the scalars after the observation. */
  lemma VerdictFromScalars(start: real, trace: seq<Observation>, k: nat)
    requires k < |trace| && Ongoing(trace)
    ensures var t := After(start, trace, k + 1);
      VerdictOf(After(start, trace, k), trace[k]) in {Converged, NodeGone} <==>
        && Accepted(trace, k) && t.completionSince.Some?
        && trace[k].scan.ts - Anchor(t, trace[k].scan.ts) >= STABLE_WINDOW
  {
    hide AfterPoll, AfterPeers, AfterGraph, AfterCompletion, Anchor;
  }

  lemma WindowFromIndices(start: real, trace: seq<Observation>, k: nat, since: nat, count: nat, digest: nat)
    returns (i: nat)
    requires k < |trace| && Accepted(trace, k) && Means(start, trace, k + 1, since, count, digest)
    requires var t := After(start, trace, k + 1);
      && t.completionSince.Some? && t.prevCount.Some? && t.completionSince.value != 0.0
      && trace[k].scan.ts - Anchor(t, trace[k].scan.ts) >= STABLE_WINDOW
    ensures StableWindow(trace, i, k)
  {
    hide After, Completed, AggregatesMean, PeersMean;
    i := since;
    if i < count {
      i := count;
    }
    if i < digest {
      i := digest;
    }
    forall j: nat | i < j <= k ensures Linked(trace, j) && SameGraph(trace, j) {
      assert Linked(trace, j);
      assert CountOf(trace[j].scan) == CountOf(trace[j - 1].scan);
      assert DigestOf(trace[j].scan) == DigestOf(trace[j - 1].scan);
    }
  }

  /** The whole window shows the graph of its last sample. */
  lemma {:induction false} WindowOneGraph(trace: seq<Observation>, i: nat, k: nat)
    requires k < |trace| && i <= k && Completed(trace, i)
    requires forall j: nat :: i < j <= k ==> Linked(trace, j) && SameGraph(trace, j)
    ensures forall j: nat :: i <= j <= k ==> (
      && Accepted(trace, j)
      && CountOf(trace[j].scan) == CountOf(trace[k].scan) && DigestOf(trace[j].scan) == DigestOf(trace[k].scan))
  {
    hide Completed;
    CompletedIsAccepted(trace, i + 1);
    if i < k {
      assert Linked(trace, k) && SameGraph(trace, k);
      WindowOneGraph(trace, i, k - 1);
    }
  }

  lemma IndicesFromWindow(start: real, trace: seq<Observation>, k: nat, since: nat, count: nat, digest: nat, i: nat)
    requires k < |trace| && Means(start, trace, k + 1, since, count, digest) && StableWindow(trace, i, k)
    ensures After(start, trace, k + 1).completionSince.Some? && After(start, trace, k + 1).prevCount.Some?
    ensures since <= i && count <= i && digest <= i
  {
    hide After, AggregatesMean, PeersMean;
    assert Completed(trace, k);
    WindowOneGraph(trace, i, k);
  }

  lemma RunStartUnique(trace: seq<Observation>, k: nat, i: nat, i': nat)
    requires k <= |trace| && RunStart(trace, k, i) && RunStart(trace, k, i')
    ensures i == i'
  {
    hide Completed, Linked;
  }

  /** The recorded start of a run is zero exactly when the run began at clock value zero. */
  lemma ZeroSince(start: real, trace: seq<Observation>, k: nat, since: nat, count: nat, digest: nat)
    requires k < |trace| && Means(start, trace, k + 1, since, count, digest)
    requires After(start, trace, k + 1).completionSince.Some?
    ensures After(start, trace, k + 1).completionSince == Some(0.0) <==>
      exists i: nat :: RunStart(trace, k + 1, i) && Ts(trace, i) == 0.0
  {
    hide After, AggregatesMean, PeersMean, ChangeMeans, Completed, Linked;
    if i: nat :| RunStart(trace, k + 1, i) && Ts(trace, i) == 0.0 {
      RunStartUnique(trace, k + 1, i, since);
    }
  }

  /** Some stretch of the history ending at `k` proves the graph stable, and the complete run that
      holds it did not begin at clock value zero. */
  ghost predicate Credited(trace: seq<Observation>, k: nat)
    requires k < |trace|
  {
    && (exists i: nat :: StableWindow(trace, i, k))
    && !(exists i: nat :: RunStart(trace, k + 1, i) && Ts(trace, i) == 0.0)
  }

  /** The loop judges the graph stable at observation `k` exactly when some stretch of the history
      ending there proves it, except that a run of complete samples that began at clock value
      zero is never credited (its start reads as absent). */
  lemma VerdictIffWindow(start: real, trace: seq<Observation>, k: nat)
    requires k < |trace| && Ongoing(trace) && Clocked(start, trace)
    ensures VerdictOf(After(start, trace, k), trace[k]) in {Converged, NodeGone} <==> Credited(trace, k)
  {
    hide Completed, AggregatesMean, PeersMean, VerdictOf, Next, RunStart;
    var t, ts := After(start, trace, k + 1), trace[k].scan;
    var since, count, digest := ScalarsMeanHistory(start, trace, k + 1);
    VerdictFromScalars(start, trace, k);
    if t.completionSince.Some? {
      ZeroSince(start, trace, k, since, count, digest);
    }
    if VerdictOf(After(start, trace, k), trace[k]) in {Converged, NodeGone} {
      SampleSeen(start, trace, k, since, count, digest);
      var i := WindowFromIndices(start, trace, k, since, count, digest);
    }
    if i: nat :| StableWindow(trace, i, k) {
      IndicesFromWindow(start, trace, k, since, count, digest, i);
      CompletedIsAccepted(trace, k + 1);
      assert Completed(trace, k);
      AnchorBelow(start, trace, k, since, count, digest, i);
    }
  }

  lemma SampleSeen(start: real, trace: seq<Observation>, k: nat, since: nat, count: nat, digest: nat)
    requires k < |trace| && Accepted(trace, k) && Means(start, trace, k + 1, since, count, digest)
    requires trace[k].scan.ts - Anchor(After(start, trace, k + 1), trace[k].scan.ts) >= STABLE_WINDOW
    ensures After(start, trace, k + 1).prevCount.Some?
    ensures After(start, trace, k + 1).completionSince != Some(0.0)
  {
    hide After, AggregatesMean, PeersMean, SinceMeans;
    assert Accepted(trace, k + 1 - 1);
  }

  lemma AnchorBelow(start: real, trace: seq<Observation>, k: nat, since: nat, count: nat, digest: nat, i: nat)
    requires k < |trace| && Clocked(start, trace) && Means(start, trace, k + 1, since, count, digest)
    requires StableWindow(trace, i, k) && since <= i && count <= i && digest <= i
    requires var t := After(start, trace, k + 1); t.completionSince.Some? && t.prevCount.Some?
    ensures After(start, trace, k + 1).completionSince != Some(0.0) ==>
      trace[k].scan.ts - Anchor(After(start, trace, k + 1), trace[k].scan.ts) >= STABLE_WINDOW
  {
    hide After, AggregatesMean, PeersMean;
    assert Completed(trace, i) && Completed(trace, since);
  }

  /** The process was still running after scan `k`. */
  predicate Alive(trace: seq<Observation>, k: nat)
    requires k < |trace|
  {
    trace[k].scan.Scanned? && trace[k].scan.alive
  }

  /** On a clock that is positive at the start, the verdict is exactly the window. */
  lemma ConvergedIffWindow(start: real, trace: seq<Observation>, k: nat)
    requires k < |trace| && Ongoing(trace) && Clocked(start, trace) && start > 0.0
    ensures VerdictOf(After(start, trace, k), trace[k]) == Converged <==>
      (exists i: nat :: StableWindow(trace, i, k)) && Alive(trace, k)
    ensures VerdictOf(After(start, trace, k), trace[k]) == NodeGone <==>
      (exists i: nat :: StableWindow(trace, i, k)) && !Alive(trace, k)
  {
    hide Completed, Next;
    VerdictIffWindow(start, trace, k);
    NoZeroStart(start, trace, k);
    AliveDecides(After(start, trace, k), trace[k]);
    if i: nat :| StableWindow(trace, i, k) {
      assert Completed(trace, k);
      CompletedIsAccepted(trace, k + 1);
    }
  }

  /** The peers seen since the last change. */
  lemma {:induction false} SamePeersSince(trace: seq<Observation>, c: nat, k: nat)
    requires c < k <= |trace| && trace[c].scan.Scanned?
    requires forall j: nat :: c < j < k ==> trace[j].scan.Failed? || (Accepted(trace, j) && trace[j].scan.after == trace[c].scan.after)
    ensures FpBefore(trace, k) == Some(trace[c].scan.after)
    ensures forall j: nat :: c < j < k ==> !PeersChanged(trace, j)
  {
    if c + 1 < k {
      SamePeersSince(trace, c, k - 1);
      assert trace[k - 1].scan.Failed? || (Accepted(trace, k - 1) && trace[k - 1].scan.after == trace[c].scan.after);
    }
  }

  /** Observation `k` is a good sample of a finished synchronisation: a configured bootnode, a
      non-empty graph, and the newest line says of all `n` peers that they have finished or are passive. */
  predicate DoneSample(trace: seq<Observation>, k: nat, n: nat, passive: nat)
    requires k < |trace|
  {
    && Accepted(trace, k) && trace[k].scan.bootnode && trace[k].scan.nodes > 0 && trace[k].scan.channels > 0
    && passive <= n == |trace[k].scan.after|
    && trace[k].reader.latest == Some(SyncAggregate(n, n - passive, 0, passive))
  }

  lemma DoneIsCompleted(trace: seq<Observation>, c: nat, k: nat, n: nat, passive: nat)
    requires c < k < |trace| && DoneSample(trace, k, n, passive) && n > 0
    requires LastChange(trace, k + 1, c) && trace[k].reader.seqNo > trace[c].reader.seqNo
    requires exists j: nat :: j <= k && trace[j].reader.everFinished
    ensures Completed(trace, k)
  {
    assert Newest(trace, k, SyncAggregate(n, n - passive, 0, passive));
  }

  /** After a change of peers, once some peer was seen to finish: samples at most 10 seconds apart over
      30 seconds, all of the same peers and the same graph, with newer lines that say of all `n` peers
      that they have finished or are passive, even if all are passive by then, end in convergence. */
  lemma DoneConverges(start: real, trace: seq<Observation>, c: nat, i: nat, k: nat, n: nat, passive: nat)
    requires c < i <= k < |trace| && Ongoing(trace) && Clocked(start, trace) && start > 0.0 && n > 0
    requires PeersChanged(trace, c) && Alive(trace, k)
    requires exists j: nat :: j <= i && trace[j].reader.everFinished
    requires forall j: nat :: c < j <= k ==> trace[j].scan.Failed? || (Accepted(trace, j) && trace[j].scan.after == trace[c].scan.after)
    requires forall j: nat :: i <= j <= k ==> DoneSample(trace, j, n, passive) && trace[j].reader.seqNo > trace[c].reader.seqNo
    requires forall j: nat :: i < j <= k ==> Linked(trace, j) && SameGraph(trace, j)
    requires Ts(trace, k) - Ts(trace, i) >= 30.0
    ensures VerdictOf(After(start, trace, k), trace[k]) == Converged
  {
    hide Completed, Newest, VerdictOf, After, PeersChanged, FpBefore;
    assert trace[c].scan.Scanned? by {
      ChangeIsScanned(trace, c);
    }
    SamePeersSince(trace, c, k + 1);
    forall j: nat | i <= j <= k ensures Completed(trace, j) {
      assert LastChange(trace, j + 1, c);
      DoneIsCompleted(trace, c, j, n, passive);
    }
    assert StableWindow(trace, i, k);
    ConvergedIffWindow(start, trace, k);
  }

  lemma ChangeIsScanned(trace: seq<Observation>, c: nat)
    requires c < |trace| && PeersChanged(trace, c)
    ensures trace[c].scan.Scanned?
  {
  }

  lemma AliveDecides(s: Scalars, o: Observation)
    ensures VerdictOf(s, o) == Converged ==> o.scan.Scanned? && o.scan.alive
    ensures VerdictOf(s, o) == NodeGone ==> o.scan.Scanned? && !o.scan.alive
  {
  }

  lemma NoZeroStart(start: real, trace: seq<Observation>, k: nat)
    requires k < |trace| && Clocked(start, trace) && start > 0.0
    ensures !(exists i: nat :: RunStart(trace, k + 1, i) && Ts(trace, i) == 0.0)
  {
    forall i: nat | RunStart(trace, k + 1, i) ensures Ts(trace, i) != 0.0 {
      assert Completed(trace, i);
    }
  }

  /** An observation that does not end the run is judged stable or not. */
  lemma OngoingVerdict(s: Scalars, o: Observation)
    requires o.scan.Failed? || o.scan.Scanned?
    ensures VerdictOf(s, o) in {Continue, Converged, NodeGone}
  {
  }

  // ----- the exception is real -----

  function ZeroScan(seqNo: nat, ts: real): Observation {
    var fp := [("02ab", "/ip4/10.0.0.1/tcp/8228")];
    Observation(View(Some(SyncAggregate(1, 1, 0, 0)), seqNo, true),
                Scanned(fp, fp, true, 1, 1, ("n", "c"), ts, true))
  }

  /** Peers seen at time zero, then complete samples at 0, 10, 20 and 30 seconds. */
  function ZeroTrace(): seq<Observation> {
    [ZeroScan(1, 0.0), ZeroScan(2, 0.0), ZeroScan(2, 10.0), ZeroScan(2, 20.0), ZeroScan(2, 30.0)]
  }

  lemma ZeroPeers()
    ensures PeersChanged(ZeroTrace(), 0)
    ensures forall k: nat :: 0 < k < 5 ==> !PeersChanged(ZeroTrace(), k)
  {
    var trace := ZeroTrace();
    assert FpBefore(trace, 0) == None;
    forall k: nat | 0 < k < 5 ensures !PeersChanged(trace, k) {
      assert FpBefore(trace, k) == Some(trace[k - 1].scan.after);
    }
  }

  lemma ZeroComplete(k: nat)
    requires 0 < k < 5
    ensures Completed(ZeroTrace(), k)
  {
    hide PeersChanged;
    var trace := ZeroTrace();
    ZeroPeers();
    assert LastChange(trace, k + 1, 0);
    assert Newest(trace, k, SyncAggregate(1, 1, 0, 0));
    assert trace[k].reader.everFinished;
  }

  lemma ZeroWindow()
    ensures Ongoing(ZeroTrace()) && Clocked(0.0, ZeroTrace())
    ensures StableWindow(ZeroTrace(), 1, 4) && !Completed(ZeroTrace(), 0)
  {
    hide Completed;
    var trace := ZeroTrace();
    ZeroPeers();
    forall k: nat | 0 < k < 5 ensures Completed(trace, k) {
      ZeroComplete(k);
    }
    if Completed(trace, 0) {
      CompletedKeepsPeers(trace, 0);
    }
  }

  /** With a clock that starts at zero the loop can miss a stable window. */
  lemma ZeroClockMissesWindow()
    ensures Ongoing(ZeroTrace()) && Clocked(0.0, ZeroTrace()) && StableWindow(ZeroTrace(), 1, 4)
    ensures VerdictOf(After(0.0, ZeroTrace(), 4), ZeroTrace()[4]) == Continue
  {
    hide Completed, Next, Ongoing, VerdictOf, After;
    var trace := ZeroTrace();
    ZeroWindow();
    VerdictIffWindow(0.0, trace, 4);
    assert RunStart(trace, 5, 1) && Ts(trace, 1) == 0.0;
    OngoingVerdict(After(0.0, trace, 4), trace[4]);
  }

  // ----- the number of changes of the peer set -----

  /** The fingerprints before and after every completed scan, in order. */
  function Fingerprints(trace: seq<Observation>, k: nat): seq<Fingerprint>
    requires k <= |trace|
  {
    if k == 0 then []
    else
      Fingerprints(trace, k - 1)
        + (if trace[k - 1].scan.Scanned? then [trace[k - 1].scan.before, trace[k - 1].scan.after] else [])
  }

  /** How often neighbours in a list differ. */
  function Switches<T(==)>(xs: seq<T>): nat {
    if |xs| < 2 then 0
    else Switches(xs[..|xs| - 1]) + (if xs[|xs| - 2] != xs[|xs| - 1] then 1 else 0)
  }

  lemma SwitchesSnoc<T>(xs: seq<T>, x: T)
    ensures Switches(xs + [x]) == Switches(xs) + (if xs != [] && xs[|xs| - 1] != x then 1 else 0)
  {
    assert (xs + [x])[..|xs|] == xs;
  }

  lemma ChangesOf(s: Scalars, o: Observation)
    ensures Next(s, o).peerSetChanges == s.peerSetChanges + (
      if !o.scan.Scanned? then 0
      else (
        (if s.prevPeerFp.Some? && s.prevPeerFp != Some(o.scan.before) then 1 else 0)
          + (if o.scan.before != o.scan.after then 1 else 0)))
  {
  }

  /** `peer_set_changes` is exact: the number of neighbouring fingerprints that differ. */
  lemma {:induction false} PeerSetChangesExact(start: real, trace: seq<Observation>, k: nat)
    requires k <= |trace|
    ensures var s, fps := After(start, trace, k), Fingerprints(trace, k);
      && s.peerSetChanges == Switches(fps)
      && s.prevPeerFp == (if fps == [] then None else Some(fps[|fps| - 1]))
  {
    hide Next;
    if k > 0 {
      PeerSetChangesExact(start, trace, k - 1);
      var s, o, fps := After(start, trace, k - 1), trace[k - 1], Fingerprints(trace, k - 1);
      ChangesOf(s, o);
      PeersOf(s, o);
      if o.scan.Scanned? {
        SwitchesSnoc(fps, o.scan.before);
        SwitchesSnoc(fps + [o.scan.before], o.scan.after);
        assert fps + [o.scan.before, o.scan.after] == fps + [o.scan.before] + [o.scan.after];
      } else {
        assert Fingerprints(trace, k) == fps;
      }
    }
  }
}

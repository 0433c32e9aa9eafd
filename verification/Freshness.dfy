/** Whether a converged run used an aggregate line emitted after its last change of peers.

That is what the peer-generation gate is meant to guarantee. The gate compares sequence numbers of
aggregates read, and lines written between a poll and the end of the scan that follows it are read
only by the next poll. The theorem below says exactly when that can matter.
*/
module Freshness {
  import opened Wrappers
  import opened AggregateLog
  import opened Convergence
  import opened ConvergenceTheorems
  import opened SafeRun
  import opened MonitoredRun

  /** A run so far: its observations, and the log written by the end of the last scan, of which the
      reader had consumed `lens[k]` bytes before scan `k`. */
  datatype History = History(trace: seq<Observation>, log: seq<byte>, lens: seq<nat>)

  /** The loop has not ended yet, and the last scan showed a change of peers. */
  ghost predicate Changed(start: real, parse: LineParser, h: History) {
    && h.trace != [] && Ongoing(h.trace) && Clocked(start, h.trace)
    && Undecided(start, h.trace, |h.trace|)
    && OverLog(h.trace, parse, h.log, h.lens)
    && PeersChanged(h.trace, |h.trace| - 1)
  }

  /** The run goes on: the log grows, and every later poll reads at least what had been written. */
  ghost predicate Continues(start: real, parse: LineParser, h: History, run: History) {
    && |h.trace| <= |run.trace| && run.trace[..|h.trace|] == h.trace && h.log <= run.log
    && Ongoing(run.trace) && Clocked(start, run.trace)
    && OverLog(run.trace, parse, run.log, run.lens)
    && |h.lens| <= |run.lens| && run.lens[..|h.lens|] == h.lens
    && forall k :: |h.lens| <= k < |run.lens| ==> |h.log| <= run.lens[k]
  }

  /** The loop converges at the last observation, and peers last changed at scan `c`. */
  ghost predicate Converges(start: real, trace: seq<Observation>, c: nat) {
    trace != [] && FirstVerdict(start, trace, |trace| - 1, Converged) && LastChange(trace, |trace|, c)
  }

  /** What had been consumed in the end has an aggregate line that was completed after the end of
      the log of the history. */
  ghost predicate UsesNewLine(parse: LineParser, h: History, run: History)
    requires run.trace != [] && OverLog(run.trace, parse, run.log, run.lens)
  {
    |Seen(parse, run.log, run.lens[|run.trace| - 1])| > |Seen(parse, h.log, |h.log|)|
  }

  /** When the changed peers were seen, the log already held an aggregate line that the reader had not
      read, and read to its end it already describes that many peers as done. */
  ghost predicate AlreadyDescribed(parse: LineParser, h: History)
    requires h.trace != [] && OverLog(h.trace, parse, h.log, h.lens)
  {
    var c := |h.trace| - 1;
    && |Seen(parse, h.log, |h.log|)| > |Seen(parse, h.log, h.lens[c])|
    && h.trace[c].scan.Scanned?
    && Describes(Seen(parse, h.log, |h.log|), |h.trace[c].scan.after|)
  }

  // ----- a converged run without a new line needs such a log -----

  lemma SeenPrefix(parse: LineParser, log: seq<byte>, more: seq<byte>, n: nat)
    requires log <= more && n <= |log|
    ensures Seen(parse, more, n) == Seen(parse, log, n)
  {
    assert more[..n] == log[..n];
  }

  /** Without a change of peers the last scan sees the peers of the change. */
  lemma {:induction false} PeersKept(trace: seq<Observation>, c: nat, k: nat)
    requires c < k <= |trace| && LastChange(trace, k, c)
    ensures trace[c].scan.Scanned? && FpBefore(trace, k) == Some(trace[c].scan.after)
  {
    if c + 1 < k {
      assert LastChange(trace, k - 1, c);
      PeersKept(trace, c, k - 1);
      assert !PeersChanged(trace, k - 1);
    }
  }

  lemma PeersOfSample(trace: seq<Observation>, c: nat, k: nat)
    requires c <= k < |trace| && LastChange(trace, k + 1, c) && Accepted(trace, k)
    ensures trace[c].scan.Scanned? && trace[k].scan.after == trace[c].scan.after
  {
    PeersKept(trace, c, k + 1);
  }

  lemma NewLineOrDescribed(start: real, parse: LineParser, h: History, run: History)
    requires Changed(start, parse, h) && Continues(start, parse, h, run)
    requires Converges(start, run.trace, |h.trace| - 1)
    ensures UsesNewLine(parse, h, run) || AlreadyDescribed(parse, h)
  {
    hide Seen, Describes, VerdictOf, After, PeersChanged, Ongoing, Clocked, BackedBySamples, Undecided, OneShot, FpBefore;
    var c, k := |h.trace| - 1, |run.trace| - 1;
    var i, c' := ConvergedIsBacked(start, run.trace, k, parse, run.log, run.lens);
    ReportedBacked(run.trace, k, i);
    LastChangeUnique(run.trace, k + 1, c, c');
    PeersOfSample(run.trace, c, k);
    assert run.trace[c] == run.trace[..|h.trace|][c] == h.trace[c];
    assert run.lens[c] == run.lens[..|h.lens|][c] == h.lens[c];
    SeenPrefix(parse, h.log, run.log, |h.log|);
    SeenPrefix(parse, h.log, run.log, h.lens[c]);
    SeenGrows(parse, run.log, |h.log|, run.lens[k]);
    if !UsesNewLine(parse, h, run) {
      assert Seen(parse, run.log, run.lens[k]) == Seen(parse, h.log, |h.log|);
    }
  }

  lemma ReportedBacked(trace: seq<Observation>, k: nat, i: nat)
    requires k < |trace| && BackedBySamples(trace, k, i)
    ensures Accepted(trace, k) && i < k
  {
  }

  // ----- and such a log is enough -----

  /** A later sample of the same peers, with nothing new in the log. */
  function LaterSample(parse: LineParser, log: seq<byte>, peers: Fingerprint, ts: real): Observation {
    Observation(OneShot(parse, log), Scanned(peers, peers, true, 1, 1, ("n", "c"), ts, true))
  }

  /** Four samples at ten second steps, all after the poll has read the log to its end. */
  function QuietRun(parse: LineParser, h: History): History
    requires h.trace != []
  {
    var scan := h.trace[|h.trace| - 1].scan;
    var peers := if scan.Scanned? then scan.after else [];
    var t := if scan.Scanned? then Max(scan.ts, 1.0) else 1.0;
    History(
      h.trace + [LaterSample(parse, h.log, peers, t), LaterSample(parse, h.log, peers, t + 10.0),
                 LaterSample(parse, h.log, peers, t + 20.0), LaterSample(parse, h.log, peers, t + 30.0)],
      h.log,
      h.lens + [|h.log|, |h.log|, |h.log|, |h.log|])
  }

  lemma QuietOverLog(start: real, parse: LineParser, h: History)
    requires Changed(start, parse, h)
    ensures var run := QuietRun(parse, h); OverLog(run.trace, parse, run.log, run.lens)
  {
    hide OneShot, PeersChanged, Clocked, Ongoing, Undecided;
    var run, n := QuietRun(parse, h), |h.trace|;
    assert h.log[..|h.log|] == h.log;
    forall k | 0 <= k < n + 4 ensures run.lens[k] <= |h.log| && run.trace[k].reader == OneShot(parse, h.log[..run.lens[k]]) {
      assert k < n ==> run.trace[k] == h.trace[k] && run.lens[k] == h.lens[k];
    }
    forall j, k | 0 <= j < k < n + 4 ensures run.lens[j] <= run.lens[k] {
      assert k < n ==> run.lens[j] == h.lens[j] && run.lens[k] == h.lens[k];
    }
  }

  lemma QuietClock(start: real, parse: LineParser, h: History)
    requires Changed(start, parse, h)
    ensures var trace := QuietRun(parse, h).trace; Ongoing(trace) && Clocked(start, trace)
  {
    hide OneShot, FpBefore, OverLog, Undecided;
    var trace, n := QuietRun(parse, h).trace, |h.trace|;
    var last := h.trace[n - 1].scan.ts;
    forall k | 0 <= k < n ensures trace[k] == h.trace[k] && (h.trace[k].scan.Scanned? ==> h.trace[k].scan.ts <= last) {
    }
    assert forall k :: n <= k < n + 4 ==> trace[k].scan.Scanned? && last <= trace[k].scan.ts;
    assert forall k :: 0 <= k < n ==> trace[k].scan == h.trace[k].scan;
  }

  lemma QuietContinues(start: real, parse: LineParser, h: History)
    requires Changed(start, parse, h)
    ensures Continues(start, parse, h, QuietRun(parse, h))
  {
    hide OneShot, PeersChanged, Clocked, Ongoing, Undecided, LaterSample;
    QuietOverLog(start, parse, h);
    QuietClock(start, parse, h);
    var run, n := QuietRun(parse, h), |h.trace|;
    assert |h.trace| == |h.lens| && |run.trace| == |run.lens|;
    hide OverLog;
    assert run.trace[..n] == h.trace && run.lens[..n] == h.lens;
  }

  lemma {:induction false} FpBeforePrefix(h: seq<Observation>, trace: seq<Observation>, k: nat)
    requires k <= |h| <= |trace| && trace[..|h|] == h
    ensures FpBefore(trace, k) == FpBefore(h, k)
  {
    if k > 0 {
      assert trace[k - 1] == trace[..|h|][k - 1];
      FpBeforePrefix(h, trace, k - 1);
    }
  }

  lemma FpAfterScan(trace: seq<Observation>, k: nat)
    requires 0 < k <= |trace| && trace[k - 1].scan.Scanned?
    ensures FpBefore(trace, k) == Some(trace[k - 1].scan.after)
  {
  }

  lemma QuietPeersAt(start: real, parse: LineParser, h: History, k: nat)
    requires Changed(start, parse, h) && |h.trace| <= k < |h.trace| + 4
    ensures !PeersChanged(QuietRun(parse, h).trace, k)
  {
    hide FpBefore, OverLog, Undecided, Ongoing, Clocked, OneShot;
    var trace, n := QuietRun(parse, h).trace, |h.trace|;
    assert trace[n - 1] == h.trace[n - 1];
    FpAfterScan(trace, k);
  }

  lemma QuietPeers(start: real, parse: LineParser, h: History)
    requires Changed(start, parse, h)
    ensures var trace, n := QuietRun(parse, h).trace, |h.trace|;
      && PeersChanged(trace, n - 1)
      && forall k: nat :: n <= k < n + 4 ==> !PeersChanged(trace, k)
  {
    var trace, n := QuietRun(parse, h).trace, |h.trace|;
    assert PeersChanged(trace, n - 1) by {
      hide OverLog, OneShot, Ongoing, Clocked, FpBefore, Undecided;
      assert trace[..n] == h.trace && trace[n - 1] == h.trace[n - 1];
      FpBeforePrefix(h.trace, trace, n - 1);
    }
    hide PeersChanged;
    forall k: nat | n <= k < n + 4 ensures !PeersChanged(trace, k) {
      QuietPeersAt(start, parse, h, k);
    }
  }

  lemma QuietReaders(start: real, parse: LineParser, h: History, k: nat)
    requires Changed(start, parse, h) && |h.trace| <= k < |h.trace| + 4
    ensures var trace, c := QuietRun(parse, h).trace, |h.trace| - 1;
      && trace[k].reader == ViewOf(Seen(parse, h.log, |h.log|))
      && c < |h.lens| && h.lens[c] <= |h.log| && trace[c].reader == ViewOf(Seen(parse, h.log, h.lens[c]))
  {
    hide Aggregates, Lines, ViewOf, PeersChanged, FpBefore, Clocked, Ongoing, Undecided;
    var trace, c := QuietRun(parse, h).trace, |h.trace| - 1;
    assert h.log[..|h.log|] == h.log;
    assert trace[c] == h.trace[c];
  }

  lemma ViewDescribes(seen: seq<SyncAggregate>, peers: nat)
    requires Describes(seen, peers)
    ensures seen != [] && ViewOf(seen) == View(Some(seen[|seen| - 1]), |seen|, true) && AllDone(seen[|seen| - 1], peers)
  {
  }

  lemma QuietComplete(start: real, parse: LineParser, h: History, k: nat)
    requires Changed(start, parse, h) && AlreadyDescribed(parse, h) && |h.trace| <= k < |h.trace| + 4
    ensures Completed(QuietRun(parse, h).trace, k)
  {
    hide Seen, ViewOf, Describes, OneShot, PeersChanged, FpBefore, Clocked, Ongoing, Undecided, OverLog;
    var trace, c := QuietRun(parse, h).trace, |h.trace| - 1;
    var seen := Seen(parse, h.log, |h.log|);
    QuietReaders(start, parse, h, k);
    ViewDescribes(seen, |h.trace[c].scan.after|);
    ViewCount(Seen(parse, h.log, h.lens[c]));
    QuietPeers(start, parse, h);
    assert LastChange(trace, k + 1, c);
    assert Newest(trace, k, seen[|seen| - 1]);
    assert trace[k].reader.everFinished;
  }

  lemma ViewCount(seen: seq<SyncAggregate>)
    ensures ViewOf(seen).seqNo == |seen|
  {
  }

  lemma RunAfterGap(trace: seq<Observation>, m: nat, k: nat, i: nat)
    requires m < k <= |trace| && !Completed(trace, m) && RunStart(trace, k, i)
    ensures i > m
  {
    hide Completed;
  }

  lemma QuietWindow(start: real, parse: LineParser, h: History)
    requires Changed(start, parse, h) && AlreadyDescribed(parse, h)
    ensures var trace, n := QuietRun(parse, h).trace, |h.trace|;
      && StableWindow(trace, n, n + 3)
      && !(exists i: nat :: RunStart(trace, n + 4, i) && Ts(trace, i) == 0.0)
  {
    hide Completed, AlreadyDescribed, OverLog, OneShot, Ongoing, Clocked, PeersChanged, Undecided;
    var trace, n := QuietRun(parse, h).trace, |h.trace|;
    forall k: nat | n <= k < n + 4 ensures Completed(trace, k) {
      QuietComplete(start, parse, h, k);
    }
    QuietPeers(start, parse, h);
    assert !Completed(trace, n - 1) by {
      if Completed(trace, n - 1) {
        CompletedKeepsPeers(trace, n - 1);
      }
    }
    forall i: nat | RunStart(trace, n + 4, i) ensures Ts(trace, i) != 0.0 {
      RunAfterGap(trace, n - 1, n + 4, i);
    }
  }

  /** Three samples are too few. */
  lemma QuietEarly(start: real, parse: LineParser, h: History, k: nat)
    requires Changed(start, parse, h) && |h.trace| <= k < |h.trace| + 3
    ensures !Credited(QuietRun(parse, h).trace, k)
  {
    hide Completed, OverLog, OneShot, Ongoing, Clocked, PeersChanged, RunStart, Undecided;
    var trace, n := QuietRun(parse, h).trace, |h.trace|;
    QuietPeers(start, parse, h);
    assert !Completed(trace, n - 1) by {
      if Completed(trace, n - 1) {
        CompletedKeepsPeers(trace, n - 1);
      }
    }
    forall i: nat ensures !StableWindow(trace, i, k) {
      if StableWindow(trace, i, k) {
        WindowAfterGap(trace, n - 1, i, k);
      }
    }
  }

  lemma WindowAfterGap(trace: seq<Observation>, m: nat, i: nat, k: nat)
    requires m < k < |trace| && !Completed(trace, m) && StableWindow(trace, i, k)
    ensures i > m
  {
    hide Completed;
  }

  lemma QuietUndecided(start: real, parse: LineParser, h: History)
    requires Changed(start, parse, h)
    ensures Undecided(start, QuietRun(parse, h).trace, |h.trace| + 3)
  {
    QuietClock(start, parse, h);
    hide VerdictOf, After, Credited, OverLog, PeersChanged, LaterSample, Clocked;
    var trace, n := QuietRun(parse, h).trace, |h.trace|;
    forall k: nat | k < n + 3 ensures VerdictOf(After(start, trace, k), trace[k]) == Continue {
      if k < n {
        assert trace[..n] == h.trace && trace[k] == h.trace[k];
        AfterPrefix(start, trace, n, k);
      } else {
        QuietEarly(start, parse, h, k);
        VerdictIffWindow(start, trace, k);
        OngoingVerdict(After(start, trace, k), trace[k]);
      }
    }
  }

  /** If the log already describes the changed peers, the run can converge with nothing written since. */
  lemma QuietConverges(start: real, parse: LineParser, h: History)
    requires Changed(start, parse, h) && AlreadyDescribed(parse, h)
    ensures Continues(start, parse, h, QuietRun(parse, h))
    ensures Converges(start, QuietRun(parse, h).trace, |h.trace| - 1)
    ensures !UsesNewLine(parse, h, QuietRun(parse, h))
  {
    hide Seen, VerdictOf, After, AlreadyDescribed, PeersChanged, StableWindow, RunStart, Undecided;
    var run, k := QuietRun(parse, h), |h.trace| + 3;
    QuietContinues(start, parse, h);
    QuietWindow(start, parse, h);
    QuietPeers(start, parse, h);
    QuietUndecided(start, parse, h);
    VerdictIffWindow(start, run.trace, k);
    AliveDecides(After(start, run.trace, k), run.trace[k]);
    assert run.trace[k].scan.alive;
  }

  /** However a run goes on after a change of peers, it converges only with the help of an aggregate
      line completed after the scan that showed the change, if and only if the log did not already
      describe the changed peers with a line not yet read. */
  lemma NewLineUsedIff(start: real, parse: LineParser, h: History)
    requires Changed(start, parse, h)
    ensures (forall run: History ::
              Continues(start, parse, h, run) && Converges(start, run.trace, |h.trace| - 1) ==> UsesNewLine(parse, h, run))
      <==> !AlreadyDescribed(parse, h)
  {
    hide Converges, UsesNewLine, AlreadyDescribed, QuietRun;
    if AlreadyDescribed(parse, h) {
      QuietConverges(start, parse, h);
    } else {
      forall run: History | Continues(start, parse, h, run) && Converges(start, run.trace, |h.trace| - 1)
        ensures UsesNewLine(parse, h, run)
      {
        NewLineOrDescribed(start, parse, h, run);
      }
    }
  }

  // ----- a swap of one peer for another -----

  function OnePeer(peer: (string, string), ts: real): Observation {
    Observation(View(None, 0, false), Scanned([peer], [peer], true, 1, 1, ("n", "c"), ts, true))
  }

  /** Two polls of an empty log: peer A at one second, peer C at six. A line about A is written after
      the second poll. */
  function Swap(a: (string, string), c: (string, string)): History {
    History([OnePeer(a, 1.0), OnePeer(c, 6.0)], [1, NEWLINE], [0, 0])
  }

  /** Every line reports one peer, which has finished. */
  const FINISHED: LineParser := line => Some(SyncAggregate(1, 1, 0, 0))

  lemma SwapSeen()
    ensures Seen(FINISHED, [1, NEWLINE], 0) == [] && OneShot(FINISHED, []) == View(None, 0, false)
    ensures Seen(FINISHED, [1, NEWLINE], 2) == [SyncAggregate(1, 1, 0, 0)]
  {
    var log: seq<byte> := [1, NEWLINE];
    EmptySplit();
    assert log[..0] == [] && log[..2] == log && log == [1] + [NEWLINE] && [1 as byte] == [] + [1];
    SplitSnoc([], 1);
    SplitSnoc([1], NEWLINE);
    assert Lines(log) == [] + [[1]];
    AggregatesSnoc(FINISHED, [], [1]);
  }

  lemma SwapChanged(a: (string, string), c: (string, string))
    requires a != c
    ensures Changed(0.0, FINISHED, Swap(a, c))
  {
    hide Seen, OneShot;
    var h := Swap(a, c);
    SwapSeen();
    assert h.log[..0] == [];
    assert FpBefore(h.trace, 1) == Some([a]);
    assert [a] != [c] by {
      assert [a][0] == a && [c][0] == c;
    }
    assert PeersChanged(h.trace, 0) && PeersChanged(h.trace, 1);
    assert Undecided(0.0, h.trace, 2) by {
      hide PeersChanged, VerdictOf, After;
      forall k: nat | k < 2 ensures VerdictOf(After(0.0, h.trace, k), h.trace[k]) == Continue {
        ChangeNotCredited(h.trace, k);
        VerdictIffWindow(0.0, h.trace, k);
        OngoingVerdict(After(0.0, h.trace, k), h.trace[k]);
      }
    }
  }

  lemma ChangeNotCredited(trace: seq<Observation>, k: nat)
    requires k < |trace| && PeersChanged(trace, k)
    ensures !Credited(trace, k)
  {
    hide PeersChanged, Completed;
    if Completed(trace, k) {
      CompletedKeepsPeers(trace, k);
    }
  }

  lemma SwapDescribed(a: (string, string), c: (string, string))
    requires a != c
    ensures Changed(0.0, FINISHED, Swap(a, c)) && AlreadyDescribed(FINISHED, Swap(a, c))
  {
    SwapChanged(a, c);
    hide Seen, OneShot, Changed;
    SwapSeen();
    assert Seen(FINISHED, Swap(a, c).log, 2)[0].finished > 0;
  }

  /** Replacing the only peer A by C, when the line about A is read only after the change was seen,
      can end in a converged run although no aggregate was emitted about C. */
  lemma SwapCanMislead(a: (string, string), c: (string, string)) returns (run: History)
    requires a != c
    ensures Changed(0.0, FINISHED, Swap(a, c)) && Continues(0.0, FINISHED, Swap(a, c), run)
    ensures run.log == Swap(a, c).log && Converges(0.0, run.trace, 1)
  {
    hide AlreadyDescribed, Changed, Continues, Converges, UsesNewLine, LaterSample;
    SwapDescribed(a, c);
    QuietConverges(0.0, FINISHED, Swap(a, c));
    run := QuietRun(FINISHED, Swap(a, c));
  }
}

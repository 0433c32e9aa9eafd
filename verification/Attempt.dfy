/** One attempt from setup to its artifacts, and the retry loop around it. */
module Attempt {
  import opened Wrappers
  import opened AggregateLog
  import opened JsonText
  import opened GraphRecords
  import opened GraphScan
  import opened Convergence
  import opened ConvergenceTheorems
  import opened SafeRun
  import opened MonitoredRun
  import opened Artifacts

  /** How far the attempt got before the monitoring loop, if it did not get there. */
  datatype Setup =
    | RaisedEarly(retryable: bool)     // before a work directory existed
    | NoNode(retryable: bool)          // work directory allocated, node construction raised
    | NodeRaised(retryable: bool)      // node constructed; prepare, start or readiness raised
    | Ready

  /** Everything outside that decides one attempt. */
  datatype Env = Env(
    setup: Setup,
    expectedSet: bool,                 // an expected commit was given
    commitMatches: bool,               // and the node reported it
    start: real,
    parse: LineParser,                 // the aggregate in a log line
    selfPubkey: string,                // the node under test
    bootnodes: Bootnodes,              // whether a configured bootnode is among the peers
    passes: seq<Pass>,                 // what the passes of the monitoring loop meet
    stopFails: bool,
    shredFails: bool,
    sizeFails: bool,
    logSize: Option<nat>,              // size of the log after stop, None when there is none
    logPresent: bool,                  // the log is still there when it is archived
    log: Source,
    cleanFails: bool,
    faults: Faults,
    samples: seq<byte>,
    summary: seq<byte>)

  class SyncResult {
    var converged: bool
    var failureReason: seq<string>
    var retryable: Option<bool>
    var artifactFailure: seq<string>
    var cleanupFailure: seq<string>
    var nodeCount: nat
    var channelCount: nat
    var digest: (string, string)
    var commitVerified: bool

    /** What is reported of the graph and of the binary. */
    function Reported(): (nat, nat, (string, string), bool)
      reads this
    {
      (nodeCount, channelCount, digest, commitVerified)
    }

    constructor ()
      ensures !converged && failureReason == [] && retryable == None && artifactFailure == [] && cleanupFailure == []
      ensures Reported() == (0, 0, ("", ""), false)
    {
      converged, failureReason, retryable, artifactFailure, cleanupFailure := false, [], None, [], [];
      nodeCount, channelCount, digest, commitVerified := 0, 0, ("", ""), false;
    }

    /** `_record_artifact_failure`. */
    method RecordArtifactFailure(reason: string)
      modifies this
      ensures artifactFailure == old(artifactFailure) + [reason] && failureReason == old(failureReason) + [reason]
      ensures !converged && retryable == Some(false)
      ensures cleanupFailure == old(cleanupFailure)
      ensures Reported() == old(Reported())
    {
      artifactFailure := artifactFailure + [reason];
      failureReason := failureReason + [reason];
      converged := false;
      retryable := Some(false);
    }

    /** `_record_cleanup_failure`. */
    method RecordCleanupFailure(reason: string)
      modifies this
      ensures cleanupFailure == old(cleanupFailure) + [reason] && failureReason == old(failureReason) + [reason]
      ensures !converged && retryable == Some(false)
      ensures artifactFailure == old(artifactFailure)
      ensures Reported() == old(Reported())
    {
      cleanupFailure := cleanupFailure + [reason];
      failureReason := failureReason + [reason];
      converged := false;
      retryable := Some(false);
    }

    predicate Clean()
      reads this
    {
      cleanupFailure == [] && artifactFailure == []
    }
  }

  // ----- what the attempt comes to, from its environment -----

  function SettingOf(env: Env): Setting {
    Setting(env.parse, MAX_NODE_LOG_BYTES, env.selfPubkey, env.bootnodes)
  }

  /** The observations of the monitoring loop. */
  ghost function Trace(env: Env): seq<Observation> {
    TraceOf(SettingOf(env), env.passes)
  }

  ghost predicate MonitorConverges(env: Env) {
    exists k: nat :: FirstVerdict(env.start, Trace(env), k, Converged)
  }

  /** The history holds a first proof of stability, at an observation with the process alive. */
  ghost predicate ProvenStable(env: Env) {
    exists k: nat :: k < |Trace(env)| && Ongoing(Trace(env)[..k + 1]) && Alive(Trace(env), k) && ProvenAt(Trace(env), k)
      && forall j: nat :: j < k ==> !ProvenAt(Trace(env), j)
  }

  /** The loop ended in a way that a second attempt could clear: out of time, at the deadline, or with
      a transient exception. */
  ghost predicate LoopTransient(env: Env) {
    forall k: nat, v: Verdict :: FirstVerdict(env.start, Trace(env), k, v) ==>
      v == Stopped || (v == Failure && Retryable(Trace(env)[k]))
  }

  /** The attempt did not converge for a transient reason. */
  ghost predicate Transient(env: Env) {
    match env.setup
    case RaisedEarly(retryable) => retryable
    case NoNode(retryable) => retryable
    case NodeRaised(retryable) => retryable
    case Ready => (env.expectedSet ==> env.commitMatches) && LoopTransient(env)
  }

  /** The body of the attempt converges: it gets to the loop with a verified binary, and the loop
      converges. */
  ghost predicate BodyConverges(env: Env) {
    env.setup.Ready? && (env.expectedSet ==> env.commitMatches) && MonitorConverges(env)
  }

  predicate ArchiveSucceeds(env: Env, size: nat) {
    && !env.faults(MakeDir(Archiving))
    && (env.logPresent ==>
          size <= MAX_NODE_LOG_BYTES && CopyEndsWell(env.log, env.faults, size) && !env.faults(Install(LOG)))
  }

  /** Stopping the process, shredding its keys or removing the work directory fails; the directory
      stays when the process could not be stopped. */
  predicate CleanupFails(env: Env) {
    env.stopFails || env.shredFails || (!env.stopFails && env.cleanFails)
  }

  /** Measuring or archiving the log fails. */
  predicate ArtifactFails(env: Env) {
    env.sizeFails || (env.logSize.Some? && !ArchiveSucceeds(env, env.logSize.value))
  }

  /** Some step of the finalisation fails, for an attempt that has a node. */
  predicate FinaliseFails(env: Env) {
    CleanupFails(env) || ArtifactFails(env)
  }

  /** The log of the attempt is put into the report. */
  predicate ArchivesLog(env: Env) {
    !env.sizeFails && env.logSize.Some? && env.logPresent && ArchiveSucceeds(env, env.logSize.value)
  }

  /** The archived log is the beginning of the log, as long as it was after the stop. */
  ghost predicate ArchivedIn(env: Env, files: Contents) {
    && env.logSize.Some? && LOG in files
    && forall log :: AppendOnly(env.log, log) ==> env.logSize.value <= |log| && files[LOG] == log[..env.logSize.value]
  }

  type Contents = map<string, seq<byte>>

  /** The attempt gets as far as a node. */
  predicate HasNode(env: Env, files: Contents) {
    Clears(files, env.faults) && (env.setup.NodeRaised? || env.setup.Ready?)
  }

  /** A cleanup fails after the body, in an attempt that cleared its directory. */
  predicate EndsUnclean(env: Env) {
    match env.setup
    case RaisedEarly(_) => false
    case NoNode(_) => env.cleanFails
    case NodeRaised(_) => CleanupFails(env)
    case Ready => CleanupFails(env)
  }

  /** An artifact is lost after the body. */
  predicate LosesArtifact(env: Env) {
    (env.setup.NodeRaised? || env.setup.Ready?) && ArtifactFails(env)
  }

  predicate EndFails(env: Env) {
    EndsUnclean(env) || LosesArtifact(env)
  }

  /** The attempt converges: an empty directory to begin with, a converging body, no failure after it. */
  ghost predicate Succeeds(env: Env, files: Contents) {
    Clears(files, env.faults) && BodyConverges(env) && !FinaliseFails(env)
  }

  /** The attempt fails in a way that may be retried. */
  ghost predicate MayBeRetried(env: Env, files: Contents) {
    Clears(files, env.faults) && Transient(env) && !EndFails(env)
  }

  // ----- the same, operation by operation -----

  predicate CleanedUp(env: Env) {
    !env.stopFails && !env.shredFails && !env.cleanFails
  }

  predicate LogSaved(env: Env) {
    && !env.sizeFails
    && (env.logSize.Some? ==> (
          && !env.faults(MakeDir(Archiving))
          && (env.logPresent ==> (
                && env.logSize.value <= 268435456
                && !env.faults(OpenCopy) && Copied(env.log, env.faults, 0, [], env.logSize.value).1.None?
                && !env.faults(CloseCopy) && !env.faults(Install("node.log.gz"))))))
  }

  /** Nothing fails between the body and the results of an attempt that has a node. */
  predicate AllWell(env: Env) {
    CleanedUp(env) && LogSaved(env)
  }

  lemma FinaliseIff(env: Env)
    ensures CleanupFails(env) <==> !CleanedUp(env)
    ensures ArtifactFails(env) <==> !LogSaved(env)
    ensures FinaliseFails(env) <==> !AllWell(env)
  {
    hide Copied;
  }

  /** Nothing that an earlier run left is stuck. */
  predicate NothingStuck(files: Contents, faults: Faults) {
    && !faults(MakeDir(Clearing))
    && forall f :: f in {"summary.json", "samples.jsonl", "node.log.gz", "node.log.gz.tmp"} && f in files ==> !faults(Unlink(f, Clearing))
  }

  lemma ClearsIff(files: Contents, faults: Faults)
    ensures Clears(files, faults) <==> NothingStuck(files, faults)
  {
    assert STALE[0] == "summary.json" && STALE[1] == "samples.jsonl" && STALE[2] == "node.log.gz" && STALE[3] == "node.log.gz.tmp";
  }

  /** An attempt succeeds exactly when nothing stale is stuck, setup gives a node whose binary is the
      expected one if one is expected, the loop converges, and no operation after it fails. */
  lemma SucceedsIff(env: Env, files: Contents)
    ensures Succeeds(env, files) <==> (
      && NothingStuck(files, env.faults) && env.setup.Ready? && (!env.expectedSet || env.commitMatches)
      && (exists k: nat :: FirstVerdict(env.start, Trace(env), k, Converged)) && AllWell(env))
  {
    hide Clears, NothingStuck, FirstVerdict, FinaliseFails, AllWell;
    ClearsIff(files, env.faults);
    FinaliseIff(env);
  }

  /** It may be retried exactly when nothing stale is stuck, setup or loop failed in a way that may
      pass, and no operation after that fails. */
  lemma RetriedIff(env: Env, files: Contents)
    ensures MayBeRetried(env, files) <==> (
      && NothingStuck(files, env.faults)
      && match env.setup
         case RaisedEarly(retryable) => retryable
         case NoNode(retryable) => retryable && !env.cleanFails
         case NodeRaised(retryable) => retryable && AllWell(env)
         case Ready =>
           && (!env.expectedSet || env.commitMatches) && AllWell(env)
           && forall k: nat, v: Verdict :: FirstVerdict(env.start, Trace(env), k, v) ==>
                v == Stopped || (v == Failure && Trace(env)[k].scan == Raised(true)))
  {
    hide Clears, NothingStuck, FirstVerdict, CleanupFails, ArtifactFails, AllWell, LoopTransient, Trace;
    ClearsIff(files, env.faults);
    FinaliseIff(env);
    TransientIff(env);
  }

  lemma TransientIff(env: Env)
    ensures LoopTransient(env) <==> forall k: nat, v: Verdict :: FirstVerdict(env.start, Trace(env), k, v) ==>
      v == Stopped || (v == Failure && Trace(env)[k].scan == Raised(true))
  {
    hide VerdictOf, After, Undecided, Trace;
  }

  /** The attempt returns its result exactly when both result files can be put in place. */
  lemma ReturnsIff(faults: Faults)
    ensures ResultsInstall(faults) <==> (
      && !faults(MakeDir(Reporting))
      && !faults(Write("samples.jsonl.tmp")) && !faults(Install("samples.jsonl"))
      && !faults(Write("summary.json.tmp")) && !faults(Install("summary.json")))
  {
  }

  /** A converged verdict is only ever given for a non-empty graph, the one reported. */
  lemma ConvergedNonEmpty(s: Scalars, o: Observation)
    requires VerdictOf(s, o) == Converged
    ensures var count := Next(s, o).prevCount; count.Some? && count.value.0 > 0 && count.value.1 > 0
    ensures Next(s, o).prevDigest.Some?
  {
  }

  /** The loop converges exactly when its history holds a first proof of stability. */
  lemma MonitorIffProven(env: Env)
    requires Clocked(env.start, Trace(env))
    ensures MonitorConverges(env) <==> ProvenStable(env)
  {
    hide FirstVerdict, Trace, ProvenAt, Alive, Ongoing, Clocked;
    forall k: nat | k < |Trace(env)|
      ensures FirstVerdict(env.start, Trace(env), k, Converged) <==>
        && Ongoing(Trace(env)[..k + 1]) && Alive(Trace(env), k) && ProvenAt(Trace(env), k)
        && forall j: nat :: j < k ==> !ProvenAt(Trace(env), j)
    {
      FirstVerdictExact(env.start, Trace(env), k);
    }
    if k: nat :| FirstVerdict(env.start, Trace(env), k, Converged) {
      VerdictInside(env.start, Trace(env), k, Converged);
    }
  }

  lemma VerdictInside(start: real, trace: seq<Observation>, k: nat, v: Verdict)
    requires FirstVerdict(start, trace, k, v)
    ensures k < |trace|
  {
  }

  /** A converging attempt, on any schedule of polls of a growing log, is backed by the log read so far
      and by the samples of the run so far. */
  lemma ConvergedAttemptIsBacked(env: Env, log: seq<byte>) returns (k: nat, i: nat, c: nat)
    requires MonitorConverges(env) && Clocked(env.start, Trace(env)) && Growing(Files(env.passes), log)
    ensures k < |env.passes|
    ensures var passes := env.passes[..k + 1];
      var trace, lens := TraceOf(SettingOf(env), passes), ReadLengths(Files(passes), MAX_NODE_LOG_BYTES);
      && Ongoing(trace) && OverLog(trace, env.parse, log, lens)
      && BackedBySamples(trace, k, i) && BackedByLog(trace, env.parse, log, lens, k, c) && c < i
  {
    hide FirstVerdict, TraceOf, Clocked, Growing, OverLog, BackedBySamples, BackedByLog, Ongoing;
    k :| FirstVerdict(env.start, Trace(env), k, Converged);
    VerdictInside(env.start, Trace(env), k, Converged);
    TraceLength(SettingOf(env), env.passes);
    i, c := ConvergedLoopIsBacked(env.start, SettingOf(env), env.passes, k, log);
  }

  /** How the loop stopped decides convergence and retryability. */
  lemma StopDecides(env: Env, verdict: Verdict, k: nat)
    requires Stops(env.start, Trace(env), k, verdict)
    ensures verdict == Converged <==> MonitorConverges(env)
    ensures verdict in {Continue, Stopped} ==> LoopTransient(env)
    ensures verdict == Failure ==> 0 < k <= |Trace(env)| && (LoopTransient(env) <==> Retryable(Trace(env)[k - 1]))
    ensures verdict in {Converged, NodeGone} ==> !LoopTransient(env)
  {
    hide VerdictOf, After, Trace;
    forall i: nat, v: Verdict | FirstVerdict(env.start, Trace(env), i, v)
      ensures verdict != Continue && i == k - 1 && v == verdict
    {
      if verdict != Continue {
        FirstVerdictUnique(env.start, Trace(env), i, v, k - 1, verdict);
      }
    }
  }

  /** The monitoring loop inside the attempt. */
  method Observe(env: Env, result: SyncResult)
    requires !result.converged && result.retryable == None && result.Clean()
    requires result.nodeCount == 0 && result.channelCount == 0 && result.digest == ("", "")
    modifies result
    ensures result.converged <==> MonitorConverges(env)
    ensures result.converged ==> result.nodeCount > 0 && result.channelCount > 0 && result.retryable == None
    ensures result.converged ==> Shows(env, result.nodeCount, result.channelCount, result.digest)
    ensures if result.converged then !LoopTransient(env) else result.retryable == Some(LoopTransient(env))
    ensures Shown(env, result.nodeCount, result.channelCount, result.digest)
    ensures result.Clean() && result.commitVerified == old(result.commitVerified)
  {
    hide Shows, Shown, VerdictOf, Next, After, MonitorConverges, LoopTransient, TraceOf, Stops, ReadBefore, Retryable, OneShot, Undecided, FirstVerdict;
    var verdict, k, retryable, m, _ := WatchLog(env.start, SettingOf(env), env.passes);
    StopDecides(env, verdict, k);
    ShownAtStop(env, verdict, k);
    if verdict == Converged {
      ConvergedCount(env, k);
    }
    Record(result, verdict, retryable, m.prevCount, m.prevDigest);
  }

  /** What is entered into the result when the loop has stopped. */
  method Record(result: SyncResult, verdict: Verdict, retryable: bool, count: Option<(nat, nat)>, digest: Option<(string, string)>)
    requires verdict == Converged ==> count.Some? && digest.Some?
    requires !result.converged && result.retryable == None && result.Clean()
    requires result.nodeCount == 0 && result.channelCount == 0 && result.digest == ("", "")
    modifies result
    ensures result.converged <==> verdict == Converged
    ensures result.retryable == match verdict
      case Converged => None
      case NodeGone => Some(false)
      case Failure => Some(retryable)
      case _ => Some(true)
    ensures (result.nodeCount, result.channelCount) == if verdict in {Failure, NodeGone} || count.None? then (0, 0) else count.value
    ensures result.digest == if verdict in {Failure, NodeGone} || digest.None? then ("", "") else digest.value
    ensures result.Clean() && result.commitVerified == old(result.commitVerified)
  {
    match verdict {
      case Converged =>
        result.converged := true;
        result.nodeCount, result.channelCount := count.value.0, count.value.1;
        result.digest := digest.value;
      case NodeGone =>
        result.failureReason := ["NodeExited"];
        result.retryable := Some(false);
      case Failure =>
        result.failureReason := ["raised"];
        result.retryable := Some(retryable);
      case _ =>
        if count.Some? {
          result.nodeCount, result.channelCount := count.value.0, count.value.1;
        }
        if digest.Some? {
          result.digest := digest.value;
        }
        result.failureReason := ["not converged before the deadline"];
        result.retryable := Some(true);
    }
  }

  lemma ConvergedCount(env: Env, k: nat)
    requires Stops(env.start, Trace(env), k, Converged)
    ensures 0 < k <= |Trace(env)|
    ensures var s := After(env.start, Trace(env), k);
      && s.prevCount.Some? && s.prevCount.value.0 > 0 && s.prevCount.value.1 > 0 && s.prevDigest.Some?
      && Shows(env, s.prevCount.value.0, s.prevCount.value.1, s.prevDigest.value)
      && Shown(env, s.prevCount.value.0, s.prevCount.value.1, s.prevDigest.value)
  {
    hide VerdictOf, Next, Trace;
    ConvergedNonEmpty(After(env.start, Trace(env), k - 1), Trace(env)[k - 1]);
  }

  // ----- what the result shows of the graph -----

  /** Observation `j` is the last sample among the first `k`. */
  ghost predicate LastSample(trace: seq<Observation>, k: nat, j: nat)
    requires k <= |trace|
  {
    j < k && Accepted(trace, j) && forall i: nat :: j < i < k ==> !Accepted(trace, i)
  }

  /** The counts and digests are those of the last sample among the first `k`, or empty without one. */
  ghost predicate LastSeen(trace: seq<Observation>, k: nat, nodes: nat, channels: nat, digest: (string, string))
    requires k <= |trace|
  {
    if exists j: nat :: LastSample(trace, k, j) then
      exists j: nat :: LastSample(trace, k, j)
        && trace[j].scan.nodes == nodes && trace[j].scan.channels == channels && trace[j].scan.digest == digest
    else nodes == 0 && channels == 0 && digest == ("", "")
  }

  /** The loop ran into the deadline after `k` passes, inside the scan of the last or after it. */
  ghost predicate OutOfTime(env: Env, k: nat) {
    Stops(env.start, Trace(env), k, Stopped) || Stops(env.start, Trace(env), k, Continue)
  }

  /** The loop converged on these, or ran out of time and they are the last it saw, or it raised and
      they are empty. */
  ghost predicate Shown(env: Env, nodes: nat, channels: nat, digest: (string, string)) {
    if MonitorConverges(env) then Shows(env, nodes, channels, digest)
    else if exists k: nat :: OutOfTime(env, k) then
      exists k: nat :: OutOfTime(env, k) && k <= |Trace(env)| && LastSeen(Trace(env), k, nodes, channels, digest)
    else nodes == 0 && channels == 0 && digest == ("", "")
  }

  /** What the result of an attempt says of graph and binary: nothing unless it gets to the loop. */
  ghost predicate Tells(env: Env, files: Contents, reported: (nat, nat, (string, string), bool)) {
    if Clears(files, env.faults) && env.setup.Ready? && (env.expectedSet ==> env.commitMatches)
    then Shown(env, reported.0, reported.1, reported.2) && reported.3 == env.expectedSet
    else reported == (0, 0, ("", ""), false)
  }

  lemma PrevStep(s: Scalars, trace: seq<Observation>, k: nat)
    requires k < |trace|
    ensures var t := Next(s, trace[k]);
      if Accepted(trace, k)
      then t.prevCount == Some((trace[k].scan.nodes, trace[k].scan.channels)) && t.prevDigest == Some(trace[k].scan.digest)
      else t.prevCount == s.prevCount && t.prevDigest == s.prevDigest
  {
  }

  /** The loop's scalars hold the last sample. */
  lemma {:induction false} PrevIsLast(start: real, trace: seq<Observation>, k: nat)
    requires k <= |trace|
    ensures var s := After(start, trace, k);
      && (s.prevCount.None? <==> s.prevDigest.None?)
      && (s.prevCount.None? ==> forall j: nat :: !LastSample(trace, k, j))
      && (s.prevCount.Some? ==>
            exists j: nat :: LastSample(trace, k, j)
              && s.prevCount.value == (trace[j].scan.nodes, trace[j].scan.channels) && s.prevDigest.value == trace[j].scan.digest)
  {
    hide Next;
    if k > 0 {
      PrevIsLast(start, trace, k - 1);
      PrevStep(After(start, trace, k - 1), trace, k - 1);
      var s := After(start, trace, k - 1);
      if Accepted(trace, k - 1) {
        assert LastSample(trace, k, k - 1);
      } else if s.prevCount.Some? {
        var j: nat :| LastSample(trace, k - 1, j)
              && s.prevCount.value == (trace[j].scan.nodes, trace[j].scan.channels) && s.prevDigest.value == trace[j].scan.digest;
        assert LastSample(trace, k, j);
      } else {
        NoSampleMore(trace, k - 1, k);
      }
    }
  }

  lemma NoSampleMore(trace: seq<Observation>, k: nat, more: nat)
    requires k < |trace| && more == k + 1 && !Accepted(trace, k) && forall j: nat :: !LastSample(trace, k, j)
    ensures forall j: nat :: !LastSample(trace, more, j)
  {
    if j: nat :| LastSample(trace, more, j) {
      assert LastSample(trace, k, j);
    }
  }

  lemma LastSeenHeld(start: real, trace: seq<Observation>, k: nat)
    requires k <= |trace|
    ensures var s := After(start, trace, k);
      var count, digest := (if s.prevCount.Some? then s.prevCount.value else (0, 0)), (if s.prevDigest.Some? then s.prevDigest.value else ("", ""));
      LastSeen(trace, k, count.0, count.1, digest)
  {
    hide After, LastSample;
    PrevIsLast(start, trace, k);
  }

  /** What the result shows when the loop stops without having converged. */
  lemma ShownAtStop(env: Env, verdict: Verdict, k: nat)
    requires Stops(env.start, Trace(env), k, verdict)
    ensures k <= |Trace(env)|
    ensures verdict in {Continue, Stopped} ==>
      var s := After(env.start, Trace(env), k);
      var count, digest := (if s.prevCount.Some? then s.prevCount.value else (0, 0)), (if s.prevDigest.Some? then s.prevDigest.value else ("", ""));
      Shown(env, count.0, count.1, digest)
    ensures verdict in {Failure, NodeGone} ==> Shown(env, 0, 0, ("", ""))
  {
    hide After, Trace, LastSeen, MonitorConverges;
    StopDecides(env, verdict, k);
    if verdict in {Continue, Stopped} {
      assert OutOfTime(env, k);
      LastSeenHeld(env.start, Trace(env), k);
    } else {
      hide Shows, Shown;
      if k': nat :| OutOfTime(env, k') {
        StopUnique(env, verdict, k, k');
      }
      EmptyShown(env);
    }
  }

  lemma EmptyShown(env: Env)
    ensures !MonitorConverges(env) && (forall k: nat :: !OutOfTime(env, k)) ==> Shown(env, 0, 0, ("", ""))
  {
    hide OutOfTime, MonitorConverges;
  }

  lemma StopUnique(env: Env, verdict: Verdict, k: nat, k': nat)
    requires Stops(env.start, Trace(env), k, verdict) && OutOfTime(env, k')
    ensures verdict in {Continue, Stopped}
  {
    hide After, Trace, VerdictOf;
  }

  /** These are the counts and digests after the observation at which the loop converged. */
  ghost predicate Shows(env: Env, nodes: nat, channels: nat, digest: (string, string)) {
    exists k: nat :: FirstVerdict(env.start, Trace(env), k, Converged) && k < |Trace(env)|
      && After(env.start, Trace(env), k + 1).prevCount == Some((nodes, channels))
      && After(env.start, Trace(env), k + 1).prevDigest == Some(digest)
  }

  /** What a converged attempt reports is what all streams served during a stable window of its run
      announced: how many nodes and channels, and the text of their digests. */
  lemma ReportedIsAnnounced(env: Env, nodeCount: nat, channelCount: nat, digest: (string, string))
    returns (k: nat, i: nat, nodes: seq<Json>, channels: seq<Json>)
    requires Shows(env, nodeCount, channelCount, digest) && Clocked(env.start, Trace(env))
    ensures k < |env.passes| && StableWindow(TraceOf(SettingOf(env), env.passes[..k + 1]), i, k)
    ensures SteadyGraph(SettingOf(env), env.passes, i, k, nodes, channels)
    ensures nodeCount == |nodes| && channelCount == |channels| && digest == (DigestText(nodes), DigestText(channels))
  {
    hide FirstVerdict, After, Clocked, TraceOf, StableWindow, SteadyGraph, DigestText;
    k :| FirstVerdict(env.start, Trace(env), k, Converged) && k < |Trace(env)|
      && After(env.start, Trace(env), k + 1).prevCount == Some((nodeCount, channelCount))
      && After(env.start, Trace(env), k + 1).prevDigest == Some(digest);
    TraceLength(SettingOf(env), env.passes);
    i, nodes, channels := ConvergedLoopAnnounces(env.start, SettingOf(env), env.passes, k);
  }

  lemma ConvergingIsNotTransient(env: Env)
    requires MonitorConverges(env)
    ensures !LoopTransient(env)
  {
    hide FirstVerdict, Trace;
    var k: nat :| FirstVerdict(env.start, Trace(env), k, Converged);
    VerdictInside(env.start, Trace(env), k, Converged);
  }

  /** The `try` block. */
  method Body(env: Env, dir: ReportDir, result: SyncResult) returns (hasWorkDir: bool, hasNode: bool)
    requires !result.converged && result.retryable == None && result.Clean() && result.Reported() == (0, 0, ("", ""), false)
    modifies dir, result
    ensures result.Clean()
    ensures hasNode <==> HasNode(env, old(dir.files))
    ensures hasWorkDir <==> Clears(old(dir.files), env.faults) && !env.setup.RaisedEarly?
    ensures result.converged <==> Clears(old(dir.files), env.faults) && BodyConverges(env)
    ensures Tells(env, old(dir.files), result.Reported())
    ensures result.converged ==>
      result.nodeCount > 0 && result.channelCount > 0 && result.commitVerified == env.expectedSet
    ensures result.converged ==> Shows(env, result.nodeCount, result.channelCount, result.digest)
    ensures result.retryable ==
      if result.converged then None else Some(Clears(old(dir.files), env.faults) && Transient(env))
    ensures SUMMARY in dir.files <==> StaleSummaryStays(old(dir.files), env.faults)
    ensures LOG in dir.files <==> StaleLogStays(old(dir.files), env.faults)
    ensures LOG in dir.files ==> dir.files[LOG] == old(dir.files)[LOG]
  {
    hide Shows, Shown, MonitorConverges, LoopTransient, Clears, ClearsUpTo;
    hasWorkDir, hasNode := false, false;
    var cleared := dir.ClearStale(env.faults);
    assert STALE[0] == SUMMARY && STALE[2] == LOG;
    if !cleared {
      result.failureReason, result.retryable := ["OSError"], Some(false);
      return;
    }
    match env.setup {
      case RaisedEarly(retryable) =>
        result.failureReason, result.retryable := ["setup"], Some(retryable);
      case NoNode(retryable) =>
        hasWorkDir := true;
        result.failureReason, result.retryable := ["setup"], Some(retryable);
      case NodeRaised(retryable) =>
        hasWorkDir, hasNode := true, true;
        result.failureReason, result.retryable := ["setup"], Some(retryable);
      case Ready =>
        hasWorkDir, hasNode := true, true;
        if env.expectedSet {
          if !env.commitMatches {
            result.failureReason, result.retryable := ["ConfigError"], Some(false);
            return;
          }
          result.commitVerified := true;
        }
        Observe(env, result);
    }
  }

  /** The first half of the `finally` block, for an attempt that has a node. */
  method Finalise(env: Env, dir: ReportDir, result: SyncResult) returns (cleanRun: bool)
    requires result.Clean()
    modifies dir, result
    ensures cleanRun <==> !env.stopFails
    ensures result.cleanupFailure == [] <==> !CleanupFails(env)
    ensures result.artifactFailure == [] <==> !ArtifactFails(env)
    ensures result.converged <==> old(result.converged) && !FinaliseFails(env)
    ensures result.retryable == if FinaliseFails(env) then Some(false) else old(result.retryable)
    ensures result.Reported() == old(result.Reported())
    ensures ArchivesLog(env) ==> ArchivedIn(env, dir.files)
    ensures !ArchivesLog(env) ==>
      (LOG in dir.files <==> LOG in old(dir.files)) && (LOG in dir.files ==> dir.files[LOG] == old(dir.files)[LOG])
    ensures SUMMARY in dir.files <==> SUMMARY in old(dir.files)
  {
    hide Copied, CopyEndsWell, AppendOnly;
    if env.stopFails {
      result.RecordCleanupFailure("stop");
    }
    if env.shredFails {
      result.RecordCleanupFailure("shred");
    }
    var logSize: Option<nat> := None;
    if env.sizeFails {
      result.RecordArtifactFailure("size");
    } else {
      logSize := env.logSize;
    }
    if logSize.Some? {
      var archived := dir.ArchiveLog(env.logPresent, logSize.value, env.log, env.faults);
      if archived.Err? {
        result.RecordArtifactFailure("archive");
      }
    }
    cleanRun := !env.stopFails;
    if cleanRun && env.cleanFails {
      result.RecordCleanupFailure("clean");
    }
  }

  lemma Cleared(files: Contents, faults: Faults)
    requires Clears(files, faults)
    ensures !StaleSummaryStays(files, faults) && !StaleLogStays(files, faults)
  {
  }

  /** `run_attempt`: None when writing the artifacts raises out of the `finally` block. */
  method RunAttempt(env: Env, dir: ReportDir) returns (r: Option<SyncResult>, hasNode: bool, cleanRun: bool)
    modifies dir
    ensures r.Some? ==> fresh(r.value)
    ensures r.Some? <==> ResultsInstall(env.faults)
    // the environment decides whether the result is converged, clean and retryable
    ensures r.Some? ==> (r.value.converged <==> Succeeds(env, old(dir.files)))
    ensures r.Some? ==> r.value.retryable == if r.value.converged then None else Some(MayBeRetried(env, old(dir.files)))
    ensures r.Some? ==> (r.value.cleanupFailure == [] <==> !(Clears(old(dir.files), env.faults) && EndsUnclean(env)))
    ensures r.Some? ==> (r.value.artifactFailure == [] <==> !(Clears(old(dir.files), env.faults) && LosesArtifact(env)))
    // and what it says of graph and binary
    ensures r.Some? ==> Tells(env, old(dir.files), r.value.Reported())
    ensures r.Some? && r.value.converged ==>
      r.value.Clean() && r.value.commitVerified == env.expectedSet && r.value.nodeCount > 0 && r.value.channelCount > 0
    ensures r.Some? && r.value.converged ==> Shows(env, r.value.nodeCount, r.value.channelCount, r.value.digest)
    // a converged result is a first proof of stability in the history of the loop
    ensures r.Some? && r.value.converged && Clocked(env.start, Trace(env)) ==> ProvenStable(env)
    // the work directory is removed exactly when the process was stopped
    ensures hasNode <==> HasNode(env, old(dir.files))
    ensures hasNode ==> (cleanRun <==> !env.stopFails)
    // a returned result has both files; a summary without samples is a stale one that could not be removed
    ensures r.Some? ==> SUMMARY in dir.files && dir.files[SUMMARY] == env.summary && SAMPLES in dir.files && dir.files[SAMPLES] == env.samples
    ensures SUMMARY in dir.files && !(SAMPLES in dir.files && dir.files[SAMPLES] == env.samples) ==>
      StaleSummaryStays(old(dir.files), env.faults)
    ensures Clears(old(dir.files), env.faults) && SUMMARY in dir.files ==> SamplesInstall(env.faults)
    // the report holds this attempt's log, or a stale one that could not be removed, or none
    ensures hasNode && ArchivesLog(env) ==> ArchivedIn(env, dir.files)
    ensures !(hasNode && ArchivesLog(env)) ==> (
      && (LOG in dir.files <==> StaleLogStays(old(dir.files), env.faults))
      && (LOG in dir.files ==> dir.files[LOG] == old(dir.files)[LOG]))
    ensures r.Some? && r.value.converged && env.logSize.Some? && env.logPresent ==> ArchivedIn(env, dir.files)
  {
    hide Shows, Tells, MonitorConverges, ArchiveSucceeds, ProvenStable, LoopTransient, Clocked, Trace, Clears, ClearsUpTo, SamplesInstall, ArchivedIn;
    var result := new SyncResult();
    cleanRun := false;
    var hasWorkDir;
    hasWorkDir, hasNode := Body(env, dir, result);
    if Clears(old(dir.files), env.faults) {
      Cleared(old(dir.files), env.faults);
    }
    if hasNode {
      cleanRun := Finalise(env, dir, result);
    } else if hasWorkDir && env.cleanFails {
      result.RecordCleanupFailure("rmtree");
    }
    ghost var archived := dir.files;
    var ok, installed := dir.WriteResultFiles(env.samples, env.summary, env.faults);
    SameArchive(env, archived, dir.files);
    r := if ok then Some(result) else None;
    if Clocked(env.start, Trace(env)) {
      MonitorIffProven(env);
    }
  }

  lemma SucceedsOrRetried(env: Env, files: Contents)
    requires Succeeds(env, files)
    ensures !MayBeRetried(env, files)
  {
    hide MonitorConverges, LoopTransient, FinaliseFails, Clears;
    ConvergingIsNotTransient(env);
  }

  lemma SameArchive(env: Env, files: Contents, files': Contents)
    requires (LOG in files <==> LOG in files') && (LOG in files ==> files[LOG] == files'[LOG])
    ensures ArchivedIn(env, files) <==> ArchivedIn(env, files')
  {
  }

  // ----- the retry loop -----

  datatype Outcome = Escaped | CleanupFailed | ArtifactFailed | NotConverged | EmptyGraph | Unverified | Passed

  /** The last of the converged results. */
  predicate LastConverged(results: seq<SyncResult>, i: nat)
    reads results
  {
    i < |results| && results[i].converged && forall j :: i < j < |results| ==> !results[j].converged
  }

  /** The assertions after the loop, in order. */
  method Judge(results: seq<SyncResult>, expectedSet: bool) returns (outcome: Outcome)
    ensures outcome == CleanupFailed <==> exists i :: 0 <= i < |results| && results[i].cleanupFailure != []
    ensures outcome == ArtifactFailed <==>
      (forall i :: 0 <= i < |results| ==> results[i].cleanupFailure == []) && exists i :: 0 <= i < |results| && results[i].artifactFailure != []
    ensures outcome !in {CleanupFailed, ArtifactFailed} ==>
      (outcome == NotConverged <==> forall i :: 0 <= i < |results| ==> !results[i].converged)
    ensures outcome in {EmptyGraph, Unverified, Passed} ==> exists i: nat ::
      LastConverged(results, i) && outcome == (
        if results[i].nodeCount == 0 || results[i].channelCount == 0 then EmptyGraph
        else if expectedSet && !results[i].commitVerified then Unverified else Passed)
    ensures outcome != Escaped
  {
    if exists i :: 0 <= i < |results| && results[i].cleanupFailure != [] {
      return CleanupFailed;
    }
    if exists i :: 0 <= i < |results| && results[i].artifactFailure != [] {
      return ArtifactFailed;
    }
    var i := |results|;
    while i > 0 && !results[i - 1].converged
      invariant 0 <= i <= |results|
      invariant forall j :: i <= j < |results| ==> !results[j].converged
    {
      i := i - 1;
    }
    if i == 0 {
      return NotConverged;
    }
    assert LastConverged(results, i - 1);
    var best := results[i - 1];
    if best.nodeCount == 0 || best.channelCount == 0 {
      return EmptyGraph;
    }
    if expectedSet && !best.commitVerified {
      return Unverified;
    }
    return Passed;
  }

  /** What the test comes to: an attempt converges, the second only after a first that may be retried. */
  ghost predicate TestPasses(envs: seq<Env>, files: seq<Contents>)
    requires 1 <= |envs| <= 2 && |files| == |envs|
  {
    && ResultsInstall(envs[0].faults)
    && (Succeeds(envs[0], files[0]) || (
          && |envs| == 2 && MayBeRetried(envs[0], files[0])
          && ResultsInstall(envs[1].faults) && Succeeds(envs[1], files[1])))
  }

  /** What an attempt that is not followed by another makes of the test. */
  ghost function OutcomeOf(env: Env, before: Contents): Outcome {
    if !ResultsInstall(env.faults) then Escaped
    else if Clears(before, env.faults) && EndsUnclean(env) then CleanupFailed
    else if Clears(before, env.faults) && LosesArtifact(env) then ArtifactFailed
    else if Succeeds(env, before) then Passed
    else NotConverged
  }

  /** What one attempt returned, from its environment and from what its directory held before. */
  ghost predicate ResultOf(env: Env, before: Contents, r: SyncResult)
    reads r
  {
    && (r.converged <==> Succeeds(env, before))
    && (r.retryable == Some(true) <==> MayBeRetried(env, before))
    && (r.converged || r.retryable.Some?)
    && (r.converged || r.retryable == Some(true) ==> r.Clean())
    && (r.cleanupFailure == [] <==> !(Clears(before, env.faults) && EndsUnclean(env)))
    && (r.artifactFailure == [] <==> !(Clears(before, env.faults) && LosesArtifact(env)))
    && (r.converged ==> r.commitVerified == env.expectedSet && r.nodeCount > 0 && r.channelCount > 0 && r.retryable == None)
  }

  /** One attempt of the loop. */
  method OneAttempt(env: Env, dir: ReportDir) returns (r: Option<SyncResult>)
    modifies dir
    ensures r.Some? <==> ResultsInstall(env.faults)
    ensures r.Some? ==> fresh(r.value) && ResultOf(env, old(dir.files), r.value)
  {
    hide Shows, Tells, Succeeds, MayBeRetried, EndsUnclean, LosesArtifact, ProvenStable, StaleSummaryStays, StaleLogStays, Clears, ArchivedIn, ArchivesLog,
      SamplesInstall, ResultsInstall, Clocked, HasNode;
    var hasNode, cleanRun;
    r, hasNode, cleanRun := RunAttempt(env, dir);
    if Succeeds(env, old(dir.files)) {
      SucceedsOrRetried(env, old(dir.files));
    }
    if MayBeRetried(env, old(dir.files)) {
      RetriedEnds(env, old(dir.files));
    }
  }

  lemma RetriedEnds(env: Env, files: Contents)
    requires MayBeRetried(env, files)
    ensures !EndFails(env)
  {
    hide Transient, Clears, EndsUnclean, LosesArtifact;
  }

  /** The loop of `test_daily_graph_sync`: at most two attempts, each in its own directory. */
  method RunAttempts(envs: seq<Env>, dirs: seq<ReportDir>, ghost files: seq<Contents>)
    returns (escaped: bool, results: seq<SyncResult>)
    requires 1 <= |envs| && |dirs| == |envs|
    requires forall i, j :: 0 <= i < j < |dirs| ==> dirs[i] != dirs[j]
    requires |files| == |dirs| && forall i :: 0 <= i < |dirs| ==> files[i] == dirs[i].files
    modifies dirs
    ensures |results| <= |envs|
    ensures forall i :: 0 <= i < |results| ==> ResultsInstall(envs[i].faults) && ResultOf(envs[i], files[i], results[i])
    ensures forall i :: 0 <= i < |results| - 1 ==> MayBeRetried(envs[i], files[i])
    ensures escaped ==> |results| < |envs| && !ResultsInstall(envs[|results|].faults)
    ensures escaped && results != [] ==> MayBeRetried(envs[|results| - 1], files[|results| - 1])
    ensures !escaped ==> results != []
    ensures !escaped && |results| < |envs| ==> !MayBeRetried(envs[|results| - 1], files[|results| - 1])
  {
    hide Succeeds, MayBeRetried, ResultsInstall;
    results := [];
    for i := 0 to |envs|
      invariant |results| == i
      invariant forall r :: r in results ==> fresh(r)
      invariant forall j :: i <= j < |dirs| ==> dirs[j].files == files[j]
      invariant forall j :: 0 <= j < i ==> ResultsInstall(envs[j].faults) && ResultOf(envs[j], files[j], results[j])
      invariant forall j :: 0 <= j < i ==> MayBeRetried(envs[j], files[j])
    {
      var r := OneAttempt(envs[i], dirs[i]);
      if r.None? {
        return true, results;
      }
      var result := r.value;
      results := results + [result];
      if result.cleanupFailure != [] || result.artifactFailure != [] {
        break;
      }
      if result.converged {
        break;
      }
      if result.retryable == Some(false) {
        break;
      }
      assert result.retryable.Some? && result.retryable.value;
      assert MayBeRetried(envs[i], files[i]);
    }
    return false, results;
  }

  /** `test_daily_graph_sync`. */
  method RunDaily(envs: seq<Env>, dirs: seq<ReportDir>, expectedSet: bool, ghost files: seq<Contents>)
    returns (outcome: Outcome, results: seq<SyncResult>)
    requires 1 <= |envs| <= 2 && |dirs| == |envs|
    requires forall i, j :: 0 <= i < j < |dirs| ==> dirs[i] != dirs[j]
    requires forall i :: 0 <= i < |envs| ==> envs[i].expectedSet == expectedSet
    requires |files| == |dirs| && forall i :: 0 <= i < |dirs| ==> files[i] == dirs[i].files
    modifies dirs
    // the outcome is decided by the environments and by what the directories held before
    ensures outcome == Passed <==> TestPasses(envs, files)
    ensures outcome ==
      if |envs| == 2 && ResultsInstall(envs[0].faults) && MayBeRetried(envs[0], files[0])
      then OutcomeOf(envs[1], files[1]) else OutcomeOf(envs[0], files[0])
    // a second attempt follows exactly a first one that may be retried
    ensures |results| <= |envs|
    ensures outcome != Escaped ==> results != [] && (|envs| == 2 ==> (|results| == 2 <==> MayBeRetried(envs[0], files[0])))
    ensures forall i :: 0 <= i < |results| ==> ResultOf(envs[i], files[i], results[i])
    ensures outcome == Escaped ==> |results| < |envs| && !ResultsInstall(envs[|results|].faults)
    // the assertions on the graph and on the binary cannot fail
    ensures outcome !in {EmptyGraph, Unverified}
    ensures outcome == Passed ==> forall r :: r in results ==> r.Clean()
  {
    hide Succeeds, MayBeRetried, ResultsInstall;
    var escaped;
    escaped, results := RunAttempts(envs, dirs, files);
    if escaped {
      outcome := Escaped;
    } else {
      outcome := Judge(results, expectedSet);
    }
  }
}

/** The second sampler: many targets, event counters and a stability verdict for each. */
module Sampler {
  import opened Wrappers

  datatype Rpc = GraphChannels | GraphNodes | ListPeers | NodeInfo

  const RPCS: set<Rpc> := {GraphChannels, GraphNodes, ListPeers, NodeInfo}

  /** One diagnostic snapshot; a failed call leaves an error and an empty result. */
  datatype Snapshot = Snapshot(
    channels: nat, nodes: nat, seconds: map<Rpc, real>, errors: set<Rpc>)

  /** A snapshot and the time at which it was complete. */
  datatype Poll = Poll(snapshot: Snapshot, finished: real)

  datatype Stats = Stats(calls: nat, errors: nat, total: real, max: real)

  datatype Reason = GraphStable | MaxDurationReached

  datatype Summary = Summary(
    reason: Reason, channelsDelta: int, channelsAdded: nat, channelsRemoved: nat,
    nodesDelta: int, nodesAdded: nat, nodesRemoved: nat,
    changes: nat, growths: nat, regressions: nat, failures: nat,
    lastChangeElapsed: real, stableFor: real, samples: nat, rpc: map<Rpc, (nat, nat, real, real)>)

  /** The state kept for one target; `first` and `last` are (channels, nodes). */
  datatype Target = Target(
    first: Option<(nat, nat)>, last: Option<(nat, nat)>, lastChangeAt: real,
    changes: nat, growths: nat, regressions: nat,
    channelsAdded: nat, channelsRemoved: nat, nodesAdded: nat, nodesRemoved: nat,
    failures: nat, samples: nat,
    rpc: map<Rpc, Stats>, summary: Option<Summary>)

  function NewTarget(start: real): Target {
    Target(None, None, start, 0, 0, 0, 0, 0, 0, 0, 0, 0,
           map r | r in RPCS :: Stats(0, 0, 0.0, 0.0), None)
  }

  function Larger(a: real, b: real): real {
    if a < b then b else a
  }

  function Positive(n: int): nat {
    if n < 0 then 0 else n
  }

  function UpdatedStats(st: Stats, r: Rpc, s: Snapshot): Stats {
    if r !in s.seconds then st
    else Stats(st.calls + 1, st.errors + (if r in s.errors then 1 else 0), st.total + s.seconds[r], Larger(st.max, s.seconds[r]))
  }

  /** `_update_rpc_stats`. */
  function UpdatedRpc(rpc: map<Rpc, Stats>, s: Snapshot): map<Rpc, Stats> {
    map r | r in rpc :: UpdatedStats(rpc[r], r, s)
  }

  predicate CoreFailed(s: Snapshot) {
    GraphChannels in s.errors || GraphNodes in s.errors
  }

  /** The counters of one successful snapshot. */
  function Counted(t: Target, p: Poll): Target {
    var s, count := p.snapshot, (p.snapshot.channels, p.snapshot.nodes);
    match t.last
    case None => t.(first := Some(count), lastChangeAt := p.finished)
    case Some(previous) =>
      var dc, dn := s.channels - previous.0, s.nodes - previous.1;
      if dc == 0 && dn == 0 then t
      else
        t.(lastChangeAt := p.finished,
           changes := t.changes + 1,
           growths := t.growths + (if dc > 0 || dn > 0 then 1 else 0),
           regressions := t.regressions + (if dc < 0 || dn < 0 then 1 else 0),
           channelsAdded := t.channelsAdded + Positive(dc), channelsRemoved := t.channelsRemoved + Positive(-dc),
           nodesAdded := t.nodesAdded + Positive(dn), nodesRemoved := t.nodesRemoved + Positive(-dn))
  }

  function Sampled(t: Target, p: Poll): Target {
    var c, s := Counted(t, p), p.snapshot;
    c.(last := Some((s.channels, s.nodes)), samples := t.samples + 1)
  }

  function FinalStats(st: Stats): (nat, nat, real, real) {
    (st.calls, st.errors, if st.calls == 0 then 0.0 else st.total / st.calls as real, st.max)
  }

  function Or0(c: Option<(nat, nat)>): (nat, nat) {
    if c.Some? then c.value else (0, 0)
  }

  /** `_build_summary`. */
  function BuildSummary(t: Target, now: real, start: real, reason: Reason): Summary {
    var first, final := Or0(t.first), Or0(t.last);
    Summary(reason, final.0 - first.0, t.channelsAdded, t.channelsRemoved,
            final.1 - first.1, t.nodesAdded, t.nodesRemoved,
            t.changes, t.growths, t.regressions, t.failures,
            Larger(0.0, t.lastChangeAt - start), Larger(0.0, now - t.lastChangeAt), t.samples,
            map r | r in t.rpc :: FinalStats(t.rpc[r]))
  }

  /** One poll of a target that is not done. */
  function Polled(t: Target, p: Poll, start: real, stableSeconds: real): Target {
    var u := t.(rpc := UpdatedRpc(t.rpc, p.snapshot), failures := t.failures + (if p.snapshot.errors != {} then 1 else 0));
    if CoreFailed(p.snapshot) then u
    else
      var v := Sampled(u, p);
      if p.finished - v.lastChangeAt >= stableSeconds then v.(summary := Some(BuildSummary(v, p.finished, start, GraphStable)))
      else v
  }

  /** A target after `k` rounds; once it has a summary it is left alone. */
  function AfterRounds(polls: nat -> Poll, start: real, stableSeconds: real, k: nat): Target {
    if k == 0 then NewTarget(start)
    else
      var t := AfterRounds(polls, start, stableSeconds, k - 1);
      if t.summary.Some? then t else Polled(t, polls(k - 1), start, stableSeconds)
  }

  function Final(t: Target, now: real, start: real): Summary {
    if t.summary.Some? then t.summary.value else BuildSummary(t, now, start, MaxDurationReached)
  }

  /** Every target has its summary after `k` rounds. */
  predicate AllStable(labels: seq<string>, polls: string -> nat -> Poll, start: real, stableSeconds: real, k: nat) {
    forall l :: l in labels ==> AfterRounds(polls(l), start, stableSeconds, k).summary.Some?
  }

  /** Round `k` was not the last: some target was not stable after it, and there was time left. */
  predicate GoesOn(labels: seq<string>, polls: string -> nat -> Poll, clock: nat -> real,
                   start: real, stableSeconds: real, maxDuration: real, k: nat) {
    !AllStable(labels, polls, start, stableSeconds, k + 1) && clock(k) < start + maxDuration
  }

  predicate AllDone(labels: seq<string>, states: map<string, Target>)
    requires forall l :: l in labels ==> l in states
  {
    forall l :: l in labels ==> states[l].summary.Some?
  }

  /** `sample_nodes_graph_sync_until_stable`. `polls(label)` are the snapshots of a target, `clock`
      the time at the end of each round; the clock reaches the deadline at some round. */
  method SampleUntilStable(labels: seq<string>, polls: string -> nat -> Poll, clock: nat -> real,
                           start: real, stableSeconds: real, maxDuration: real, ghost last: nat)
    returns (result: map<string, Summary>, ghost rounds: nat)
    requires clock(last) >= start + maxDuration
    ensures result.Keys == set l | l in labels
    ensures rounds > 0
    ensures forall l :: l in labels ==>
      result[l] == Final(AfterRounds(polls(l), start, stableSeconds, rounds), clock(rounds - 1), start)
    // it stops after the first round in which all targets are stable or the deadline is reached
    ensures AllStable(labels, polls, start, stableSeconds, rounds) || clock(rounds - 1) >= start + maxDuration
    ensures forall j: nat :: j < rounds - 1 ==> GoesOn(labels, polls, clock, start, stableSeconds, maxDuration, j)
  {
    hide AfterRounds, Final, AllStable, AllDone;
    var deadline := start + maxDuration;
    forall l | l in labels {
      NoRounds(polls(l), start, stableSeconds);
    }
    var states: map<string, Target> := map l | l in labels :: NewTarget(start);
    var k := 0;
    while true
      invariant k <= last
      invariant states.Keys == set l | l in labels
      invariant forall l :: l in labels ==> states[l] == AfterRounds(polls(l), start, stableSeconds, k)
      invariant forall j: nat :: j < k ==> GoesOn(labels, polls, clock, start, stableSeconds, maxDuration, j)
      decreases last - k
    {
      states := PollRound(labels, states, polls, start, stableSeconds, k);
      var allDone := AllDone(labels, states);
      StatesStable(labels, polls, start, stableSeconds, k + 1, states);
      if allDone {
        break;
      }
      if clock(k) >= deadline {
        break;
      }
      k := k + 1;
    }
    rounds := k + 1;
    var now := clock(k);
    result := map l | l in labels :: Final(states[l], now, start);
  }

  lemma StatesStable(labels: seq<string>, polls: string -> nat -> Poll, start: real, stableSeconds: real, k: nat,
                     states: map<string, Target>)
    requires forall l :: l in labels ==> l in states && states[l] == AfterRounds(polls(l), start, stableSeconds, k)
    ensures AllStable(labels, polls, start, stableSeconds, k) <==> AllDone(labels, states)
  {
    hide AfterRounds;
  }

  lemma NoRounds(polls: nat -> Poll, start: real, stableSeconds: real)
    ensures AfterRounds(polls, start, stableSeconds, 0) == NewTarget(start)
  {
  }

  /** One pass over the targets; a label that occurs twice is one target. */
  method PollRound(labels: seq<string>, before: map<string, Target>, polls: string -> nat -> Poll,
                   start: real, stableSeconds: real, k: nat)
    returns (states: map<string, Target>)
    requires before.Keys == set l | l in labels
    requires forall l :: l in labels ==> before[l] == AfterRounds(polls(l), start, stableSeconds, k)
    ensures states.Keys == before.Keys
    ensures forall l :: l in labels ==> states[l] == AfterRounds(polls(l), start, stableSeconds, k + 1)
  {
    hide Polled;
    states := before;
    for i := 0 to |labels|
      invariant states.Keys == before.Keys
      invariant forall l :: l in labels ==>
        states[l] == if l in labels[..i] then AfterRounds(polls(l), start, stableSeconds, k + 1) else before[l]
    {
      var name := labels[i];
      if name !in labels[..i] && states[name].summary.None? {
        states := states[name := Polled(states[name], polls(name)(k), start, stableSeconds)];
      }
      assert labels[..i + 1] == labels[..i] + [name];
    }
    assert labels[..|labels|] == labels;
  }

  // ----- the counters of one target over all its polls -----

  ghost predicate Conserves(t: Target) {
    && (t.first.None? <==> t.last.None?)
    && Or0(t.last).0 - Or0(t.first).0 == t.channelsAdded - t.channelsRemoved
    && Or0(t.last).1 - Or0(t.first).1 == t.nodesAdded - t.nodesRemoved
    && t.growths <= t.changes && t.regressions <= t.changes && t.changes <= t.growths + t.regressions
  }

  lemma PollConserves(t: Target, p: Poll, start: real, stableSeconds: real)
    requires Conserves(t)
    ensures Conserves(Polled(t, p, start, stableSeconds))
  {
    hide BuildSummary, UpdatedRpc;
  }

  /** Whatever the polls: what was added minus what was removed is the difference of the counts,
      and growths and regressions together account for every change. */
  lemma {:induction false} CountersConserve(polls: nat -> Poll, start: real, stableSeconds: real, k: nat)
    ensures Conserves(AfterRounds(polls, start, stableSeconds, k))
  {
    hide Polled;
    if k > 0 {
      CountersConserve(polls, start, stableSeconds, k - 1);
      PollConserves(AfterRounds(polls, start, stableSeconds, k - 1), polls(k - 1), start, stableSeconds);
    }
  }

  predicate Balanced(s: Summary) {
    && s.channelsDelta == s.channelsAdded - s.channelsRemoved
    && s.nodesDelta == s.nodesAdded - s.nodesRemoved
    && s.growths <= s.changes && s.regressions <= s.changes && s.changes <= s.growths + s.regressions
  }

  lemma SummaryOfConserved(t: Target, now: real, start: real, reason: Reason)
    requires Conserves(t)
    ensures Balanced(BuildSummary(t, now, start, reason))
  {
  }

  lemma PollSummary(t: Target, p: Poll, start: real, stableSeconds: real)
    requires Conserves(t) && t.summary.None?
    ensures var u := Polled(t, p, start, stableSeconds); u.summary.Some? ==> Balanced(u.summary.value)
  {
    hide UpdatedRpc;
  }

  /** So in every summary, whenever and for whatever reason it was made. */
  lemma {:induction false} SummaryConserves(polls: nat -> Poll, start: real, stableSeconds: real, k: nat, now: real)
    ensures Balanced(Final(AfterRounds(polls, start, stableSeconds, k), now, start))
  {
    hide Polled, Balanced, BuildSummary;
    var t := AfterRounds(polls, start, stableSeconds, k);
    CountersConserve(polls, start, stableSeconds, k);
    SummaryOfConserved(t, now, start, MaxDurationReached);
    if k > 0 {
      SummaryConserves(polls, start, stableSeconds, k - 1, now);
      CountersConserve(polls, start, stableSeconds, k - 1);
      var before := AfterRounds(polls, start, stableSeconds, k - 1);
      if before.summary.None? {
        PollSummary(before, polls(k - 1), start, stableSeconds);
      }
    }
  }

  ghost function Seconds(polls: nat -> Poll, k: nat, r: Rpc): real
    requires Timed(polls) && r in RPCS
  {
    polls(k).snapshot.seconds[r]
  }

  /** Snapshots time all four calls. */
  ghost predicate Timed(polls: nat -> Poll) {
    forall k :: polls(k).snapshot.seconds.Keys == RPCS
  }

  lemma PollCalls(t: Target, p: Poll, start: real, stableSeconds: real, r: Rpc)
    requires t.rpc.Keys == RPCS && p.snapshot.seconds.Keys == RPCS && r in RPCS
    ensures var u := Polled(t, p, start, stableSeconds);
      && u.rpc.Keys == RPCS
      && u.rpc[r].calls == t.rpc[r].calls + 1
      && u.rpc[r].errors == t.rpc[r].errors + (if r in p.snapshot.errors then 1 else 0)
      && u.rpc[r].total == t.rpc[r].total + p.snapshot.seconds[r]
      && u.rpc[r].max == Larger(t.rpc[r].max, p.snapshot.seconds[r])
      && u.samples == t.samples + (if CoreFailed(p.snapshot) then 0 else 1)
  {
    hide BuildSummary;
    assert UpdatedRpc(t.rpc, p.snapshot).Keys == RPCS;
  }

  ghost predicate Slowest(max: real, polls: nat -> Poll, k: nat, r: Rpc)
    requires Timed(polls) && r in RPCS
  {
    && (forall j: nat :: j < k ==> Seconds(polls, j, r) <= max)
    && (max == 0.0 || exists j: nat :: j < k && Seconds(polls, j, r) == max)
  }

  lemma SlowestStep(max: real, polls: nat -> Poll, k: nat, r: Rpc)
    requires Timed(polls) && r in RPCS && Slowest(max, polls, k, r)
    ensures Slowest(Larger(max, Seconds(polls, k, r)), polls, k + 1, r)
  {
    hide Seconds;
    if max != 0.0 {
      var j: nat :| j < k && Seconds(polls, j, r) == max;
      assert j < k + 1;
    }
  }

  /** The slowest call of each kind is on record, and no time that was not taken. */
  lemma {:induction false} SlowestKept(polls: nat -> Poll, start: real, stableSeconds: real, k: nat, r: Rpc)
    requires Timed(polls) && r in RPCS
    requires k > 0 ==> AfterRounds(polls, start, stableSeconds, k - 1).summary.None?
    ensures var t := AfterRounds(polls, start, stableSeconds, k);
      t.rpc.Keys == RPCS && Slowest(t.rpc[r].max, polls, k, r)
  {
    hide Polled, Seconds, Slowest, AfterRounds, Timed;
    if k == 0 {
      NoRounds(polls, start, stableSeconds);
      NoneSlowest(polls, r);
    } else {
      NextRound(polls, start, stableSeconds, k - 1);
      NotDoneBefore(polls, start, stableSeconds, k - 1);
      SlowestKept(polls, start, stableSeconds, k - 1, r);
      var before := AfterRounds(polls, start, stableSeconds, k - 1);
      MaxOfPoll(before, polls, start, stableSeconds, k - 1, r);
      SlowestStep(before.rpc[r].max, polls, k - 1, r);
    }
  }

  lemma NextRound(polls: nat -> Poll, start: real, stableSeconds: real, k: nat)
    requires AfterRounds(polls, start, stableSeconds, k).summary.None?
    ensures AfterRounds(polls, start, stableSeconds, k + 1) ==
      Polled(AfterRounds(polls, start, stableSeconds, k), polls(k), start, stableSeconds)
  {
    hide Polled;
  }

  lemma NoneSlowest(polls: nat -> Poll, r: Rpc)
    requires Timed(polls) && r in RPCS
    ensures Slowest(0.0, polls, 0, r)
  {
  }

  lemma MaxOfPoll(t: Target, polls: nat -> Poll, start: real, stableSeconds: real, k: nat, r: Rpc)
    requires Timed(polls) && r in RPCS && t.rpc.Keys == RPCS
    ensures var u := Polled(t, polls(k), start, stableSeconds);
      u.rpc.Keys == RPCS && u.rpc[r].max == Larger(t.rpc[r].max, Seconds(polls, k, r))
  {
    PollCalls(t, polls(k), start, stableSeconds, r);
  }

  // ----- the stability verdict -----

  /** Poll `k` gave a sample: both graph calls succeeded. */
  predicate Good(polls: nat -> Poll, k: nat) {
    GraphChannels !in polls(k).snapshot.errors && GraphNodes !in polls(k).snapshot.errors
  }

  function CountsAt(polls: nat -> Poll, k: nat): (nat, nat) {
    (polls(k).snapshot.channels, polls(k).snapshot.nodes)
  }

  /** From successful sample `i` to successful sample `k` every successful sample had the same
      counts, for at least the required time. Failed polls in between are not counted against it. */
  ghost predicate SteadySpan(polls: nat -> Poll, i: nat, k: nat, stableSeconds: real) {
    && i <= k && Good(polls, i) && Good(polls, k)
    && (forall j: nat :: i <= j <= k && Good(polls, j) ==> CountsAt(polls, j) == CountsAt(polls, k))
    && polls(k).finished - polls(i).finished >= stableSeconds
  }

  ghost predicate InOrder(polls: nat -> Poll) {
    forall j: nat, k: nat :: j < k ==> polls(j).finished <= polls(k).finished
  }

  /** `i` is the sample at which the counts took their present value. */
  ghost predicate ChangedAt(t: Target, polls: nat -> Poll, k: nat, i: nat) {
    match t.last
    case None => forall j: nat :: j < k ==> !Good(polls, j)
    case Some(count) => (
      && i < k && Good(polls, i) && t.lastChangeAt == polls(i).finished
      && (forall j: nat :: i <= j < k && Good(polls, j) ==> CountsAt(polls, j) == count)
      // an earlier sample with the present counts is separated from it by another value
      && (forall j: nat :: j < i && Good(polls, j) ==> exists m: nat :: j <= m < i && Good(polls, m) && CountsAt(polls, m) != count))
  }

  lemma PollChange(t: Target, p: Poll, start: real, stableSeconds: real)
    ensures var u := Polled(t, p, start, stableSeconds);
      if CoreFailed(p.snapshot) then
        u.last == t.last && u.lastChangeAt == t.lastChangeAt && u.summary == t.summary
      else
        && u.last == Some((p.snapshot.channels, p.snapshot.nodes))
        && u.lastChangeAt == (if t.last == u.last then t.lastChangeAt else p.finished)
        && (t.summary.None? ==> (u.summary.Some? <==> p.finished - u.lastChangeAt >= stableSeconds))
        && (t.summary.None? && u.summary.Some? ==> u.summary.value.reason == GraphStable)
  {
    hide UpdatedRpc;
  }

  lemma {:induction false} ChangeTracked(polls: nat -> Poll, start: real, stableSeconds: real, k: nat) returns (i: nat)
    requires k > 0 ==> AfterRounds(polls, start, stableSeconds, k - 1).summary.None?
    ensures ChangedAt(AfterRounds(polls, start, stableSeconds, k), polls, k, i)
  {
    hide AfterRounds;
    i := 0;
    if k == 0 {
      NoRounds(polls, start, stableSeconds);
    } else {
      NotDoneBefore(polls, start, stableSeconds, k - 1);
      i := ChangeTracked(polls, start, stableSeconds, k - 1);
      NextRound(polls, start, stableSeconds, k - 1);
      i := TrackPoll(AfterRounds(polls, start, stableSeconds, k - 1), polls, start, stableSeconds, k - 1, i);
    }
  }

  lemma TrackPoll(t: Target, polls: nat -> Poll, start: real, stableSeconds: real, k: nat, i: nat) returns (i': nat)
    requires ChangedAt(t, polls, k, i)
    ensures ChangedAt(Polled(t, polls(k), start, stableSeconds), polls, k + 1, i')
  {
    hide Polled, ChangedAt, Good, CoreFailed;
    var u := Polled(t, polls(k), start, stableSeconds);
    PollChange(t, polls(k), start, stableSeconds);
    GoodIff(polls, k);
    if Good(polls, k) && t.last != Some(CountsAt(polls, k)) {
      NewChange(t, u, polls, k, i);
      i' := k;
    } else {
      i' := i;
      SameValue(t, u, polls, k, i);
    }
  }

  lemma GoodIff(polls: nat -> Poll, k: nat)
    ensures Good(polls, k) <==> !CoreFailed(polls(k).snapshot)
  {
  }

  lemma NewChange(t: Target, u: Target, polls: nat -> Poll, k: nat, i: nat)
    requires ChangedAt(t, polls, k, i) && Good(polls, k) && t.last != Some(CountsAt(polls, k))
    requires u.last == Some(CountsAt(polls, k)) && u.lastChangeAt == polls(k).finished
    ensures ChangedAt(u, polls, k + 1, k)
  {
    hide Good, CountsAt, ChangedAt;
    NewValue(t, polls, k, i);
    ChangedNow(u, polls, k);
  }

  lemma ChangedNow(u: Target, polls: nat -> Poll, k: nat)
    requires Good(polls, k) && u.last == Some(CountsAt(polls, k)) && u.lastChangeAt == polls(k).finished
    requires forall j: nat :: j < k && Good(polls, j) ==>
      exists m: nat :: j <= m < k && Good(polls, m) && CountsAt(polls, m) != CountsAt(polls, k)
    ensures ChangedAt(u, polls, k + 1, k)
  {
    hide Good, CountsAt;
  }

  lemma SameValue(t: Target, u: Target, polls: nat -> Poll, k: nat, i: nat)
    requires ChangedAt(t, polls, k, i)
    requires if Good(polls, k) then t.last == u.last == Some(CountsAt(polls, k)) else u.last == t.last
    requires u.lastChangeAt == t.lastChangeAt
    ensures ChangedAt(u, polls, k + 1, i)
  {
    hide Good, CountsAt;
  }

  /** A sample with a new value: all earlier samples are cut off by the last one before it. */
  lemma NewValue(t: Target, polls: nat -> Poll, k: nat, i: nat)
    requires ChangedAt(t, polls, k, i) && Good(polls, k) && t.last != Some(CountsAt(polls, k))
    ensures Good(polls, k) && CountsAt(polls, k) == (polls(k).snapshot.channels, polls(k).snapshot.nodes)
    ensures forall j: nat :: j < k && Good(polls, j) ==>
      exists m: nat :: j <= m < k && Good(polls, m) && CountsAt(polls, m) != CountsAt(polls, k)
  {
    hide Good;
    forall j: nat | j < k && Good(polls, j)
      ensures exists m: nat :: j <= m < k && Good(polls, m) && CountsAt(polls, m) != CountsAt(polls, k)
    {
      var m := if i <= j then j else i;
      assert Good(polls, m) && CountsAt(polls, m) == t.last.value;
    }
  }

  lemma {:induction false} NotDoneBefore(polls: nat -> Poll, start: real, stableSeconds: real, k: nat)
    requires AfterRounds(polls, start, stableSeconds, k).summary.None?
    ensures k > 0 ==> AfterRounds(polls, start, stableSeconds, k - 1).summary.None?
  {
  }

  lemma SpanAfterChange(t: Target, polls: nat -> Poll, k: nat, c: nat, i: nat, stableSeconds: real)
    requires ChangedAt(t, polls, k + 1, c) && t.last == Some(CountsAt(polls, k)) && SteadySpan(polls, i, k, stableSeconds)
    ensures c <= i
  {
    hide Good, CountsAt;
  }

  /** A target that is still being polled is declared stable at poll `k` exactly when some span of
      samples ending there was steady for the required time. */
  lemma StableIffSteady(polls: nat -> Poll, start: real, stableSeconds: real, k: nat)
    requires AfterRounds(polls, start, stableSeconds, k).summary.None? && InOrder(polls)
    ensures AfterRounds(polls, start, stableSeconds, k + 1).summary.Some? <==>
      exists i: nat :: SteadySpan(polls, i, k, stableSeconds)
    ensures AfterRounds(polls, start, stableSeconds, k + 1).summary.Some? ==>
      AfterRounds(polls, start, stableSeconds, k + 1).summary.value.reason == GraphStable
  {
    hide Polled;
    var t, u := AfterRounds(polls, start, stableSeconds, k), AfterRounds(polls, start, stableSeconds, k + 1);
    PollChange(t, polls(k), start, stableSeconds);
    var c := ChangeTracked(polls, start, stableSeconds, k + 1);
    if Good(polls, k) && u.summary.Some? {
      assert SteadySpan(polls, c, k, stableSeconds);
    }
    if i: nat :| SteadySpan(polls, i, k, stableSeconds) {
      SpanAfterChange(u, polls, k, c, i, stableSeconds);
      assert c < i ==> polls(c).finished <= polls(i).finished;
    }
  }

  // ----- what a summary tells about the polls -----

  type Count = (nat, nat)

  /** The counts of the successful ones among the first `d` polls, in order. */
  function Successes(polls: nat -> Poll, d: nat): seq<Count> {
    if d == 0 then []
    else Successes(polls, d - 1) + (if Good(polls, d - 1) then [CountsAt(polls, d - 1)] else [])
  }

  /** The sum of a reading over neighbours in a list. */
  function OverPairs(xs: seq<Count>, reading: (Count, Count) -> nat): nat {
    if |xs| < 2 then 0
    else OverPairs(xs[..|xs| - 1], reading) + reading(xs[|xs| - 2], xs[|xs| - 1])
  }

  function Differ(a: Count, b: Count): nat { if a != b then 1 else 0 }

  function Grew(a: Count, b: Count): nat { if a.0 < b.0 || a.1 < b.1 then 1 else 0 }

  function Shrank(a: Count, b: Count): nat { if a.0 > b.0 || a.1 > b.1 then 1 else 0 }

  function Rise(a: nat, b: nat): nat { if a < b then b - a else 0 }

  function ChannelRise(a: Count, b: Count): nat { Rise(a.0, b.0) }

  function ChannelFall(a: Count, b: Count): nat { Rise(b.0, a.0) }

  function NodeRise(a: Count, b: Count): nat { Rise(a.1, b.1) }

  function NodeFall(a: Count, b: Count): nat { Rise(b.1, a.1) }

  /** How many of the first `d` polls had a failed call. */
  function FailedPolls(polls: nat -> Poll, d: nat): nat {
    if d == 0 then 0 else FailedPolls(polls, d - 1) + (if |polls(d - 1).snapshot.errors| > 0 then 1 else 0)
  }

  /** When the counts last changed: at the successful poll that differed from the one before, or at
      the first one; the start, if there was none. */
  function LastChange(polls: nat -> Poll, d: nat, start: real): real {
    if d == 0 then start
    else
      var before := Successes(polls, d - 1);
      if Good(polls, d - 1) && (before == [] || before[|before| - 1] != CountsAt(polls, d - 1)) then polls(d - 1).finished
      else LastChange(polls, d - 1, start)
  }

  /** The counters after `d` polls are those of the successes among them. */
  ghost predicate Counts(t: Target, polls: nat -> Poll, d: nat, start: real) {
    var xs := Successes(polls, d);
    && t.samples == |xs|
    && t.first == (if xs == [] then None else Some(xs[0]))
    && t.last == (if xs == [] then None else Some(xs[|xs| - 1]))
    && t.changes == OverPairs(xs, Differ) && t.growths == OverPairs(xs, Grew) && t.regressions == OverPairs(xs, Shrank)
    && t.channelsAdded == OverPairs(xs, ChannelRise) && t.channelsRemoved == OverPairs(xs, ChannelFall)
    && t.nodesAdded == OverPairs(xs, NodeRise) && t.nodesRemoved == OverPairs(xs, NodeFall)
    && t.failures == FailedPolls(polls, d)
    && t.lastChangeAt == LastChange(polls, d, start)
  }

  lemma PairsSnoc(xs: seq<Count>, x: Count, reading: (Count, Count) -> nat)
    ensures OverPairs(xs + [x], reading) == OverPairs(xs, reading) + (if xs == [] then 0 else reading(xs[|xs| - 1], x))
  {
    assert (xs + [x])[..|xs|] == xs;
  }

  lemma NoErrors(s: Snapshot)
    ensures |s.errors| > 0 <==> s.errors != {}
  {
  }

  /** One poll, counter by counter. */
  lemma PollFields(t: Target, p: Poll, start: real, stableSeconds: real)
    ensures var u, x := Polled(t, p, start, stableSeconds), (p.snapshot.channels, p.snapshot.nodes);
      && u.failures == t.failures + (if |p.snapshot.errors| > 0 then 1 else 0)
      && (if CoreFailed(p.snapshot) then
            SameCounters(t, u) && u.first == t.first && u.last == t.last && u.samples == t.samples && u.lastChangeAt == t.lastChangeAt
          else if t.last.None? then
            SameCounters(t, u) && u.first == u.last == Some(x) && u.samples == t.samples + 1 && u.lastChangeAt == p.finished
          else
            && u.first == t.first && u.last == Some(x) && u.samples == t.samples + 1
            && u.lastChangeAt == (if t.last.value == x then t.lastChangeAt else p.finished)
            && u.changes == t.changes + Differ(t.last.value, x)
            && u.growths == t.growths + Grew(t.last.value, x) && u.regressions == t.regressions + Shrank(t.last.value, x)
            && u.channelsAdded == t.channelsAdded + ChannelRise(t.last.value, x)
            && u.channelsRemoved == t.channelsRemoved + ChannelFall(t.last.value, x)
            && u.nodesAdded == t.nodesAdded + NodeRise(t.last.value, x)
            && u.nodesRemoved == t.nodesRemoved + NodeFall(t.last.value, x))
  {
    hide BuildSummary, UpdatedRpc;
    NoErrors(p.snapshot);
  }

  predicate SameCounters(t: Target, u: Target) {
    && u.changes == t.changes && u.growths == t.growths && u.regressions == t.regressions
    && u.channelsAdded == t.channelsAdded && u.channelsRemoved == t.channelsRemoved
    && u.nodesAdded == t.nodesAdded && u.nodesRemoved == t.nodesRemoved
  }

  /** One poll of a target that is not done. */
  lemma PollCounts(t: Target, polls: nat -> Poll, d: nat, start: real, stableSeconds: real)
    requires Counts(t, polls, d, start)
    ensures Counts(Polled(t, polls(d), start, stableSeconds), polls, d + 1, start)
  {
    hide Polled, Differ, Grew, Shrank, ChannelRise, ChannelFall, NodeRise, NodeFall, OverPairs;
    var xs, x := Successes(polls, d), CountsAt(polls, d);
    PollFields(t, polls(d), start, stableSeconds);
    if Good(polls, d) {
      assert Successes(polls, d + 1) == xs + [x];
      PairsSnoc(xs, x, Differ);
      PairsSnoc(xs, x, Grew);
      PairsSnoc(xs, x, Shrank);
      PairsSnoc(xs, x, ChannelRise);
      PairsSnoc(xs, x, ChannelFall);
      PairsSnoc(xs, x, NodeRise);
      PairsSnoc(xs, x, NodeFall);
      OnePair(x);
      assert (xs + [x])[0] == if xs == [] then x else xs[0];
    } else {
      assert Successes(polls, d + 1) == xs;
    }
    var u := Polled(t, polls(d), start, stableSeconds);
    assert u.samples == |Successes(polls, d + 1)|;
    assert u.first == (if Successes(polls, d + 1) == [] then None else Some(Successes(polls, d + 1)[0]));
    assert u.last == (if Successes(polls, d + 1) == [] then None else Some(Successes(polls, d + 1)[|Successes(polls, d + 1)| - 1]));
    assert u.failures == FailedPolls(polls, d + 1);
    assert u.lastChangeAt == LastChange(polls, d + 1, start);
    assert u.changes == OverPairs(Successes(polls, d + 1), Differ);
  }

  lemma OnePair(x: Count)
    ensures forall reading: (Count, Count) -> nat :: OverPairs([x], reading) == 0
  {
  }

  lemma NoPolls(polls: nat -> Poll, start: real)
    ensures Counts(NewTarget(start), polls, 0, start)
  {
  }

  /** A target that was not done before round `k` has the counters of its first `k` polls. */
  lemma {:induction false} CountersAreOfPolls(polls: nat -> Poll, start: real, stableSeconds: real, k: nat)
    requires k > 0 ==> AfterRounds(polls, start, stableSeconds, k - 1).summary.None?
    ensures Counts(AfterRounds(polls, start, stableSeconds, k), polls, k, start)
  {
    hide AfterRounds, Polled, Counts;
    if k == 0 {
      NoRounds(polls, start, stableSeconds);
      NoPolls(polls, start);
    } else {
      NotDoneBefore(polls, start, stableSeconds, k - 1);
      CountersAreOfPolls(polls, start, stableSeconds, k - 1);
      NextRound(polls, start, stableSeconds, k - 1);
      PollCounts(AfterRounds(polls, start, stableSeconds, k - 1), polls, k - 1, start, stableSeconds);
    }
  }

  /** The time spent in one call over the first `d` polls, and its failures. */
  ghost function SecondsIn(polls: nat -> Poll, d: nat, r: Rpc): real
    requires Timed(polls) && r in RPCS
  {
    if d == 0 then 0.0 else SecondsIn(polls, d - 1, r) + Seconds(polls, d - 1, r)
  }

  function ErrorsIn(polls: nat -> Poll, d: nat, r: Rpc): nat {
    if d == 0 then 0 else ErrorsIn(polls, d - 1, r) + (if r in polls(d - 1).snapshot.errors then 1 else 0)
  }

  /** Everything a summary says, in terms of the first `d` polls of its target. */
  ghost predicate Tells(s: Summary, polls: nat -> Poll, d: nat, now: real, start: real)
    requires Timed(polls)
  {
    var xs, change := Successes(polls, d), LastChange(polls, d, start);
    && s.samples == |xs|
    && s.channelsDelta == (if xs == [] then 0 else xs[|xs| - 1].0 as int - xs[0].0)
    && s.nodesDelta == (if xs == [] then 0 else xs[|xs| - 1].1 as int - xs[0].1)
    && s.changes == OverPairs(xs, Differ) && s.growths == OverPairs(xs, Grew) && s.regressions == OverPairs(xs, Shrank)
    && s.channelsAdded == OverPairs(xs, ChannelRise) && s.channelsRemoved == OverPairs(xs, ChannelFall)
    && s.nodesAdded == OverPairs(xs, NodeRise) && s.nodesRemoved == OverPairs(xs, NodeFall)
    && s.failures == FailedPolls(polls, d)
    && s.lastChangeElapsed == (if change < start then 0.0 else change - start)
    && s.stableFor == (if now < change then 0.0 else now - change)
    && s.rpc.Keys == RPCS
    && forall r :: r in RPCS ==> TellsCall(s.rpc[r], polls, d, r)
  }

  /** Calls, failures, average and maximum of one call. */
  ghost predicate TellsCall(stats: (nat, nat, real, real), polls: nat -> Poll, d: nat, r: Rpc)
    requires Timed(polls) && r in RPCS
  {
    && stats.0 == d && stats.1 == ErrorsIn(polls, d, r)
    && (if d == 0 then stats.2 == 0.0 else stats.2 * d as real == SecondsIn(polls, d, r))
    && Slowest(stats.3, polls, d, r)
  }

  /** How many of the first `d` polls gave no sample because a graph call failed. */
  function CoreFailuresIn(polls: nat -> Poll, d: nat): nat {
    if d == 0 then 0 else CoreFailuresIn(polls, d - 1) + (if Good(polls, d - 1) then 0 else 1)
  }

  /** The calls on record are those of the first `d` polls. */
  ghost predicate CallsAre(t: Target, polls: nat -> Poll, d: nat, r: Rpc)
    requires Timed(polls) && r in RPCS
  {
    && t.rpc.Keys == RPCS
    && t.rpc[r].calls == d == t.samples + CoreFailuresIn(polls, d)
    && t.rpc[r].errors == ErrorsIn(polls, d, r)
    && t.rpc[r].total == SecondsIn(polls, d, r)
  }

  lemma NoCalls(polls: nat -> Poll, start: real, r: Rpc)
    requires Timed(polls) && r in RPCS
    ensures CallsAre(NewTarget(start), polls, 0, r)
  {
    assert NewTarget(start).rpc.Keys == RPCS;
  }

  lemma PollCallsAre(t: Target, polls: nat -> Poll, d: nat, start: real, stableSeconds: real, r: Rpc)
    requires Timed(polls) && r in RPCS && CallsAre(t, polls, d, r)
    ensures CallsAre(Polled(t, polls(d), start, stableSeconds), polls, d + 1, r)
  {
    hide Polled, Seconds, Timed;
    SecondsAt(polls, d, r);
    PollCalls(t, polls(d), start, stableSeconds, r);
  }

  lemma {:induction false} CallsOfPolls(polls: nat -> Poll, start: real, stableSeconds: real, k: nat, r: Rpc)
    requires Timed(polls) && r in RPCS
    requires k > 0 ==> AfterRounds(polls, start, stableSeconds, k - 1).summary.None?
    ensures CallsAre(AfterRounds(polls, start, stableSeconds, k), polls, k, r)
  {
    hide AfterRounds, Polled, CallsAre, Timed;
    if k == 0 {
      NoRounds(polls, start, stableSeconds);
      NoCalls(polls, start, r);
    } else {
      NotDoneBefore(polls, start, stableSeconds, k - 1);
      CallsOfPolls(polls, start, stableSeconds, k - 1, r);
      NextRound(polls, start, stableSeconds, k - 1);
      PollCallsAre(AfterRounds(polls, start, stableSeconds, k - 1), polls, k - 1, start, stableSeconds, r);
    }
  }

  lemma {:induction false} ErrorsBounded(polls: nat -> Poll, d: nat, r: Rpc)
    ensures ErrorsIn(polls, d, r) <= d
  {
    if d > 0 {
      ErrorsBounded(polls, d - 1, r);
    }
  }

  /** Each call was made once per poll: as often as there are samples and failed graph polls. */
  lemma CallsAccounted(polls: nat -> Poll, start: real, stableSeconds: real, k: nat, r: Rpc) returns (d: nat)
    requires Timed(polls) && r in RPCS
    ensures d <= k && (d > 0 ==> AfterRounds(polls, start, stableSeconds, d - 1).summary.None?)
    ensures d < k ==> AfterRounds(polls, start, stableSeconds, d).summary.Some?
    ensures CallsAre(AfterRounds(polls, start, stableSeconds, k), polls, d, r) && ErrorsIn(polls, d, r) <= d
  {
    hide AfterRounds, Polled, CallsAre, Timed;
    d := PollsMade(polls, start, stableSeconds, k);
    CallsOfPolls(polls, start, stableSeconds, d, r);
    ErrorsBounded(polls, d, r);
  }

  lemma SecondsAt(polls: nat -> Poll, k: nat, r: Rpc)
    requires Timed(polls) && r in RPCS
    ensures polls(k).snapshot.seconds.Keys == RPCS && Seconds(polls, k, r) == polls(k).snapshot.seconds[r]
  {
  }

  lemma Average(total: real, calls: nat)
    requires calls > 0
    ensures total / calls as real * calls as real == total
  {
  }

  lemma StatsTell(st: Stats, polls: nat -> Poll, d: nat, r: Rpc)
    requires Timed(polls) && r in RPCS
    requires st.calls == d && st.errors == ErrorsIn(polls, d, r) && st.total == SecondsIn(polls, d, r) && Slowest(st.max, polls, d, r)
    ensures TellsCall(FinalStats(st), polls, d, r)
  {
    hide Slowest, ErrorsIn, SecondsIn;
    if d > 0 {
      Average(st.total, st.calls);
    }
  }

  lemma BuiltTells(t: Target, polls: nat -> Poll, d: nat, now: real, start: real, reason: Reason)
    requires Timed(polls) && Counts(t, polls, d, start) && t.rpc.Keys == RPCS
    requires forall r :: r in RPCS ==> TellsCall(FinalStats(t.rpc[r]), polls, d, r)
    ensures Tells(BuildSummary(t, now, start, reason), polls, d, now, start)
  {
    hide TellsCall, FinalStats, Successes, FailedPolls, LastChange, OverPairs;
    assert BuildSummary(t, now, start, reason).rpc.Keys == RPCS;
  }

  /** A target that was not done before round `k`, summarised now. */
  lemma SummaryTells(polls: nat -> Poll, start: real, stableSeconds: real, k: nat, now: real, reason: Reason)
    requires Timed(polls) && (k > 0 ==> AfterRounds(polls, start, stableSeconds, k - 1).summary.None?)
    ensures Tells(BuildSummary(AfterRounds(polls, start, stableSeconds, k), now, start, reason), polls, k, now, start)
  {
    hide AfterRounds, BuildSummary, FinalStats, Tells, TellsCall, Timed, Slowest;
    var t := AfterRounds(polls, start, stableSeconds, k);
    CountersAreOfPolls(polls, start, stableSeconds, k);
    assert t.rpc.Keys == RPCS by {
      CallsOfPolls(polls, start, stableSeconds, k, GraphNodes);
    }
    forall r | r in RPCS ensures TellsCall(FinalStats(t.rpc[r]), polls, k, r) {
      CallsOfPolls(polls, start, stableSeconds, k, r);
      SlowestKept(polls, start, stableSeconds, k, r);
      StatsTell(t.rpc[r], polls, k, r);
    }
    BuiltTells(t, polls, k, now, start, reason);
  }

  /** A target is polled until it is done, and then left as it is. */
  lemma {:induction false} PollsMade(polls: nat -> Poll, start: real, stableSeconds: real, k: nat) returns (d: nat)
    ensures d <= k && AfterRounds(polls, start, stableSeconds, k) == AfterRounds(polls, start, stableSeconds, d)
    ensures d > 0 ==> AfterRounds(polls, start, stableSeconds, d - 1).summary.None?
    ensures d < k ==> AfterRounds(polls, start, stableSeconds, d).summary.Some?
  {
    hide Polled;
    d := k;
    if k > 0 && AfterRounds(polls, start, stableSeconds, k - 1).summary.Some? {
      d := PollsMade(polls, start, stableSeconds, k - 1);
    }
  }

  lemma StableSummary(t: Target, p: Poll, start: real, stableSeconds: real)
    requires t.summary.None? && Polled(t, p, start, stableSeconds).summary.Some?
    ensures var u := Polled(t, p, start, stableSeconds);
      u.summary == Some(BuildSummary(u, p.finished, start, GraphStable))
  {
    hide UpdatedRpc;
  }

  lemma NotDoneAtFirst(start: real)
    ensures NewTarget(start).summary.None?
  {
  }

  lemma ReasonGiven(t: Target, now: real, start: real, reason: Reason)
    ensures BuildSummary(t, now, start, reason).reason == reason
  {
  }

  /** The summary of a target, whatever its polls: after `d` polls it was stable and the summary tells
      of these at the end of the last one; or it was never stable, and tells of all at the end. */
  lemma FinalTells(polls: nat -> Poll, start: real, stableSeconds: real, k: nat, now: real) returns (d: nat)
    requires Timed(polls)
    ensures d <= k && (d > 0 ==> AfterRounds(polls, start, stableSeconds, d - 1).summary.None?)
    ensures var s := Final(AfterRounds(polls, start, stableSeconds, k), now, start);
      if AfterRounds(polls, start, stableSeconds, k).summary.Some? then
        && d > 0 && AfterRounds(polls, start, stableSeconds, d).summary.Some?
        && s.reason == GraphStable && Tells(s, polls, d, polls(d - 1).finished, start)
      else
        d == k && s.reason == MaxDurationReached && Tells(s, polls, d, now, start)
  {
    hide AfterRounds, Polled, BuildSummary, Tells, Timed;
    d := PollsMade(polls, start, stableSeconds, k);
    var t := AfterRounds(polls, start, stableSeconds, d);
    if t.summary.Some? {
      if d == 0 {
        NoRounds(polls, start, stableSeconds);
        NotDoneAtFirst(start);
      }
      NextRound(polls, start, stableSeconds, d - 1);
      StableSummary(AfterRounds(polls, start, stableSeconds, d - 1), polls(d - 1), start, stableSeconds);
      SummaryTells(polls, start, stableSeconds, d, polls(d - 1).finished, GraphStable);
      ReasonGiven(t, polls(d - 1).finished, start, GraphStable);
    } else {
      SummaryTells(polls, start, stableSeconds, k, now, MaxDurationReached);
      ReasonGiven(t, now, start, MaxDurationReached);
    }
  }
}

/** The monitoring loop: a handful of scalars decide online whether the whole history of
observations proves the graph stable. */
module Convergence {
  import opened Wrappers
  import opened Ordering
  import opened AggregateLog

  const STABLE_WINDOW: real := 30.0
  const MAX_SAMPLE_GAP: real := 10.0

  // ----- peers -----

  datatype Peer = Peer(pubkey: string, address: string)

  type Fingerprint = seq<(string, string)>

  function PeerKey(p: Peer): (string, string) {
    (p.pubkey, p.address)
  }

  /** `_peer_fingerprint`. */
  function PeerFingerprint(peers: seq<Peer>): Fingerprint {
    Sort(PairLeq, Map(PeerKey, peers))
  }

  /** Two snapshots have one fingerprint exactly when they list the same peers at the same
      addresses, each as often, in any order; and its length is the number of peers. */
  lemma FingerprintIffSamePeers(a: seq<Peer>, b: seq<Peer>)
    ensures PeerFingerprint(a) == PeerFingerprint(b) <==> multiset(a) == multiset(b)
    ensures |PeerFingerprint(a)| == |a|
  {
    PairOrder();
    SortMultiset(PairLeq, Map(PeerKey, a));
    SortIff(PairLeq, Map(PeerKey, a), Map(PeerKey, b));
    if multiset(a) == multiset(b) {
      RearrangedImage(PeerKey, a, b);
    }
    if multiset(Map(PeerKey, a)) == multiset(Map(PeerKey, b)) {
      var r := Rearrange(PeerKey, Map(PeerKey, a), b);
      forall i | 0 <= i < |a| ensures r[i] == a[i] {
        assert Map(PeerKey, r)[i] == Map(PeerKey, a)[i];
      }
      assert |r| == |Map(PeerKey, r)| == |a|;
      assert r == a;
    }
  }

  // ----- observations -----

  datatype Scan =
    | Failed                       // a transient RPC failure
    | DeadlineHit                  // the hard deadline fell into the scan
    | Raised(retryable: bool)      // an exception that ends the attempt, and how it is classified
    | Scanned(before: Fingerprint, after: Fingerprint, bootnode: bool, nodes: nat, channels: nat,
              digest: (string, string), ts: real, alive: bool)

  /** One pass through the loop: the log reader after its poll, and the graph scan. */
  datatype Observation = Observation(reader: View, scan: Scan)

  datatype Verdict = Continue | Converged | NodeGone | Stopped | Failure

  // ----- the scalars -----

  datatype Scalars = Scalars(
    prevCount: Option<(nat, nat)>,
    prevDigest: Option<(string, string)>,
    lastCountChangeTs: real,
    lastDigestChangeTs: real,
    everFinished: bool,
    completionSince: Option<real>,
    latestAgg: Option<SyncAggregate>,
    prevPeerFp: Option<Fingerprint>,
    peerChangeSeq: nat,
    peerSetChanges: nat,
    lastSampleTs: Option<real>)

  function Initial(start: real): Scalars {
    Scalars(None, None, start, start, false, None, None, None, 0, 0, None)
  }

  function Max(a: real, b: real): real {
    if a < b then b else a
  }

  function AfterPoll(s: Scalars, v: View): Scalars {
    s.(latestAgg := if v.latest.Some? then v.latest else s.latestAgg,
       everFinished := s.everFinished || v.everFinished)
  }

  function AfterMove(s: Scalars, seqNo: nat, scan: Scan): Scalars
    requires scan.Scanned?
  {
    s.(peerSetChanges := s.peerSetChanges + 1
         + (if s.prevPeerFp.Some? && s.prevPeerFp != Some(scan.before) then 1 else 0),
       prevPeerFp := Some(scan.after),
       peerChangeSeq := seqNo,
       completionSince := None,
       lastSampleTs := None)
  }

  function AfterPeers(s: Scalars, seqNo: nat, fp: Fingerprint): Scalars {
    if s.prevPeerFp == Some(fp) then s
    else
      s.(peerSetChanges := s.peerSetChanges + (if s.prevPeerFp.Some? then 1 else 0),
         prevPeerFp := Some(fp),
         peerChangeSeq := seqNo,
         completionSince := None)
  }

  predicate SampleGapExceeded(previous: Option<real>, ts: real) {
    previous.Some? && ts - previous.value > MAX_SAMPLE_GAP
  }

  function AfterGraph(s: Scalars, scan: Scan): Scalars
    requires scan.Scanned?
  {
    var count := (scan.nodes, scan.channels);
    s.(completionSince := if SampleGapExceeded(s.lastSampleTs, scan.ts) then None else s.completionSince,
       lastSampleTs := Some(scan.ts),
       lastCountChangeTs := if s.prevCount == Some(count) then s.lastCountChangeTs else scan.ts,
       lastDigestChangeTs := if s.prevDigest == Some(scan.digest) then s.lastDigestChangeTs else scan.ts,
       prevCount := Some(count),
       prevDigest := Some(scan.digest))
  }

  /** The six conjuncts. */
  predicate Complete(s: Scalars, seqNo: nat, scan: Scan)
    requires scan.Scanned?
  {
    && s.everFinished
    && s.latestAgg.Some? && s.latestAgg.value.AllConnectedFinished()
    && s.latestAgg.value.total == |scan.after|
    && seqNo > s.peerChangeSeq
    && scan.bootnode
    && scan.nodes > 0 && scan.channels > 0
  }

  function AfterCompletion(s: Scalars, seqNo: nat, scan: Scan): Scalars
    requires scan.Scanned?
  {
    s.(completionSince :=
         if !Complete(s, seqNo, scan) then None
         else if s.completionSince.None? then Some(scan.ts)
         else s.completionSince)
  }

  /** `completion_since or sample_ts`: a time of exactly zero reads as absent. */
  function SinceOr(since: Option<real>, ts: real): real {
    if since.Some? && since.value != 0.0 then since.value else ts
  }

  function Anchor(s: Scalars, ts: real): real {
    Max(Max(s.lastCountChangeTs, s.lastDigestChangeTs), SinceOr(s.completionSince, ts))
  }

  function Sampled(s: Scalars, seqNo: nat, scan: Scan): Scalars
    requires scan.Scanned?
  {
    AfterCompletion(AfterGraph(AfterPeers(s, seqNo, scan.after), scan), seqNo, scan)
  }

  function SampleVerdict(s: Scalars, seqNo: nat, scan: Scan): Verdict
    requires scan.Scanned?
  {
    var t := Sampled(s, seqNo, scan);
    if t.completionSince.Some? && scan.ts - Anchor(t, scan.ts) >= STABLE_WINDOW
    then if scan.alive then Converged else NodeGone
    else Continue
  }

  /** One pass, as a function of the scalars and the observation. */
  function Next(s: Scalars, o: Observation): Scalars {
    var p := AfterPoll(s, o.reader);
    match o.scan
    case Failed => p.(completionSince := None, lastSampleTs := None)
    case DeadlineHit => p
    case Raised(_) => p
    case Scanned(_, _, _, _, _, _, _, _) =>
      if o.scan.before != o.scan.after then AfterMove(p, o.reader.seqNo, o.scan)
      else Sampled(p, o.reader.seqNo, o.scan)
  }

  function VerdictOf(s: Scalars, o: Observation): Verdict {
    match o.scan
    case Failed => Continue
    case DeadlineHit => Stopped
    case Raised(_) => Failure
    case Scanned(_, _, _, _, _, _, _, _) =>
      if o.scan.before != o.scan.after then Continue
      else SampleVerdict(AfterPoll(s, o.reader), o.reader.seqNo, o.scan)
  }

  /** The scalars after the first `k` observations. */
  function After(start: real, trace: seq<Observation>, k: nat): Scalars
    requires k <= |trace|
  {
    if k == 0 then Initial(start) else Next(After(start, trace, k - 1), trace[k - 1])
  }

  // ----- the loop itself -----

  class Monitor {
    var prevCount: Option<(nat, nat)>
    var prevDigest: Option<(string, string)>
    var lastCountChangeTs: real
    var lastDigestChangeTs: real
    var everFinished: bool
    var completionSince: Option<real>
    var latestAgg: Option<SyncAggregate>
    var prevPeerFp: Option<Fingerprint>
    var peerChangeSeq: nat
    var peerSetChanges: nat
    var lastSampleTs: Option<real>

    function State(): Scalars
      reads this
    {
      Scalars(prevCount, prevDigest, lastCountChangeTs, lastDigestChangeTs, everFinished, completionSince,
              latestAgg, prevPeerFp, peerChangeSeq, peerSetChanges, lastSampleTs)
    }

    constructor (start: real)
      ensures State() == Initial(start)
    {
      prevCount, prevDigest := None, None;
      lastCountChangeTs, lastDigestChangeTs := start, start;
      everFinished, completionSince, latestAgg := false, None, None;
      prevPeerFp, peerChangeSeq, peerSetChanges, lastSampleTs := None, 0, 0, None;
    }

    /** The body of the loop, after the pacing. */
    method Step(o: Observation) returns (verdict: Verdict)
      modifies this
      ensures State() == Next(old(State()), o)
      ensures verdict == VerdictOf(old(State()), o)
    {
      hide AfterMove, AfterPeers, AfterGraph, AfterCompletion, Complete, Anchor;
      if o.reader.latest.Some? {
        latestAgg := o.reader.latest;
      }
      if o.reader.everFinished && !everFinished {
        everFinished := true;
      }
      assert State() == AfterPoll(old(State()), o.reader);
      if o.scan.DeadlineHit? {
        return Stopped;
      }
      if o.scan.Raised? {
        return Failure;
      }
      if o.scan.Failed? {
        completionSince := None;
        lastSampleTs := None;
        return Continue;
      }
      if o.scan.before != o.scan.after {
        DiscardMoved(o.reader.seqNo, o.scan);
        return Continue;
      }
      ObservePeers(o.reader.seqNo, o.scan.after);
      ObserveGraph(o.scan);
      var completion := ObserveCompletion(o.reader.seqNo, o.scan);
      var sampleTs := o.scan.ts;
      var anchor := GetAnchor(sampleTs);
      var graphStable := sampleTs - anchor >= STABLE_WINDOW;
      if completion && graphStable {
        if !o.scan.alive {
          return NodeGone;
        }
        return Converged;
      }
      return Continue;
    }

    /** A scan that is not bracketed by one fingerprint is discarded. */
    method DiscardMoved(seqNo: nat, scan: Scan)
      requires scan.Scanned?
      modifies this
      ensures State() == AfterMove(old(State()), seqNo, scan)
    {
      if prevPeerFp.Some? && prevPeerFp != Some(scan.before) {
        peerSetChanges := peerSetChanges + 1;
      }
      peerSetChanges := peerSetChanges + 1;
      prevPeerFp := Some(scan.after);
      peerChangeSeq := seqNo;
      completionSince := None;
      lastSampleTs := None;
    }

    /** The peer-generation gate. */
    method ObservePeers(seqNo: nat, peerFp: Fingerprint)
      modifies this
      ensures State() == AfterPeers(old(State()), seqNo, peerFp)
    {
      if Some(peerFp) != prevPeerFp {
        if prevPeerFp.Some? {
          peerSetChanges := peerSetChanges + 1;
        }
        prevPeerFp := Some(peerFp);
        completionSince := None;
        peerChangeSeq := seqNo;
      }
    }

    /** The observation gap, and the times of the last changes. */
    method ObserveGraph(scan: Scan)
      requires scan.Scanned?
      modifies this
      ensures State() == AfterGraph(old(State()), scan)
    {
      var sampleTs := scan.ts;
      if SampleGapExceeded(lastSampleTs, sampleTs) {
        completionSince := None;
      }
      lastSampleTs := Some(sampleTs);
      var count, digest := (scan.nodes, scan.channels), scan.digest;
      if prevCount.None? || prevCount.value != count {
        lastCountChangeTs := sampleTs;
      }
      if prevDigest.None? || prevDigest.value != digest {
        lastDigestChangeTs := sampleTs;
      }
      prevCount, prevDigest := Some(count), Some(digest);
    }

    /** The completion conditions start, keep or reset the window. */
    method ObserveCompletion(seqNo: nat, scan: Scan) returns (completion: bool)
      requires scan.Scanned?
      modifies this
      ensures State() == AfterCompletion(old(State()), seqNo, scan)
      ensures completion == completionSince.Some?
    {
      var currentComplete := latestAgg.Some? && latestAgg.value.AllConnectedFinished();
      var peersCountMatch := latestAgg.Some? && latestAgg.value.total == |scan.after|;
      var freshAggregate := seqNo > peerChangeSeq;
      var remoteNonempty := scan.nodes > 0 && scan.channels > 0;
      completion :=
        everFinished && currentComplete && peersCountMatch && freshAggregate && scan.bootnode && remoteNonempty;
      if completion {
        if completionSince.None? {
          completionSince := Some(scan.ts);
        }
      } else {
        completionSince := None;
      }
    }

    method GetAnchor(sampleTs: real) returns (anchor: real)
      ensures anchor == Anchor(State(), sampleTs)
    {
      anchor := Max(Max(lastCountChangeTs, lastDigestChangeTs), SinceOr(completionSince, sampleTs));
    }
  }
}

/** One graph scan: both paginated walks between two readings of the peers, and what is reported. */
module GraphScan {
  import opened Wrappers
  import opened Ordering
  import opened JsonText
  import opened GraphRecords
  import opened NodeDigest
  import opened ChannelDigest
  import opened Pagination
  import opened PaginationTheorems
  import opened SnapshotDigest
  import opened Convergence

  type Reply = Result<Json, GraphError>

  /** What the node answers during one scan, and the readings after it. */
  datatype GraphInput = GraphInput(
    peersBefore: Reply,
    nodes: Rpc,
    channels: Rpc,
    peersAfter: Reply,
    upset: Option<bool>,           // an exception after the scan, and whether it may be retried
    ts: real,
    alive: bool)

  type Bootnodes = seq<Peer> -> bool

  // ----- the peers -----

  predicate IsPeer(v: Json) {
    v.Obj? && Get(v.fields, "pubkey").Str? && Get(v.fields, "address").Str?
  }

  function PeerOf(v: Json): Peer
    requires IsPeer(v)
  {
    Peer(Get(v.fields, "pubkey").s, Get(v.fields, "address").s)
  }

  predicate IsPeerList(v: Json) {
    v.Obj? && Get(v.fields, "peers").Arr? && forall i :: 0 <= i < |Get(v.fields, "peers").items| ==> IsPeer(Get(v.fields, "peers").items[i])
  }

  function PeersIn(v: Json): seq<Peer>
    requires IsPeerList(v)
  {
    var items := Get(v.fields, "peers").items;
    seq(|items|, i requires 0 <= i < |items| => PeerOf(items[i]))
  }

  function PeersOf(reply: Reply): Result<seq<Peer>, GraphError> {
    match reply
    case Err(e) => Err(e)
    case Ok(v) => if IsPeerList(v) then Ok(PeersIn(v)) else Err(Malformed)
  }

  /** `list_peers`. */
  method ListPeers(reply: Reply) returns (r: Result<seq<Peer>, GraphError>)
    ensures r == PeersOf(reply)
  {
    hide Get;
    if reply.Err? {
      return Err(reply.error);
    }
    var v := reply.value;
    if !v.Obj? || !Get(v.fields, "peers").Arr? {
      return Err(Malformed);
    }
    var items := Get(v.fields, "peers").items;
    var peers: seq<Peer> := [];
    for i := 0 to |items|
      invariant forall j :: 0 <= j < i ==> IsPeer(items[j])
      invariant |peers| == i && forall j :: 0 <= j < i ==> peers[j] == PeerOf(items[j])
    {
      if !IsPeer(items[i]) {
        return Err(Malformed);
      }
      peers := peers + [PeerOf(items[i])];
    }
    assert peers == PeersIn(v);
    return Ok(peers);
  }

  /** The key and address of each peer, as the answer gives them. */
  function AddressPairs(v: Json): seq<(string, string)>
    requires IsPeerList(v)
  {
    var items := Get(v.fields, "peers").items;
    seq(|items|, i requires 0 <= i < |items| => (Get(items[i].fields, "pubkey").s, Get(items[i].fields, "address").s))
  }

  /** A peer list is an object whose "peers" is a list of objects, each with a text under "pubkey" and
      under "address"; anything else is malformed. */
  lemma PeersRead(v: Json)
    ensures IsPeerList(v) <==> (
      && v.Obj? && "peers" in v.fields && v.fields["peers"].Arr?
      && forall p :: p in v.fields["peers"].items ==> (
           && p.Obj? && "pubkey" in p.fields && p.fields["pubkey"].Str? && "address" in p.fields && p.fields["address"].Str?))
    ensures PeersOf(Ok(v)).Ok? <==> IsPeerList(v)
    ensures PeersOf(Ok(v)).Err? ==> PeersOf(Ok(v)).error == Malformed
  {
  }

  /** Two peer lists have one fingerprint exactly when they show the same keys at the same addresses,
      each as often, in any order. */
  lemma FingerprintOfReplies(v: Json, w: Json)
    requires IsPeerList(v) && IsPeerList(w)
    ensures PeerFingerprint(PeersIn(v)) == PeerFingerprint(PeersIn(w)) <==> multiset(AddressPairs(v)) == multiset(AddressPairs(w))
  {
    hide IsPeerList;
    PairOrder();
    assert Map(PeerKey, PeersIn(v)) == AddressPairs(v);
    assert Map(PeerKey, PeersIn(w)) == AddressPairs(w);
    SortIff(PairLeq, AddressPairs(v), AddressPairs(w));
  }

  // ----- the second validation -----

  lemma PickedIsOne(a: Json, b: Json)
    ensures PickNewer(a, b) in {a, b}
  {
    hide Canon;
  }

  lemma JoinedGet(f: string, e: Dict, i: Dict)
    requires f in IDENTITY + SIDES
    ensures f in Joined(IDENTITY + SIDES, e, i)
    ensures Get(Joined(IDENTITY + SIDES, e, i), f) == JoinedField(f, e, i)
  {
    hide JoinedField;
  }

  lemma JoinedOneOf(f: string, e: Dict, i: Dict)
    requires f in IDENTITY + SIDES
    ensures f in Joined(IDENTITY + SIDES, e, i)
    ensures var v := Joined(IDENTITY + SIDES, e, i)[f]; v == Get(e, f) || v == Get(i, f)
  {
    hide Says, PickNewer;
    JoinedGet(f, e, i);
    PickedIsOne(Get(e, f), Get(i, f));
  }

  /** The join of two valid records is valid. */
  lemma JoinedValid(e: Dict, i: Dict)
    requires ValidChannel(e) && ValidChannel(i)
    ensures ValidChannel(Joined(IDENTITY + SIDES, e, i))
  {
    hide Joined, IsUint, ValidUpdate;
    var j := Joined(IDENTITY + SIDES, e, i);
    forall f | f in ["channel_outpoint", "node1", "node2", "chain_hash"] ensures Get(j, f).Str? && Get(j, f) != Str("") {
      JoinedOneOf(f, e, i);
    }
    JoinedOneOf("created_timestamp", e, i);
    JoinedOneOf("capacity", e, i);
    JoinedOneOf("udt_type_script", e, i);
    JoinedOneOf("update_info_of_node1", e, i);
    JoinedOneOf("update_info_of_node2", e, i);
  }

  lemma MergedValid(kind: Kind, existing: Option<Dict>, it: Dict)
    requires ValidItem(kind, it) && (existing.Some? ==> ValidItem(kind, existing.value))
    ensures MergeOf(kind)(existing, it).Ok? ==> ValidItem(kind, MergeOf(kind)(existing, it).value)
  {
    hide ValidNode, ValidChannel, Joined, Compatible, NodePayload, PayloadLeq;
    if existing.Some? {
      match kind {
        case Nodes => MergeIsMaximum(existing.value, it);
        case Channels => JoinedValid(existing.value, it);
      }
    }
  }

  ghost predicate AllValid(kind: Kind, st: Items) {
    forall k :: k in st.keyed ==> ValidItem(kind, st.keyed[k])
  }

  lemma {:induction false} AbsorbValid(kind: Kind, st: Items, raw: seq<Json>)
    requires AllValid(kind, st) && Absorb(kind, st, raw).Ok?
    ensures AllValid(kind, Absorb(kind, st, raw).value)
    decreases |raw|
  {
    hide ValidItem, MergeOf, Lower;
    if raw != [] {
      var it := raw[0];
      var ident := Lower(Get(it.fields, IdentityField(kind)).s);
      MergedValid(kind, Lookup(st.keyed, ident), it.fields);
      AbsorbValid(kind, AbsorbOne(kind, st, it).value, raw[1..]);
    }
  }

  function WalkOf(rpc: Rpc, kind: Kind): Result<Items, GraphError> {
    Walk(rpc, kind, 0, None, {}, NOTHING)
  }

  /** Every record of a snapshot is valid, merged ones included: the validation that is repeated
      after the walk never refuses one. */
  lemma SnapshotValid(rpc: Rpc, kind: Kind)
    requires WalkOf(rpc, kind).Ok?
    ensures Consistent(kind, WalkOf(rpc, kind).value)
    ensures forall x :: x in Values(WalkOf(rpc, kind).value) ==> ValidItem(kind, x)
  {
    hide ValidItem, Walk, Absorb, Serves;
    var pages, cursors := WalkSound(rpc, kind);
    AbsorbValid(kind, NOTHING, Concat(pages));
    var st := WalkOf(rpc, kind).value;
    assert Consistent(kind, st) by {
      var ps, cs := SnapshotIsMergeOfStream(rpc, kind);
    }
    forall x | x in Values(st) ensures ValidItem(kind, x) {
      var i :| 0 <= i < |Values(st)| && Values(st)[i] == x;
      assert st.order[i] in st.order;
    }
  }

  method Revalidate(kind: Kind, items: seq<Dict>) returns (ok: bool)
    ensures ok <==> forall x :: x in items ==> ValidItem(kind, x)
  {
    hide ValidItem;
    for i := 0 to |items|
      invariant forall j :: 0 <= j < i ==> ValidItem(kind, items[j])
    {
      if !ValidItem(kind, items[i]) {
        return false;
      }
    }
    return true;
  }

  // ----- the scan -----

  /** What a failed scan is to the loop. */
  function FailedScan(e: GraphError): Scan {
    match e
    case CallFailed => Failed
    case OutOfTime => DeadlineHit
    case _ => Raised(false)
  }

  /** The first thing that fails, in the order of the calls. */
  function FirstFailure(g: GraphInput): Option<GraphError> {
    if PeersOf(g.peersBefore).Err? then Some(PeersOf(g.peersBefore).error)
    else if WalkOf(g.nodes, Nodes).Err? then Some(WalkOf(g.nodes, Nodes).error)
    else if WalkOf(g.channels, Channels).Err? then Some(WalkOf(g.channels, Channels).error)
    else if PeersOf(g.peersAfter).Err? then Some(PeersOf(g.peersAfter).error)
    else None
  }

  /** The first call that fails, in the order in which they are made, fails with this error. */
  ghost predicate FailsWith(g: GraphInput, e: GraphError) {
    || PeersOf(g.peersBefore) == Err(e)
    || (PeersOf(g.peersBefore).Ok? && WalkOf(g.nodes, Nodes) == Err(e))
    || (PeersOf(g.peersBefore).Ok? && WalkOf(g.nodes, Nodes).Ok? && WalkOf(g.channels, Channels) == Err(e))
    || (PeersOf(g.peersBefore).Ok? && WalkOf(g.nodes, Nodes).Ok? && WalkOf(g.channels, Channels).Ok?
        && PeersOf(g.peersAfter) == Err(e))
  }

  /** A scan fails when one of its calls does: passing failures are to be tried again, the deadline
      stops the loop, and everything that is wrong with the stream itself ends the attempt for good. */
  lemma FailuresClassified(selfPubkey: string, bootnodes: Bootnodes, g: GraphInput, e: GraphError)
    requires FailsWith(g, e)
    ensures var scan := Report(selfPubkey, bootnodes, g);
      && (e == CallFailed ==> scan == Failed)
      && (e == OutOfTime ==> scan == DeadlineHit)
      && (OfStream(e) ==> scan == Raised(false))
  {
    hide WalkOf, PeersOf;
  }

  /** A scan whose calls all succeed is a sample exactly when the peers did not move meanwhile. */
  lemma SuccessClassified(selfPubkey: string, bootnodes: Bootnodes, g: GraphInput)
    requires PeersOf(g.peersBefore).Ok? && WalkOf(g.nodes, Nodes).Ok? && WalkOf(g.channels, Channels).Ok? && PeersOf(g.peersAfter).Ok?
    ensures var scan := Report(selfPubkey, bootnodes, g);
      var before, after := PeerFingerprint(PeersOf(g.peersBefore).value), PeerFingerprint(PeersOf(g.peersAfter).value);
      if before == after && g.upset.Some? then scan == Raised(g.upset.value)
      else scan.Scanned? && scan.before == before && scan.after == after
  {
    hide WalkOf, PeersOf, PeerFingerprint;
  }

  /** The records that a successful walk lists. */
  ghost function SnapshotOf(rpc: Rpc, kind: Kind): seq<Dict> {
    var walk := WalkOf(rpc, kind);
    if walk.Ok? && Consistent(kind, walk.value) then Values(walk.value) else []
  }

  function ChannelText(channels: seq<Dict>): string {
    match ChannelEntries(channels)
    case Err(_) => ""
    case Ok(entries) => DigestText(entries)
  }

  /** What the loop gets from a scan. */
  ghost function Report(selfPubkey: string, bootnodes: Bootnodes, g: GraphInput): Scan {
    match FirstFailure(g)
    case Some(e) => FailedScan(e)
    case None =>
      var before, peers := PeerFingerprint(PeersOf(g.peersBefore).value), PeersOf(g.peersAfter).value;
      var nodes, channels := SnapshotOf(g.nodes, Nodes), SnapshotOf(g.channels, Channels);
      if before != PeerFingerprint(peers) then Scanned(before, PeerFingerprint(peers), false, 0, 0, ("", ""), g.ts, g.alive)
      else if g.upset.Some? then Raised(g.upset.value)
      else
        Scanned(before, before, bootnodes(peers), NodeCount(nodes, Lower(selfPubkey)), |channels|,
                (DigestText(NodeEntries(nodes, Lower(selfPubkey))), ChannelText(channels)), g.ts, g.alive)
  }

  /** One scan. */
  method ScanGraph(selfPubkey: string, bootnodes: Bootnodes, g: GraphInput) returns (scan: Scan)
    ensures scan == Report(selfPubkey, bootnodes, g)
  {
    hide Walk, PeerFingerprint, PeersOf, NodeCount, NodeEntries, ChannelEntries, DigestText, ValidItem, Consistent;
    var peersBefore := ListPeers(g.peersBefore);
    if peersBefore.Err? {
      return FailedScan(peersBefore.error);
    }
    var nodes := Paginate(g.nodes, Nodes);
    if nodes.Err? {
      return FailedScan(nodes.error);
    }
    var channels := Paginate(g.channels, Channels);
    if channels.Err? {
      return FailedScan(channels.error);
    }
    SnapshotValid(g.nodes, Nodes);
    SnapshotValid(g.channels, Channels);
    assert nodes.value == SnapshotOf(g.nodes, Nodes) && channels.value == SnapshotOf(g.channels, Channels);
    var nodesOk := Revalidate(Nodes, nodes.value);
    var channelsOk := Revalidate(Channels, channels.value);
    assert nodesOk && channelsOk;
    var peersAfter := ListPeers(g.peersAfter);
    if peersAfter.Err? {
      return FailedScan(peersAfter.error);
    }
    var before, after := PeerFingerprint(peersBefore.value), PeerFingerprint(peersAfter.value);
    if before != after {
      return Scanned(before, after, false, 0, 0, ("", ""), g.ts, g.alive);
    }
    if g.upset.Some? {
      return Raised(g.upset.value);
    }
    var n := NodeCount(nodes.value, Lower(selfPubkey));
    var nodesDigest := NodesDigest(nodes.value, selfPubkey);
    var channelsDigest := ChannelsDigest(channels.value);
    assert channelsDigest.Ok? by {
      SnapshotDigests(g.channels, channels.value);
    }
    return Scanned(before, after, bootnodes(peersAfter.value), n, |channels.value|,
                   (nodesDigest, channelsDigest.value), g.ts, g.alive);
  }

  lemma SnapshotDigests(rpc: Rpc, channels: seq<Dict>)
    requires Lists(Channels, WalkOf(rpc, Channels), Ok(channels))
    ensures ChannelEntries(channels).Ok? && |ChannelEntries(channels).value| == |channels|
  {
    hide Walk, ChannelEntries, OnePerIdentity, Serves;
    var pages, cursors := SnapshotIsMergeOfStream(rpc, Channels);
    ChannelCountMatchesDigest(channels);
  }

  // ----- the scan and the streams served -----

  /** The server's answers are the pages of this stream. */
  ghost predicate Streams(rpc: Rpc, kind: Kind, raw: seq<Json>) {
    exists pages: seq<seq<Json>>, cursors: seq<string> :: Served(rpc, kind, pages, cursors, raw)
  }

  ghost predicate Served(rpc: Rpc, kind: Kind, pages: seq<seq<Json>>, cursors: seq<string>, raw: seq<Json>) {
    Serves(rpc, kind, pages, cursors) && |pages| < MAX_PAGES && Concat(pages) == raw
  }

  /** Streams were served, and all records of any stream served announce exactly these payloads. */
  ghost predicate Announces(selfPubkey: string, g: GraphInput, nodes: seq<Json>, channels: seq<Json>) {
    && (exists raw :: Streams(g.nodes, Nodes, raw))
    && (exists raw :: Streams(g.channels, Channels, raw))
    && (forall raw :: Streams(g.nodes, Nodes, raw) ==> NodeEntries(Records(raw), Lower(selfPubkey)) == nodes)
    && (forall raw :: Streams(g.channels, Channels, raw) ==> ChannelEntries(Records(raw)) == Ok(channels))
  }

  lemma WalkStreams(rpc: Rpc, kind: Kind)
    requires WalkOf(rpc, kind).Ok?
    ensures exists raw :: Streams(rpc, kind, raw)
    ensures Consistent(kind, WalkOf(rpc, kind).value) && OnePerIdentity(Ident(kind), SnapshotOf(rpc, kind))
  {
    hide Walk, Serves, OnePerIdentity;
    var pages, cursors := SnapshotIsMergeOfStream(rpc, kind);
    assert Served(rpc, kind, pages, cursors, Concat(pages));
    assert Streams(rpc, kind, Concat(pages));
  }

  lemma NodeStreams(rpc: Rpc, selfPk: string, raw: seq<Json>)
    requires WalkOf(rpc, Nodes).Ok? && Streams(rpc, Nodes, raw)
    ensures NodeEntries(Records(raw), selfPk) == NodeEntries(SnapshotOf(rpc, Nodes), selfPk)
  {
    hide Walk, Serves, OnePerIdentity, NodeEntries, Acceptable;
    var pages: seq<seq<Json>>, cursors: seq<string> :| Served(rpc, Nodes, pages, cursors, raw);
    NodeDigestOfSnapshot(rpc, pages, cursors, selfPk);
  }

  lemma ChannelStreams(rpc: Rpc, raw: seq<Json>)
    requires WalkOf(rpc, Channels).Ok? && Streams(rpc, Channels, raw)
    ensures ChannelEntries(Records(raw)) == ChannelEntries(SnapshotOf(rpc, Channels))
  {
    hide Walk, Serves, OnePerIdentity, ChannelEntries, Acceptable, Contradict;
    var pages: seq<seq<Json>>, cursors: seq<string> :| Served(rpc, Channels, pages, cursors, raw);
    ChannelDigestOfSnapshot(rpc, pages, cursors);
  }

  /** An accepted scan reports the payloads announced by the streams served: how many there are, and
      the text of their digests. */
  lemma ReportAnnounces(selfPubkey: string, bootnodes: Bootnodes, g: GraphInput)
    requires var scan := Report(selfPubkey, bootnodes, g); scan.Scanned? && scan.before == scan.after
    ensures WalkOf(g.nodes, Nodes).Ok? && WalkOf(g.channels, Channels).Ok?
    ensures var nodes, channels := NodeEntries(SnapshotOf(g.nodes, Nodes), Lower(selfPubkey)), ChannelEntries(SnapshotOf(g.channels, Channels));
      && channels.Ok? && Announces(selfPubkey, g, nodes, channels.value)
      && var scan := Report(selfPubkey, bootnodes, g);
         scan.nodes == |nodes| && scan.channels == |channels.value| && scan.digest == (DigestText(nodes), DigestText(channels.value))
    ensures PeersOf(g.peersBefore).Ok? && PeersOf(g.peersAfter).Ok? && g.upset.None?
    ensures var scan, peers := Report(selfPubkey, bootnodes, g), PeersOf(g.peersAfter).value;
      scan.after == PeerFingerprint(peers) && scan.bootnode == bootnodes(peers) && scan.ts == g.ts && scan.alive == g.alive
  {
    hide Walk, PeerFingerprint, PeersOf, NodeCount, NodeEntries, ChannelEntries, DigestText, Consistent, OnePerIdentity, Streams;
    WalkStreams(g.nodes, Nodes);
    WalkStreams(g.channels, Channels);
    NodeCountMatchesDigest(SnapshotOf(g.nodes, Nodes), Lower(selfPubkey));
    ChannelCountMatchesDigest(SnapshotOf(g.channels, Channels));
    forall raw | Streams(g.nodes, Nodes, raw)
      ensures NodeEntries(Records(raw), Lower(selfPubkey)) == NodeEntries(SnapshotOf(g.nodes, Nodes), Lower(selfPubkey))
    {
      NodeStreams(g.nodes, Lower(selfPubkey), raw);
    }
    forall raw | Streams(g.channels, Channels, raw)
      ensures ChannelEntries(Records(raw)) == ChannelEntries(SnapshotOf(g.channels, Channels))
    {
      ChannelStreams(g.channels, raw);
    }
  }
}

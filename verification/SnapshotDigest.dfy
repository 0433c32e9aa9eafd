/** The reported graph and its digest agree with the raw records and with each other. */
module SnapshotDigest {
  import opened Wrappers
  import opened JsonText
  import opened GraphRecords
  import opened NodeDigest
  import opened ChannelDigest
  import opened ChannelOrder
  import opened Pagination
  import opened PaginationTheorems

  /** One record per lower-cased identity, each under its own identity. */
  ghost predicate OnePerIdentity(key: Dict -> string, items: seq<Dict>) {
    && (forall i :: 0 <= i < |items| ==> key(items[i]) != "")
    && (forall i, j :: 0 <= i < j < |items| ==> key(items[i]) != key(items[j]))
  }

  ghost predicate OwnKeys(keyed: map<string, Dict>, key: Dict -> string) {
    forall k :: k in keyed ==> k != "" && key(keyed[k]) == k
  }

  ghost function Keys(items: seq<Dict>, key: Dict -> string): set<string> {
    set i | 0 <= i < |items| :: key(items[i])
  }

  lemma KeysSnoc(items: seq<Dict>, x: Dict, key: Dict -> string)
    ensures Keys(items + [x], key) == Keys(items, key) + {key(x)}
  {
    var more := items + [x];
    assert forall i :: 0 <= i < |items| ==> more[i] == items[i];
    assert more[|items|] == x;
    forall k | k in Keys(items, key) + {key(x)} ensures k in Keys(more, key) {
      if k != key(x) {
        var i :| 0 <= i < |items| && key(items[i]) == k;
        assert key(more[i]) == k;
      } else {
        assert key(more[|items|]) == k;
      }
    }
  }

  /** Folding a list with one record per key only collects it. */
  lemma {:induction false} FoldCollects(items: seq<Dict>, key: Dict -> string, merge: Merge)
    requires OnePerIdentity(key, items) && forall x :: merge(None, x) == Ok(x)
    ensures Fold(items, key, merge).Ok?
    ensures var m := Fold(items, key, merge).value;
      m.Keys == Keys(items, key) && forall i :: 0 <= i < |items| ==> key(items[i]) in m && m[key(items[i])] == items[i]
  {
    if items != [] {
      var rest, x := items[..|items| - 1], items[|items| - 1];
      assert items == rest + [x];
      FoldCollects(rest, key, merge);
      FoldSnoc(rest, x, key, merge);
      KeysSnoc(rest, x, key);
      var m := Fold(rest, key, merge).value;
      assert key(x) !in Keys(rest, key);
    }
  }

  lemma ValuesKeys(kind: Kind, st: Items, key: Dict -> string)
    requires Consistent(kind, st) && OwnKeys(st.keyed, key)
    ensures forall i :: 0 <= i < |st.order| ==> (
      && st.order[i] in st.keyed && st.order[i] != ""
      && Values(st)[i] == st.keyed[st.order[i]] && key(Values(st)[i]) == st.order[i])
    ensures OnePerIdentity(key, Values(st))
    ensures Keys(Values(st), key) == st.keyed.Keys
  {
    forall i | 0 <= i < |st.order|
      ensures st.order[i] in st.keyed && key(Values(st)[i]) == st.order[i] && st.order[i] != ""
    {
      assert st.order[i] in st.order;
    }
    forall k | k in st.keyed ensures k in Keys(Values(st), key) {
      assert k in st.order;
      var i :| 0 <= i < |st.order| && st.order[i] == k;
      assert key(Values(st)[i]) == k;
    }
  }

  /** The list of a keyed dictionary collects to that dictionary again. */
  lemma CollectValues(kind: Kind, st: Items, key: Dict -> string, merge: Merge)
    requires Consistent(kind, st) && OwnKeys(st.keyed, key) && forall x :: merge(None, x) == Ok(x)
    ensures OnePerIdentity(key, Values(st))
    ensures Fold(Values(st), key, merge) == Ok(st.keyed)
  {
    ValuesKeys(kind, st, key);
    hide OnePerIdentity, Consistent, Values, OwnKeys;
    FoldCollects(Values(st), key, merge);
    var m := Fold(Values(st), key, merge).value;
    forall k | k in m ensures m[k] == st.keyed[k] {
      assert k in Keys(Values(st), key);
      var i :| 0 <= i < |Values(st)| && key(Values(st)[i]) == k;
    }
    assert m == st.keyed;
  }

  lemma MergeOfFirst(kind: Kind)
    ensures forall x :: MergeOf(kind)(None, x) == Ok(x)
  {
  }

  lemma NodesOwnKeys(raw: seq<Dict>)
    ensures Fold(raw, Pubkey, NodeMerge).Ok? && OwnKeys(Fold(raw, Pubkey, NodeMerge).value, Pubkey)
  {
    hide Pubkey, NodeMerge, NodeLeq;
    NodeMergeKeepsGreater();
    FoldGreatest(raw, Pubkey, NodeMerge, NodeLeq);
  }

  lemma ChannelsOwnKeys(raw: seq<Dict>)
    requires Fold(raw, Outpoint, ChannelMerge).Ok?
    ensures OwnKeys(Fold(raw, Outpoint, ChannelMerge).value, Outpoint)
  {
    hide Outpoint, ChannelMerge, Summarises;
    var keyed := Fold(raw, Outpoint, ChannelMerge).value;
    FoldSummarises(raw);
    forall k | k in keyed ensures k != "" && Outpoint(keyed[k]) == k {
      JoinedOutpoint(keyed, raw, k);
    }
  }

  lemma OwnKeysOf(kind: Kind, raw: seq<Dict>)
    requires Fold(raw, Ident(kind), MergeOf(kind)).Ok?
    ensures OwnKeys(Fold(raw, Ident(kind), MergeOf(kind)).value, Ident(kind))
  {
    hide OwnKeys, Fold;
    match kind {
      case Nodes => NodesOwnKeys(raw);
      case Channels => ChannelsOwnKeys(raw);
    }
  }

  /** A successful snapshot is exactly one merged record per identity of a complete, clean stream:
      the fold of all records served, in the order in which the identities first appeared. */
  lemma SnapshotIsMergeOfStream(rpc: Rpc, kind: Kind) returns (pages: seq<seq<Json>>, cursors: seq<string>)
    requires Walk(rpc, kind, 0, None, {}, NOTHING).Ok?
    ensures Serves(rpc, kind, pages, cursors) && |pages| < MAX_PAGES
    ensures Acceptable(kind, Concat(pages))
    ensures var st := Walk(rpc, kind, 0, None, {}, NOTHING).value;
      && Consistent(kind, st)
      && OnePerIdentity(Ident(kind), Values(st))
      && Fold(Values(st), Ident(kind), MergeOf(kind)) == Fold(Records(Concat(pages)), Ident(kind), MergeOf(kind))
  {
    hide Ident, MergeOf, Refusal, Consistent, Serves, OnePerIdentity;
    pages, cursors := WalkSound(rpc, kind);
    AbsorbRefuses(kind, NOTHING, Concat(pages));
    AbsorbIsFold(kind, Concat(pages));
    OwnKeysOf(kind, Records(Concat(pages)));
    MergeOfFirst(kind);
    CollectValues(kind, Walk(rpc, kind, 0, None, {}, NOTHING).value, Ident(kind), MergeOf(kind));
  }

  /** The snapshot does not depend on how the server cuts its stream into pages. */
  lemma PageSizeIrrelevant(rpc: Rpc, rpc': Rpc, kind: Kind,
                           pages: seq<seq<Json>>, cursors: seq<string>, pages': seq<seq<Json>>, cursors': seq<string>)
    requires Serves(rpc, kind, pages, cursors) && Serves(rpc', kind, pages', cursors')
    requires |pages| < MAX_PAGES && |pages'| < MAX_PAGES && Concat(pages) == Concat(pages')
    ensures Walk(rpc, kind, 0, None, {}, NOTHING) == Walk(rpc', kind, 0, None, {}, NOTHING)
  {
    WalkComplete(rpc, kind, pages, cursors);
    WalkComplete(rpc', kind, pages', cursors');
  }

  // ----- digest of the snapshot and digest of what was served -----

  lemma SameFoldCovers(xs: seq<Dict>, ys: seq<Dict>, selfPk: string)
    requires Fold(xs, Pubkey, NodeMerge) == Fold(ys, Pubkey, NodeMerge)
    ensures CoveredBy(xs, ys, NodeKey(selfPk), NodeLeq)
  {
    hide Pubkey, NodeMerge, NodeLeq;
    NodeMergeKeepsGreater();
    FoldGreatest(xs, Pubkey, NodeMerge, NodeLeq);
    FoldGreatest(ys, Pubkey, NodeMerge, NodeLeq);
    var keyed, key := Fold(xs, Pubkey, NodeMerge).value, NodeKey(selfPk);
    forall x | x in xs && key(x) != "" ensures exists y :: y in ys && key(y) == key(x) && NodeLeq(x, y) {
      var y := keyed[Pubkey(x)];
      assert y in ys && NodeLeq(x, y) && Pubkey(y) == Pubkey(x);
    }
  }

  lemma SameFoldSameNodeDigest(xs: seq<Dict>, ys: seq<Dict>, selfPk: string)
    requires Fold(xs, Pubkey, NodeMerge) == Fold(ys, Pubkey, NodeMerge)
    ensures NodeEntries(xs, selfPk) == NodeEntries(ys, selfPk)
  {
    hide Fold, NodeEntries, CoveredBy;
    SameFoldCovers(xs, ys, selfPk);
    SameFoldCovers(ys, xs, selfPk);
    NodeDigestByMaxima(xs, ys, selfPk);
  }

  /** The walk over a well-behaved server succeeds exactly when all items are acceptable and their
      records merge; then it lists one record per identity that fold to what all records fold to. */
  lemma ServedWalk(rpc: Rpc, kind: Kind, pages: seq<seq<Json>>, cursors: seq<string>)
    requires Serves(rpc, kind, pages, cursors) && |pages| < MAX_PAGES
    ensures var walk, raw := Walk(rpc, kind, 0, None, {}, NOTHING), Concat(pages);
      && (walk.Ok? <==> Acceptable(kind, raw) && Fold(Records(raw), Ident(kind), MergeOf(kind)).Ok?)
      && (walk.Ok? ==> (
            && Consistent(kind, walk.value) && OnePerIdentity(Ident(kind), Values(walk.value))
            && Fold(Values(walk.value), Ident(kind), MergeOf(kind)) == Fold(Records(raw), Ident(kind), MergeOf(kind))))
  {
    hide Ident, MergeOf, Refusal, Consistent, Serves, OnePerIdentity, Acceptable;
    var raw := Concat(pages);
    WalkComplete(rpc, kind, pages, cursors);
    if Absorb(kind, NOTHING, raw).Ok? {
      AbsorbRefuses(kind, NOTHING, raw);
    }
    if Acceptable(kind, raw) {
      AbsorbIsFold(kind, raw);
      if Absorb(kind, NOTHING, raw).Ok? {
        OwnKeysOf(kind, Records(raw));
        MergeOfFirst(kind);
        CollectValues(kind, Absorb(kind, NOTHING, raw).value, Ident(kind), MergeOf(kind));
      }
    }
  }

  /** Channels: the snapshot has one record per outpoint and the digest of all records served; for an
      acceptable stream the walk fails exactly when two records of one channel disagree. */
  lemma ChannelDigestOfSnapshot(rpc: Rpc, pages: seq<seq<Json>>, cursors: seq<string>)
    requires Serves(rpc, Channels, pages, cursors) && |pages| < MAX_PAGES
    ensures var walk, raw := Walk(rpc, Channels, 0, None, {}, NOTHING), Concat(pages);
      && (walk.Ok? ==> (
            && Consistent(Channels, walk.value) && OnePerIdentity(Outpoint, Values(walk.value))
            && ChannelEntries(Values(walk.value)).Ok?
            && ChannelEntries(Values(walk.value)) == ChannelEntries(Records(raw))))
      && (Acceptable(Channels, raw) ==> (walk.Err? <==> Contradict(Records(raw))))
  {
    hide Serves, Acceptable, Contradict, OnePerIdentity, Consistent, Outpoint, ChannelMerge;
    ServedWalk(rpc, Channels, pages, cursors);
    ConflictIffContradiction(Records(Concat(pages)));
  }

  /** Nodes: every acceptable stream gives a snapshot, with one record per key and, for any node
      under test, the digest of all records served. */
  lemma NodeDigestOfSnapshot(rpc: Rpc, pages: seq<seq<Json>>, cursors: seq<string>, selfPk: string)
    requires Serves(rpc, Nodes, pages, cursors) && |pages| < MAX_PAGES
    ensures var walk, raw := Walk(rpc, Nodes, 0, None, {}, NOTHING), Concat(pages);
      && (walk.Ok? <==> Acceptable(Nodes, raw))
      && (walk.Ok? ==> (
            && Consistent(Nodes, walk.value) && OnePerIdentity(Pubkey, Values(walk.value))
            && NodeEntries(Values(walk.value), selfPk) == NodeEntries(Records(raw), selfPk)))
  {
    hide Serves, Acceptable, OnePerIdentity, Walk, Concat, Fold, Records, Pubkey, NodeMerge, NodeEntries, OwnKeys;
    ServedWalk(rpc, Nodes, pages, cursors);
    NodesOwnKeys(Records(Concat(pages)));
    var walk := Walk(rpc, Nodes, 0, None, {}, NOTHING);
    if walk.Ok? {
      SameFoldSameNodeDigest(Values(walk.value), Records(Concat(pages)), selfPk);
    }
  }

  /** A server of one page of channels. */
  function OnePage(items: seq<Json>): Rpc {
    (k, after) => Ok(Obj(map["channels" := Arr(if k == 0 then items else []), "last_cursor" := Str("0x01")]))
  }

  lemma OnePageServes(items: seq<Json>)
    requires items != []
    ensures Serves(OnePage(items), Channels, [items], ["0x01"]) && Concat([items]) == items
  {
    assert [items][..0] == [];
    assert Answers(Channels, OnePage(items)(1, Some("0x01")).value, [], "0x01");
  }

  lemma SampleAcceptable(arg: Json)
    ensures Refusal(Channels, Obj(Sample(arg))).None?
  {
    hide ValidChannel, Sample;
    SampleValid(arg);
  }

  lemma SnapshotOfTwo(a: Json, b: Json)
    requires ChannelEntries([Sample(a), Sample(b)]).Ok?
    ensures var walk := Walk(OnePage([Obj(Sample(a)), Obj(Sample(b))]), Channels, 0, None, {}, NOTHING);
      walk.Ok? && Consistent(Channels, walk.value) && ChannelEntries(Values(walk.value)) == ChannelEntries([Sample(a), Sample(b)])
  {
    hide Serves, Walk, OnePage, Refusal, Fold, Contradict, Sample, Concat, ChannelEntries;
    var raw := [Obj(Sample(a)), Obj(Sample(b))];
    OnePageServes(raw);
    SampleAcceptable(a);
    SampleAcceptable(b);
    assert Acceptable(Channels, raw);
    assert Records(raw) == [Sample(a), Sample(b)];
    ChannelDigestOfSnapshot(OnePage(raw), [raw], ["0x01"]);
    ConflictIffContradiction([Sample(a), Sample(b)]);
  }

  /** Two servers with the same two valid records, served in either order, give two successful
      snapshots with different channel digests. */
  lemma OrderShowsInSnapshot()
    ensures var x, y := Obj(Sample(Bool(true))), Obj(Sample(Num(1)));
      var a, b := Walk(OnePage([x, y]), Channels, 0, None, {}, NOTHING), Walk(OnePage([y, x]), Channels, 0, None, {}, NOTHING);
      && a.Ok? && b.Ok? && Consistent(Channels, a.value) && Consistent(Channels, b.value)
      && ChannelEntries(Values(a.value)) != ChannelEntries(Values(b.value))
  {
    hide Walk, Sample, ChannelEntries, OnePage, ValidChannel;
    OrderCanMatter();
    SnapshotOfTwo(Bool(true), Num(1));
    SnapshotOfTwo(Num(1), Bool(true));
  }

  // ----- counts -----

  /** `sum(1 for x in nodes if pubkey(x) != self_pk)`. */
  function NodeCount(items: seq<Dict>, selfPk: string): nat {
    if items == [] then 0
    else NodeCount(items[..|items| - 1], selfPk) + (if Pubkey(items[|items| - 1]) != selfPk then 1 else 0)
  }

  ghost function Remote(items: seq<Dict>, selfPk: string): set<string> {
    Keys(items, Pubkey) - {selfPk}
  }

  lemma FreshKey(items: seq<Dict>, x: Dict, key: Dict -> string)
    requires OnePerIdentity(key, items + [x])
    ensures OnePerIdentity(key, items) && key(x) !in Keys(items, key)
  {
    var more := items + [x];
    assert forall i :: 0 <= i < |items| ==> more[i] == items[i];
    assert more[|items|] == x;
  }

  lemma NoKeys(selfPk: string)
    ensures Remote([], selfPk) == {}
  {
  }

  lemma RemoteSnoc(items: seq<Dict>, x: Dict, selfPk: string)
    requires Pubkey(x) !in Keys(items, Pubkey)
    ensures |Remote(items + [x], selfPk)| == |Remote(items, selfPk)| + (if Pubkey(x) != selfPk then 1 else 0)
  {
    hide Pubkey, Keys;
    KeysSnoc(items, x, Pubkey);
    var a, b := Remote(items, selfPk), Remote(items + [x], selfPk);
    assert b == if Pubkey(x) == selfPk then a else a + {Pubkey(x)};
  }

  lemma {:induction false} CountIsRemote(items: seq<Dict>, selfPk: string)
    requires OnePerIdentity(Pubkey, items)
    ensures NodeCount(items, selfPk) == |Remote(items, selfPk)|
  {
    hide Pubkey, OnePerIdentity, Keys, Remote;
    if items == [] {
      assert Remote([], selfPk) == {} by {
        NoKeys(selfPk);
      }
    } else {
      var rest, x := items[..|items| - 1], items[|items| - 1];
      assert items == rest + [x];
      FreshKey(rest, x, Pubkey);
      CountIsRemote(rest, selfPk);
      RemoteSnoc(rest, x, selfPk);
    }
  }

  /** The reported node count is the number of payloads hashed into the node digest. */
  lemma NodeCountMatchesDigest(items: seq<Dict>, selfPk: string)
    requires OnePerIdentity(Pubkey, items)
    ensures |NodeEntries(items, selfPk)| == NodeCount(items, selfPk)
  {
    hide Pubkey, NodeLeq, OnePerIdentity, KeyedNodes, Remote;
    CountIsRemote(items, selfPk);
    DigestKeepsGreatest(items, selfPk);
    assert forall i :: 0 <= i < |items| ==> Pubkey(items[i]) != "" by {
      NonEmptyKeys(items);
    }
    KeysAreRemote(items, selfPk, KeyedNodes(items, selfPk));
  }

  lemma NonEmptyKeys(items: seq<Dict>)
    requires OnePerIdentity(Pubkey, items)
    ensures forall i :: 0 <= i < |items| ==> Pubkey(items[i]) != ""
  {
  }

  lemma KeysAreRemote(items: seq<Dict>, selfPk: string, keyed: map<string, Dict>)
    requires Greatest(items, NodeKey(selfPk), NodeLeq, keyed)
    requires forall i :: 0 <= i < |items| ==> Pubkey(items[i]) != ""
    ensures keyed.Keys == Remote(items, selfPk) && |keyed| == |Remote(items, selfPk)|
  {
    hide Pubkey, NodeLeq;
    forall k | k in keyed ensures k in Remote(items, selfPk) {
      var i :| 0 <= i < |items| && items[i] == keyed[k];
    }
    forall k | k in Remote(items, selfPk) ensures k in keyed {
      var i :| 0 <= i < |items| && Pubkey(items[i]) == k;
      assert NodeKey(selfPk)(items[i]) == k;
    }
    assert keyed.Keys == Remote(items, selfPk);
    assert |keyed| == |keyed.Keys|;
  }

  lemma {:induction false} KeysCardinality(items: seq<Dict>, key: Dict -> string)
    requires OnePerIdentity(key, items)
    ensures |Keys(items, key)| == |items|
  {
    if items != [] {
      var rest, x := items[..|items| - 1], items[|items| - 1];
      assert items == rest + [x];
      KeysCardinality(rest, key);
      KeysSnoc(rest, x, key);
      assert key(x) !in Keys(rest, key);
    }
  }

  /** The reported channel count is the number of payloads hashed into the channel digest. */
  lemma ChannelCountMatchesDigest(items: seq<Dict>)
    requires OnePerIdentity(Outpoint, items)
    ensures ChannelEntries(items).Ok? && |ChannelEntries(items).value| == |items|
  {
    hide Outpoint;
    FoldCollects(items, Outpoint, ChannelMerge);
    KeysCardinality(items, Outpoint);
    var keyed := Fold(items, Outpoint, ChannelMerge).value;
    assert |keyed| == |keyed.Keys|;
  }

  /** A change of either count changes the text of the corresponding digest. */
  lemma CountChangeShows(nodes: seq<Dict>, nodes': seq<Dict>, channels: seq<Dict>, channels': seq<Dict>, selfPk: string)
    requires OnePerIdentity(Pubkey, nodes) && OnePerIdentity(Pubkey, nodes')
    requires OnePerIdentity(Outpoint, channels) && OnePerIdentity(Outpoint, channels')
    ensures NodeCount(nodes, selfPk) != NodeCount(nodes', selfPk) ==>
      DigestText(NodeEntries(nodes, selfPk)) != DigestText(NodeEntries(nodes', selfPk))
    ensures ChannelEntries(channels).Ok? && ChannelEntries(channels').Ok?
    ensures |channels| != |channels'| ==>
      DigestText(ChannelEntries(channels).value) != DigestText(ChannelEntries(channels').value)
  {
    hide OnePerIdentity, NodeEntries, ChannelEntries, NodeCount, DigestText;
    NodeCountMatchesDigest(nodes, selfPk);
    NodeCountMatchesDigest(nodes', selfPk);
    ChannelCountMatchesDigest(channels);
    ChannelCountMatchesDigest(channels');
    DigestTextFaithful(NodeEntries(nodes, selfPk), NodeEntries(nodes', selfPk));
    DigestTextFaithful(ChannelEntries(channels).value, ChannelEntries(channels').value);
  }
}

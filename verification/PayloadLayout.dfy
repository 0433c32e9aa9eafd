/** What the digests hash of a record: for each payload key the field it is read from, and how. */
module PayloadLayout {
  import opened Ordering
  import opened JsonText
  import opened CanonicalValues
  import opened GraphRecords
  import opened NodeDigest
  import opened ChannelDigest

  datatype Reading = LowerText | Value | Verbatim | OrElse(other: string) | SortedTexts | UpToListOrder

  /** Payload key, record field, reading. */
  type Layout = seq<(string, string, Reading)>

  const NODE_LAYOUT: Layout := [
    ("pubkey", "pubkey", LowerText), ("timestamp", "timestamp", Value),
    ("node_name", "node_name", OrElse("name")), ("version", "version", Verbatim),
    ("addresses", "addresses", SortedTexts), ("features", "features", SortedTexts),
    ("chain_hash", "chain_hash", LowerText),
    ("auto_accept_min_ckb_funding_amount", "auto_accept_min_ckb_funding_amount", Value),
    ("udt_cfg_infos", "udt_cfg_infos", UpToListOrder)]

  const CHANNEL_LAYOUT: Layout := [
    ("outpoint", "channel_outpoint", LowerText), ("node1", "node1", LowerText), ("node2", "node2", LowerText),
    ("created_timestamp", "created_timestamp", Value), ("capacity", "capacity", Value),
    ("chain_hash", "chain_hash", LowerText), ("udt_type_script", "udt_type_script", UpToListOrder),
    ("update1", "update_info_of_node1", Verbatim), ("update2", "update_info_of_node2", Verbatim)]

  ghost predicate InOrder(items: seq<Json>) {
    forall i, j :: 0 <= i < j < |items| ==> items[i].Str? && items[j].Str? && StrLeq(items[i].s, items[j].s)
  }

  /** `v` is what the record has under `field`, read in this way. */
  ghost predicate ReadsAs(v: Json, d: Dict, field: string, how: Reading) {
    var w := Get(d, field);
    match how
    case LowerText => w.Str? ==> v == Str(Lower(w.s))
    case Value => forall n: int :: Stands(w, n) ==> v == Num(n)
    case Verbatim => v == w
    case OrElse(other) =>
      if w.Str? && w.s != "" then v == w
      else if Truthy(Get(d, other)) then !Truthy(w) ==> v == Get(d, other)
      else !Truthy(w) ==> v == Str("")
    case SortedTexts => IsStrings(w) ==> v.Arr? && multiset(v.items) == multiset(w.items) && InOrder(v.items)
    case UpToListOrder => SameUpToListOrder(v, w)
  }

  ghost function LayoutKeys(layout: Layout): set<string> {
    set i | 0 <= i < |layout| :: layout[i].0
  }

  ghost predicate EntryReads(payload: Json, d: Dict, p: (string, string, Reading)) {
    payload.Obj? && p.0 in payload.fields && ReadsAs(payload.fields[p.0], d, p.1, p.2)
  }

  /** The payload has exactly these keys, each read as laid out. */
  ghost predicate LaidOut(payload: Json, d: Dict, layout: Layout) {
    && payload.Obj? && payload.fields.Keys == LayoutKeys(layout)
    && (forall i :: 0 <= i < |layout| ==> EntryReads(payload, d, layout[i]))
  }

  lemma NumberReads(d: Dict, field: string)
    ensures ReadsAs(Num(ToInt(Get(d, field))), d, field, Value)
  {
    forall n: int | Stands(Get(d, field), n) ensures ToInt(Get(d, field)) == n {
      StandsRead(Get(d, field), n);
    }
  }

  lemma CanonicalReads(d: Dict, field: string)
    ensures ReadsAs(Canonical(Get(d, field)), d, field, UpToListOrder)
  {
    hide Canonical, SameUpToListOrder;
    CanonicalIdempotent(Get(d, field));
    CanonicalDecides(Canonical(Get(d, field)), Get(d, field));
  }

  lemma StringsRead(v: Json)
    requires IsStrings(v)
    ensures SortedStrings(v).Arr?
    ensures multiset(SortedStrings(v).items) == multiset(v.items) && InOrder(SortedStrings(v).items)
  {
    var x := Map(StringOf, v.items);
    StrOrder();
    SortMultiset(StrLeq, x);
    SortSorted(StrLeq, x);
    MapStrings(v.items);
    RearrangedImage(JsonOf, Sort(StrLeq, x), x);
  }

  lemma NineKeys(layout: Layout)
    requires |layout| == 9
    ensures LayoutKeys(layout) == {layout[0].0, layout[1].0, layout[2].0, layout[3].0, layout[4].0, layout[5].0,
                                   layout[6].0, layout[7].0, layout[8].0}
  {
  }

  lemma NodeKeys(n: Dict)
    ensures NodePayload(n).fields.Keys == LayoutKeys(NODE_LAYOUT)
  {
    hide SortedStrings, Canonical, ToInt, Text, Or;
    NineKeys(NODE_LAYOUT);
  }

  lemma NodeEntry(n: Dict, i: nat)
    requires ValidNode(n) && i < |NODE_LAYOUT|
    ensures EntryReads(NodePayload(n), n, NODE_LAYOUT[i])
  {
    hide SortedStrings, Canonical, ToInt, Stands, SameUpToListOrder, IsUint, NodePayload, Lower;
    NodeDigest.PayloadFields(n);
    NumberReads(n, NODE_LAYOUT[i].1);
    CanonicalReads(n, NODE_LAYOUT[i].1);
    assert Or(Get(n, "udt_cfg_infos"), Arr([])) == Get(n, "udt_cfg_infos");
    assert Or(Get(n, "version"), Str("")) == Get(n, "version");
    if NODE_LAYOUT[i].2.SortedTexts? {
      StringsRead(Get(n, NODE_LAYOUT[i].1));
    }
  }

  /** The digest of a valid node reads exactly these fields. */
  lemma NodeLaidOut(n: Dict)
    requires ValidNode(n)
    ensures LaidOut(NodePayload(n), n, NODE_LAYOUT)
  {
    hide NodePayload, EntryReads, LayoutKeys;
    NodeKeys(n);
    assert NodePayload(n).Obj? by {
      NodeEntry(n, 0);
      IsObject(NodePayload(n), n, NODE_LAYOUT[0]);
    }
    forall i | 0 <= i < |NODE_LAYOUT| ensures EntryReads(NodePayload(n), n, NODE_LAYOUT[i]) {
      NodeEntry(n, i);
    }
  }

  lemma IsObject(payload: Json, d: Dict, p: (string, string, Reading))
    requires EntryReads(payload, d, p)
    ensures payload.Obj?
  {
  }

  lemma ChannelKeys(c: Dict)
    ensures ChannelPayload(c).fields.Keys == LayoutKeys(CHANNEL_LAYOUT)
  {
    hide Canonical, ToInt, Text;
    NineKeys(CHANNEL_LAYOUT);
  }

  lemma ChannelEntry(c: Dict, i: nat)
    requires i < |CHANNEL_LAYOUT|
    ensures EntryReads(ChannelPayload(c), c, CHANNEL_LAYOUT[i])
  {
    hide Canonical, ToInt, Stands, SameUpToListOrder, ChannelPayload, Lower;
    ChannelDigest.PayloadFields(c);
    NumberReads(c, CHANNEL_LAYOUT[i].1);
    CanonicalReads(c, CHANNEL_LAYOUT[i].1);
  }

  /** And so does the digest of a channel. */
  lemma ChannelLaidOut(c: Dict)
    ensures LaidOut(ChannelPayload(c), c, CHANNEL_LAYOUT)
  {
    hide ChannelPayload, EntryReads, LayoutKeys;
    ChannelKeys(c);
    assert ChannelPayload(c).Obj? by {
      ChannelEntry(c, 0);
      IsObject(ChannelPayload(c), c, CHANNEL_LAYOUT[0]);
    }
    forall i | 0 <= i < |CHANNEL_LAYOUT| ensures EntryReads(ChannelPayload(c), c, CHANNEL_LAYOUT[i]) {
      ChannelEntry(c, i);
    }
  }
}

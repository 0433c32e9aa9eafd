/** Node announcements: last-writer-wins merge and the digest over the announced nodes. */
module NodeDigest {
  import opened Wrappers
  import opened Ordering
  import opened JsonText
  import opened CanonicalValues
  import opened GraphRecords

  function Pubkey(n: Dict): string {
    Text(Get(n, "pubkey"))
  }

  function StringOf(v: Json): string {
    if v.Str? then v.s else ""
  }

  function JsonOf(s: string): Json {
    Str(s)
  }

  /** `sorted(v or [])` for a list of strings. */
  function SortedStrings(v: Json): Json {
    if v.Arr? then Arr(Map(JsonOf, Sort(StrLeq, Map(StringOf, v.items)))) else Arr([])
  }

  function NodePayload(n: Dict): Json {
    Obj(map[
      "pubkey" := Str(Pubkey(n)),
      "timestamp" := Num(ToInt(Get(n, "timestamp"))),
      "node_name" := Or(Get(n, "node_name"), Or(Get(n, "name"), Str(""))),
      "version" := Or(Get(n, "version"), Str("")),
      "addresses" := SortedStrings(Get(n, "addresses")),
      "features" := SortedStrings(Get(n, "features")),
      "chain_hash" := Str(Text(Get(n, "chain_hash"))),
      "auto_accept_min_ckb_funding_amount" := Num(ToInt(Get(n, "auto_accept_min_ckb_funding_amount"))),
      "udt_cfg_infos" := Canonical(Or(Get(n, "udt_cfg_infos"), Arr([])))
    ])
  }

  function MergeNode(existing: Option<Dict>, incoming: Dict): Dict {
    match existing
    case None => incoming
    case Some(e) =>
      var te, ti := ToInt(Get(e, "timestamp")), ToInt(Get(incoming, "timestamp"));
      if ti != te then if ti > te then incoming else e
      else if CanonLeq(NodePayload(incoming), NodePayload(e)) then e else incoming
  }

  // ----- announcements are totally ordered -----

  function Timestamp(payload: Json): int {
    if payload.Obj? then ToInt(Get(payload.fields, "timestamp")) else 0
  }

  predicate PayloadLeq(a: Json, b: Json) {
    NotNewer(a, b, Timestamp(a), Timestamp(b))
  }

  lemma PayloadOrder()
    ensures TotalOrder(PayloadLeq)
  {
    CanonOrder();
    assert forall a, b :: CanonLeq(a, b) || CanonLeq(b, a);
    assert forall a, b :: CanonLeq(a, b) && CanonLeq(b, a) ==> a == b;
    assert forall a, b, c :: CanonLeq(a, b) && CanonLeq(b, c) ==> CanonLeq(a, c);
  }

  lemma PayloadTimestamp(n: Dict)
    ensures Timestamp(NodePayload(n)) == ToInt(Get(n, "timestamp"))
  {
  }

  /** Merging keeps the greater announcement. */
  lemma MergeIsMaximum(e: Dict, i: Dict)
    ensures var m := MergeNode(Some(e), i);
      && (m == e || m == i)
      && PayloadLeq(NodePayload(e), NodePayload(m))
      && PayloadLeq(NodePayload(i), NodePayload(m))
  {
    PayloadTimestamp(e);
    PayloadTimestamp(i);
    StrTotal(Canon(NodePayload(e)), Canon(NodePayload(i)));
    StrTotal(Canon(NodePayload(e)), Canon(NodePayload(e)));
    StrTotal(Canon(NodePayload(i)), Canon(NodePayload(i)));
  }

  /** Of two announcements whose timestamps stand for different numbers, in whatever notation, the one
      with the greater number is kept, in either order. */
  lemma NewerAnnouncementWins(a: Dict, b: Dict, ta: int, tb: int)
    requires Stands(Get(a, "timestamp"), ta) && Stands(Get(b, "timestamp"), tb) && ta < tb
    ensures MergeNode(Some(a), b) == b && MergeNode(Some(b), a) == b
  {
    hide Stands, ToInt;
    StandsRead(Get(a, "timestamp"), ta);
    StandsRead(Get(b, "timestamp"), tb);
  }

  // ----- folds that keep a greatest record -----

  ghost predicate Preorder(leq: (Dict, Dict) -> bool) {
    && (forall a, b :: leq(a, b) || leq(b, a))
    && (forall a, b, c :: leq(a, b) && leq(b, c) ==> leq(a, c))
  }

  ghost predicate KeepsGreater(merge: Merge, leq: (Dict, Dict) -> bool) {
    && (forall i :: merge(None, i) == Ok(i))
    && (forall e, i ::
          || (merge(Some(e), i) == Ok(e) && leq(i, e))
          || (merge(Some(e), i) == Ok(i) && leq(e, i)))
  }

  /** Every keyed record comes from the list and is greatest for its key. */
  ghost predicate Greatest(xs: seq<Dict>, key: Dict -> string, leq: (Dict, Dict) -> bool, keyed: map<string, Dict>) {
    && (forall k :: k in keyed ==> k != "" && keyed[k] in xs && key(keyed[k]) == k)
    && (forall x :: x in xs && key(x) != "" ==> key(x) in keyed && leq(x, keyed[key(x)]))
  }

  lemma MergeKeeps(merge: Merge, leq: (Dict, Dict) -> bool, e: Option<Dict>, i: Dict)
    requires Preorder(leq) && KeepsGreater(merge, leq)
    ensures merge(e, i).Ok?
    ensures var v := merge(e, i).value; leq(i, v) && (v == i || e == Some(v)) && (e.Some? ==> leq(e.value, v))
  {
    assert leq(i, i) || leq(i, i);
    match e {
      case None =>
      case Some(d) => assert leq(d, d) || leq(d, d);
    }
  }

  lemma {:induction false} FoldGreatest(xs: seq<Dict>, key: Dict -> string, merge: Merge, leq: (Dict, Dict) -> bool)
    requires Preorder(leq) && KeepsGreater(merge, leq)
    ensures Fold(xs, key, merge).Ok? && Greatest(xs, key, leq, Fold(xs, key, merge).value)
  {
    if xs != [] {
      var rest, x := xs[..|xs| - 1], xs[|xs| - 1];
      FoldGreatest(rest, key, merge, leq);
      assert xs == rest + [x];
      FoldSnoc(rest, x, key, merge);
      var keyed := Fold(rest, key, merge).value;
      MergeKeeps(merge, leq, Lookup(keyed, key(x)), x);
      var keyed' := Fold(xs, key, merge).value;
      forall k | k in keyed' ensures k != "" && keyed'[k] in xs && key(keyed'[k]) == k {
        assert k in keyed ==> keyed[k] in rest;
      }
      forall y | y in xs && key(y) != "" ensures key(y) in keyed' && leq(y, keyed'[key(y)]) {
        assert y in rest || y == x;
      }
    }
  }

  /** Every record of `xs` has one with the same key in `ys` that is at least as great. */
  ghost predicate CoveredBy(xs: seq<Dict>, ys: seq<Dict>, key: Dict -> string, leq: (Dict, Dict) -> bool) {
    forall x :: x in xs && key(x) != "" ==> exists y :: y in ys && key(y) == key(x) && leq(x, y)
  }

  lemma CoveredMaxima(xs: seq<Dict>, ys: seq<Dict>, key: Dict -> string, leq: (Dict, Dict) -> bool,
                      m: map<string, Dict>, m': map<string, Dict>, k: string)
    requires Preorder(leq) && CoveredBy(xs, ys, key, leq)
    requires Greatest(xs, key, leq, m) && Greatest(ys, key, leq, m') && k in m
    ensures k in m' && leq(m[k], m'[k])
  {
    var x := m[k];
    assert x in xs && key(x) == k;
    var y :| y in ys && key(y) == key(x) && leq(x, y);
    assert leq(y, m'[k]);
  }

  // ----- the digest -----

  predicate NodeLeq(a: Dict, b: Dict) {
    PayloadLeq(NodePayload(a), NodePayload(b))
  }

  function NodeMerge(existing: Option<Dict>, incoming: Dict): Result<Dict, GraphError> {
    Ok(MergeNode(existing, incoming))
  }

  lemma SamePayload(a: Dict, b: Dict)
    requires NodeLeq(a, b) && NodeLeq(b, a)
    ensures NodePayload(a) == NodePayload(b)
  {
    hide NodePayload, PayloadLeq;
    PayloadOrder();
  }

  lemma NodeMergeKeepsGreater()
    ensures Preorder(NodeLeq) && KeepsGreater(NodeMerge, NodeLeq)
  {
    hide NodePayload, PayloadLeq;
    PayloadOrder();
    forall e, i
      ensures (NodeMerge(Some(e), i) == Ok(e) && NodeLeq(i, e)) || (NodeMerge(Some(e), i) == Ok(i) && NodeLeq(e, i))
    {
      MergeIsMaximum(e, i);
    }
  }

  /** The digest key of a node: the node itself and records without a key are skipped. */
  function NodeKey(selfPk: string): Dict -> string {
    (n: Dict) => if Pubkey(n) == selfPk then "" else Pubkey(n)
  }

  function KeyedNodes(nodes: seq<Dict>, selfPk: string): map<string, Dict> {
    match Fold(nodes, NodeKey(selfPk), NodeMerge)
    case Err(_) => map[]
    case Ok(keyed) => keyed
  }

  function NodeEntries(nodes: seq<Dict>, selfPk: string): seq<Json> {
    Entries(KeyedNodes(nodes, selfPk), NodePayload)
  }

  /** `_nodes_digest` up to the hash. */
  method NodesDigest(nodes: seq<Dict>, selfPubkey: string) returns (text: string)
    ensures text == DigestText(NodeEntries(nodes, Lower(selfPubkey)))
  {
    var selfPk := Lower(selfPubkey);
    var keyed: map<string, Dict> := map[];
    for i := 0 to |nodes|
      invariant Fold(nodes[..i], NodeKey(selfPk), NodeMerge) == Ok(keyed)
    {
      var n := nodes[i];
      assert nodes[..i + 1] == nodes[..i] + [n];
      FoldSnoc(nodes[..i], n, NodeKey(selfPk), NodeMerge);
      var pk := Text(Get(n, "pubkey"));
      if pk == "" || pk == selfPk {
        continue;
      }
      keyed := keyed[pk := MergeNode(Lookup(keyed, pk), n)];
    }
    assert nodes[..|nodes|] == nodes;
    text := DigestText(Entries(keyed, NodePayload));
  }

  /** The digest has one entry per announced key, and it is the greatest announcement of that key. */
  lemma DigestKeepsGreatest(nodes: seq<Dict>, selfPk: string)
    ensures Greatest(nodes, NodeKey(selfPk), NodeLeq, KeyedNodes(nodes, selfPk))
  {
    NodeMergeKeepsGreater();
    FoldGreatest(nodes, NodeKey(selfPk), NodeMerge, NodeLeq);
  }

  /** So no record of the list is newer than the one hashed for its key. */
  lemma DigestKeepsNewest(nodes: seq<Dict>, selfPk: string, x: Dict, tx: int, tk: int)
    requires x in nodes && Pubkey(x) != "" && Pubkey(x) != selfPk && Stands(Get(x, "timestamp"), tx)
    ensures Pubkey(x) in KeyedNodes(nodes, selfPk)
    ensures Stands(Get(KeyedNodes(nodes, selfPk)[Pubkey(x)], "timestamp"), tk) ==> tx <= tk
  {
    hide Stands, ToInt, NodePayload, KeyedNodes, Pubkey;
    DigestKeepsGreatest(nodes, selfPk);
    assert NodeKey(selfPk)(x) == Pubkey(x);
    var kept := KeyedNodes(nodes, selfPk)[Pubkey(x)];
    PayloadTimestamp(x);
    PayloadTimestamp(kept);
    StandsRead(Get(x, "timestamp"), tx);
    if Stands(Get(kept, "timestamp"), tk) {
      StandsRead(Get(kept, "timestamp"), tk);
    }
  }

  lemma CoveredDigest(xs: seq<Dict>, ys: seq<Dict>, selfPk: string, k: string)
    requires CoveredBy(xs, ys, NodeKey(selfPk), NodeLeq) && k in KeyedNodes(xs, selfPk)
    ensures k in KeyedNodes(ys, selfPk) && NodeLeq(KeyedNodes(xs, selfPk)[k], KeyedNodes(ys, selfPk)[k])
  {
    hide NodeLeq, KeyedNodes;
    DigestKeepsGreatest(xs, selfPk);
    DigestKeepsGreatest(ys, selfPk);
    NodeMergeKeepsGreater();
    CoveredMaxima(xs, ys, NodeKey(selfPk), NodeLeq, KeyedNodes(xs, selfPk), KeyedNodes(ys, selfPk), k);
  }

  /** Two lists that cover each other have the same digest. */
  lemma NodeDigestByMaxima(xs: seq<Dict>, ys: seq<Dict>, selfPk: string)
    requires CoveredBy(xs, ys, NodeKey(selfPk), NodeLeq) && CoveredBy(ys, xs, NodeKey(selfPk), NodeLeq)
    ensures NodeEntries(xs, selfPk) == NodeEntries(ys, selfPk)
  {
    hide NodePayload, NodeLeq, KeyedNodes, CoveredBy, Entries;
    var m, m' := KeyedNodes(xs, selfPk), KeyedNodes(ys, selfPk);
    forall k | k in m ensures k in m' && NodePayload(m[k]) == NodePayload(m'[k]) {
      CoveredDigest(xs, ys, selfPk, k);
      CoveredDigest(ys, xs, selfPk, k);
      SamePayload(m[k], m'[k]);
    }
    forall k | k in m' ensures k in m {
      CoveredDigest(ys, xs, selfPk, k);
    }
    SameEntries(m, m', NodePayload);
  }

  /** What is announced, without regard to order, repetition or spelling. */
  ghost function Announced(nodes: seq<Dict>, selfPk: string): set<Json> {
    set n | n in nodes && NodeKey(selfPk)(n) != "" :: NodePayload(n)
  }

  lemma PayloadHasPubkey(n: Dict)
    ensures NodePayload(n).Obj? && Get(NodePayload(n).fields, "pubkey") == Str(Pubkey(n))
  {
  }

  lemma AnnouncedCovers(xs: seq<Dict>, ys: seq<Dict>, selfPk: string)
    requires Announced(xs, selfPk) <= Announced(ys, selfPk)
    ensures CoveredBy(xs, ys, NodeKey(selfPk), NodeLeq)
  {
    NodeMergeKeepsGreater();
    var key := NodeKey(selfPk);
    forall x | x in xs && key(x) != "" ensures exists y :: y in ys && key(y) == key(x) && NodeLeq(x, y) {
      assert NodePayload(x) in Announced(xs, selfPk);
      var y :| y in ys && key(y) != "" && NodePayload(y) == NodePayload(x);
      PayloadHasPubkey(x);
      PayloadHasPubkey(y);
      assert NodeLeq(x, y) || NodeLeq(y, x);
    }
  }

  /** Reordering, repeating or respelling announcements cannot change the digest:
      it is a function of the set of announced payloads. */
  lemma NodeDigestByContent(xs: seq<Dict>, ys: seq<Dict>, selfPk: string)
    requires Announced(xs, selfPk) == Announced(ys, selfPk)
    ensures NodeEntries(xs, selfPk) == NodeEntries(ys, selfPk)
  {
    AnnouncedCovers(xs, ys, selfPk);
    AnnouncedCovers(ys, xs, selfPk);
    NodeDigestByMaxima(xs, ys, selfPk);
  }

  /** Merging a page beforehand, wherever it stands in the stream, cannot change the digest. */
  lemma NodeDigestPremerged(a: seq<Dict>, page: seq<Dict>, b: seq<Dict>, selfPk: string)
    ensures NodeEntries(a + KeyedList(KeyedNodes(page, selfPk)) + b, selfPk) == NodeEntries(a + page + b, selfPk)
  {
    var keyed, key := KeyedNodes(page, selfPk), NodeKey(selfPk);
    var xs, ys := a + KeyedList(keyed) + b, a + page + b;
    DigestKeepsGreatest(page, selfPk);
    NodeMergeKeepsGreater();
    KeyedListMembers(keyed);
    forall x | x in xs && key(x) != "" ensures exists y :: y in ys && key(y) == key(x) && NodeLeq(x, y) {
      assert x in ys;
      assert NodeLeq(x, x) || NodeLeq(x, x);
    }
    forall y | y in ys && key(y) != "" ensures exists x :: x in xs && key(x) == key(y) && NodeLeq(y, x) {
      if y in page {
        assert keyed[key(y)] in KeyedList(keyed);
        assert keyed[key(y)] in xs;
      } else {
        assert y in xs;
        assert NodeLeq(y, y) || NodeLeq(y, y);
      }
    }
    NodeDigestByMaxima(xs, ys, selfPk);
  }

  /** The node under test is never part of its own digest. */
  lemma NeverSelf(nodes: seq<Dict>, selfPk: string)
    ensures forall e :: e in NodeEntries(nodes, selfPk) ==> e.Obj? && Get(e.fields, "pubkey") != Str(selfPk)
  {
    hide NodePayload, NodeLeq, KeyedNodes, Pubkey;
    DigestKeepsGreatest(nodes, selfPk);
    var m := KeyedNodes(nodes, selfPk);
    var ks := SortedKeys(m.Keys);
    forall e | e in NodeEntries(nodes, selfPk)
      ensures e.Obj? && Get(e.fields, "pubkey") != Str(selfPk)
    {
      var i :| 0 <= i < |ks| && NodeEntries(nodes, selfPk)[i] == e;
      assert ks[i] in ks;
      PayloadHasPubkey(m[ks[i]]);
    }
  }

  // ----- what a payload covers -----

  ghost predicate SameStrings(a: Json, b: Json) {
    IsStrings(a) && IsStrings(b) && multiset(a.items) == multiset(b.items)
  }

  lemma MapStrings(items: seq<Json>)
    requires forall i :: 0 <= i < |items| ==> items[i].Str?
    ensures Map(JsonOf, Map(StringOf, items)) == items
  {
    forall i | 0 <= i < |items| ensures Map(JsonOf, Map(StringOf, items))[i] == items[i] {
      assert items[i].Str? && Map(StringOf, items)[i] == items[i].s;
    }
  }

  lemma MapJsonInjective(a: seq<string>, b: seq<string>)
    requires Map(JsonOf, a) == Map(JsonOf, b)
    ensures a == b
  {
    assert |a| == |Map(JsonOf, a)| == |Map(JsonOf, b)| == |b|;
    forall i | 0 <= i < |a| ensures a[i] == b[i] {
      assert Map(JsonOf, a)[i] == Map(JsonOf, b)[i];
    }
  }

  /** Lists of strings are compared as multisets. */
  lemma SortedStringsDecides(a: Json, b: Json)
    requires IsStrings(a) && IsStrings(b)
    ensures SortedStrings(a) == SortedStrings(b) <==> SameStrings(a, b)
  {
    var x, y := Map(StringOf, a.items), Map(StringOf, b.items);
    StrOrder();
    SortIff(StrLeq, x, y);
    if SortedStrings(a) == SortedStrings(b) {
      MapJsonInjective(Sort(StrLeq, x), Sort(StrLeq, y));
      RearrangedImage(JsonOf, x, y);
      MapStrings(a.items);
      MapStrings(b.items);
    }
    if SameStrings(a, b) {
      RearrangedImage(StringOf, a.items, b.items);
    }
  }

  /** Two node records announce the same: every field that the digest is about, with addresses and
      features compared as multisets and the UDT settings up to list order. */
  ghost predicate SameNode(a: Dict, b: Dict) {
    && Pubkey(a) == Pubkey(b)
    && ToInt(Get(a, "timestamp")) == ToInt(Get(b, "timestamp"))
    && NameOf(a) == NameOf(b)
    && Get(a, "version") == Get(b, "version")
    && SameStrings(Get(a, "addresses"), Get(b, "addresses"))
    && SameStrings(Get(a, "features"), Get(b, "features"))
    && Text(Get(a, "chain_hash")) == Text(Get(b, "chain_hash"))
    && ToInt(Get(a, "auto_accept_min_ckb_funding_amount")) == ToInt(Get(b, "auto_accept_min_ckb_funding_amount"))
    && SameUpToListOrder(Get(a, "udt_cfg_infos"), Get(b, "udt_cfg_infos"))
  }

  /** The announced name; an empty one falls back to the older field. */
  function NameOf(n: Dict): Json {
    if Get(n, "node_name") != Str("") then Get(n, "node_name")
    else if Truthy(Get(n, "name")) then Get(n, "name")
    else Str("")
  }

  lemma ValidFields(n: Dict)
    requires ValidNode(n)
    ensures Or(Get(n, "node_name"), Or(Get(n, "name"), Str(""))) == NameOf(n)
    ensures Or(Get(n, "version"), Str("")) == Get(n, "version")
    ensures Or(Get(n, "udt_cfg_infos"), Arr([])) == Get(n, "udt_cfg_infos")
    ensures IsStrings(Get(n, "addresses")) && IsStrings(Get(n, "features"))
  {
    hide IsUint, IsStrings;
  }

  /** The nine entries of a payload. */
  ghost predicate SameEntriesOf(a: Dict, b: Dict) {
    && Pubkey(a) == Pubkey(b)
    && ToInt(Get(a, "timestamp")) == ToInt(Get(b, "timestamp"))
    && Or(Get(a, "node_name"), Or(Get(a, "name"), Str(""))) == Or(Get(b, "node_name"), Or(Get(b, "name"), Str("")))
    && Or(Get(a, "version"), Str("")) == Or(Get(b, "version"), Str(""))
    && SortedStrings(Get(a, "addresses")) == SortedStrings(Get(b, "addresses"))
    && SortedStrings(Get(a, "features")) == SortedStrings(Get(b, "features"))
    && Text(Get(a, "chain_hash")) == Text(Get(b, "chain_hash"))
    && ToInt(Get(a, "auto_accept_min_ckb_funding_amount")) == ToInt(Get(b, "auto_accept_min_ckb_funding_amount"))
    && Canonical(Or(Get(a, "udt_cfg_infos"), Arr([]))) == Canonical(Or(Get(b, "udt_cfg_infos"), Arr([])))
  }

  /** The nine fields of a payload. */
  lemma PayloadFields(n: Dict)
    ensures NodePayload(n).Obj?
    ensures var p := NodePayload(n).fields;
      && p.Keys == {"pubkey", "timestamp", "node_name", "version", "addresses", "features", "chain_hash",
                    "auto_accept_min_ckb_funding_amount", "udt_cfg_infos"}
      && p["pubkey"] == Str(Pubkey(n)) && p["timestamp"] == Num(ToInt(Get(n, "timestamp")))
      && p["node_name"] == Or(Get(n, "node_name"), Or(Get(n, "name"), Str("")))
      && p["version"] == Or(Get(n, "version"), Str(""))
      && p["addresses"] == SortedStrings(Get(n, "addresses")) && p["features"] == SortedStrings(Get(n, "features"))
      && p["chain_hash"] == Str(Text(Get(n, "chain_hash")))
      && p["auto_accept_min_ckb_funding_amount"] == Num(ToInt(Get(n, "auto_accept_min_ckb_funding_amount")))
      && p["udt_cfg_infos"] == Canonical(Or(Get(n, "udt_cfg_infos"), Arr([])))
  {
    hide Get, Text, ToInt, Canonical, SortedStrings, Or, Pubkey;
  }

  lemma PayloadEntries(a: Dict, b: Dict)
    ensures NodePayload(a) == NodePayload(b) <==> SameEntriesOf(a, b)
  {
    hide Get, Text, ToInt, Canonical, SortedStrings, Or, Pubkey, NodePayload;
    PayloadFields(a);
    PayloadFields(b);
    var p, q := NodePayload(a).fields, NodePayload(b).fields;
    if SameEntriesOf(a, b) {
      forall k | k in p.Keys ensures p[k] == q[k] {
      }
      assert p == q;
    }
  }

  /** The node payload covers exactly these fields: any change of one of them changes it. */
  lemma PayloadIffSameNode(a: Dict, b: Dict)
    requires ValidNode(a) && ValidNode(b)
    ensures NodePayload(a) == NodePayload(b) <==> SameNode(a, b)
  {
    hide Get, Text, ToInt, Canonical, SameUpToListOrder, SortedStrings, SameStrings, ValidNode, Or, NameOf, NodePayload;
    ValidFields(a);
    ValidFields(b);
    PayloadEntries(a, b);
    CanonicalDecides(Get(a, "udt_cfg_infos"), Get(b, "udt_cfg_infos"));
    SortedStringsDecides(Get(a, "addresses"), Get(b, "addresses"));
    SortedStringsDecides(Get(a, "features"), Get(b, "features"));
  }
}

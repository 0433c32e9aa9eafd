/** When the channel digest does not depend on the order or the paging of the records.

It is meant to depend on neither. Paging never matters. Order can: the UDT scripts of duplicate
records are compared with Python's `==`, which takes True for 1, while the digest prints them, and
the first script seen is the one that is kept. Two streams of the same records have the same digest
exactly when each channel has the same first script in both.
*/
module ChannelOrder {
  import opened Ordering
  import opened JsonText
  import opened CanonicalValues
  import opened GraphRecords
  import opened ChannelDigest

  /** Records of one channel that carry a UDT script carry the same canonical one. */
  ghost predicate OneScript(xs: seq<Dict>) {
    forall x, y :: x in xs && y in xs && Outpoint(x) != "" && Outpoint(x) == Outpoint(y) ==>
      Says(UDT, x) == Null || Says(UDT, y) == Null || Says(UDT, x) == Says(UDT, y)
  }

  ghost predicate SameRecords(xs: seq<Dict>, ys: seq<Dict>) {
    forall x :: x in xs <==> x in ys
  }

  lemma PlainEquality(f: string, x: Dict, y: Dict)
    requires f in TEXTS || f in NUMBERS
    requires PyEq(Says(f, x), Says(f, y))
    ensures Says(f, x) == Says(f, y)
  {
  }

  lemma SourcedSays(f: string, r: Dict, r': Dict, xs: seq<Dict>, k: string)
    requires f in IDENTITY && f != UDT
    requires Summarises(r, xs, k) && Summarises(r', xs, k) && Says(f, r) != Null
    ensures Says(f, r) == Says(f, r')
  {
    hide Says, Outpoint, Get;
    var x :| x in xs && Outpoint(x) == k && Says(f, x) == Says(f, r);
    assert Says(f, r') != Null && PyEq(Says(f, x), Says(f, r'));
    PlainEquality(f, x, r');
  }

  lemma SourcedUpdate(f: string, r: Dict, r': Dict, xs: seq<Dict>, k: string)
    requires f in SIDES && Summarises(r, xs, k) && Summarises(r', xs, k)
    ensures UpdateLeq(Get(r, f), Get(r', f))
  {
    hide Says, Outpoint, Get;
    if Get(r, f) != Null {
      var x :| x in xs && Outpoint(x) == k && Get(x, f) == Get(r, f);
    }
  }

  lemma PayloadFromSays(r: Dict, r': Dict)
    requires forall f :: f in IDENTITY ==> Says(f, r) == Says(f, r')
    requires forall f :: f in SIDES ==> Get(r, f) == Get(r', f)
    ensures ChannelPayload(r) == ChannelPayload(r')
  {
    hide Canonical, ToInt, Text, Says, Get;
    TextFromSays("channel_outpoint", r, r');
    TextFromSays("node1", r, r');
    TextFromSays("node2", r, r');
    TextFromSays("chain_hash", r, r');
    NumberFromSays("created_timestamp", r, r');
    NumberFromSays("capacity", r, r');
    ScriptFromSays(r, r');
    assert Get(r, SIDES[0]) == Get(r', SIDES[0]) && Get(r, SIDES[1]) == Get(r', SIDES[1]);
  }

  lemma TextFromSays(f: string, r: Dict, r': Dict)
    requires f in TEXTS && Says(f, r) == Says(f, r')
    ensures Text(Get(r, f)) == Text(Get(r', f))
  {
    hide Text;
  }

  lemma ScriptFromSays(r: Dict, r': Dict)
    requires Says(UDT, r) == Says(UDT, r')
    ensures Canonical(Get(r, UDT)) == Canonical(Get(r', UDT))
  {
    hide Canonical;
  }

  lemma NumberFromSays(f: string, r: Dict, r': Dict)
    requires f in NUMBERS && Says(f, r) == Says(f, r')
    ensures ToInt(Get(r, f)) == ToInt(Get(r', f))
  {
  }

  /** Two summaries of the same records differ at most in the script they kept. */
  lemma SummaryUnique(r: Dict, r': Dict, xs: seq<Dict>, k: string)
    requires Summarises(r, xs, k) && Summarises(r', xs, k)
    ensures ChannelPayload(r) == ChannelPayload(r') <==> Says(UDT, r) == Says(UDT, r')
  {
    hide Summarises, Says, ChannelPayload, UpdateLeq, Get;
    PayloadScript(r);
    PayloadScript(r');
    if Says(UDT, r) == Says(UDT, r') {
      forall f | f in IDENTITY ensures Says(f, r) == Says(f, r') {
        if f == UDT {
        } else if Says(f, r) != Null {
          SourcedSays(f, r, r', xs, k);
        } else if Says(f, r') != Null {
          SourcedSays(f, r', r, xs, k);
        }
      }
      forall f | f in SIDES ensures Get(r, f) == Get(r', f) {
        SourcedUpdate(f, r, r', xs, k);
        SourcedUpdate(f, r', r, xs, k);
        UpdateAntisym(Get(r, f), Get(r', f));
      }
      PayloadFromSays(r, r');
    }
  }

  lemma PayloadScript(r: Dict)
    ensures "udt_type_script" in ChannelPayload(r).fields
    ensures ChannelPayload(r).fields["udt_type_script"] == Says(UDT, r)
  {
  }

  lemma EntryOf(m: map<string, Dict>, m': map<string, Dict>, k: string)
    requires Entries(m, ChannelPayload) == Entries(m', ChannelPayload) && m.Keys == m'.Keys && k in m
    ensures ChannelPayload(m[k]) == ChannelPayload(m'[k])
  {
    hide ChannelPayload;
    var ks := SortedKeys(m.Keys);
    assert k in ks;
    var i :| 0 <= i < |ks| && ks[i] == k;
    assert Entries(m, ChannelPayload)[i] == Entries(m', ChannelPayload)[i];
  }

  lemma SummaryKeys(m: map<string, Dict>, m': map<string, Dict>, xs: seq<Dict>)
    requires SummarisesAll(m, xs) && SummarisesAll(m', xs)
    ensures m.Keys == m'.Keys
  {
    hide Summarises, Outpoint;
    forall k ensures k in m <==> k in m' {
      if k in m {
        var x :| x in xs && Outpoint(x) == k;
      }
      if k in m' {
        var x :| x in xs && Outpoint(x) == k;
      }
    }
  }

  /** Two dictionaries of summaries of the same records print the same exactly when they kept the
      same scripts. */
  lemma SameSummariesIff(m: map<string, Dict>, m': map<string, Dict>, xs: seq<Dict>)
    requires SummarisesAll(m, xs) && SummarisesAll(m', xs)
    ensures m.Keys == m'.Keys
    ensures Entries(m, ChannelPayload) == Entries(m', ChannelPayload) <==>
      forall k :: k in m ==> Says(UDT, m[k]) == Says(UDT, m'[k])
  {
    hide Summarises, ChannelPayload, Outpoint, Entries, Says;
    SummaryKeys(m, m', xs);
    forall k | k in m
      ensures ChannelPayload(m[k]) == ChannelPayload(m'[k]) <==> Says(UDT, m[k]) == Says(UDT, m'[k])
    {
      SummaryUnique(m[k], m'[k], xs, k);
    }
    if Entries(m, ChannelPayload) == Entries(m', ChannelPayload) {
      forall k | k in m ensures Says(UDT, m[k]) == Says(UDT, m'[k]) {
        EntryOf(m, m', k);
      }
    }
    if forall k :: k in m ==> Says(UDT, m[k]) == Says(UDT, m'[k]) {
      SameEntries(m, m', ChannelPayload);
    }
  }

  // ----- the script that is kept -----

  /** The script of the first record of a channel that carries one. */
  function FirstScript(xs: seq<Dict>, k: string): Json {
    if xs == [] then Null
    else
      var rest, x := FirstScript(xs[..|xs| - 1], k), xs[|xs| - 1];
      if rest != Null then rest else if Outpoint(x) == k then Says(UDT, x) else Null
  }

  ghost predicate SameFirstScripts(xs: seq<Dict>, ys: seq<Dict>) {
    forall k :: k != "" ==> FirstScript(xs, k) == FirstScript(ys, k)
  }

  lemma {:induction false} FirstScriptConcat(a: seq<Dict>, b: seq<Dict>, k: string)
    ensures FirstScript(a + b, k) == if FirstScript(a, k) != Null then FirstScript(a, k) else FirstScript(b, k)
    decreases |b|
  {
    hide Outpoint, Says;
    if b == [] {
      assert a + b == a;
    } else {
      FirstScriptConcat(a, b[..|b| - 1], k);
      assert (a + b)[..|a + b| - 1] == a + b[..|b| - 1];
    }
  }

  lemma {:induction false} FirstScriptSource(xs: seq<Dict>, k: string)
    ensures FirstScript(xs, k) != Null ==> exists x :: x in xs && Outpoint(x) == k && Says(UDT, x) == FirstScript(xs, k)
    ensures FirstScript(xs, k) == Null ==> forall x :: x in xs && Outpoint(x) == k ==> Says(UDT, x) == Null
  {
    hide Outpoint, Says;
    if xs != [] {
      var rest, x := xs[..|xs| - 1], xs[|xs| - 1];
      assert xs == rest + [x];
      FirstScriptSource(rest, k);
    }
  }

  /** What a dictionary has kept for a channel, if anything. */
  function KeptScript(keyed: map<string, Dict>, k: string): Json {
    if k in keyed then Says(UDT, keyed[k]) else Null
  }

  /** The merge keeps the first script of each channel. */
  lemma {:induction false} FoldKeepsFirst(xs: seq<Dict>, k: string)
    requires Fold(xs, Outpoint, ChannelMerge).Ok? && k != ""
    ensures KeptScript(Fold(xs, Outpoint, ChannelMerge).value, k) == FirstScript(xs, k)
  {
    hide Compatible, Joined, Outpoint, Says;
    if xs != [] {
      var rest, x := xs[..|xs| - 1], xs[|xs| - 1];
      FoldKeepsFirst(rest, k);
      var keyed := Fold(rest, Outpoint, ChannelMerge).value;
      if Outpoint(x) == k && k in keyed {
        JoinedSays(UDT, keyed[k], x);
      }
    }
  }

  /** A merged page carries the first scripts of the page. */
  lemma KeyedListFirst(keyed: map<string, Dict>, k: string)
    requires forall l :: l in keyed ==> Outpoint(keyed[l]) == l
    ensures FirstScript(KeyedList(keyed), k) == KeptScript(keyed, k)
  {
    hide Outpoint, Says;
    KeyedListMembers(keyed);
    FirstScriptSource(KeyedList(keyed), k);
    if k in keyed {
      assert keyed[k] in KeyedList(keyed);
    }
  }

  /** Two streams that merge, whose merges summarise the same records, have the same digest exactly
      when their first scripts are the same. */
  lemma EntriesIffFirstScripts(xs: seq<Dict>, ys: seq<Dict>, zs: seq<Dict>)
    requires Fold(xs, Outpoint, ChannelMerge).Ok? && Fold(ys, Outpoint, ChannelMerge).Ok?
    requires SummarisesAll(Fold(xs, Outpoint, ChannelMerge).value, zs)
    requires SummarisesAll(Fold(ys, Outpoint, ChannelMerge).value, zs)
    ensures ChannelEntries(xs) == ChannelEntries(ys) <==> SameFirstScripts(xs, ys)
  {
    hide Fold, Outpoint, Says, FirstScript, Entries;
    var m, m' := Fold(xs, Outpoint, ChannelMerge).value, Fold(ys, Outpoint, ChannelMerge).value;
    SameSummariesIff(m, m', zs);
    assert forall k :: k in m ==> k != "";
    hide SummarisesAll;
    forall k | k != ""
      ensures KeptScript(m, k) == FirstScript(xs, k) && KeptScript(m', k) == FirstScript(ys, k)
    {
      FoldKeepsFirst(xs, k);
      FoldKeepsFirst(ys, k);
    }
    if SameFirstScripts(xs, ys) {
      forall k | k in m ensures Says(UDT, m[k]) == Says(UDT, m'[k]) {
        assert KeptScript(m, k) == FirstScript(xs, k) == FirstScript(ys, k) == KeptScript(m', k);
      }
    }
    if forall k :: k in m ==> Says(UDT, m[k]) == Says(UDT, m'[k]) {
      forall k | k != "" ensures FirstScript(xs, k) == FirstScript(ys, k) {
        assert KeptScript(m, k) == KeptScript(m', k);
      }
    }
  }

  // ----- order and repetition -----

  lemma SummaryOfSameRecords(keyed: map<string, Dict>, xs: seq<Dict>, ys: seq<Dict>)
    requires SameRecords(xs, ys) && SummarisesAll(keyed, xs)
    ensures SummarisesAll(keyed, ys)
  {
    hide Covers, Outpoint, Says, Get;
    forall k | k in keyed
      ensures (exists y :: y in ys && Outpoint(y) == k) && Summarises(keyed[k], ys, k)
    {
      var x :| x in xs && Outpoint(x) == k;
      assert x in ys;
    }
  }

  /** Any reordering or repetition of the records raises a conflict if one of them does. */
  lemma ConflictOrderFree(xs: seq<Dict>, ys: seq<Dict>)
    requires SameRecords(xs, ys)
    ensures ChannelEntries(xs).Err? <==> ChannelEntries(ys).Err?
  {
    hide Compatible, Outpoint, ChannelEntries;
    ConflictIffContradiction(xs);
    ConflictIffContradiction(ys);
  }

  lemma SameRecordsSym(xs: seq<Dict>, ys: seq<Dict>)
    requires SameRecords(xs, ys)
    ensures SameRecords(ys, xs)
  {
  }

  /** Two streams of the same records, without a conflict, have the same digest if and only if each
      channel has the same first script in both. */
  lemma DigestSameIff(xs: seq<Dict>, ys: seq<Dict>)
    requires SameRecords(xs, ys) && ChannelEntries(xs).Ok?
    ensures ChannelEntries(ys).Ok?
    ensures ChannelEntries(xs) == ChannelEntries(ys) <==> SameFirstScripts(xs, ys)
  {
    hide SummarisesAll, SameRecords, Contradict, Entries, SameFirstScripts;
    FoldSummarises(xs);
    FoldSummarises(ys);
    ConflictOrderFree(xs, ys);
    SameRecordsSym(xs, ys);
    SummaryOfSameRecords(Fold(ys, Outpoint, ChannelMerge).value, ys, xs);
    EntriesIffFirstScripts(xs, ys, xs);
  }

  lemma OneScriptSuffices(xs: seq<Dict>, ys: seq<Dict>)
    requires SameRecords(xs, ys) && OneScript(xs)
    ensures SameFirstScripts(xs, ys)
  {
    hide Outpoint, Says, FirstScript;
    forall k | k != "" ensures FirstScript(xs, k) == FirstScript(ys, k) {
      FirstScriptSource(xs, k);
      FirstScriptSource(ys, k);
    }
  }

  /** A record put in front brings its script to the front. */
  lemma FirstScriptFront(x: Dict, xs: seq<Dict>)
    requires Says(UDT, x) != Null
    ensures FirstScript([x] + xs, Outpoint(x)) == Says(UDT, x)
  {
    hide Outpoint, Says;
    FirstScriptConcat([x], xs, Outpoint(x));
    assert [x][..0] == [];
  }

  /** For records without a conflict: every reordering and repetition gives the same digest
      if and only if the records of each channel agree on one canonical UDT script. */
  lemma DigestOrderFreeIff(xs: seq<Dict>)
    requires ChannelEntries(xs).Ok?
    ensures (forall ys :: SameRecords(xs, ys) ==> ChannelEntries(ys) == ChannelEntries(xs)) <==> OneScript(xs)
  {
    hide ChannelEntries, Outpoint, Says, FirstScript;
    if OneScript(xs) {
      forall ys | SameRecords(xs, ys) ensures ChannelEntries(ys) == ChannelEntries(xs) {
        OneScriptSuffices(xs, ys);
        DigestSameIff(xs, ys);
      }
    } else {
      var x, y :| x in xs && y in xs && Outpoint(x) != "" && Outpoint(x) == Outpoint(y)
        && !(Says(UDT, x) == Null || Says(UDT, y) == Null || Says(UDT, x) == Says(UDT, y));
      assert SameRecords(xs, [x] + xs) && SameRecords(xs, [y] + xs);
      FirstScriptFront(x, xs);
      FirstScriptFront(y, xs);
      DigestSameIff(xs, [x] + xs);
      DigestSameIff(xs, [y] + xs);
    }
  }

  // ----- a concrete pair of records for which order does matter -----

  function Sample(arg: Json): Dict {
    map["channel_outpoint" := Str("0x1"), "node1" := Str("02a"), "node2" := Str("02b"), "chain_hash" := Str("0xc"),
        "created_timestamp" := Num(1), "capacity" := Num(1), "udt_type_script" := Obj(map["args" := arg]),
        "update_info_of_node1" := Null, "update_info_of_node2" := Null]
  }

  lemma SampleValid(arg: Json)
    ensures ValidChannel(Sample(arg)) && Get(Sample(arg), "channel_outpoint") == Str("0x1")
  {
    var d := Sample(arg);
    forall f | f in ["channel_outpoint", "node1", "node2", "chain_hash"] ensures Get(d, f).Str? && Get(d, f) != Str("") {
    }
  }

  /** Two schema-valid records that differ in `true` against `1` raise no conflict, and their order shows. */
  lemma OrderCanMatter()
    ensures var x, y := Sample(Bool(true)), Sample(Num(1));
      && ValidChannel(x) && ValidChannel(y)
      && ChannelEntries([x, y]).Ok? && ChannelEntries([y, x]).Ok? && ChannelEntries([x, y]) != ChannelEntries([y, x])
  {
    hide Says, Outpoint, Compatible, ChannelEntries, Sample, Contradict, ValidChannel, FirstScript;
    var x, y := Sample(Bool(true)), Sample(Num(1));
    SampleValid(Bool(true));
    SampleValid(Num(1));
    SampleFacts(Bool(true));
    SampleFacts(Num(1));
    assert [x, y] == [x] + [y] && [y, x] == [y] + [x];
    assert !Contradict([x, y]) by {
      SamplesAgree();
    }
    ConflictIffContradiction([x, y]);
    ConflictOrderFree([x, y], [y, x]);
    assert Says(UDT, x).fields["args"] != Says(UDT, y).fields["args"];
    FirstScriptFront(x, [y]);
    FirstScriptFront(y, [x]);
    DigestSameIff([x, y], [y, x]);
  }

  lemma SamplesAgree()
    ensures !Contradict([Sample(Bool(true)), Sample(Num(1))])
  {
    hide Says, Outpoint, Compatible, Sample;
    SamplesCompatible(Bool(true), Num(1));
    SamplesCompatible(Num(1), Bool(true));
    CoversSelf(Sample(Bool(true)));
    CoversSelf(Sample(Num(1)));
    CoveredCompatible(Sample(Bool(true)), Sample(Bool(true)), Sample(Bool(true)));
    CoveredCompatible(Sample(Num(1)), Sample(Num(1)), Sample(Num(1)));
  }

  lemma SampleFacts(arg: Json)
    requires arg.Bool? || arg.Num?
    ensures Outpoint(Sample(arg)) == "0x1"
    ensures Says(UDT, Sample(arg)) == Obj(map["args" := arg])
  {
    var m := map["args" := arg];
    assert Canonical(Obj(m)).fields == m;
    assert Get(Sample(arg), UDT) == Obj(m);
  }

  lemma SameButScript(f: string, a: Json, b: Json)
    requires f != UDT
    ensures Says(f, Sample(a)) == Says(f, Sample(b))
  {
    hide Text, ToInt, Canonical;
    assert Get(Sample(a), f) == Get(Sample(b), f);
  }

  lemma SamplesCompatible(a: Json, b: Json)
    requires a in [Bool(true), Num(1)] && b in [Bool(true), Num(1)]
    ensures Compatible(IDENTITY, Sample(a), Sample(b))
  {
    hide Says, Sample;
    SampleFacts(a);
    SampleFacts(b);
    assert Unbool(Obj(map["args" := a])).fields == map["args" := Num(1)];
    assert Unbool(Obj(map["args" := b])).fields == map["args" := Num(1)];
    forall f | f in IDENTITY ensures !Clash(f, Sample(a), Sample(b)) {
      if f != UDT {
        SameButScript(f, a, b);
      }
    }
  }

  // ----- merging a page beforehand -----

  /** `p` stands for the records of its channel in `page`. */
  ghost predicate StandsFor(p: Dict, page: seq<Dict>) {
    Outpoint(p) != "" && Summarises(p, page, Outpoint(p))
  }

  lemma JoinedOutpoint(keyed: map<string, Dict>, page: seq<Dict>, k: string)
    requires SummarisesAll(keyed, page) && k in keyed
    ensures Outpoint(keyed[k]) == k
  {
    hide Says;
    var x :| x in page && Outpoint(x) == k;
    SaysOutpoint(x);
    SaysOutpoint(keyed[k]);
    assert Covers(keyed[k], x);
    assert "channel_outpoint" in IDENTITY;
    PlainEquality("channel_outpoint", x, keyed[k]);
  }

  lemma SaysOutpoint(x: Dict)
    ensures Says("channel_outpoint", x) == if Outpoint(x) == "" then Null else Str(Outpoint(x))
  {
  }

  /** What the merged page says, the page said, and nothing the page said is lost. */
  ghost predicate MergedPage(merged: seq<Dict>, page: seq<Dict>) {
    && (forall p :: p in merged ==> StandsFor(p, page))
    && (forall x :: x in page && Outpoint(x) != "" ==>
          exists p :: p in merged && Outpoint(p) == Outpoint(x) && Covers(p, x))
  }

  lemma PageMerges(page: seq<Dict>, keyed: map<string, Dict>)
    requires SummarisesAll(keyed, page)
    ensures MergedPage(KeyedList(keyed), page)
  {
    hide Covers, Outpoint, Sourced;
    KeyedListMembers(keyed);
    forall k | k in keyed ensures Outpoint(keyed[k]) == k {
      JoinedOutpoint(keyed, page, k);
    }
    forall x | x in page && Outpoint(x) != ""
      ensures exists p :: p in KeyedList(keyed) && Outpoint(p) == Outpoint(x) && Covers(p, x)
    {
      assert keyed[Outpoint(x)] in KeyedList(keyed);
    }
  }

  lemma CoversStandIn(r: Dict, p: Dict, page: seq<Dict>)
    requires StandsFor(p, page)
    requires forall x :: x in page && Outpoint(x) == Outpoint(p) ==> Covers(r, x)
    ensures Covers(r, p)
  {
    hide Says, Get, Outpoint, UpdateLeq;
    forall f | f in SIDES ensures UpdateLeq(Get(p, f), Get(r, f)) {
      if Get(p, f) == Null {
        NullUpdate(Get(r, f));
      } else {
        var x :| x in page && Outpoint(x) == Outpoint(p) && Get(x, f) == Get(p, f);
      }
    }
  }

  lemma NullUpdate(u: Json)
    ensures UpdateLeq(Null, u)
  {
  }

  lemma CoversTrans(r: Dict, p: Dict, x: Dict)
    requires Covers(r, p) && Covers(p, x)
    ensures Covers(r, x)
  {
    hide Says, Get, UpdateLeq;
    forall f | f in SIDES ensures UpdateLeq(Get(x, f), Get(r, f)) {
      UpdateTrans(Get(x, f), Get(p, f), Get(r, f));
    }
  }

  lemma SourcedInPage(r: Dict, a: seq<Dict>, merged: seq<Dict>, page: seq<Dict>, b: seq<Dict>, k: string)
    requires MergedPage(merged, page) && Sourced(r, a + merged + b, k)
    ensures Sourced(r, a + page + b, k)
  {
    hide Says, Get, Outpoint, Covers;
    var xs, ys := a + merged + b, a + page + b;
    forall f | f in IDENTITY && Says(f, r) != Null
      ensures exists x :: x in ys && Outpoint(x) == k && Says(f, x) == Says(f, r)
    {
      var z :| z in xs && Outpoint(z) == k && Says(f, z) == Says(f, r);
      if z in merged {
        var x :| x in page && Outpoint(x) == Outpoint(z) && Says(f, x) == Says(f, z);
        assert x in ys;
      } else {
        assert z in ys;
      }
    }
    forall f | f in SIDES && Get(r, f) != Null
      ensures exists x :: x in ys && Outpoint(x) == k && Get(x, f) == Get(r, f)
    {
      var z :| z in xs && Outpoint(z) == k && Get(z, f) == Get(r, f);
      if z in merged {
        var x :| x in page && Outpoint(x) == Outpoint(z) && Get(x, f) == Get(z, f);
        assert x in ys;
      } else {
        assert z in ys;
      }
    }
  }

  /** A summary of the stream with the merged page also summarises the stream with the page. */
  lemma SummaryOfPremerged(all: map<string, Dict>, a: seq<Dict>, merged: seq<Dict>, page: seq<Dict>, b: seq<Dict>)
    requires MergedPage(merged, page) && SummarisesAll(all, a + merged + b)
    ensures SummarisesAll(all, a + page + b)
  {
    hide Covers, Outpoint, Sourced;
    var xs, ys := a + merged + b, a + page + b;
    forall x | x in ys && Outpoint(x) != ""
      ensures Outpoint(x) in all && Covers(all[Outpoint(x)], x)
    {
      if x in page {
        var p :| p in merged && Outpoint(p) == Outpoint(x) && Covers(p, x);
        assert p in xs;
        CoversTrans(all[Outpoint(x)], p, x);
      } else {
        assert x in xs;
      }
    }
    forall k | k in all
      ensures k != "" && (exists x :: x in ys && Outpoint(x) == k) && Summarises(all[k], ys, k)
    {
      SourcedInPage(all[k], a, merged, page, b, k);
      var z :| z in xs && Outpoint(z) == k;
      if z in merged {
        StandInHasRecord(z, page);
        var x :| x in page && Outpoint(x) == k;
        assert x in ys;
      } else {
        assert z in ys;
      }
    }
  }

  lemma StandInHasRecord(p: Dict, page: seq<Dict>)
    requires StandsFor(p, page)
    ensures exists x :: x in page && Outpoint(x) == Outpoint(p)
  {
    SaysOutpoint(p);
    assert "channel_outpoint" in IDENTITY;
  }

  lemma SummaryAgrees(all: map<string, Dict>, xs: seq<Dict>)
    requires SummarisesAll(all, xs)
    ensures !Contradict(xs)
  {
    hide Compatible, Covers, Outpoint, Sourced;
    forall x, y | x in xs && y in xs && Outpoint(x) != "" && Outpoint(x) == Outpoint(y)
      ensures Compatible(IDENTITY, x, y)
    {
      CoveredCompatible(all[Outpoint(x)], x, y);
    }
  }

  /** A summary of the stream with the page leaves no room for a contradiction of the merged page. */
  lemma PremergedAgrees(all: map<string, Dict>, a: seq<Dict>, merged: seq<Dict>, page: seq<Dict>, b: seq<Dict>)
    requires MergedPage(merged, page) && SummarisesAll(all, a + page + b)
    ensures !Contradict(a + merged + b)
  {
    hide Compatible, Covers, Outpoint, Sourced, StandsFor;
    var xs, ys := a + merged + b, a + page + b;
    forall x | x in xs && Outpoint(x) != ""
      ensures Outpoint(x) in all && Covers(all[Outpoint(x)], x)
    {
      if x in merged {
        StandInHasRecord(x, page);
        var z :| z in page && Outpoint(z) == Outpoint(x);
        assert z in ys;
        forall y | y in page && Outpoint(y) == Outpoint(x) ensures Covers(all[Outpoint(x)], y) {
          assert y in ys;
        }
        CoversStandIn(all[Outpoint(x)], x, page);
      } else {
        assert x in ys;
      }
    }
    forall x, y | x in xs && y in xs && Outpoint(x) != "" && Outpoint(x) == Outpoint(y)
      ensures Compatible(IDENTITY, x, y)
    {
      CoveredCompatible(all[Outpoint(x)], x, y);
    }
  }

  lemma PremergedFirst(a: seq<Dict>, page: seq<Dict>, b: seq<Dict>)
    requires Fold(page, Outpoint, ChannelMerge).Ok?
    ensures SameFirstScripts(a + KeyedList(Fold(page, Outpoint, ChannelMerge).value) + b, a + page + b)
  {
    hide FirstScript, SummarisesAll, Outpoint, ChannelMerge, Fold;
    var keyed := Fold(page, Outpoint, ChannelMerge).value;
    FoldSummarises(page);
    forall l | l in keyed ensures Outpoint(keyed[l]) == l {
      JoinedOutpoint(keyed, page, l);
    }
    forall k | k != "" ensures FirstScript(a + KeyedList(keyed) + b, k) == FirstScript(a + page + b, k) {
      FoldKeepsFirst(page, k);
      KeyedListFirst(keyed, k);
      FirstScriptConcat(a, KeyedList(keyed), k);
      FirstScriptConcat(a + KeyedList(keyed), b, k);
      FirstScriptConcat(a, page, k);
      FirstScriptConcat(a + page, b, k);
    }
  }

  /** Merging one page beforehand, wherever it stands in the stream, neither makes nor hides a
      conflict, and never changes the digest. */
  lemma ChannelDigestPremerged(a: seq<Dict>, page: seq<Dict>, b: seq<Dict>)
    requires Fold(page, Outpoint, ChannelMerge).Ok?
    ensures var merged := KeyedList(Fold(page, Outpoint, ChannelMerge).value);
      && (ChannelEntries(a + merged + b).Err? <==> ChannelEntries(a + page + b).Err?)
      && (ChannelEntries(a + page + b).Ok? ==> ChannelEntries(a + merged + b) == ChannelEntries(a + page + b))
  {
    hide SummarisesAll, Contradict, MergedPage, SameFirstScripts, Entries;
    var keyed := Fold(page, Outpoint, ChannelMerge).value;
    FoldSummarises(page);
    PageMerges(page, keyed);
    var xs, ys := a + KeyedList(keyed) + b, a + page + b;
    FoldSummarises(xs);
    FoldSummarises(ys);
    ConflictIffContradiction(xs);
    ConflictIffContradiction(ys);
    if ChannelEntries(xs).Ok? {
      var all := Fold(xs, Outpoint, ChannelMerge).value;
      SummaryOfPremerged(all, a, KeyedList(keyed), page, b);
      SummaryAgrees(all, ys);
      PremergedFirst(a, page, b);
      EntriesIffFirstScripts(xs, ys, ys);
    }
    if ChannelEntries(ys).Ok? {
      PremergedAgrees(Fold(ys, Outpoint, ChannelMerge).value, a, KeyedList(keyed), page, b);
    }
  }
}

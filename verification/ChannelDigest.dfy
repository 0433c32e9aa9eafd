/** Channel announcements: the direction-by-direction merge, which may raise, and the digest. */
module ChannelDigest {
  import opened Wrappers
  import opened Ordering
  import opened JsonText
  import opened CanonicalValues
  import opened GraphRecords

  const TEXTS: seq<string> := ["channel_outpoint", "node1", "node2", "chain_hash"]
  const NUMBERS: seq<string> := ["created_timestamp", "capacity"]
  const UDT: string := "udt_type_script"
  const SIDES: seq<string> := ["update_info_of_node1", "update_info_of_node2"]

  /** What an identity field says, or Null when it says nothing. */
  function Says(f: string, c: Dict): Json {
    var v := Get(c, f);
    if f in TEXTS then if Text(v) == "" then Null else Str(Text(v))
    else if f in NUMBERS then if v == Null then Null else Num(ToInt(v))
    else Canonical(v)
  }

  /** Two records disagree on an identity field. */
  predicate Clash(f: string, a: Dict, b: Dict) {
    Says(f, a) != Null && Says(f, b) != Null && !PyEq(Says(f, a), Says(f, b))
  }

  function UpdateTime(u: Json): int {
    if u.Obj? then ToInt(Get(u.fields, "timestamp")) else 0
  }

  function PickNewer(a: Json, b: Json): Json {
    if a == Null then b
    else if b == Null then a
    else if UpdateTime(a) != UpdateTime(b) then if UpdateTime(b) > UpdateTime(a) then b else a
    else if CanonLeq(b, a) then a else b
  }

  predicate Compatible(fields: seq<string>, a: Dict, b: Dict) {
    forall f :: f in fields ==> !Clash(f, a, b)
  }

  function JoinedField(f: string, e: Dict, i: Dict): Json {
    if f in SIDES then PickNewer(Get(e, f), Get(i, f))
    else if Says(f, e) != Null then Get(e, f) else Get(i, f)
  }

  /** The existing record with some fields joined with the incoming one. */
  function Joined(fields: seq<string>, e: Dict, i: Dict): Dict {
    e + (map f | f in fields :: JoinedField(f, e, i))
  }

  const IDENTITY: seq<string> := TEXTS + NUMBERS + [UDT]

  function ChannelMerge(existing: Option<Dict>, incoming: Dict): Result<Dict, GraphError> {
    match existing
    case None => Ok(incoming)
    case Some(e) =>
      if Compatible(IDENTITY, e, incoming) then Ok(Joined(IDENTITY + SIDES, e, incoming)) else Err(Conflict)
  }

  /** `_merge_channel`: field by field, raising at the first conflict. */
  method MergeChannel(existing: Option<Dict>, incoming: Dict) returns (r: Result<Dict, GraphError>)
    ensures r == ChannelMerge(existing, incoming)
  {
    hide Compatible, Joined, JoinedField, Clash, Get, Text, ToInt, PyEq, Canonical, PickNewer;
    if existing == None {
      return Ok(incoming);
    }
    var e := existing.value;
    var merged := e;
    JoinedNone(e, incoming);
    for k := 0 to |TEXTS|
      invariant Merging(TEXTS[..k], e, incoming, merged)
    {
      var f := TEXTS[k];
      TextStep(f, e, incoming);
      var mine, theirs := Text(Get(e, f)), Text(Get(incoming, f));
      if mine != "" && theirs != "" && mine != theirs {
        ClashRefuses(f, e, incoming);
        return Err(Conflict);
      }
      JoinedSnoc(TEXTS[..k], f, e, incoming);
      merged := merged[f := if mine != "" then Get(e, f) else Get(incoming, f)];
      assert TEXTS[..k + 1] == TEXTS[..k] + [f];
    }
    assert TEXTS[..|TEXTS|] == TEXTS + NUMBERS[..0];
    for k := 0 to |NUMBERS|
      invariant Merging(TEXTS + NUMBERS[..k], e, incoming, merged)
    {
      var f := NUMBERS[k];
      NumberStep(f, e, incoming);
      var mine, theirs := Get(e, f), Get(incoming, f);
      if mine != Null && theirs != Null && ToInt(mine) != ToInt(theirs) {
        ClashRefuses(f, e, incoming);
        return Err(Conflict);
      }
      JoinedSnoc(TEXTS + NUMBERS[..k], f, e, incoming);
      merged := merged[f := if mine != Null then mine else theirs];
      assert TEXTS + NUMBERS[..k + 1] == TEXTS + NUMBERS[..k] + [f];
    }
    UdtStep(e, incoming);
    var mine, theirs := Get(e, UDT), Get(incoming, UDT);
    if mine != Null && theirs != Null && !PyEq(Canonical(mine), Canonical(theirs)) {
      ClashRefuses(UDT, e, incoming);
      return Err(Conflict);
    }
    assert TEXTS + NUMBERS[..|NUMBERS|] == TEXTS + NUMBERS;
    JoinedSnoc(TEXTS + NUMBERS, UDT, e, incoming);
    merged := merged[UDT := if mine != Null then mine else theirs];
    assert IDENTITY + SIDES[..0] == IDENTITY;
    for k := 0 to |SIDES|
      invariant Compatible(IDENTITY, e, incoming)
      invariant merged == Joined(IDENTITY + SIDES[..k], e, incoming)
    {
      var side := SIDES[k];
      JoinedSnoc(IDENTITY + SIDES[..k], side, e, incoming);
      SideStep(side, e, incoming);
      merged := merged[side := PickNewer(Get(e, side), Get(incoming, side))];
      assert IDENTITY + SIDES[..k + 1] == IDENTITY + SIDES[..k] + [side];
    }
    assert SIDES[..|SIDES|] == SIDES;
    return Ok(merged);
  }

  ghost predicate Merging(fields: seq<string>, e: Dict, i: Dict, merged: Dict) {
    Compatible(fields, e, i) && merged == Joined(fields, e, i)
  }

  lemma JoinedNone(e: Dict, i: Dict)
    ensures Joined([], e, i) == e && Compatible([], e, i)
  {
  }

  lemma JoinedSnoc(fields: seq<string>, f: string, e: Dict, i: Dict)
    ensures Joined(fields + [f], e, i) == Joined(fields, e, i)[f := JoinedField(f, e, i)]
    ensures Compatible(fields + [f], e, i) <==> Compatible(fields, e, i) && !Clash(f, e, i)
  {
    hide JoinedField, Clash;
  }

  lemma ClashRefuses(f: string, e: Dict, i: Dict)
    requires f in IDENTITY && Clash(f, e, i)
    ensures !Compatible(IDENTITY, e, i)
  {
  }

  lemma SideStep(f: string, e: Dict, i: Dict)
    requires f in SIDES
    ensures JoinedField(f, e, i) == PickNewer(Get(e, f), Get(i, f))
  {
  }

  lemma TextStep(f: string, e: Dict, i: Dict)
    requires f in TEXTS
    ensures var mine, theirs := Text(Get(e, f)), Text(Get(i, f));
      && (Clash(f, e, i) <==> mine != "" && theirs != "" && mine != theirs)
      && JoinedField(f, e, i) == if mine != "" then Get(e, f) else Get(i, f)
  {
  }

  lemma NumberStep(f: string, e: Dict, i: Dict)
    requires f in NUMBERS
    ensures var mine, theirs := Get(e, f), Get(i, f);
      && (Clash(f, e, i) <==> mine != Null && theirs != Null && ToInt(mine) != ToInt(theirs))
      && JoinedField(f, e, i) == if mine != Null then mine else theirs
  {
  }

  lemma UdtStep(e: Dict, i: Dict)
    ensures var mine, theirs := Get(e, UDT), Get(i, UDT);
      && (Clash(UDT, e, i) <==> mine != Null && theirs != Null && !PyEq(Canonical(mine), Canonical(theirs)))
      && JoinedField(UDT, e, i) == if mine != Null then mine else theirs
  {
  }

  function Outpoint(c: Dict): string {
    Text(Get(c, "channel_outpoint"))
  }

  function ChannelPayload(c: Dict): Json {
    Obj(map[
      "outpoint" := Str(Text(Get(c, "channel_outpoint"))),
      "node1" := Str(Text(Get(c, "node1"))),
      "node2" := Str(Text(Get(c, "node2"))),
      "created_timestamp" := Num(ToInt(Get(c, "created_timestamp"))),
      "capacity" := Num(ToInt(Get(c, "capacity"))),
      "chain_hash" := Str(Text(Get(c, "chain_hash"))),
      "udt_type_script" := Canonical(Get(c, "udt_type_script")),
      "update1" := Get(c, "update_info_of_node1"),
      "update2" := Get(c, "update_info_of_node2")
    ])
  }

  function ChannelEntries(channels: seq<Dict>): Result<seq<Json>, GraphError> {
    match Fold(channels, Outpoint, ChannelMerge)
    case Err(e) => Err(e)
    case Ok(keyed) => Ok(Entries(keyed, ChannelPayload))
  }

  /** `_channels_digest` up to the hash. */
  method ChannelsDigest(channels: seq<Dict>) returns (r: Result<string, GraphError>)
    ensures r == match ChannelEntries(channels) case Err(e) => Err(e) case Ok(entries) => Ok(DigestText(entries))
  {
    hide Compatible, Joined, ChannelPayload;
    var keyed: map<string, Dict> := map[];
    for i := 0 to |channels|
      invariant Fold(channels[..i], Outpoint, ChannelMerge) == Ok(keyed)
    {
      var c := channels[i];
      assert channels[..i + 1] == channels[..i] + [c];
      FoldSnoc(channels[..i], c, Outpoint, ChannelMerge);
      var outpoint := Text(Get(c, "channel_outpoint"));
      if outpoint == "" {
        continue;
      }
      var merged := MergeChannel(Lookup(keyed, outpoint), c);
      match merged {
        case Err(e) =>
          assert channels == channels[..i + 1] + channels[i + 1..];
          FoldPrefixFails(channels[..i + 1], channels[i + 1..], Outpoint, ChannelMerge);
          return Err(e);
        case Ok(v) =>
          keyed := keyed[outpoint := v];
      }
    }
    assert channels[..|channels|] == channels;
    r := Ok(DigestText(Entries(keyed, ChannelPayload)));
  }

  // ----- what the fold of one channel's records keeps -----

  predicate UpdateLeq(a: Json, b: Json) {
    a == Null || (b != Null && NotNewer(a, b, UpdateTime(a), UpdateTime(b)))
  }

  /** `r` says everything that `x` says and has updates that are not older. */
  predicate Covers(r: Dict, x: Dict) {
    && (forall f :: f in IDENTITY && Says(f, x) != Null ==> Says(f, r) != Null && PyEq(Says(f, x), Says(f, r)))
    && (forall f :: f in SIDES ==> UpdateLeq(Get(x, f), Get(r, f)))
  }

  /** What `r` says on a field, some record of the channel said. */
  ghost predicate Sourced(r: Dict, xs: seq<Dict>, k: string) {
    && (forall f :: f in IDENTITY && Says(f, r) != Null ==> exists x :: x in xs && Outpoint(x) == k && Says(f, x) == Says(f, r))
    && (forall f :: f in SIDES && Get(r, f) != Null ==> exists x :: x in xs && Outpoint(x) == k && Get(x, f) == Get(r, f))
  }

  ghost predicate Summarises(r: Dict, xs: seq<Dict>, k: string) {
    && (forall x :: x in xs && Outpoint(x) == k ==> Covers(r, x))
    && Sourced(r, xs, k)
  }

  /** Two records of one channel that disagree. */
  ghost predicate Contradict(xs: seq<Dict>) {
    exists x, y :: x in xs && y in xs && Outpoint(x) != "" && Outpoint(x) == Outpoint(y) && !Compatible(IDENTITY, x, y)
  }

  lemma NewerOfTwo(a: Json, b: Json)
    ensures UpdateLeq(a, PickNewer(a, b)) && UpdateLeq(b, PickNewer(a, b))
    ensures PickNewer(a, b) == a || PickNewer(a, b) == b
  {
    hide Canon;
    StrTotal(Canon(a), Canon(b));
    StrTotal(Canon(a), Canon(a));
    StrTotal(Canon(b), Canon(b));
  }

  lemma UpdateTrans(a: Json, b: Json, c: Json)
    requires UpdateLeq(a, b) && UpdateLeq(b, c)
    ensures UpdateLeq(a, c)
  {
    hide Canon;
    if StrLeq(Canon(a), Canon(b)) && StrLeq(Canon(b), Canon(c)) {
      StrTrans(Canon(a), Canon(b), Canon(c));
    }
  }

  lemma UpdateRefl(a: Json)
    ensures UpdateLeq(a, a)
  {
    StrTotal(Canon(a), Canon(a));
  }

  lemma UpdateAntisym(a: Json, b: Json)
    requires UpdateLeq(a, b) && UpdateLeq(b, a)
    ensures a == b
  {
    hide Print, StrLeq;
    StrTotal(Canon(a), Canon(b));
    if a != Null {
      TextDeterminesValue(a, b, "");
    }
  }

  /** Of two updates whose timestamps stand for different numbers the one with the greater number is
      kept, in either order. */
  lemma NewerUpdateWins(a: Dict, b: Dict, ta: int, tb: int)
    requires Stands(Get(a, "timestamp"), ta) && Stands(Get(b, "timestamp"), tb) && ta < tb
    ensures PickNewer(Obj(a), Obj(b)) == Obj(b) && PickNewer(Obj(b), Obj(a)) == Obj(b)
  {
    hide Stands, ToInt, Canon;
    StandsRead(Get(a, "timestamp"), ta);
    StandsRead(Get(b, "timestamp"), tb);
  }

  /** Two records that give creation time or capacity clash there exactly when they stand for
      different numbers, in whatever notation. */
  lemma NumbersClash(f: string, x: Dict, y: Dict, n: int, m: int)
    requires f in ["created_timestamp", "capacity"] && Stands(Get(x, f), n) && Stands(Get(y, f), m)
    ensures Clash(f, x, y) <==> n != m
  {
    hide Stands, ToInt;
    StandsRead(Get(x, f), n);
    StandsRead(Get(y, f), m);
    StandsSomething(Get(x, f), n);
    StandsSomething(Get(y, f), m);
  }

  lemma StandsSomething(v: Json, n: int)
    requires Stands(v, n)
    ensures v != Null
  {
  }

  /** Two records that give an outpoint, a node or a chain clash there exactly when the texts differ
      in more than case. */
  lemma TextsClash(f: string, x: Dict, y: Dict, s: string, t: string)
    requires f in ["channel_outpoint", "node1", "node2", "chain_hash"]
    requires Get(x, f) == Str(s) && Get(y, f) == Str(t) && s != "" && t != ""
    ensures Clash(f, x, y) <==> Lower(s) != Lower(t)
  {
    assert |Lower(s)| == |s| && |Lower(t)| == |t|;
  }

  // ----- one merge -----

  lemma SaysFromField(f: string, a: Dict, b: Dict)
    ensures Get(a, f) == Get(b, f) ==> Says(f, a) == Says(f, b)
  {
    hide Text, ToInt, Canonical;
  }

  lemma JoinedSays(f: string, e: Dict, i: Dict)
    requires f in IDENTITY
    ensures Says(f, Joined(IDENTITY + SIDES, e, i)) == if Says(f, e) != Null then Says(f, e) else Says(f, i)
  {
    hide Says, PickNewer;
    var j := Joined(IDENTITY + SIDES, e, i);
    assert f in IDENTITY + SIDES;
    assert f !in SIDES;
    assert Get(j, f) == if Says(f, e) != Null then Get(e, f) else Get(i, f);
    SaysFromField(f, j, e);
    SaysFromField(f, j, i);
  }

  lemma JoinedSide(f: string, e: Dict, i: Dict)
    requires f in SIDES
    ensures Get(Joined(IDENTITY + SIDES, e, i), f) == PickNewer(Get(e, f), Get(i, f))
  {
    hide PickNewer;
    assert f in IDENTITY + SIDES;
  }

  lemma CoversSelf(x: Dict)
    ensures Covers(x, x)
  {
    hide Says, Get, UpdateLeq;
    forall f | f in SIDES ensures UpdateLeq(Get(x, f), Get(x, f)) {
      UpdateRefl(Get(x, f));
    }
  }

  /** The merge of two compatible records covers both and all that the first one covered. */
  lemma JoinedCovers(e: Dict, i: Dict, y: Dict)
    requires Compatible(IDENTITY, e, i) && (y == i || Covers(e, y))
    ensures Covers(Joined(IDENTITY + SIDES, e, i), y)
  {
    hide Says, Get, UpdateLeq, Joined, PickNewer;
    var j := Joined(IDENTITY + SIDES, e, i);
    forall f | f in IDENTITY && Says(f, y) != Null
      ensures Says(f, j) != Null && PyEq(Says(f, y), Says(f, j))
    {
      JoinedSays(f, e, i);
      assert !Clash(f, e, i);
    }
    forall f | f in SIDES ensures UpdateLeq(Get(y, f), Get(j, f)) {
      JoinedSide(f, e, i);
      NewerOfTwo(Get(e, f), Get(i, f));
      if y != i {
        UpdateTrans(Get(y, f), Get(e, f), Get(j, f));
      }
    }
  }

  lemma JoinedSourced(e: Dict, i: Dict, xs: seq<Dict>, k: string)
    requires Sourced(e, xs, k) && Outpoint(i) == k
    ensures Sourced(Joined(IDENTITY + SIDES, e, i), xs + [i], k)
  {
    hide Says, Get, Joined, PickNewer, Outpoint;
    var j := Joined(IDENTITY + SIDES, e, i);
    assert i in xs + [i];
    forall f | f in IDENTITY && Says(f, j) != Null
      ensures exists x :: x in xs + [i] && Outpoint(x) == k && Says(f, x) == Says(f, j)
    {
      JoinedSays(f, e, i);
      if Says(f, e) != Null {
        var x :| x in xs && Outpoint(x) == k && Says(f, x) == Says(f, e);
        assert x in xs + [i];
      }
    }
    forall f | f in SIDES && Get(j, f) != Null
      ensures exists x :: x in xs + [i] && Outpoint(x) == k && Get(x, f) == Get(j, f)
    {
      JoinedSide(f, e, i);
      NewerOfTwo(Get(e, f), Get(i, f));
      if Get(j, f) == Get(e, f) {
        var x :| x in xs && Outpoint(x) == k && Get(x, f) == Get(e, f);
        assert x in xs + [i];
      }
    }
  }

  lemma CoveredCompatible(r: Dict, x: Dict, y: Dict)
    requires Covers(r, x) && Covers(r, y)
    ensures Compatible(IDENTITY, x, y)
  {
    hide Says, Get, UpdateLeq;
  }

  /** A record that clashes with a summary clashes with one of the summarised records. */
  lemma ClashSourced(r: Dict, i: Dict, xs: seq<Dict>, k: string)
    requires Sourced(r, xs, k) && !Compatible(IDENTITY, r, i)
    ensures exists x :: x in xs && Outpoint(x) == k && !Compatible(IDENTITY, x, i)
  {
    hide Says, Get, Outpoint;
    var f :| f in IDENTITY && Clash(f, r, i);
    var x :| x in xs && Outpoint(x) == k && Says(f, x) == Says(f, r);
    assert Clash(f, x, i);
  }

  // ----- the fold -----

  ghost predicate SummarisesAll(keyed: map<string, Dict>, xs: seq<Dict>) {
    && (forall k :: k in keyed ==> k != "" && (exists x :: x in xs && Outpoint(x) == k) && Summarises(keyed[k], xs, k))
    && (forall x :: x in xs && Outpoint(x) != "" ==> Outpoint(x) in keyed)
  }

  lemma SummarisesMore(r: Dict, xs: seq<Dict>, i: Dict, k: string)
    requires Summarises(r, xs, k) && Outpoint(i) != k
    ensures Summarises(r, xs + [i], k)
  {
    hide Says, Get, Outpoint, Covers;
    assert forall x :: x in xs ==> x in xs + [i];
  }

  lemma SummarisesFirst(i: Dict, xs: seq<Dict>)
    requires forall x :: x in xs ==> Outpoint(x) != Outpoint(i)
    ensures Summarises(i, xs + [i], Outpoint(i))
  {
    hide Says, Get, Outpoint, Covers;
    assert i in xs + [i];
    CoversSelf(i);
  }

  lemma SummarisesJoined(e: Dict, i: Dict, xs: seq<Dict>)
    requires Summarises(e, xs, Outpoint(i)) && Compatible(IDENTITY, e, i)
    ensures Summarises(Joined(IDENTITY + SIDES, e, i), xs + [i], Outpoint(i))
  {
    hide Says, Get, Outpoint, Covers, Compatible, Joined;
    forall x | x in xs + [i] && Outpoint(x) == Outpoint(i)
      ensures Covers(Joined(IDENTITY + SIDES, e, i), x)
    {
      JoinedCovers(e, i, x);
    }
    JoinedSourced(e, i, xs, Outpoint(i));
  }

  lemma SummarisesStep(keyed: map<string, Dict>, xs: seq<Dict>, i: Dict)
    requires SummarisesAll(keyed, xs)
    ensures var next := FoldOne(keyed, i, Outpoint, ChannelMerge);
      match next
      case Err(_) => Contradict(xs + [i])
      case Ok(keyed') => SummarisesAll(keyed', xs + [i])
  {
    hide Summarises, Compatible, Joined, Outpoint;
    var k := Outpoint(i);
    assert i in xs + [i];
    forall l | l in keyed && l != k
      ensures (exists x :: x in xs + [i] && Outpoint(x) == l) && Summarises(keyed[l], xs + [i], l)
    {
      var x :| x in xs && Outpoint(x) == l;
      assert x in xs + [i];
      SummarisesMore(keyed[l], xs, i, l);
    }
    if k == "" {
    } else if k !in keyed {
      SummarisesFirst(i, xs);
    } else if Compatible(IDENTITY, keyed[k], i) {
      SummarisesJoined(keyed[k], i, xs);
    } else {
      assert Sourced(keyed[k], xs, k) by {
        SummaryIsSourced(keyed[k], xs, k);
      }
      ClashSourced(keyed[k], i, xs, k);
      var x :| x in xs && Outpoint(x) == k && !Compatible(IDENTITY, x, i);
      assert x in xs + [i];
    }
  }

  lemma SummaryIsSourced(r: Dict, xs: seq<Dict>, k: string)
    requires Summarises(r, xs, k)
    ensures Sourced(r, xs, k)
  {
  }

  lemma {:induction false} FoldSummarises(xs: seq<Dict>)
    ensures match Fold(xs, Outpoint, ChannelMerge)
      case Err(_) => Contradict(xs)
      case Ok(keyed) => SummarisesAll(keyed, xs)
  {
    hide Compatible, Outpoint, ChannelMerge, SummarisesAll;
    if xs == [] {
      EmptySummary();
    } else {
      var rest, x := xs[..|xs| - 1], xs[|xs| - 1];
      assert xs == rest + [x];
      FoldSummarises(rest);
      FoldSnoc(rest, x, Outpoint, ChannelMerge);
      match Fold(rest, Outpoint, ChannelMerge) {
        case Err(_) => ContradictMore(rest, [x]);
        case Ok(keyed) => SummarisesStep(keyed, rest, x);
      }
    }
  }

  lemma EmptySummary()
    ensures SummarisesAll(map[], [])
  {
  }

  lemma ContradictMore(xs: seq<Dict>, ys: seq<Dict>)
    requires Contradict(xs)
    ensures Contradict(xs + ys)
  {
    hide Compatible, Outpoint;
    var x, y :| x in xs && y in xs && Outpoint(x) != "" && Outpoint(x) == Outpoint(y) && !Compatible(IDENTITY, x, y);
    assert x in xs + ys && y in xs + ys;
  }

  /** A conflict is raised in exactly those streams in which two records of one channel disagree,
      whatever stands between them and whichever comes first. */
  lemma ConflictIffContradiction(xs: seq<Dict>)
    ensures ChannelEntries(xs).Err? <==> Contradict(xs)
  {
    hide Compatible, Covers, Outpoint, ChannelMerge;
    FoldSummarises(xs);
    if Fold(xs, Outpoint, ChannelMerge).Ok? && Contradict(xs) {
      var keyed := Fold(xs, Outpoint, ChannelMerge).value;
      var x, y :| x in xs && y in xs && Outpoint(x) != "" && Outpoint(x) == Outpoint(y) && !Compatible(IDENTITY, x, y);
      CoveredCompatible(keyed[Outpoint(x)], x, y);
      assert false;
    }
  }

  // ----- what a payload covers -----

  /** Two channel records announce the same: every field that the digest is about, with scripts
      compared up to list order and both directional updates verbatim. */
  ghost predicate SameChannel(a: Dict, b: Dict) {
    && Outpoint(a) == Outpoint(b)
    && Text(Get(a, "node1")) == Text(Get(b, "node1"))
    && Text(Get(a, "node2")) == Text(Get(b, "node2"))
    && Text(Get(a, "chain_hash")) == Text(Get(b, "chain_hash"))
    && ToInt(Get(a, "created_timestamp")) == ToInt(Get(b, "created_timestamp"))
    && ToInt(Get(a, "capacity")) == ToInt(Get(b, "capacity"))
    && SameUpToListOrder(Get(a, "udt_type_script"), Get(b, "udt_type_script"))
    && Get(a, "update_info_of_node1") == Get(b, "update_info_of_node1")
    && Get(a, "update_info_of_node2") == Get(b, "update_info_of_node2")
  }

  /** The nine entries of a payload. */
  ghost predicate SameEntriesOf(a: Dict, b: Dict) {
    && Text(Get(a, "channel_outpoint")) == Text(Get(b, "channel_outpoint"))
    && Text(Get(a, "node1")) == Text(Get(b, "node1"))
    && Text(Get(a, "node2")) == Text(Get(b, "node2"))
    && Text(Get(a, "chain_hash")) == Text(Get(b, "chain_hash"))
    && ToInt(Get(a, "created_timestamp")) == ToInt(Get(b, "created_timestamp"))
    && ToInt(Get(a, "capacity")) == ToInt(Get(b, "capacity"))
    && Canonical(Get(a, "udt_type_script")) == Canonical(Get(b, "udt_type_script"))
    && Get(a, "update_info_of_node1") == Get(b, "update_info_of_node1")
    && Get(a, "update_info_of_node2") == Get(b, "update_info_of_node2")
  }

  /** The nine fields of a payload. */
  lemma PayloadFields(c: Dict)
    ensures ChannelPayload(c).Obj?
    ensures var p := ChannelPayload(c).fields;
      && p.Keys == {"outpoint", "node1", "node2", "created_timestamp", "capacity", "chain_hash", "udt_type_script", "update1", "update2"}
      && p["outpoint"] == Str(Text(Get(c, "channel_outpoint")))
      && p["node1"] == Str(Text(Get(c, "node1"))) && p["node2"] == Str(Text(Get(c, "node2")))
      && p["created_timestamp"] == Num(ToInt(Get(c, "created_timestamp"))) && p["capacity"] == Num(ToInt(Get(c, "capacity")))
      && p["chain_hash"] == Str(Text(Get(c, "chain_hash"))) && p["udt_type_script"] == Canonical(Get(c, "udt_type_script"))
      && p["update1"] == Get(c, "update_info_of_node1") && p["update2"] == Get(c, "update_info_of_node2")
  {
    hide Get, Text, ToInt, Canonical;
  }

  lemma PayloadEntries(a: Dict, b: Dict)
    ensures ChannelPayload(a) == ChannelPayload(b) <==> SameEntriesOf(a, b)
  {
    hide Get, Text, ToInt, Canonical, ChannelPayload;
    PayloadFields(a);
    PayloadFields(b);
    var p, q := ChannelPayload(a).fields, ChannelPayload(b).fields;
    if SameEntriesOf(a, b) {
      forall k | k in p.Keys ensures p[k] == q[k] {
      }
      assert p == q;
    }
  }

  /** The channel payload covers exactly these fields: any change of one of them changes it. */
  lemma PayloadIffSameChannel(a: Dict, b: Dict)
    ensures ChannelPayload(a) == ChannelPayload(b) <==> SameChannel(a, b)
  {
    hide Get, Text, ToInt, Canonical, SameUpToListOrder, ChannelPayload;
    PayloadEntries(a, b);
    CanonicalDecides(Get(a, "udt_type_script"), Get(b, "udt_type_script"));
  }
}

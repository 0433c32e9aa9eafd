/** What a successful walk proves about the server, and what a well-behaved server makes of a walk. */
module PaginationTheorems {
  import opened Wrappers
  import opened JsonText
  import opened GraphRecords
  import opened NodeDigest
  import opened ChannelDigest
  import opened Pagination

  function CursorAt(cursors: seq<string>, i: nat): Option<string>
    requires i <= |cursors|
  {
    if i == 0 then None else Some(cursors[i - 1])
  }

  ghost predicate GoodCursors(cursors: seq<string>) {
    && (forall i :: 0 <= i < |cursors| ==> cursors[i] != "" && cursors[i] != "0x")
    && (forall i, j :: 0 <= i < j < |cursors| ==> cursors[i] != cursors[j])
  }

  /** The JSON answer that carries this page: an object with the list under "nodes" or "channels" and
      the cursor under "last_cursor", whatever else it holds. */
  ghost predicate Answers(kind: Kind, res: Json, page: seq<Json>, cursor: string) {
    && res.Obj?
    && "last_cursor" in res.fields && res.fields["last_cursor"] == Str(cursor)
    && match kind
       case Nodes => "nodes" in res.fields && res.fields["nodes"] == Arr(page)
       case Channels => "channels" in res.fields && res.fields["channels"] == Arr(page)
  }

  /** What the walk reads in an answer is the page that the answer carries. */
  lemma DecodeIff(kind: Kind, res: Json, page: seq<Json>, cursor: string)
    ensures Decode(kind, res) == Some((page, cursor)) <==> Answers(kind, res, page, cursor)
  {
  }

  /** Call `i`, asking after the previous cursor, is answered with page `i`. */
  ghost predicate ServesPage(rpc: Rpc, kind: Kind, pages: seq<seq<Json>>, cursors: seq<string>, i: nat)
    requires |pages| == |cursors| && i < |pages|
  {
    && rpc(i, CursorAt(cursors, i)).Ok?
    && Answers(kind, rpc(i, CursorAt(cursors, i)).value, pages[i], cursors[i])
    && pages[i] != []
  }

  ghost predicate ServesPages(rpc: Rpc, kind: Kind, pages: seq<seq<Json>>, cursors: seq<string>) {
    && |pages| == |cursors|
    && GoodCursors(cursors)
    && forall i :: 0 <= i < |pages| ==> ServesPage(rpc, kind, pages, cursors, i)
  }

  /** The pages are followed by an empty page, the end of the stream. */
  ghost predicate ServesEnd(rpc: Rpc, kind: Kind, cursors: seq<string>) {
    var last := rpc(|cursors|, CursorAt(cursors, |cursors|));
    last.Ok? && exists cursor :: Answers(kind, last.value, [], cursor)
  }

  ghost predicate Serves(rpc: Rpc, kind: Kind, pages: seq<seq<Json>>, cursors: seq<string>) {
    ServesPages(rpc, kind, pages, cursors) && ServesEnd(rpc, kind, cursors)
  }

  function Concat(pages: seq<seq<Json>>): seq<Json> {
    if pages == [] then [] else Concat(pages[..|pages| - 1]) + pages[|pages| - 1]
  }

  function CursorSet(cursors: seq<string>): set<string> {
    set c | c in cursors
  }

  lemma {:induction false} AbsorbConcat(kind: Kind, st: Items, a: seq<Json>, b: seq<Json>)
    ensures Absorb(kind, st, a + b) ==
      match Absorb(kind, st, a) case Err(e) => Err(e) case Ok(st') => Absorb(kind, st', b)
    decreases |a|
  {
    if a == [] {
      assert a + b == b;
    } else {
      assert (a + b)[0] == a[0] && (a + b)[1..] == a[1..] + b;
      match AbsorbOne(kind, st, a[0]) {
        case Err(_) =>
        case Ok(st') => AbsorbConcat(kind, st', a[1..], b);
      }
    }
  }

  lemma ConcatPrefix(pages: seq<seq<Json>>, k: nat)
    requires k < |pages|
    ensures Concat(pages[..k + 1]) == Concat(pages[..k]) + pages[k]
  {
    assert pages[..k + 1][..k] == pages[..k];
  }

  lemma CursorPrefix(cursors: seq<string>, k: nat)
    requires k < |cursors| && GoodCursors(cursors)
    ensures CursorSet(cursors[..k + 1]) == CursorSet(cursors[..k]) + {cursors[k]}
    ensures cursors[k] !in CursorSet(cursors[..k])
  {
    assert cursors[..k + 1] == cursors[..k] + [cursors[k]];
  }

  lemma CursorGood(cursors: seq<string>, k: nat)
    requires k < |cursors| && GoodCursors(cursors)
    ensures cursors[k] != "" && cursors[k] != "0x"
  {
  }

  /** The walk from page `k` of a well-behaved server. */
  lemma {:induction false} WalkRest(rpc: Rpc, kind: Kind, pages: seq<seq<Json>>, cursors: seq<string>, k: nat, st: Items)
    requires Serves(rpc, kind, pages, cursors) && k <= |pages| < MAX_PAGES
    requires Absorb(kind, NOTHING, Concat(pages[..k])) == Ok(st)
    ensures Walk(rpc, kind, k, CursorAt(cursors, k), CursorSet(cursors[..k]), st) == Absorb(kind, NOTHING, Concat(pages))
    decreases |pages| - k
  {
    hide Absorb, Concat, GoodCursors, Decode, Answers;
    if k == |pages| {
      assert pages[..k] == pages;
      var cursor :| Answers(kind, rpc(k, CursorAt(cursors, k)).value, [], cursor);
      DecodeIff(kind, rpc(k, CursorAt(cursors, k)).value, [], cursor);
    } else {
      assert ServesPage(rpc, kind, pages, cursors, k);
      DecodeIff(kind, rpc(k, CursorAt(cursors, k)).value, pages[k], cursors[k]);
      CursorGood(cursors, k);
      ConcatPrefix(pages, k);
      CursorPrefix(cursors, k);
      AbsorbConcat(kind, NOTHING, Concat(pages[..k]), pages[k]);
      match Absorb(kind, st, pages[k]) {
        case Err(e) =>
          ConcatErr(kind, pages, k + 1);
        case Ok(st') =>
          WalkRest(rpc, kind, pages, cursors, k + 1, st');
      }
    }
  }

  lemma {:induction false} ConcatErr(kind: Kind, pages: seq<seq<Json>>, k: nat)
    requires k <= |pages| && Absorb(kind, NOTHING, Concat(pages[..k])).Err?
    ensures Absorb(kind, NOTHING, Concat(pages)) == Absorb(kind, NOTHING, Concat(pages[..k]))
    decreases |pages| - k
  {
    if k == |pages| {
      assert pages[..k] == pages;
    } else {
      ConcatPrefix(pages, k);
      AbsorbConcat(kind, NOTHING, Concat(pages[..k]), pages[k]);
      ConcatErr(kind, pages, k + 1);
    }
  }

  /** Against a server of fewer than 10000 non-empty pages the walk is exactly the in-order
      merge of all items, however they are cut into pages. */
  lemma WalkComplete(rpc: Rpc, kind: Kind, pages: seq<seq<Json>>, cursors: seq<string>)
    requires Serves(rpc, kind, pages, cursors) && |pages| < 10_000
    ensures Walk(rpc, kind, 0, None, {}, NOTHING) == Absorb(kind, NOTHING, Concat(pages))
  {
    assert Concat(pages[..0]) == [] && CursorSet(cursors[..0]) == {};
    WalkRest(rpc, kind, pages, cursors, 0, NOTHING);
  }

  lemma ServesMore(rpc: Rpc, kind: Kind, pages: seq<seq<Json>>, cursors: seq<string>, page: seq<Json>, cursor: string)
    requires ServesPages(rpc, kind, pages, cursors) && page != []
    requires cursor != "" && cursor != "0x" && cursor !in CursorSet(cursors)
    requires var res := rpc(|pages|, CursorAt(cursors, |pages|)); res.Ok? && Answers(kind, res.value, page, cursor)
    ensures ServesPages(rpc, kind, pages + [page], cursors + [cursor])
  {
    var ps, cs := pages + [page], cursors + [cursor];
    forall i | 0 <= i < |ps| ensures ServesPage(rpc, kind, ps, cs, i) {
      assert CursorAt(cs, i) == CursorAt(cursors, i);
      assert i < |pages| ==> ServesPage(rpc, kind, pages, cursors, i);
    }
  }

  /** A successful walk, against any behaviour of the server, has seen a clean stream to its end. */
  lemma {:induction false} WalkSoundFrom(rpc: Rpc, kind: Kind, pages: seq<seq<Json>>, cursors: seq<string>, st: Items)
    returns (pages': seq<seq<Json>>, cursors': seq<string>)
    requires ServesPages(rpc, kind, pages, cursors)
    requires Absorb(kind, NOTHING, Concat(pages)) == Ok(st)
    requires Walk(rpc, kind, |pages|, CursorAt(cursors, |pages|), CursorSet(cursors), st).Ok?
    ensures Serves(rpc, kind, pages', cursors') && |pages'| < MAX_PAGES
    ensures Absorb(kind, NOTHING, Concat(pages')) == Walk(rpc, kind, |pages|, CursorAt(cursors, |pages|), CursorSet(cursors), st)
    decreases MAX_PAGES - |pages|
  {
    hide Absorb, Decode, GoodCursors, ServesPage, Answers;
    var (batch, cursor) := Decode(kind, rpc(|pages|, CursorAt(cursors, |pages|)).value).value;
    DecodeIff(kind, rpc(|pages|, CursorAt(cursors, |pages|)).value, batch, cursor);
    if batch == [] {
      pages', cursors' := pages, cursors;
    } else {
      var ps, cs := pages + [batch], cursors + [cursor];
      ServesMore(rpc, kind, pages, cursors, batch, cursor);
      assert ps[..|pages|] == pages;
      AbsorbConcat(kind, NOTHING, Concat(pages), batch);
      assert CursorSet(cs) == CursorSet(cursors) + {cursor};
      pages', cursors' := WalkSoundFrom(rpc, kind, ps, cs, Absorb(kind, st, batch).value);
    }
  }

  lemma WalkSound(rpc: Rpc, kind: Kind) returns (pages: seq<seq<Json>>, cursors: seq<string>)
    requires Walk(rpc, kind, 0, None, {}, NOTHING).Ok?
    ensures Serves(rpc, kind, pages, cursors) && |pages| < MAX_PAGES
    ensures Absorb(kind, NOTHING, Concat(pages)) == Walk(rpc, kind, 0, None, {}, NOTHING)
  {
    assert CursorSet([]) == {};
    pages, cursors := WalkSoundFrom(rpc, kind, [], [], NOTHING);
  }

  /** A server gives one stream: what was served is determined call by call. */
  lemma {:induction false} SameStream(rpc: Rpc, kind: Kind, ps: seq<seq<Json>>, cs: seq<string>,
                                      pages: seq<seq<Json>>, cursors: seq<string>, k: nat)
    requires Serves(rpc, kind, ps, cs) && ServesPages(rpc, kind, pages, cursors) && k <= |pages|
    ensures k <= |ps| && cs[..k] == cursors[..k] && CursorAt(cs, k) == CursorAt(cursors, k)
  {
    if k > 0 {
      SameStream(rpc, kind, ps, cs, pages, cursors, k - 1);
      assert ServesPage(rpc, kind, pages, cursors, k - 1);
      assert k - 1 > 0 ==> cs[..k - 1][k - 2] == cursors[..k - 1][k - 2];
      assert CursorAt(cs, k - 1) == CursorAt(cursors, k - 1);
      assert k - 1 < |ps| ==> ServesPage(rpc, kind, ps, cs, k - 1);
      assert k - 1 < |ps|;
      assert cs[..k] == cs[..k - 1] + [cs[k - 1]] && cursors[..k] == cursors[..k - 1] + [cursors[k - 1]];
    }
  }

  /** The page cap fails the snapshot; it never cuts it short. */
  lemma TooLongFails(rpc: Rpc, kind: Kind, pages: seq<seq<Json>>, cursors: seq<string>)
    requires ServesPages(rpc, kind, pages, cursors) && 10_000 <= |pages|
    ensures Walk(rpc, kind, 0, None, {}, NOTHING).Err?
  {
    if Walk(rpc, kind, 0, None, {}, NOTHING).Ok? {
      var ps, cs := WalkSound(rpc, kind);
      SameStream(rpc, kind, ps, cs, pages, cursors, |pages|);
      assert false;
    }
  }

  /** Every answer of a well-behaved server carries a page, the last one an empty page. */
  lemma PageOrEnd(rpc: Rpc, kind: Kind, pages: seq<seq<Json>>, cursors: seq<string>, k: nat)
    requires Serves(rpc, kind, pages, cursors) && k <= |pages|
    ensures var res := rpc(k, CursorAt(cursors, k));
      res.Ok? && exists page, cursor :: Answers(kind, res.value, page, cursor)
  {
    hide Answers;
    if k < |pages| {
      assert ServesPage(rpc, kind, pages, cursors, k);
    }
  }

  /** One answer that is not an object with these two fields in these types fails the walk, after
      however many good pages it comes. */
  lemma BadAnswerFails(rpc: Rpc, kind: Kind, pages: seq<seq<Json>>, cursors: seq<string>)
    requires ServesPages(rpc, kind, pages, cursors)
    requires var res := rpc(|pages|, CursorAt(cursors, |pages|));
      res.Err? || forall page, cursor :: !Answers(kind, res.value, page, cursor)
    ensures Walk(rpc, kind, 0, None, {}, NOTHING).Err?
  {
    hide Walk, Answers, Absorb;
    if Walk(rpc, kind, 0, None, {}, NOTHING).Ok? {
      var ps, cs := WalkSound(rpc, kind);
      SameStream(rpc, kind, ps, cs, pages, cursors, |pages|);
      PageOrEnd(rpc, kind, ps, cs, |pages|);
    }
  }

  /** Every refusal of an item, and every conflict, is an error of the stream, not of a call. */
  predicate OfStream(e: GraphError) {
    e in {Conflict, Malformed, Invalid, NoCursor, CursorLoop, TooManyPages}
  }

  lemma {:induction false} AbsorbErrors(kind: Kind, st: Items, raw: seq<Json>)
    ensures Absorb(kind, st, raw).Err? ==> OfStream(Absorb(kind, st, raw).error)
    decreases |raw|
  {
    hide ValidItem, Joined, Compatible, MergeNode, Lower;
    if raw != [] && AbsorbOne(kind, st, raw[0]).Ok? {
      AbsorbErrors(kind, AbsorbOne(kind, st, raw[0]).value, raw[1..]);
    }
  }

  /** When a walk fails, a call failed with that error, or the error is one of the stream. */
  lemma {:induction false} WalkErrorsFrom(rpc: Rpc, kind: Kind, k: nat, after: Option<string>, seen: set<string>, st: Items)
    ensures var walk := Walk(rpc, kind, k, after, seen, st);
      walk.Err? ==> OfStream(walk.error) || exists i: nat, a: Option<string> :: rpc(i, a) == Err(walk.error)
    decreases MAX_PAGES - k
  {
    hide Absorb, Decode, OfStream;
    assert OfStream(Malformed) && OfStream(NoCursor) && OfStream(CursorLoop) && OfStream(TooManyPages) by {
      StreamErrors();
    }
    if k < MAX_PAGES && rpc(k, after).Ok? && Decode(kind, rpc(k, after).value).Some? {
      var (batch, cursor) := Decode(kind, rpc(k, after).value).value;
      AbsorbErrors(kind, st, batch);
      if Absorb(kind, st, batch).Ok? {
        WalkErrorsFrom(rpc, kind, k + 1, Some(cursor), seen + {cursor}, Absorb(kind, st, batch).value);
      }
    }
  }

  lemma StreamErrors()
    ensures OfStream(Malformed) && OfStream(NoCursor) && OfStream(CursorLoop) && OfStream(TooManyPages)
  {
  }

  // ----- the merged items are the fold of the raw records -----

  predicate Acceptable(kind: Kind, raw: seq<Json>) {
    forall i :: 0 <= i < |raw| ==> Refusal(kind, raw[i]).None?
  }

  /** An item is refused exactly when it is no object or does not meet the schema of its kind; the
      schema includes the identity. */
  lemma RefusedIffInvalid(kind: Kind, it: Json)
    ensures Refusal(kind, it).None? <==> it.Obj? && match kind
      case Nodes => ValidNode(it.fields)
      case Channels => ValidChannel(it.fields)
  {
    hide IsUint, ValidUpdate, IsStrings;
    if it.Obj? && kind.Channels? && ValidChannel(it.fields) {
      assert "channel_outpoint" in ["channel_outpoint", "node1", "node2", "chain_hash"];
    }
  }

  /** The dictionaries among the items of a response. */
  function Records(raw: seq<Json>): seq<Dict> {
    seq(|raw|, i requires 0 <= i < |raw| => if raw[i].Obj? then raw[i].fields else map[])
  }

  lemma IdentOf(kind: Kind, it: Json)
    requires Refusal(kind, it).None?
    ensures it.Obj? && Ident(kind)(it.fields) == Lower(Get(it.fields, IdentityField(kind)).s) != ""
  {
    hide ValidItem;
    assert |Lower(Get(it.fields, IdentityField(kind)).s)| == |Get(it.fields, IdentityField(kind)).s|;
  }

  lemma AbsorbOneIsFoldOne(kind: Kind, st: Items, it: Json)
    requires Consistent(kind, st) && Refusal(kind, it).None? && it.Obj?
    ensures match FoldOne(st.keyed, it.fields, Ident(kind), MergeOf(kind))
      case Err(e) => AbsorbOne(kind, st, it) == Err(e)
      case Ok(keyed) =>
        var r := AbsorbOne(kind, st, it);
        r.Ok? && r.value.keyed == keyed && Consistent(kind, r.value)
  {
    hide ValidItem, Refusal;
    IdentOf(kind, it);
  }

  /** Absorbing acceptable items in order is folding their records. */
  lemma {:induction false} AbsorbIsFold(kind: Kind, raw: seq<Json>)
    requires Acceptable(kind, raw)
    ensures match Fold(Records(raw), Ident(kind), MergeOf(kind))
      case Err(e) => Absorb(kind, NOTHING, raw) == Err(e)
      case Ok(keyed) =>
        var r := Absorb(kind, NOTHING, raw);
        r.Ok? && r.value.keyed == keyed && Consistent(kind, r.value)
    decreases |raw|
  {
    hide MergeOf, Refusal, Ident, AbsorbOne, FoldOne, Consistent;
    if raw == [] {
      NothingConsistent(kind);
      assert Records(raw) == [];
    } else {
      var rest, it := raw[..|raw| - 1], raw[|raw| - 1];
      assert raw == rest + [it];
      assert Refusal(kind, raw[|raw| - 1]).None?;
      IdentOf(kind, it);
      assert forall i :: 0 <= i < |rest| ==> rest[i] == raw[i];
      AbsorbIsFold(kind, rest);
      AbsorbConcat(kind, NOTHING, rest, [it]);
      assert Records(raw) == Records(rest) + [it.fields];
      FoldSnoc(Records(rest), it.fields, Ident(kind), MergeOf(kind));
      if Absorb(kind, NOTHING, rest).Ok? {
        AbsorbSingle(kind, Absorb(kind, NOTHING, rest).value, it);
        AbsorbOneIsFoldOne(kind, Absorb(kind, NOTHING, rest).value, it);
      }
    }
  }

  lemma AbsorbSingle(kind: Kind, st: Items, it: Json)
    ensures Absorb(kind, st, [it]) == AbsorbOne(kind, st, it)
  {
    hide AbsorbOne;
    assert [it][1..] == [];
  }

  /** One unacceptable item anywhere fails the walk. */
  lemma {:induction false} AbsorbRefuses(kind: Kind, st: Items, raw: seq<Json>)
    requires Absorb(kind, st, raw).Ok?
    ensures Acceptable(kind, raw)
    decreases |raw|
  {
    hide MergeOf, Ident, ValidItem;
    if raw != [] {
      AbsorbRefuses(kind, AbsorbOne(kind, st, raw[0]).value, raw[1..]);
      forall i | 0 <= i < |raw| ensures Refusal(kind, raw[i]).None? {
        assert i > 0 ==> raw[i] == raw[1..][i - 1] && Refusal(kind, raw[1..][i - 1]).None?;
      }
    }
  }
}

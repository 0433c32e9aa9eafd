/** The fail-closed cursor walk over `graph_nodes` and `graph_channels`. */
module Pagination {
  import opened Wrappers
  import opened JsonText
  import opened GraphRecords
  import opened NodeDigest
  import opened ChannelDigest

  const MAX_PAGES: nat := 10000

  datatype Kind = Nodes | Channels

  function ListField(kind: Kind): string {
    if kind.Nodes? then "nodes" else "channels"
  }

  function IdentityField(kind: Kind): string {
    if kind.Nodes? then "pubkey" else "channel_outpoint"
  }

  predicate ValidItem(kind: Kind, d: Dict) {
    if kind.Nodes? then ValidNode(d) else ValidChannel(d)
  }

  function MergeOf(kind: Kind): Merge {
    if kind.Nodes? then NodeMerge else ChannelMerge
  }

  function Ident(kind: Kind): Dict -> string {
    if kind.Nodes? then Pubkey else Outpoint
  }

  /** One call: its number and the cursor it asks to continue after. */
  type Rpc = (nat, Option<string>) -> Result<Json, GraphError>

  /** The batch and the cursor of a well-shaped response. */
  function Decode(kind: Kind, res: Json): Option<(seq<Json>, string)> {
    if res.Obj? && Get(res.fields, ListField(kind)).Arr? && Get(res.fields, "last_cursor").Str?
    then Some((Get(res.fields, ListField(kind)).items, Get(res.fields, "last_cursor").s))
    else None
  }

  /** A dictionary with its insertion order, which `list(items.values())` follows. */
  datatype Items = Items(order: seq<string>, keyed: map<string, Dict>)

  ghost predicate Consistent(kind: Kind, st: Items) {
    && (forall k :: k in st.order <==> k in st.keyed)
    && (forall i, j :: 0 <= i < j < |st.order| ==> st.order[i] != st.order[j])
  }

  function Values(st: Items): (r: seq<Dict>)
    requires forall k :: k in st.order ==> k in st.keyed
  {
    seq(|st.order|, i requires 0 <= i < |st.order| => assert st.order[i] in st.order; st.keyed[st.order[i]])
  }

  /** Why an item is refused before it is merged, if it is. */
  function Refusal(kind: Kind, it: Json): Option<GraphError> {
    if !it.Obj? then Some(Malformed)
    else
      var identity := Get(it.fields, IdentityField(kind));
      if !identity.Str? || identity.s == "" then Some(Malformed)
      else if !ValidItem(kind, it.fields) then Some(Invalid)
      else None
  }

  function AbsorbOne(kind: Kind, st: Items, it: Json): Result<Items, GraphError> {
    match Refusal(kind, it)
    case Some(e) => Err(e)
    case None =>
      var ident := Lower(Get(it.fields, IdentityField(kind)).s);
      match MergeOf(kind)(Lookup(st.keyed, ident), it.fields)
      case Err(e) => Err(e)
      case Ok(v) =>
        Ok(Items(if ident in st.keyed then st.order else st.order + [ident], st.keyed[ident := v]))
  }

  function Absorb(kind: Kind, st: Items, batch: seq<Json>): Result<Items, GraphError>
    decreases |batch|
  {
    if batch == [] then Ok(st)
    else
      match AbsorbOne(kind, st, batch[0])
      case Err(e) => Err(e)
      case Ok(st') => Absorb(kind, st', batch[1..])
  }

  function Walk(rpc: Rpc, kind: Kind, k: nat, after: Option<string>, seen: set<string>, st: Items)
    : Result<Items, GraphError>
    decreases MAX_PAGES - k
  {
    if MAX_PAGES <= k then Err(TooManyPages)
    else
      match rpc(k, after)
      case Err(e) => Err(e)
      case Ok(res) =>
        match Decode(kind, res)
        case None => Err(Malformed)
        case Some((batch, cursor)) =>
          if batch == [] then Ok(st)
          else
            match Absorb(kind, st, batch)
            case Err(e) => Err(e)
            case Ok(st') =>
              if cursor == "" || cursor == "0x" then Err(NoCursor)
              else if cursor in seen then Err(CursorLoop)
              else Walk(rpc, kind, k + 1, Some(cursor), seen + {cursor}, st')
  }

  const NOTHING := Items([], map[])

  /** The inner loop of `paginate`: merge one batch, item by item. */
  method AbsorbBatch(kind: Kind, start: Items, batch: seq<Json>) returns (r: Result<Items, GraphError>)
    requires Consistent(kind, start)
    ensures r == Absorb(kind, start, batch)
    ensures r.Ok? ==> Consistent(kind, r.value)
  {
    hide MergeOf, Refusal, ValidItem, Get, Lower, Lookup, Absorb, AbsorbOne, Consistent;
    var st := start;
    AbsorbNext(kind, st, batch);
    for i := 0 to |batch|
      invariant Consistent(kind, st)
      invariant Absorb(kind, start, batch) == Absorb(kind, st, batch[i..])
    {
      var it := batch[i];
      assert batch[i..][0] == it && batch[i..][1..] == batch[i + 1..];
      AbsorbNext(kind, st, batch[i..]);
      var refusal := Refusal(kind, it);
      if refusal.Some? {
        OneRefused(kind, st, it);
        return Err(refusal.value);
      }
      AcceptedShape(kind, it);
      OneMerged(kind, st, it);
      var ident := Lower(Get(it.fields, IdentityField(kind)).s);
      var merged := MergeOf(kind)(Lookup(st.keyed, ident), it.fields);
      if merged.Err? {
        return Err(merged.error);
      }
      st := Items(if ident in st.keyed then st.order else st.order + [ident], st.keyed[ident := merged.value]);
    }
    AbsorbNext(kind, st, []);
    assert batch[|batch|..] == [];
    return Ok(st);
  }

  lemma OneRefused(kind: Kind, st: Items, it: Json)
    requires Refusal(kind, it).Some?
    ensures AbsorbOne(kind, st, it) == Err(Refusal(kind, it).value)
  {
    hide Refusal;
  }

  lemma OneMerged(kind: Kind, st: Items, it: Json)
    requires Consistent(kind, st) && Refusal(kind, it).None? && it.Obj? && Get(it.fields, IdentityField(kind)).Str?
    ensures var ident := Lower(Get(it.fields, IdentityField(kind)).s);
      var merged := MergeOf(kind)(Lookup(st.keyed, ident), it.fields);
      if merged.Err? then AbsorbOne(kind, st, it) == Err(merged.error)
      else
        var st' := Items(if ident in st.keyed then st.order else st.order + [ident], st.keyed[ident := merged.value]);
        AbsorbOne(kind, st, it) == Ok(st') && Consistent(kind, st')
  {
    hide Refusal, MergeOf, Lower;
  }

  lemma AbsorbNext(kind: Kind, st: Items, batch: seq<Json>)
    ensures batch == [] ==> Absorb(kind, st, batch) == Ok(st)
    ensures batch != [] && AbsorbOne(kind, st, batch[0]).Err? ==>
      Absorb(kind, st, batch) == AbsorbOne(kind, st, batch[0])
    ensures batch != [] && AbsorbOne(kind, st, batch[0]).Ok? ==>
      Absorb(kind, st, batch) == Absorb(kind, AbsorbOne(kind, st, batch[0]).value, batch[1..])
  {
    hide Refusal, MergeOf;
  }

  lemma NothingConsistent(kind: Kind)
    ensures Consistent(kind, NOTHING)
  {
  }

  lemma OrderIsKeyed(kind: Kind, st: Items)
    requires Consistent(kind, st)
    ensures forall k :: k in st.order ==> k in st.keyed
  {
  }

  lemma AcceptedShape(kind: Kind, it: Json)
    requires Refusal(kind, it).None?
    ensures it.Obj? && Get(it.fields, IdentityField(kind)).Str?
  {
    hide ValidItem;
  }

  /** The result lists the items of a walk, or is the error that the walk ended with. */
  ghost predicate Lists(kind: Kind, walk: Result<Items, GraphError>, r: Result<seq<Dict>, GraphError>) {
    match walk
    case Err(e) => r == Err(e)
    case Ok(st) => Consistent(kind, st) && r == Ok(Values(st))
  }

  /** `paginate`. */
  method Paginate(rpc: Rpc, kind: Kind) returns (r: Result<seq<Dict>, GraphError>)
    ensures Lists(kind, Walk(rpc, kind, 0, None, {}, NOTHING), r)
  {
    hide Absorb, Decode, Consistent;
    NothingConsistent(kind);
    var st := NOTHING;
    var after: Option<string> := None;
    var seen: set<string> := {};
    for k := 0 to MAX_PAGES
      invariant Consistent(kind, st)
      invariant Walk(rpc, kind, 0, None, {}, NOTHING) == Walk(rpc, kind, k, after, seen, st)
    {
      var res := rpc(k, after);
      if res.Err? {
        return Err(res.error);
      }
      var decoded := Decode(kind, res.value);
      if decoded.None? {
        return Err(Malformed);
      }
      var (batch, cursor) := decoded.value;
      if batch == [] {
        OrderIsKeyed(kind, st);
        return Ok(Values(st));
      }
      var absorbed := AbsorbBatch(kind, st, batch);
      if absorbed.Err? {
        return Err(absorbed.error);
      }
      st := absorbed.value;
      if cursor == "" || cursor == "0x" {
        return Err(NoCursor);
      }
      if cursor in seen {
        return Err(CursorLoop);
      }
      seen := seen + {cursor};
      after := Some(cursor);
    }
    return Err(TooManyPages);
  }
}

/** Records of the graph RPCs as Python dictionaries, and the small conversions applied to them. */
module GraphRecords {
  import opened Wrappers
  import opened Ordering
  import opened JsonText

  type Dict = map<string, Json>

  /** `d.get(k)`: a missing key and a JSON null both read as None. */
  function Get(d: Dict, k: string): Json {
    if k in d then d[k] else Null
  }

  predicate Truthy(v: Json) {
    match v
    case Null => false
    case Bool(b) => b
    case Num(n) => n != 0
    case Str(s) => s != ""
    case Arr(xs) => xs != []
    case Obj(m) => m.Keys != {}
  }

  /** `a or b`. */
  function Or(a: Json, b: Json): Json {
    if Truthy(a) then a else b
  }

  function LowerChar(c: char): char {
    if 'A' <= c <= 'Z' then 'a' + (c - 'A') else c
  }

  function Lower(s: string): string {
    seq(|s|, i requires 0 <= i < |s| => LowerChar(s[i]))
  }

  /** `(v or "").lower()` for a field that holds a string when it holds anything. */
  function Text(v: Json): string {
    if v.Str? then Lower(v.s) else ""
  }

  function DigitValue(c: char): nat {
    if '0' <= c <= '9' then (c - '0') as nat
    else if 'a' <= c <= 'f' then 10 + (c - 'a') as nat
    else 16
  }

  /** The value of a non-empty run of digits, or None. */
  function ParseDigits(s: string, base: nat): Option<int> {
    if s == [] then None
    else
      var d := DigitValue(s[|s| - 1]);
      if base <= d then None
      else if |s| == 1 then Some(d)
      else
        match ParseDigits(s[..|s| - 1], base)
        case None => None
        case Some(n) => Some(n * base + d)
  }

  /** `int(s, 16)` with a 0x prefix, `int(s)` with an optional sign otherwise. */
  function ParseInt(text: string): Option<int> {
    var s := Lower(text);
    if |s| >= 2 && s[..2] == "0x" then
      match ParseDigits(s[2..], 16)
      case None => None
      case Some(n) => Some(n)
    else if s != [] && s[0] in "+-" then
      match ParseDigits(s[1..], 10)
      case None => None
      case Some(n) => Some(if s[0] == '-' then -n else n)
    else
      match ParseDigits(s, 10)
      case None => None
      case Some(n) => Some(n)
  }

  /** `_to_int`: 0 on anything unparseable. */
  function ToInt(v: Json): int {
    match v
    case Bool(b) => if b then 1 else 0
    case Num(n) => n
    case Str(s) => (match ParseInt(s) case None => 0 case Some(n) => n)
    case _ => 0
  }

  /** `_is_uint`. */
  predicate IsUint(v: Json) {
    match v
    case Num(n) => n >= 0
    case Str(s) => (match ParseInt(s) case None => false case Some(n) => n >= 0)
    case _ => false
  }

  predicate IsStrings(v: Json) {
    v.Arr? && forall i :: 0 <= i < |v.items| ==> v.items[i].Str?
  }

  /** `_validate_node_item` accepts. */
  predicate ValidNode(d: Dict) {
    && Get(d, "pubkey").Str? && Get(d, "pubkey") != Str("")
    && IsUint(Get(d, "timestamp"))
    && Get(d, "node_name").Str?
    && Get(d, "version").Str?
    && IsStrings(Get(d, "addresses"))
    && IsStrings(Get(d, "features"))
    && Get(d, "chain_hash").Str? && Get(d, "chain_hash") != Str("")
    && IsUint(Get(d, "auto_accept_min_ckb_funding_amount"))
    && Get(d, "udt_cfg_infos").Arr?
  }

  /** `_validate_channel_update` accepts. */
  predicate ValidUpdate(v: Json) {
    v == Null || (
      && v.Obj?
      && IsUint(Get(v.fields, "timestamp"))
      && Get(v.fields, "enabled").Bool?
      && "outbound_liquidity" in v.fields
      && (Get(v.fields, "outbound_liquidity") == Null || IsUint(Get(v.fields, "outbound_liquidity")))
      && IsUint(Get(v.fields, "tlc_expiry_delta"))
      && IsUint(Get(v.fields, "tlc_minimum_value"))
      && IsUint(Get(v.fields, "fee_rate")))
  }

  /** `_validate_channel_item` accepts. */
  predicate ValidChannel(d: Dict) {
    && (forall f :: f in ["channel_outpoint", "node1", "node2", "chain_hash"] ==>
          Get(d, f).Str? && Get(d, f) != Str(""))
    && IsUint(Get(d, "created_timestamp")) && IsUint(Get(d, "capacity"))
    && "udt_type_script" in d && (d["udt_type_script"] == Null || d["udt_type_script"].Obj?)
    && "update_info_of_node1" in d && ValidUpdate(d["update_info_of_node1"])
    && "update_info_of_node2" in d && ValidUpdate(d["update_info_of_node2"])
  }

  /** Python's `==` does not tell True from 1 nor False from 0, at any depth. */
  function Unbool(j: Json): Json
    decreases j
  {
    match j
    case Bool(b) => Num(if b then 1 else 0)
    case Arr(xs) => Arr(seq(|xs|, i requires 0 <= i < |xs| => Unbool(xs[i])))
    case Obj(m) => Obj(map k | k in m :: Unbool(m[k]))
    case _ => j
  }

  predicate PyEq(a: Json, b: Json) {
    Unbool(a) == Unbool(b)
  }

  /** Newer first by timestamp, ties by canonical text: a total order on records and updates. */
  predicate NotNewer(a: Json, b: Json, ta: int, tb: int) {
    ta < tb || (ta == tb && CanonLeq(a, b))
  }

  /** Why a graph snapshot is refused. */
  datatype GraphError =
    | Conflict                 // duplicate channel with a conflicting identity field
    | Malformed                // a response or an item that is not of the required shape
    | Invalid                  // an item refused by its schema validator
    | NoCursor                 // a non-empty page without a cursor
    | CursorLoop               // a cursor seen before
    | TooManyPages             // the page cap was reached
    | CallFailed               // a call failed in a way that may pass
    | OutOfTime                // the deadline had passed before a call

  type Merge = (Option<Dict>, Dict) -> Result<Dict, GraphError>

  function Lookup(keyed: map<string, Dict>, k: string): Option<Dict> {
    if k in keyed then Some(keyed[k]) else None
  }

  /** Folding records into a dictionary, in order. A record without a key is skipped, and the
      first merge that fails fails the whole fold. */
  function Fold(xs: seq<Dict>, key: Dict -> string, merge: Merge): Result<map<string, Dict>, GraphError> {
    if xs == [] then Ok(map[])
    else
      match Fold(xs[..|xs| - 1], key, merge)
      case Err(e) => Err(e)
      case Ok(keyed) => FoldOne(keyed, xs[|xs| - 1], key, merge)
  }

  function FoldOne(keyed: map<string, Dict>, x: Dict, key: Dict -> string, merge: Merge)
    : Result<map<string, Dict>, GraphError>
  {
    if key(x) == "" then Ok(keyed)
    else
      match merge(Lookup(keyed, key(x)), x)
      case Err(e) => Err(e)
      case Ok(v) => Ok(keyed[key(x) := v])
  }

  lemma FoldSnoc(xs: seq<Dict>, x: Dict, key: Dict -> string, merge: Merge)
    ensures Fold(xs + [x], key, merge) ==
      match Fold(xs, key, merge) case Err(e) => Err(e) case Ok(keyed) => FoldOne(keyed, x, key, merge)
  {
    assert (xs + [x])[..|xs|] == xs;
  }

  /** Once failed, always failed. */
  lemma {:induction false} FoldPrefixFails(xs: seq<Dict>, ys: seq<Dict>, key: Dict -> string, merge: Merge)
    requires Fold(xs, key, merge).Err?
    ensures Fold(xs + ys, key, merge) == Fold(xs, key, merge)
    decreases |ys|
  {
    if ys == [] {
      assert xs + ys == xs;
    } else {
      FoldPrefixFails(xs, ys[..|ys| - 1], key, merge);
      assert xs + ys == xs + ys[..|ys| - 1] + [ys[|ys| - 1]];
      FoldSnoc(xs + ys[..|ys| - 1], ys[|ys| - 1], key, merge);
    }
  }

  /** The entries of a digest: one payload per key, in key order. */
  function Entries(keyed: map<string, Dict>, payload: Dict -> Json): (r: seq<Json>)
    ensures |r| == |keyed|
  {
    var ks := SortedKeys(keyed.Keys);
    seq(|ks|, i requires 0 <= i < |ks| => assert ks[i] in ks; payload(keyed[ks[i]]))
  }

  /** The keyed records themselves, in key order. */
  function KeyedList(keyed: map<string, Dict>): (r: seq<Dict>)
    ensures |r| == |keyed|
  {
    var ks := SortedKeys(keyed.Keys);
    seq(|ks|, i requires 0 <= i < |ks| => assert ks[i] in ks; keyed[ks[i]])
  }

  lemma KeyedListMembers(keyed: map<string, Dict>)
    ensures forall k :: k in keyed ==> keyed[k] in KeyedList(keyed)
    ensures forall x :: x in KeyedList(keyed) ==> exists k :: k in keyed && keyed[k] == x
  {
    var ks := SortedKeys(keyed.Keys);
    forall k | k in keyed ensures keyed[k] in KeyedList(keyed) {
      assert k in ks;
      var i :| 0 <= i < |ks| && ks[i] == k;
      assert KeyedList(keyed)[i] == keyed[k];
    }
    forall x | x in KeyedList(keyed) ensures exists k :: k in keyed && keyed[k] == x {
      var i :| 0 <= i < |ks| && KeyedList(keyed)[i] == x;
      assert ks[i] in ks;
    }
  }

  /** The text handed to SHA-256. */
  function DigestText(entries: seq<Json>): string {
    Print(Arr(entries), " ")
  }

  lemma ListPrinted(a: Json, rest: seq<Json>, sp: string)
    ensures Print(Arr([a] + rest), sp) == "[" + (Print(a, sp) + PrintItems(rest, sp))
  {
    hide PrintItems;
    var xs := [a] + rest;
    assert xs[0] == a && xs[1..] == rest;
    assert PrintList(xs, sp) == Print(a, sp) + PrintItems(rest, sp);
  }

  lemma ItemPrinted(b: Json, sp: string)
    ensures PrintItems([], sp) == "]" && PrintItems([b], sp) == "," + sp + Print(b, sp) + "]"
  {
    hide Print;
    assert [b][1..] == [];
  }

  lemma Texts(a: string, b: string)
    ensures "[" + (a + b) == "[" + a + b
  {
  }

  lemma Joins(a: string, b: string, c: string, d: string)
    ensures a + (b + c + d) == a + b + c + d
  {
  }

  lemma PairPrinted(a: Json, b: Json, sp: string)
    ensures Print(Arr([a, b]), sp) == "[" + Print(a, sp) + "," + sp + Print(b, sp) + "]"
  {
    hide Print, PrintItems;
    assert [a, b] == [a] + [b];
    ListPrinted(a, [b], sp);
    ItemPrinted(b, sp);
    Texts(Print(a, sp), "," + sp + Print(b, sp) + "]");
    Joins("[" + Print(a, sp), "," + sp, Print(b, sp), "]");
    Joins("[" + Print(a, sp), ",", sp, "");
  }

  lemma SinglePrinted(a: Json, sp: string)
    ensures Print(Arr([a]), sp) == "[" + Print(a, sp) + "]"
  {
    hide Print, PrintItems;
    assert [a] == [a] + [];
    ListPrinted(a, [], sp);
    ItemPrinted(a, sp);
    Texts(Print(a, sp), "]");
  }

  lemma FieldPrinted(k: string, a: Json, sp: string)
    ensures Print(Obj(map[k := a]), sp) == "{" + Print(Str(k), sp) + ":" + sp + Print(a, sp) + "}"
  {
    hide PrintChars;
    var j := Obj(map[k := a]);
    OneKey(k);
    assert j.fields.Keys == {k} && [k][1..] == [];
    assert PrintFields(j, [], sp) == "}";
    assert Print(j, sp) == "{" + (PrintField(j, k, sp) + "}");
  }

  /** The hashed text separates with blanks, as `json.dumps` does by default; the text that decides ties
      and list order is compact. */
  lemma Separators(a: Json, b: Json, k: string)
    ensures DigestText([a, b]) == "[" + Print(a, " ") + ", " + Print(b, " ") + "]"
    ensures DigestText([Obj(map[k := a])]) == "[{" + Print(Str(k), " ") + ": " + Print(a, " ") + "}]"
    ensures Canon(Arr([a, b])) == "[" + Canon(a) + "," + Canon(b) + "]"
    ensures Canon(Obj(map[k := a])) == "{" + Canon(Str(k)) + ":" + Canon(a) + "}"
  {
    hide Print;
    PairPrinted(a, b, " ");
    PairPrinted(a, b, "");
    assert ", " == "," + " ";
    Joins("[" + Print(a, " "), ",", " ", "");
    Joins("[" + Canon(a), ",", "", "");
    FieldPrinted(k, a, " ");
    FieldPrinted(k, a, "");
    SinglePrinted(Obj(map[k := a]), " ");
  }

  lemma OneKey(k: string)
    ensures SortedKeys({k}) == [k]
  {
    var ks := SortedKeys({k});
    assert |ks| == 1 && ks[0] in ks;
  }

  /** Two digests have the same input text exactly when they have the same entries. */
  lemma DigestTextFaithful(a: seq<Json>, b: seq<Json>)
    ensures DigestText(a) == DigestText(b) <==> a == b
  {
    if DigestText(a) == DigestText(b) {
      TextDeterminesValue(Arr(a), Arr(b), " ");
    }
  }

  /** Keyed records with the same payload under every key give the same entries. */
  lemma SameEntries(m: map<string, Dict>, n: map<string, Dict>, payload: Dict -> Json)
    requires m.Keys == n.Keys
    requires forall k :: k in m ==> payload(m[k]) == payload(n[k])
    ensures Entries(m, payload) == Entries(n, payload)
  {
    var ks := SortedKeys(m.Keys);
    forall i | 0 <= i < |ks| ensures Entries(m, payload)[i] == Entries(n, payload)[i] {
      assert ks[i] in ks;
    }
  }

  // ----- numbers are read as they are written -----

  /** A number in hexadecimal, by repeated division. */
  function Hex(n: nat): string {
    if n < 16 then [Digit(n)] else Hex(n / 16) + [Digit(n % 16)]
  }

  lemma DigitRead(d: nat)
    requires d < 16
    ensures DigitValue(Digit(d)) == d && LowerChar(Digit(d)) == Digit(d)
  {
  }

  lemma {:induction false} HexRead(n: nat)
    ensures ParseDigits(Hex(n), 16) == Some(n) && Lower(Hex(n)) == Hex(n)
  {
    DigitRead(n % 16);
    if n >= 16 {
      HexRead(n / 16);
      var s := Hex(n);
      assert s[..|s| - 1] == Hex(n / 16);
    }
  }

  lemma {:induction false} NatRead(n: nat)
    ensures ParseDigits(PrintNat(n), 10) == Some(n) && Lower(PrintNat(n)) == PrintNat(n)
  {
    DigitRead(n % 10);
    if n >= 10 {
      NatRead(n / 10);
      var s := PrintNat(n);
      assert s[..|s| - 1] == PrintNat(n / 10);
    }
  }

  lemma SignedRead(t: string, n: int)
    requires ParseDigits(t, 10) == Some(n) && Lower(t) == t
    ensures ParseInt("-" + t) == Some(-n)
  {
    hide ParseDigits;
    var s := "-" + t;
    assert Lower(s) == s && s[1..] == t && s[0] == '-';
  }

  lemma PlainRead(t: string, n: nat)
    requires ParseDigits(t, 10) == Some(n) && Lower(t) == t
    requires t != "" && forall i :: 0 <= i < |t| ==> IsDigit(t[i])
    ensures ParseInt(t) == Some(n)
  {
    hide ParseDigits;
    assert IsDigit(t[0]) && (|t| >= 2 ==> t[..2][1] == t[1] && IsDigit(t[1]));
  }

  /** Decimal text is read as the number it prints, sign included. */
  lemma DecimalRead(n: int)
    ensures ToInt(Str(PrintInt(n))) == n && (IsUint(Str(PrintInt(n))) <==> n >= 0)
  {
    hide ParseInt, ParseDigits, PrintNat;
    var m: nat := if n < 0 then -n else n;
    NatDigits(m);
    NatRead(m);
    if n < 0 {
      SignedRead(PrintNat(m), m);
    } else {
      PlainRead(PrintNat(m), m);
    }
  }

  /** Hexadecimal text in either case is read as the number it stands for. */
  lemma HexadecimalRead(s: string, n: nat)
    requires Lower(s) == "0x" + Hex(n)
    ensures ToInt(Str(s)) == n && IsUint(Str(s))
  {
    HexRead(n);
    assert Lower(s)[..2] == "0x" && Lower(s)[2..] == Hex(n);
  }

  /** A JSON value that stands for a number. */
  ghost predicate Stands(v: Json, n: int) {
    || v == Num(n)
    || v == Str(PrintInt(n))
    || (n >= 0 && v.Str? && Lower(v.s) == "0x" + Hex(n))
  }

  lemma StandsRead(v: Json, n: int)
    requires Stands(v, n)
    ensures ToInt(v) == n && (IsUint(v) <==> n >= 0)
  {
    if v == Str(PrintInt(n)) {
      DecimalRead(n);
    } else if v.Str? {
      HexadecimalRead(v.s, n);
    }
  }

  lemma {:induction false} NoDigits(s: string, base: nat, i: nat)
    requires i < |s| && DigitValue(s[i]) >= base
    ensures ParseDigits(s, base) == None
  {
    if i < |s| - 1 {
      NoDigits(s[..|s| - 1], base, i);
    }
  }

  /** Text that holds a character that is no hexadecimal digit, other than a leading sign or prefix,
      is no number and reads as zero; so do null, lists and objects. */
  lemma NotANumber(v: Json)
    requires v == Null || v.Arr? || v.Obj? || v == Str("")
      || (v.Str? && exists i :: 2 <= i < |v.s| && DigitValue(LowerChar(v.s[i])) >= 16)
    ensures ToInt(v) == 0 && !IsUint(v)
  {
    if v.Str? && v.s != "" {
      var i :| 2 <= i < |v.s| && DigitValue(LowerChar(v.s[i])) >= 16;
      var s := Lower(v.s);
      assert s[2..][i - 2] == s[i] && s[1..][i - 1] == s[i];
      NoDigits(s[2..], 16, i - 2);
      NoDigits(s[1..], 10, i - 1);
      NoDigits(s, 10, i);
    }
  }

  /** A flag is read as 0 or 1, but is no number where a schema asks for one. */
  lemma FlagRead(b: bool)
    ensures ToInt(Bool(b)) == (if b then 1 else 0) && !IsUint(Bool(b))
  {
  }

  function UpperChar(c: char): char {
    if 'a' <= c <= 'z' then 'A' + (c - 'a') else c
  }

  function Upper(s: string): string {
    seq(|s|, i requires 0 <= i < |s| => UpperChar(s[i]))
  }

  /** Texts that differ in case read the same; text without capital letters reads as it is. */
  lemma CaseIrrelevant(s: string)
    ensures Lower(Upper(s)) == Lower(s) == Lower(Lower(s))
    ensures (forall i :: 0 <= i < |s| ==> UpperChar(s[i]) != s[i] || LowerChar(s[i]) == s[i]) ==> Lower(s) == s
  {
    assert Lower(Upper(s)) == Lower(s);
    assert Lower(Lower(s)) == Lower(s);
  }

  /** What Python takes for false. */
  lemma Falsehoods(v: Json)
    ensures !Truthy(v) <==> v in [Null, Bool(false), Num(0), Str(""), Arr([]), Obj(map[])]
  {
    if v.Obj? && v.fields.Keys == {} {
      assert v.fields == map[];
    }
  }

  // ----- the schemas, field by field -----

  datatype Shape = AnyText | NonEmpty | Number | Flag | TextList | AnyList | AnyObject | OrNull(Shape)

  predicate Fits(v: Json, shape: Shape) {
    match shape
    case AnyText => v.Str?
    case NonEmpty => v.Str? && v.s != ""
    case Number => IsUint(v)
    case Flag => v.Bool?
    case TextList => v.Arr? && forall x :: x in v.items ==> x.Str?
    case AnyList => v.Arr?
    case AnyObject => v.Obj?
    case OrNull(inner) => v == Null || Fits(v, inner)
  }

  type Schema = seq<(string, Shape)>

  const NODE_SCHEMA: Schema := [
    ("pubkey", NonEmpty), ("timestamp", Number), ("node_name", AnyText), ("version", AnyText),
    ("addresses", TextList), ("features", TextList), ("chain_hash", NonEmpty),
    ("auto_accept_min_ckb_funding_amount", Number), ("udt_cfg_infos", AnyList)]

  const CHANNEL_SCHEMA: Schema := [
    ("channel_outpoint", NonEmpty), ("node1", NonEmpty), ("node2", NonEmpty), ("chain_hash", NonEmpty),
    ("created_timestamp", Number), ("capacity", Number), ("udt_type_script", OrNull(AnyObject)),
    ("update_info_of_node1", OrNull(AnyObject)), ("update_info_of_node2", OrNull(AnyObject))]

  const UPDATE_SCHEMA: Schema := [
    ("timestamp", Number), ("enabled", Flag), ("outbound_liquidity", OrNull(Number)),
    ("tlc_expiry_delta", Number), ("tlc_minimum_value", Number), ("fee_rate", Number)]

  /** Every field of the schema is there and fits. */
  predicate Conforms(d: Dict, schema: Schema) {
    forall p :: p in schema ==> p.0 in d && Fits(d[p.0], p.1)
  }

  lemma FitsAt(d: Dict, schema: Schema, i: nat)
    requires Conforms(d, schema) && i < |schema|
    ensures schema[i].0 in d && Fits(d[schema[i].0], schema[i].1)
  {
    assert schema[i] in schema;
  }

  lemma NodeConforms(d: Dict)
    requires Conforms(d, NODE_SCHEMA)
    ensures ValidNode(d)
  {
    hide IsUint, Conforms;
    FitsAt(d, NODE_SCHEMA, 0);
    FitsAt(d, NODE_SCHEMA, 1);
    FitsAt(d, NODE_SCHEMA, 2);
    FitsAt(d, NODE_SCHEMA, 3);
    FitsAt(d, NODE_SCHEMA, 4);
    FitsAt(d, NODE_SCHEMA, 5);
    FitsAt(d, NODE_SCHEMA, 6);
    FitsAt(d, NODE_SCHEMA, 7);
    FitsAt(d, NODE_SCHEMA, 8);
  }

  lemma MissingIsNull(d: Dict, k: string)
    ensures Get(d, k) != Null ==> k in d && d[k] == Get(d, k)
    ensures !IsUint(Null)
  {
  }

  /** The node validator accepts exactly the records that conform to the schema. */
  lemma ValidNodeIff(d: Dict)
    ensures ValidNode(d) <==> Conforms(d, NODE_SCHEMA)
  {
    hide IsUint;
    if Conforms(d, NODE_SCHEMA) {
      NodeConforms(d);
    }
    if ValidNode(d) {
      forall p | p in NODE_SCHEMA ensures p.0 in d && Fits(d[p.0], p.1) {
        MissingIsNull(d, p.0);
      }
    }
  }

  lemma UpdateConforms(d: Dict)
    requires Conforms(d, UPDATE_SCHEMA)
    ensures ValidUpdate(Obj(d))
  {
    hide IsUint, Conforms;
    FitsAt(d, UPDATE_SCHEMA, 0);
    FitsAt(d, UPDATE_SCHEMA, 1);
    FitsAt(d, UPDATE_SCHEMA, 2);
    FitsAt(d, UPDATE_SCHEMA, 3);
    FitsAt(d, UPDATE_SCHEMA, 4);
    FitsAt(d, UPDATE_SCHEMA, 5);
  }

  /** So does the validator of one directional update. */
  lemma ValidUpdateIff(v: Json)
    ensures ValidUpdate(v) <==> v == Null || (v.Obj? && Conforms(v.fields, UPDATE_SCHEMA))
  {
    hide IsUint;
    if v.Obj? {
      if Conforms(v.fields, UPDATE_SCHEMA) {
        UpdateConforms(v.fields);
      }
      if ValidUpdate(v) {
        forall p | p in UPDATE_SCHEMA ensures p.0 in v.fields && Fits(v.fields[p.0], p.1) {
          MissingIsNull(v.fields, p.0);
        }
      }
    }
  }

  lemma ChannelConforms(d: Dict)
    requires Conforms(d, CHANNEL_SCHEMA) && "update_info_of_node1" in d && "update_info_of_node2" in d
    requires ValidUpdate(d["update_info_of_node1"]) && ValidUpdate(d["update_info_of_node2"])
    ensures ValidChannel(d)
  {
    hide IsUint, Conforms, ValidUpdate;
    FitsAt(d, CHANNEL_SCHEMA, 0);
    FitsAt(d, CHANNEL_SCHEMA, 1);
    FitsAt(d, CHANNEL_SCHEMA, 2);
    FitsAt(d, CHANNEL_SCHEMA, 3);
    FitsAt(d, CHANNEL_SCHEMA, 4);
    FitsAt(d, CHANNEL_SCHEMA, 5);
    FitsAt(d, CHANNEL_SCHEMA, 6);
    FitsAt(d, CHANNEL_SCHEMA, 7);
    FitsAt(d, CHANNEL_SCHEMA, 8);
  }

  /** And the channel validator, whose updates must conform as well. */
  lemma ValidChannelIff(d: Dict)
    ensures ValidChannel(d) <==> (
      && Conforms(d, CHANNEL_SCHEMA)
      && forall side :: side in ["update_info_of_node1", "update_info_of_node2"] ==>
           Get(d, side) == Null || (Get(d, side).Obj? && Conforms(Get(d, side).fields, UPDATE_SCHEMA)))
  {
    hide IsUint, ValidUpdate;
    ValidUpdateIff(Get(d, "update_info_of_node1"));
    ValidUpdateIff(Get(d, "update_info_of_node2"));
    if ValidChannel(d) {
      assert ValidUpdate(d["update_info_of_node1"]) && ValidUpdate(d["update_info_of_node2"]);
      forall p | p in CHANNEL_SCHEMA ensures p.0 in d && Fits(d[p.0], p.1) {
        MissingIsNull(d, p.0);
      }
    }
    if Conforms(d, CHANNEL_SCHEMA) {
      SidesThere(d);
      assert forall side :: side in ["update_info_of_node1", "update_info_of_node2"] ==> Get(d, side) == d[side];
      if ValidUpdate(d["update_info_of_node1"]) && ValidUpdate(d["update_info_of_node2"]) {
        ChannelConforms(d);
      }
    }
  }

  lemma SidesThere(d: Dict)
    requires Conforms(d, CHANNEL_SCHEMA)
    ensures "update_info_of_node1" in d && "update_info_of_node2" in d
  {
    FitsAt(d, CHANNEL_SCHEMA, 7);
    FitsAt(d, CHANNEL_SCHEMA, 8);
  }
}

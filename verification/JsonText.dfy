/** JSON values and the text that `json.dumps(obj, sort_keys=True)` prints for them.

The text is what the graph digests hash and what ties between announcements are broken on,
so the result that matters is that two different values never print the same text.
*/
module JsonText {
  import opened Ordering

  /** A JSON object is a map, as Python compares dictionaries without regard to insertion order. */
  datatype Json =
    | Null
    | Bool(b: bool)
    | Num(n: int)
    | Str(s: string)
    | Arr(items: seq<Json>)
    | Obj(fields: map<string, Json>)

  // ----- printing -----

  /** `sp` is the blank after separators: "" for `separators=(",", ":")`, " " by default. */
  function Print(j: Json, sp: string): string
    decreases j, 1, 0
  {
    match j
    case Null => "null"
    case Bool(b) => if b then "true" else "false"
    case Num(n) => PrintInt(n)
    case Str(s) => "\"" + PrintChars(s)
    case Arr(xs) => "[" + PrintList(xs, sp)
    case Obj(m) =>
      var ks := SortedKeys(m.Keys);
      "{" + (if ks == [] then "}" else PrintField(j, ks[0], sp) + PrintFields(j, ks[1..], sp))
  }

  /** All items and the closing bracket. */
  function PrintList(xs: seq<Json>, sp: string): string
    decreases xs, 0, 1
  {
    if xs == [] then "]" else Print(xs[0], sp) + PrintItems(xs[1..], sp)
  }

  /** The items after the first one, and the closing bracket. */
  function PrintItems(xs: seq<Json>, sp: string): string
    decreases xs, 0, 0
  {
    if xs == [] then "]" else "," + sp + Print(xs[0], sp) + PrintItems(xs[1..], sp)
  }

  function PrintField(j: Json, k: string, sp: string): string
    requires j.Obj? && k in j.fields
    decreases j, 0, 0
  {
    "\"" + PrintChars(k) + ":" + sp + Print(j.fields[k], sp)
  }

  /** The fields after the first one, and the closing brace. */
  function PrintFields(j: Json, ks: seq<string>, sp: string): string
    requires j.Obj? && forall k :: k in ks ==> k in j.fields
    decreases j, 0, 1 + |ks|
  {
    if ks == [] then "}" else "," + sp + PrintField(j, ks[0], sp) + PrintFields(j, ks[1..], sp)
  }

  /** Compact text, the ordering key of `_canon`. */
  function Canon(j: Json): string {
    Print(j, "")
  }

  predicate CanonLeq(a: Json, b: Json) {
    StrLeq(Canon(a), Canon(b))
  }

  function Digit(d: nat): char
    requires d < 16
  {
    if d < 10 then '0' + d as char else 'a' + (d - 10) as char
  }

  function PrintNat(n: nat): string {
    if n < 10 then [Digit(n)] else PrintNat(n / 10) + [Digit(n % 10)]
  }

  function PrintInt(n: int): string {
    if n < 0 then "-" + PrintNat(-n) else PrintNat(n)
  }

  function Hex4(n: nat): string
    requires n < 0x10000
  {
    [Digit(n / 16 / 16 / 16), Digit(n / 16 / 16 % 16), Digit(n / 16 % 16), Digit(n % 16)]
  }

  /** A 16-bit unit as `\\u` and four hexadecimal digits. */
  function Unit(n: nat): (u: string)
    requires n < 0x10000
    ensures |u| == 6
  {
    "\\u" + Hex4(n)
  }

  /** Code points above 16 bits are printed as a surrogate pair. */
  function FirstUnit(c: char): (n: nat)
    ensures n < 0x10000
  {
    var n := c as int;
    if n < 0x10000 then n else 0xd800 + (n - 0x10000) / 1024
  }

  function SecondUnit(c: char): string {
    var n := c as int;
    if n < 0x10000 then "" else Unit(0xdc00 + (n - 0x10000) % 1024)
  }

  /** One character under `ensure_ascii`. */
  function PrintChar(c: char): string {
    if c == '\"' then "\\\""
    else if c == '\\' then "\\\\"
    else if c == '\n' then "\\n"
    else if c == '\r' then "\\r"
    else if c == '\t' then "\\t"
    else if c as int == 8 then "\\b"
    else if c as int == 12 then "\\f"
    else if ' ' <= c <= '~' then [c]
    else Unit(FirstUnit(c)) + SecondUnit(c)
  }

  /** The characters of a string and its closing quote. */
  function PrintChars(s: string): string {
    if s == [] then "\"" else PrintChar(s[0]) + PrintChars(s[1..])
  }

  // ----- printing is unambiguous -----

  predicate IsDigit(c: char) {
    '0' <= c <= '9'
  }

  /** What may follow a printed value. */
  predicate Ends(s: string) {
    s == [] || s[0] in ",]}"
  }

  /** Equally long heads of one text are equal, and so are the rests. */
  lemma Cut(p: string, q: string, s: string, t: string)
    requires p + s == q + t && |p| == |q|
    ensures p == q && s == t
  {
    assert p == (p + s)[..|p|] == (q + t)[..|q|] == q;
    assert s == (p + s)[|p|..] == (q + t)[|q|..] == t;
  }

  lemma Assoc(p: string, q: string, s: string)
    ensures (p + q) + s == p + (q + s)
  {
  }

  lemma HexInjective(n: nat, m: nat)
    requires n < 0x10000 && m < 0x10000 && Hex4(n) == Hex4(m)
    ensures n == m
  {
    hide Digit;
    var u, v := Hex4(n), Hex4(m);
    assert u[0] == v[0] && u[1] == v[1] && u[2] == v[2] && u[3] == v[3];
    DigitInjective(n % 16, m % 16);
    DigitInjective(n / 16 % 16, m / 16 % 16);
    DigitInjective(n / 16 / 16 % 16, m / 16 / 16 % 16);
    DigitInjective(n / 16 / 16 / 16, m / 16 / 16 / 16);
  }

  lemma DigitInjective(a: nat, b: nat)
    requires a < 16 && b < 16 && Digit(a) == Digit(b)
    ensures a == b
  {
  }

  /** The printed form of one character does not extend that of another. */
  lemma CharPrefix(c: char, d: char, s: string, t: string)
    requires PrintChar(c) + s == PrintChar(d) + t
    ensures PrintChar(c)[0] == PrintChar(d)[0]
    ensures PrintChar(c)[0] == '\\' ==> PrintChar(c)[1] == PrintChar(d)[1]
  {
    var u, v := PrintChar(c) + s, PrintChar(d) + t;
    assert PrintChar(c)[0] == u[0] == v[0] == PrintChar(d)[0];
    assert PrintChar(c)[0] == '\\' ==> PrintChar(c)[1] == u[1] == v[1] == PrintChar(d)[1];
  }

  lemma UnitInjective(n: nat, m: nat, s: string, t: string)
    requires n < 0x10000 && m < 0x10000 && Unit(n) + s == Unit(m) + t
    ensures n == m && s == t
  {
    Cut(Unit(n), Unit(m), s, t);
    Cut("\\u", "\\u", Hex4(n), Hex4(m));
    HexInjective(n, m);
  }

  predicate Escaped(c: char) {
    |PrintChar(c)| > 2
  }

  lemma UnitsInjective(c: char, d: char, s: string, t: string)
    requires Unit(FirstUnit(c)) + SecondUnit(c) + s == Unit(FirstUnit(d)) + SecondUnit(d) + t
    ensures c == d && s == t
  {
    Assoc(Unit(FirstUnit(c)), SecondUnit(c), s);
    Assoc(Unit(FirstUnit(d)), SecondUnit(d), t);
    UnitInjective(FirstUnit(c), FirstUnit(d), SecondUnit(c) + s, SecondUnit(d) + t);
    if 0x10000 <= c as int {
      UnitInjective(0xdc00 + (c as int - 0x10000) % 1024, 0xdc00 + (d as int - 0x10000) % 1024, s, t);
    } else {
      Cut("", "", s, t);
    }
  }

  /** The printed forms of characters form a prefix code. */
  lemma CharInjective(c: char, d: char, s: string, t: string)
    requires PrintChar(c) + s == PrintChar(d) + t
    ensures c == d && s == t
  {
    CharPrefix(c, d, s, t);
    if Escaped(c) || Escaped(d) {
      UnitsInjective(c, d, s, t);
    } else {
      Cut(PrintChar(c), PrintChar(d), s, t);
    }
  }

  lemma CharsHead(a: string)
    ensures PrintChars(a) != [] && (PrintChars(a)[0] == '\"' <==> a == [])
  {
  }

  lemma {:induction false} CharsInjective(a: string, b: string, s: string, t: string)
    requires PrintChars(a) + s == PrintChars(b) + t
    ensures a == b && s == t
  {
    CharsHead(a);
    CharsHead(b);
    assert PrintChars(a)[0] == (PrintChars(a) + s)[0] == (PrintChars(b) + t)[0] == PrintChars(b)[0];
    if a == [] {
      Cut("\"", "\"", s, t);
    } else {
      Assoc(PrintChar(a[0]), PrintChars(a[1..]), s);
      Assoc(PrintChar(b[0]), PrintChars(b[1..]), t);
      CharInjective(a[0], b[0], PrintChars(a[1..]) + s, PrintChars(b[1..]) + t);
      CharsInjective(a[1..], b[1..], s, t);
      assert a == [a[0]] + a[1..] && b == [b[0]] + b[1..];
    }
  }

  lemma {:induction false} NatDigits(n: nat)
    ensures PrintNat(n) != [] && forall i :: 0 <= i < |PrintNat(n)| ==> IsDigit(PrintNat(n)[i])
  {
    if 10 <= n {
      NatDigits(n / 10);
    }
  }

  lemma {:induction false} NatInjective(n: nat, m: nat)
    requires PrintNat(n) == PrintNat(m)
    ensures n == m
  {
    var u, v := PrintNat(n), PrintNat(m);
    assert forall a: nat, b: nat :: a < 10 && b < 10 && Digit(a) == Digit(b) ==> a == b;
    assert u[|u| - 1] == Digit(n % 10) && v[|v| - 1] == Digit(m % 10);
    if 10 <= n {
      NatDigits(n / 10);
    }
    if 10 <= m {
      NatDigits(m / 10);
    }
    if 10 <= n && 10 <= m {
      assert PrintNat(n / 10) == u[..|u| - 1] == v[..|v| - 1] == PrintNat(m / 10);
      NatInjective(n / 10, m / 10);
    }
  }

  /** A run of digits is delimited by the first character that is none. */
  lemma {:induction false} DigitRun(a: string, b: string, s: string, t: string)
    requires forall i :: 0 <= i < |a| ==> IsDigit(a[i])
    requires forall i :: 0 <= i < |b| ==> IsDigit(b[i])
    requires Ends(s) && Ends(t) && a + s == b + t
    ensures a == b && s == t
  {
    FirstOf(a, s);
    FirstOf(b, t);
    if a != [] && b != [] {
      Assoc([a[0]], a[1..], s);
      Assoc([b[0]], b[1..], t);
      assert a == [a[0]] + a[1..] && b == [b[0]] + b[1..];
      Cut([a[0]], [b[0]], a[1..] + s, b[1..] + t);
      DigitRun(a[1..], b[1..], s, t);
    }
  }

  lemma FirstOf(p: string, s: string)
    ensures p != [] ==> (p + s)[0] == p[0]
    ensures p == [] ==> p + s == s
  {
  }

  lemma IntInjective(n: int, m: int, s: string, t: string)
    requires Ends(s) && Ends(t) && PrintInt(n) + s == PrintInt(m) + t
    ensures n == m && s == t
  {
    var n', m' := if n < 0 then -n else n, if m < 0 then -m else m;
    NatDigits(n');
    NatDigits(m');
    assert (PrintInt(n) + s)[0] == PrintInt(n)[0] && (PrintInt(m) + t)[0] == PrintInt(m)[0];
    assert n < 0 <==> m < 0;
    if n < 0 {
      Assoc("-", PrintNat(n'), s);
      Assoc("-", PrintNat(m'), t);
      Cut("-", "-", PrintNat(n') + s, PrintNat(m') + t);
    }
    DigitRun(PrintNat(n'), PrintNat(m'), s, t);
    NatInjective(n', m');
  }

  /** The first character of the text tells which constructor made the value. */
  lemma Head(j: Json, sp: string)
    ensures Print(j, sp) != []
    ensures var c := Print(j, sp)[0];
      match j
      case Null => c == 'n'
      case Bool(b) => c == (if b then 't' else 'f')
      case Num(_) => c == '-' || IsDigit(c)
      case Str(_) => c == '\"'
      case Arr(_) => c == '['
      case Obj(_) => c == '{'
  {
    if j.Num? {
      NatDigits(if j.n < 0 then -j.n else j.n);
    }
  }

  /** No text of one value is a prefix of a text of another, wherever a value may end. */
  lemma {:induction false} PrintInjective(a: Json, b: Json, sp: string, s: string, t: string)
    requires Ends(s) && Ends(t) && Print(a, sp) + s == Print(b, sp) + t
    ensures a == b && s == t
    decreases a, 1, 0
  {
    Head(a, sp);
    Head(b, sp);
    assert (Print(a, sp) + s)[0] == Print(a, sp)[0] && (Print(b, sp) + t)[0] == Print(b, sp)[0];
    match a {
      case Null =>
        Cut("null", "null", s, t);
      case Bool(x) =>
        Cut(Print(a, sp), Print(b, sp), s, t);
      case Num(n) =>
        IntInjective(n, b.n, s, t);
      case Str(x) =>
        Assoc("\"", PrintChars(x), s);
        Assoc("\"", PrintChars(b.s), t);
        Cut("\"", "\"", PrintChars(x) + s, PrintChars(b.s) + t);
        CharsInjective(x, b.s, s, t);
      case Arr(xs) =>
        var u, v := PrintList(xs, sp), PrintList(b.items, sp);
        Assoc("[", u, s);
        Assoc("[", v, t);
        Cut("[", "[", u + s, v + t);
        ListInjective(xs, b.items, sp, s, t);
      case Obj(m) =>
        var u, v := Print(a, sp)[1..], Print(b, sp)[1..];
        assert Print(a, sp) == "{" + u && Print(b, sp) == "{" + v;
        Assoc("{", u, s);
        Assoc("{", v, t);
        Cut("{", "{", u + s, v + t);
        ObjInjective(a, b, sp, s, t);
    }
  }

  lemma ListHead(xs: seq<Json>, sp: string)
    ensures PrintList(xs, sp) != [] && (PrintList(xs, sp)[0] == ']' <==> xs == [])
  {
    if xs != [] {
      Head(xs[0], sp);
    }
  }

  lemma {:induction false} ListInjective(xs: seq<Json>, ys: seq<Json>, sp: string, s: string, t: string)
    requires PrintList(xs, sp) + s == PrintList(ys, sp) + t
    ensures xs == ys && s == t
    decreases xs, 0, 1
  {
    var u, v := PrintList(xs, sp), PrintList(ys, sp);
    ListHead(xs, sp);
    ListHead(ys, sp);
    assert u[0] == (u + s)[0] == (v + t)[0] == v[0];
    if xs == [] {
      Cut(u, v, s, t);
    } else {
      var u', v' := PrintItems(xs[1..], sp), PrintItems(ys[1..], sp);
      Assoc(Print(xs[0], sp), u', s);
      Assoc(Print(ys[0], sp), v', t);
      PrintInjective(xs[0], ys[0], sp, u' + s, v' + t);
      ItemsInjective(xs[1..], ys[1..], sp, s, t);
      assert xs == [xs[0]] + xs[1..] && ys == [ys[0]] + ys[1..];
    }
  }

  lemma {:induction false} ItemsInjective(xs: seq<Json>, ys: seq<Json>, sp: string, s: string, t: string)
    requires PrintItems(xs, sp) + s == PrintItems(ys, sp) + t
    ensures xs == ys && s == t
    decreases xs, 0, 0
  {
    var u, v := PrintItems(xs, sp), PrintItems(ys, sp);
    assert u[0] == (u + s)[0] == (v + t)[0] == v[0];
    if xs == [] {
      Cut(u, v, s, t);
    } else {
      var c, x, y := "," + sp, Print(xs[0], sp), Print(ys[0], sp);
      var u', v' := PrintItems(xs[1..], sp), PrintItems(ys[1..], sp);
      Peel(c, x, u', s);
      Peel(c, y, v', t);
      Cut(c, c, x + (u' + s), y + (v' + t));
      PrintInjective(xs[0], ys[0], sp, u' + s, v' + t);
      ItemsInjective(xs[1..], ys[1..], sp, s, t);
      assert xs == [xs[0]] + xs[1..] && ys == [ys[0]] + ys[1..];
    }
  }

  lemma Peel(p: string, q: string, r: string, s: string)
    ensures p + q + r + s == p + (q + (r + s))
  {
    Assoc(p + q, r, s);
    Assoc(p, q, r + s);
  }

  lemma {:induction false} FieldInjective(a: Json, b: Json, k: string, l: string, sp: string, s: string, t: string)
    requires a.Obj? && b.Obj? && k in a.fields && l in b.fields && Ends(s) && Ends(t)
    requires PrintField(a, k, sp) + s == PrintField(b, l, sp) + t
    ensures k == l && a.fields[k] == b.fields[l] && s == t
    decreases a, 0, 0
  {
    var x, y, c := Print(a.fields[k], sp), Print(b.fields[l], sp), ":" + sp;
    FieldText(a, k, sp, s);
    FieldText(b, l, sp, t);
    Cut("\"", "\"", PrintChars(k) + (c + (x + s)), PrintChars(l) + (c + (y + t)));
    CharsInjective(k, l, c + (x + s), c + (y + t));
    Cut(c, c, x + s, y + t);
    PrintInjective(a.fields[k], b.fields[l], sp, s, t);
  }

  lemma FieldText(j: Json, k: string, sp: string, s: string)
    requires j.Obj? && k in j.fields
    ensures PrintField(j, k, sp) + s == "\"" + (PrintChars(k) + ((":" + sp) + (Print(j.fields[k], sp) + s)))
  {
    var q, p, x := "\"", PrintChars(k), Print(j.fields[k], sp);
    Assoc(q + p, ":", sp);
    Assoc(q + p + (":" + sp), x, s);
    Assoc(q + p, ":" + sp, x + s);
    Assoc(q, p, (":" + sp) + (x + s));
  }

  lemma {:induction false} FieldsInjective(a: Json, b: Json, ks: seq<string>, ls: seq<string>, sp: string, s: string, t: string)
    requires a.Obj? && b.Obj?
    requires (forall k :: k in ks ==> k in a.fields) && (forall k :: k in ls ==> k in b.fields)
    requires PrintFields(a, ks, sp) + s == PrintFields(b, ls, sp) + t
    ensures ks == ls && s == t && forall k :: k in ks ==> a.fields[k] == b.fields[k]
    decreases a, 0, 1 + |ks|
  {
    var u, v := PrintFields(a, ks, sp), PrintFields(b, ls, sp);
    assert u[0] == (u + s)[0] == (v + t)[0] == v[0];
    if ks == [] {
      Cut(u, v, s, t);
    } else {
      var c, x, y := "," + sp, PrintField(a, ks[0], sp), PrintField(b, ls[0], sp);
      var u', v' := PrintFields(a, ks[1..], sp), PrintFields(b, ls[1..], sp);
      Peel(c, x, u', s);
      Peel(c, y, v', t);
      Cut(c, c, x + (u' + s), y + (v' + t));
      FieldInjective(a, b, ks[0], ls[0], sp, u' + s, v' + t);
      FieldsInjective(a, b, ks[1..], ls[1..], sp, s, t);
      assert ks == [ks[0]] + ks[1..] && ls == [ls[0]] + ls[1..];
    }
  }

  lemma {:induction false} ObjInjective(a: Json, b: Json, sp: string, s: string, t: string)
    requires a.Obj? && b.Obj? && Print(a, sp)[1..] + s == Print(b, sp)[1..] + t
    ensures a == b && s == t
    decreases a, 0, 2 + |a.fields|
  {
    var u, v := Print(a, sp)[1..], Print(b, sp)[1..];
    var ks, ls := SortedKeys(a.fields.Keys), SortedKeys(b.fields.Keys);
    assert (u + s)[0] == u[0] && (v + t)[0] == v[0];
    if ks == [] || ls == [] {
      Cut(u, v, s, t);
      assert ks == [] && ls == [];
    } else {
      var x, y := PrintField(a, ks[0], sp), PrintField(b, ls[0], sp);
      var u', v' := PrintFields(a, ks[1..], sp), PrintFields(b, ls[1..], sp);
      assert u == x + u' && v == y + v';
      Assoc(x, u', s);
      Assoc(y, v', t);
      FieldInjective(a, b, ks[0], ls[0], sp, u' + s, v' + t);
      FieldsInjective(a, b, ks[1..], ls[1..], sp, s, t);
      assert ks == [ks[0]] + ks[1..] && ls == [ls[0]] + ls[1..];
    }
    SameFields(a.fields, b.fields, ks);
  }

  lemma SameFields(m: map<string, Json>, m': map<string, Json>, ks: seq<string>)
    requires forall k :: k in ks <==> k in m
    requires forall k :: k in ks <==> k in m'
    requires forall k :: k in ks ==> m[k] == m'[k]
    ensures m == m'
  {
    forall k ensures k in m <==> k in m' {
      assert k in ks <==> k in m;
    }
    assert m.Keys == m'.Keys;
  }

  /** Two JSON values print the same text only if they are the same value. */
  lemma TextDeterminesValue(a: Json, b: Json, sp: string)
    requires Print(a, sp) == Print(b, sp)
    ensures a == b
  {
    assert Print(a, sp) + [] == Print(b, sp) + [];
    PrintInjective(a, b, sp, [], []);
  }

  /** So ordering values by their text is a total order on values. */
  lemma CanonOrder()
    ensures TotalOrder(CanonLeq)
  {
    forall a, b ensures CanonLeq(a, b) || CanonLeq(b, a) {
      StrTotal(Canon(a), Canon(b));
    }
    forall a, b | CanonLeq(a, b) && CanonLeq(b, a) ensures a == b {
      StrTotal(Canon(a), Canon(b));
      TextDeterminesValue(a, b, "");
    }
    forall a, b, c | CanonLeq(a, b) && CanonLeq(b, c) ensures CanonLeq(a, c) {
      StrTrans(Canon(a), Canon(b), Canon(c));
    }
  }
}

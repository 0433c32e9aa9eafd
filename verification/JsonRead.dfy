/** A reader of JSON text (RFC 8259), and the proof that it reads every printed value back. */
module JsonRead {
  import opened Wrappers
  import opened Ordering
  import opened JsonText

  // ----- the reader -----

  predicate IsBlank(c: char) {
    c == ' ' || c == '\t' || c == '\n' || c == '\r'
  }

  function SkipBlanks(t: string): (r: string)
    ensures |r| <= |t|
  {
    if t != "" && IsBlank(t[0]) then SkipBlanks(t[1..]) else t
  }

  predicate Starts(t: string, c: char) {
    t != "" && t[0] == c
  }

  function HexDigit(c: char): Option<nat> {
    if '0' <= c <= '9' then Some((c - '0') as nat)
    else if 'a' <= c <= 'f' then Some(10 + (c - 'a') as nat)
    else if 'A' <= c <= 'F' then Some(10 + (c - 'A') as nat)
    else None
  }

  /** Four hexadecimal digits. */
  function ReadUnit(t: string): (r: Option<nat>)
    ensures r.Some? ==> |t| >= 4 && r.value < 0x10000
  {
    if |t| < 4 then None
    else
      var a, b, c, d := HexDigit(t[0]), HexDigit(t[1]), HexDigit(t[2]), HexDigit(t[3]);
      if a.None? || b.None? || c.None? || d.None? then None
      else
        HexBound(t[0], t[1], t[2], t[3]);
        Some(((a.value * 16 + b.value) * 16 + c.value) * 16 + d.value)
  }

  lemma HexBound(a: char, b: char, c: char, d: char)
    ensures forall x :: x in [a, b, c, d] ==> HexDigit(x).Some? ==> HexDigit(x).value < 16
  {
  }

  /** The character after `\\u`, possibly as a pair of surrogates. */
  function ReadUnicode(t: string): (r: Option<(char, string)>)
    ensures r.Some? ==> |r.value.1| < |t|
  {
    match ReadUnit(t)
    case None => None
    case Some(n) =>
      if n < 0xd800 || 0xe000 <= n then Some((n as char, t[4..]))
      else if 0xdc00 <= n || |t| < 6 || t[4..6] != "\\u" then None
      else
        match ReadUnit(t[6..])
        case None => None
        case Some(m) =>
          if 0xdc00 <= m < 0xe000 then Some(((0x10000 + (n - 0xd800) * 1024 + (m - 0xdc00)) as char, t[10..])) else None
  }

  /** The character after a backslash. */
  function ReadEscape(t: string): (r: Option<(char, string)>)
    ensures r.Some? ==> |r.value.1| < |t|
  {
    if t == "" then None
    else if t[0] == 'u' then ReadUnicode(t[1..])
    else if t[0] == 'b' then Some((8 as char, t[1..]))
    else if t[0] == 'f' then Some((12 as char, t[1..]))
    else if t[0] == 'n' then Some((10 as char, t[1..]))
    else if t[0] == 'r' then Some((13 as char, t[1..]))
    else if t[0] == 't' then Some((9 as char, t[1..]))
    else if t[0] == '\"' || t[0] == '\\' || t[0] == '/' then Some((t[0], t[1..]))
    else None
  }

  function ReadChar(t: string): (r: Option<(char, string)>)
    ensures r.Some? ==> |r.value.1| < |t|
  {
    if t == "" || t[0] == '\"' || t[0] < ' ' then None
    else if t[0] == '\\' then ReadEscape(t[1..])
    else Some((t[0], t[1..]))
  }

  /** The rest of a string, up to its closing quote. */
  function ReadChars(t: string): (r: Option<(string, string)>)
    ensures r.Some? ==> |r.value.1| < |t|
    decreases |t|
  {
    if Starts(t, '\"') then Some(("", t[1..]))
    else
      match ReadChar(t)
      case None => None
      case Some((c, rest)) =>
        match ReadChars(rest)
        case None => None
        case Some((s, end)) => Some(([c] + s, end))
  }

  function ReadDigits(t: string, n: nat): (r: (nat, string))
    ensures |r.1| <= |t|
    decreases |t|
  {
    if t != "" && '0' <= t[0] <= '9' then ReadDigits(t[1..], 10 * n + (t[0] - '0') as nat) else (n, t)
  }

  function ReadNat(t: string): (r: Option<(nat, string)>)
    ensures r.Some? ==> |r.value.1| < |t|
  {
    if t == "" || !('0' <= t[0] <= '9') then None else Some(ReadDigits(t[1..], (t[0] - '0') as nat))
  }

  function ReadNumber(t: string): (r: Option<(int, string)>)
    ensures r.Some? ==> |r.value.1| < |t|
  {
    if Starts(t, '-') then
      match ReadNat(t[1..]) case None => None case Some((n, rest)) => Some((-(n as int), rest))
    else
      match ReadNat(t) case None => None case Some((n, rest)) => Some((n as int, rest))
  }

  function ReadWord(t: string, word: string, v: Json): (r: Option<(Json, string)>)
    requires word != ""
    ensures r.Some? ==> |r.value.1| < |t|
  {
    if word <= t then Some((v, t[|word|..])) else None
  }

  /** A value, after any blanks. */
  function ReadValue(text: string): (r: Option<(Json, string)>)
    ensures r.Some? ==> |r.value.1| < |text|
    decreases |text|, 1
  {
    var t := SkipBlanks(text);
    if t == "" then None
    else if t[0] == 'n' then ReadWord(t, "null", Null)
    else if t[0] == 't' then ReadWord(t, "true", Bool(true))
    else if t[0] == 'f' then ReadWord(t, "false", Bool(false))
    else if t[0] == '\"' then
      match ReadChars(t[1..]) case None => None case Some((s, rest)) => Some((Str(s), rest))
    else if t[0] == '[' then
      if Starts(SkipBlanks(t[1..]), ']') then Some((Arr([]), SkipBlanks(t[1..])[1..]))
      else match ReadItems(t[1..]) case None => None case Some((xs, rest)) => Some((Arr(xs), rest))
    else if t[0] == '{' then
      if Starts(SkipBlanks(t[1..]), '}') then Some((Obj(map[]), SkipBlanks(t[1..])[1..]))
      else match ReadFields(t[1..]) case None => None case Some((m, rest)) => Some((Obj(m), rest))
    else
      match ReadNumber(t) case None => None case Some((n, rest)) => Some((Num(n), rest))
  }

  /** The items of a list that is not empty, and its closing bracket. */
  function ReadItems(t: string): (r: Option<(seq<Json>, string)>)
    ensures r.Some? ==> |r.value.1| < |t|
    decreases |t|, 2
  {
    match ReadValue(t)
    case None => None
    case Some((v, after)) =>
      var rest := SkipBlanks(after);
      if Starts(rest, ']') then Some(([v], rest[1..]))
      else if !Starts(rest, ',') then None
      else match ReadItems(rest[1..]) case None => None case Some((vs, end)) => Some(([v] + vs, end))
  }

  /** The fields of an object that is not empty, and its closing brace; a later field of the same name
      replaces an earlier one. */
  function ReadFields(text: string): (r: Option<(map<string, Json>, string)>)
    ensures r.Some? ==> |r.value.1| < |text|
    decreases |text|, 2
  {
    var t := SkipBlanks(text);
    if !Starts(t, '\"') then None
    else
      match ReadChars(t[1..])
      case None => None
      case Some((k, afterKey)) =>
        var colon := SkipBlanks(afterKey);
        if !Starts(colon, ':') then None
        else
          match ReadValue(colon[1..])
          case None => None
          case Some((v, after)) =>
            var rest := SkipBlanks(after);
            if Starts(rest, '}') then Some((map[k := v], rest[1..]))
            else if !Starts(rest, ',') then None
            else match ReadFields(rest[1..]) case None => None case Some((m, end)) => Some((map[k := v] + m, end))
  }

  // ----- it reads back what was printed -----

  predicate Blank(sp: string) {
    forall c :: c in sp ==> IsBlank(c)
  }

  lemma {:induction false} Skips(sp: string, t: string)
    requires Blank(sp) && (t == "" || !IsBlank(t[0]))
    ensures SkipBlanks(sp + t) == t
  {
    if sp == "" {
      assert sp + t == t;
    } else {
      assert (sp + t)[0] == sp[0] && (sp + t)[1..] == sp[1..] + t;
      Skips(sp[1..], t);
    }
  }

  lemma HexReads(d: nat)
    requires d < 16
    ensures HexDigit(Digit(d)) == Some(d)
  {
  }

  lemma UnitReads(n: nat, t: string)
    requires n < 0x10000
    ensures ReadUnit(Hex4(n) + t) == Some(n)
  {
    hide Digit, HexDigit;
    var s := Hex4(n) + t;
    HexReads(n / 16 / 16 / 16);
    HexReads(n / 16 / 16 % 16);
    HexReads(n / 16 % 16);
    HexReads(n % 16);
    assert s[0] == Hex4(n)[0] && s[1] == Hex4(n)[1] && s[2] == Hex4(n)[2] && s[3] == Hex4(n)[3];
  }

  lemma UnicodeReads(c: char, t: string)
    ensures ReadUnicode(Hex4(FirstUnit(c)) + (SecondUnit(c) + t)) == Some((c, t))
  {
    hide Hex4, ReadUnit;
    var n, m := FirstUnit(c), 0xdc00 + (c as int - 0x10000) % 1024;
    UnitReads(n, SecondUnit(c) + t);
    var s := Hex4(n) + (SecondUnit(c) + t);
    FourDigits(n);
    assert s[4..] == SecondUnit(c) + t;
    if 0x10000 <= c as int {
      FourDigits(m);
      UnitReads(m, t);
      assert SecondUnit(c) + t == "\\u" + (Hex4(m) + t);
      assert s[4..6] == "\\u" && s[6..] == Hex4(m) + t && s[10..] == t;
      assert c as int == 0x10000 + (n - 0xd800) * 1024 + (m - 0xdc00);
    } else {
      assert SecondUnit(c) + t == t;
    }
  }

  lemma FourDigits(n: nat)
    requires n < 0x10000
    ensures |Hex4(n)| == 4
  {
  }

  lemma UnitCharReads(c: char, t: string)
    requires PrintChar(c) == Unit(FirstUnit(c)) + SecondUnit(c)
    ensures ReadChar(PrintChar(c) + t) == Some((c, t)) && !Starts(PrintChar(c) + t, '\"')
  {
    hide PrintChar, ReadUnicode, Hex4, SecondUnit, FirstUnit;
    var s, u := PrintChar(c) + t, Hex4(FirstUnit(c)) + (SecondUnit(c) + t);
    UnicodeReads(c, t);
    assert s == "\\u" + u;
    assert s[0] == '\\' && s[1..] == "u" + u;
    assert s[1..][0] == 'u' && s[1..][1..] == u;
  }

  lemma ShortCharReads(c: char, t: string)
    requires |PrintChar(c)| == 2
    ensures ReadChar(PrintChar(c) + t) == Some((c, t)) && !Starts(PrintChar(c) + t, '\"')
  {
    hide ReadUnicode;
    var s := PrintChar(c) + t;
    assert s[0] == '\\' && s[1..] == [PrintChar(c)[1]] + t;
    assert s[1..][0] == PrintChar(c)[1] && s[1..][1..] == t;
  }

  lemma CharReads(c: char, t: string)
    ensures ReadChar(PrintChar(c) + t) == Some((c, t)) && !Starts(PrintChar(c) + t, '\"')
  {
    hide ReadUnicode, ReadEscape, Hex4, SecondUnit, FirstUnit;
    if |PrintChar(c)| > 2 {
      UnitCharReads(c, t);
    } else if |PrintChar(c)| == 2 {
      ShortCharReads(c, t);
    } else {
      assert (PrintChar(c) + t)[1..] == t;
    }
  }

  lemma {:induction false} CharsRead(a: string, t: string)
    ensures ReadChars(PrintChars(a) + t) == Some((a, t))
  {
    hide ReadChar, PrintChar;
    if a == "" {
      assert (PrintChars(a) + t)[1..] == t;
    } else {
      CharReads(a[0], PrintChars(a[1..]) + t);
      assert PrintChars(a) + t == PrintChar(a[0]) + (PrintChars(a[1..]) + t);
      CharsRead(a[1..], t);
      assert a == [a[0]] + a[1..];
    }
  }

  lemma {:induction false} DigitsConcat(a: string, b: string, n: nat)
    requires forall i :: 0 <= i < |a| ==> IsDigit(a[i])
    ensures ReadDigits(a + b, n) == ReadDigits(b, ReadDigits(a, n).0) && ReadDigits(a, n).1 == ""
    decreases |a|
  {
    if a == "" {
      assert a + b == b;
    } else {
      assert (a + b)[1..] == a[1..] + b;
      DigitsConcat(a[1..], b, 10 * n + (a[0] - '0') as nat);
    }
  }

  lemma {:induction false} NatReads(n: nat)
    ensures ReadDigits(PrintNat(n), 0).0 == n
  {
    NatDigits(n);
    if n >= 10 {
      NatReads(n / 10);
      NatDigits(n / 10);
      DigitsConcat(PrintNat(n / 10), [Digit(n % 10)], 0);
    }
  }

  lemma NatTextReads(n: nat, t: string)
    requires Ends(t)
    ensures ReadNat(PrintNat(n) + t) == Some((n, t))
    ensures !Starts(PrintNat(n) + t, '-')
  {
    hide PrintNat;
    var d := PrintNat(n);
    NatDigits(n);
    NatReads(n);
    DigitsConcat(d, t, 0);
    assert (d + t)[0] == d[0] && IsDigit(d[0]);
    assert ReadDigits(t, n) == (n, t);
  }

  lemma NumberReads(n: int, t: string)
    requires Ends(t)
    ensures ReadNumber(PrintInt(n) + t) == Some((n, t))
  {
    hide PrintNat, ReadNat;
    var m: nat := if n < 0 then -n else n;
    NatTextReads(m, t);
    if n < 0 {
      assert (PrintInt(n) + t)[1..] == PrintNat(m) + t;
    }
  }

  /** The first character of a printed value is not blank and not a closing bracket. */
  lemma ValueStarts(j: Json, sp: string, t: string)
    ensures var u := Print(j, sp) + t; u != "" && u[0] == Print(j, sp)[0] && !IsBlank(u[0]) && u[0] != ']' && u[0] != '}'
  {
    Head(j, sp);
  }

  lemma WordReads(word: string, v: Json, t: string)
    requires word != ""
    ensures ReadWord(word + t, word, v) == Some((v, t))
  {
  }

  lemma NoSkip(t: string)
    requires t == "" || !IsBlank(t[0])
    ensures SkipBlanks(t) == t
  {
  }

  /** Leading blanks do not matter. */
  lemma ValueAfterBlanks(sp: string, t: string)
    requires Blank(sp) && t != "" && !IsBlank(t[0])
    ensures ReadValue(sp + t) == ReadValue(t)
  {
    Skips(sp, t);
    NoSkip(t);
  }

  /** What follows a printed item begins with a comma or the closing bracket. */
  lemma ItemsEnd(xs: seq<Json>, sp: string, t: string)
    ensures var u := PrintItems(xs, sp) + t; Ends(u) && u != "" && !IsBlank(u[0]) && u[0] == (if xs == [] then ']' else ',')
  {
  }

  lemma FieldsEnd(j: Json, ks: seq<string>, sp: string, t: string)
    requires j.Obj? && forall k :: k in ks ==> k in j.fields
    ensures var u := PrintFields(j, ks, sp) + t; Ends(u) && u != "" && !IsBlank(u[0]) && u[0] == (if ks == [] then '}' else ',')
  {
  }

  function Part(m: map<string, Json>, ks: seq<string>): map<string, Json>
    requires forall k :: k in ks ==> k in m
  {
    map k | k in ks :: m[k]
  }

  /** Every printed value is read back as that value, and what follows it is left. */
  lemma {:induction false} PrintedIsRead(j: Json, sp: string, t: string)
    requires Blank(sp) && Ends(t)
    ensures ReadValue(Print(j, sp) + t) == Some((j, t))
    decreases j, 1, 0
  {
    hide ReadItems, ReadFields, ReadChars, ReadNumber, ReadWord, PrintChars, PrintInt, SkipBlanks;
    var text := Print(j, sp) + t;
    ValueStarts(j, sp, t);
    NoSkip(text);
    match j {
      case Null => WordReads("null", j, t);
      case Bool(b) => WordReads(Print(j, sp), j, t);
      case Num(n) =>
        Head(j, sp);
        NumberReads(n, t);
      case Str(s) =>
        CharsRead(s, t);
        assert text[1..] == PrintChars(s) + t;
      case Arr(xs) =>
        assert text[1..] == PrintList(xs, sp) + t;
        ListRead(xs, sp, t);
      case Obj(m) =>
        ObjectRead(j, sp, t);
    }
  }

  lemma {:induction false} ListRead(xs: seq<Json>, sp: string, t: string)
    requires Blank(sp)
    ensures var u := PrintList(xs, sp) + t;
      if xs == [] then Starts(SkipBlanks(u), ']') && SkipBlanks(u)[1..] == t
      else !Starts(SkipBlanks(u), ']') && ReadItems(u) == Some((xs, t))
    decreases xs, 0, 1
  {
    var u := PrintList(xs, sp) + t;
    if xs == [] {
      NoSkip(u);
    } else {
      ValueStarts(xs[0], sp, PrintItems(xs[1..], sp) + t);
      assert u == Print(xs[0], sp) + (PrintItems(xs[1..], sp) + t);
      NoSkip(u);
      ItemsRead(xs, sp, t);
    }
  }

  lemma {:induction false} ItemsRead(xs: seq<Json>, sp: string, t: string)
    requires Blank(sp) && xs != []
    ensures ReadItems(Print(xs[0], sp) + (PrintItems(xs[1..], sp) + t)) == Some((xs, t))
    decreases xs, 0, 0
  {
    hide ReadValue, Print, SkipBlanks;
    var rest := PrintItems(xs[1..], sp) + t;
    ItemsEnd(xs[1..], sp, t);
    PrintedIsRead(xs[0], sp, rest);
    NoSkip(rest);
    if xs[1..] == [] {
      assert rest[1..] == t && xs == [xs[0]];
    } else {
      var ys := xs[1..];
      var u := Print(ys[0], sp) + (PrintItems(ys[1..], sp) + t);
      assert rest == "," + (sp + u);
      assert rest[1..] == sp + u;
      ValueStarts(ys[0], sp, PrintItems(ys[1..], sp) + t);
      ValueAfterBlanks(sp, u);
      assert ReadItems(sp + u) == ReadItems(u) by {
        ItemsAfterBlanks(sp, u);
      }
      ItemsRead(ys, sp, t);
      assert xs == [xs[0]] + ys;
    }
  }

  lemma ItemsAfterBlanks(sp: string, t: string)
    requires ReadValue(sp + t) == ReadValue(t)
    ensures ReadItems(sp + t) == ReadItems(t)
  {
    hide ReadValue;
  }

  lemma ObjectStep(text: string, m: map<string, Json>, t: string)
    requires Starts(text, '{') && Starts(text[1..], '\"') && ReadFields(text[1..]) == Some((m, t))
    ensures ReadValue(text) == Some((Obj(m), t))
  {
    hide ReadItems, ReadFields, ReadChars;
    NoSkip(text);
    NoSkip(text[1..]);
  }

  lemma EmptyObjectStep(t: string)
    ensures ReadValue("{}" + t) == Some((Obj(map[]), t))
  {
    hide ReadItems, ReadFields, ReadChars;
    var text := "{}" + t;
    NoSkip(text);
    NoSkip(text[1..]);
    assert text[1..] == "}" + t && text[1..][1..] == t;
  }

  lemma ObjectText(j: Json, sp: string, t: string)
    requires j.Obj?
    ensures var ks := SortedKeys(j.fields.Keys);
      && (ks == [] ==> Print(j, sp) + t == "{}" + t)
      && (ks != [] ==> Print(j, sp) + t == "{" + (PrintField(j, ks[0], sp) + (PrintFields(j, ks[1..], sp) + t)))
  {
    hide PrintField, PrintFields;
  }

  lemma {:induction false} ObjectRead(j: Json, sp: string, t: string)
    requires j.Obj? && Blank(sp)
    ensures ReadValue(Print(j, sp) + t) == Some((j, t))
    decreases j, 0, 2 + |j.fields|
  {
    hide ReadValue, ReadFields, Print, PrintField, PrintFields, Blank;
    var ks, text := SortedKeys(j.fields.Keys), Print(j, sp) + t;
    ObjectText(j, sp, t);
    if ks == [] {
      EmptyObjectStep(t);
      assert j.fields == map[];
    } else {
      var rest := PrintFields(j, ks[1..], sp) + t;
      FieldStarts(j, ks[0], sp, rest);
      FieldsRead(j, ks, sp, t);
      WholeIsPart(j.fields, ks);
      assert text[1..] == PrintField(j, ks[0], sp) + rest;
      ObjectStep(text, j.fields, t);
    }
  }

  lemma WholeIsPart(m: map<string, Json>, ks: seq<string>)
    requires forall k :: k in ks <==> k in m
    ensures Part(m, ks) == m
  {
  }

  lemma FieldStarts(j: Json, k: string, sp: string, t: string)
    requires j.Obj? && k in j.fields
    ensures Starts(PrintField(j, k, sp) + t, '"')
    ensures (PrintField(j, k, sp) + t)[1..] == PrintChars(k) + (":" + (sp + (Print(j.fields[k], sp) + t)))
  {
    hide PrintChars, Print;
    FieldText(j, k, sp, t);
    assert ":" + sp + (Print(j.fields[k], sp) + t) == ":" + (sp + (Print(j.fields[k], sp) + t));
  }

  /** One field, up to the comma or bracket after it. */
  lemma FieldStep(text: string, k: string, colon: string, v: Json, rest: string)
    requires Starts(text, '\"') && ReadChars(text[1..]) == Some((k, colon)) && Starts(colon, ':')
    requires ReadValue(colon[1..]) == Some((v, rest))
    ensures Starts(rest, '}') ==> ReadFields(text) == Some((map[k := v], rest[1..]))
    ensures Starts(rest, ',') && ReadFields(rest[1..]).Some? ==>
      ReadFields(text) == Some((map[k := v] + ReadFields(rest[1..]).value.0, ReadFields(rest[1..]).value.1))
  {
    hide ReadValue, ReadChars;
    NoSkip(text);
    NoSkip(colon);
    if Starts(rest, '}') || Starts(rest, ',') {
      NoSkip(rest);
    }
  }

  lemma {:induction false} FieldsRead(j: Json, ks: seq<string>, sp: string, t: string)
    requires j.Obj? && Blank(sp) && ks != [] && forall k :: k in ks ==> k in j.fields
    ensures ReadFields(PrintField(j, ks[0], sp) + (PrintFields(j, ks[1..], sp) + t)) == Some((Part(j.fields, ks), t))
    decreases j, 0, 1 + |ks|
  {
    hide ReadValue, ReadFields, ReadChars, Print, PrintField, PrintChars, SkipBlanks, Blank;
    var k, rest := ks[0], PrintFields(j, ks[1..], sp) + t;
    var text, v := PrintField(j, k, sp) + rest, j.fields[k];
    FieldStarts(j, k, sp, rest);
    var colon := ":" + (sp + (Print(v, sp) + rest));
    CharsRead(k, colon);
    assert colon[1..] == sp + (Print(v, sp) + rest);
    ValueStarts(v, sp, rest);
    ValueAfterBlanks(sp, Print(v, sp) + rest);
    FieldsEnd(j, ks[1..], sp, t);
    PrintedIsRead(v, sp, rest);
    FieldStep(text, k, colon, v, rest);
    if ks[1..] == [] {
      assert rest[1..] == t;
      assert Part(j.fields, ks) == map[k := v];
    } else {
      var ls := ks[1..];
      var u := PrintField(j, ls[0], sp) + (PrintFields(j, ls[1..], sp) + t);
      MoreFields(j, ls, sp, t);
      FieldStarts(j, ls[0], sp, PrintFields(j, ls[1..], sp) + t);
      FieldsAfterBlanks(sp, u);
      FieldsRead(j, ls, sp, t);
      assert Part(j.fields, ks) == map[k := v] + Part(j.fields, ls);
    }
  }

  lemma MoreFields(j: Json, ls: seq<string>, sp: string, t: string)
    requires j.Obj? && ls != [] && forall k :: k in ls ==> k in j.fields
    ensures (PrintFields(j, ls, sp) + t)[1..] == sp + (PrintField(j, ls[0], sp) + (PrintFields(j, ls[1..], sp) + t))
  {
    hide PrintField;
    var u := PrintField(j, ls[0], sp) + (PrintFields(j, ls[1..], sp) + t);
    assert PrintFields(j, ls, sp) + t == "," + (sp + u);
  }

  lemma FieldsAfterBlanks(sp: string, t: string)
    requires Blank(sp) && Starts(t, '"')
    ensures ReadFields(sp + t) == ReadFields(t)
  {
    hide ReadValue, ReadChars;
    Skips(sp, t);
    NoSkip(t);
  }

  /** So the whole text of a value, compact or with blanks, is read back as the value. */
  lemma TextIsReadBack(j: Json, sp: string)
    requires Blank(sp)
    ensures ReadValue(Print(j, sp)) == Some((j, ""))
  {
    assert Print(j, sp) + "" == Print(j, sp);
    PrintedIsRead(j, sp, "");
  }
}

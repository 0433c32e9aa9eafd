/** u128 amounts as 16 little-endian bytes in hexadecimal. */
module U128 {
  import opened Wrappers
  import JsonText
  import GraphRecords

  type Byte = b: nat | b < 256

  const U128_MAX: nat := 0x1_0000_0000_0000_0000_0000_0000_0000_0000 - 1

  datatype ValueError = TooSmall | TooLarge | NotHex

  // ----- bytes and numbers -----

  /** The `count` low bytes of a number, least significant first. */
  function LittleEndian(n: nat, count: nat): (r: seq<Byte>)
    ensures |r| == count
  {
    if count == 0 then [] else [n % 256] + LittleEndian(n / 256, count - 1)
  }

  /** `int.from_bytes(buf, "big")`. */
  function BigEndianValue(buf: seq<Byte>): nat {
    if buf == [] then 0 else BigEndianValue(buf[..|buf| - 1]) * 256 + buf[|buf| - 1]
  }

  function Pow256(n: nat): (p: nat)
    ensures p > 0
  {
    if n == 0 then 1 else 256 * Pow256(n - 1)
  }

  function Reversed(buf: seq<Byte>): seq<Byte> {
    seq(|buf|, i requires 0 <= i < |buf| => buf[|buf| - 1 - i])
  }

  // ----- hexadecimal text -----

  function ToHex(buf: seq<Byte>): string {
    if buf == [] then []
    else [JsonText.Digit(buf[0] / 16), JsonText.Digit(buf[0] % 16)] + ToHex(buf[1..])
  }

  predicate IsSpace(c: char) {
    c == ' ' || 9 <= c as int <= 13
  }

  function HexValue(c: char): nat {
    GraphRecords.DigitValue(GraphRecords.LowerChar(c))
  }

  /** `bytearray.fromhex`: pairs of digits of either case, blanks allowed between pairs. */
  function FromHex(s: string): Option<seq<Byte>> {
    if s == [] then Some([])
    else if IsSpace(s[0]) then FromHex(s[1..])
    else if |s| == 1 || HexValue(s[0]) >= 16 || HexValue(s[1]) >= 16 then None
    else
      match FromHex(s[2..])
      case None => None
      case Some(rest) => Some([HexValue(s[0]) * 16 + HexValue(s[1])] + rest)
  }

  function StripPrefix(s: string): string {
    if |s| >= 2 && s[..2] == "0x" then s[2..] else s
  }

  // ----- the two operations -----

  function Encode(num: int): Result<string, ValueError> {
    if num < 0 then Err(TooSmall)
    else if num > U128_MAX then Err(TooLarge)
    else Ok("0x" + ToHex(LittleEndian(num, 16)))
  }

  function Decode(hex: string): Result<nat, ValueError> {
    match FromHex(StripPrefix(hex))
    case None => Err(NotHex)
    case Some(buf) => Ok(BigEndianValue(Reversed(buf)))
  }

  /** `to_big_uint128_le_compatible`: four 32-bit words, each packed little-endian. */
  method ToBigUint128Le(num: int) returns (r: Result<string, ValueError>)
    ensures r == Encode(num)
  {
    if num < 0 {
      return Err(TooSmall);
    }
    if num > U128_MAX {
      return Err(TooLarge);
    }
    var buf := new Byte[16](_ => 0);
    FillWords(buf, num);
    r := Ok("0x" + ToHex(buf[..]));
  }

  /** The loop over the words. */
  method FillWords(buf: array<Byte>, num: nat)
    requires buf.Length == 16
    modifies buf
    ensures buf[..] == LittleEndian(num, 16)
  {
    hide LittleEndian;
    var n: nat := num;
    for i := 0 to 4
      invariant LittleEndian(num, 16) == buf[..4 * i] + LittleEndian(n, 16 - 4 * i)
    {
      WordAtATime(n, 16 - 4 * i);
      StoreWord(buf, 4 * i, LittleEndian(n % WORD, 4));
      n := n / WORD;
    }
    assert buf[..16] == buf[..];
  }

  /** `buf[at : at + 4] = packed`. */
  method StoreWord(buf: array<Byte>, at: nat, packed: seq<Byte>)
    requires at + 4 <= buf.Length && |packed| == 4
    modifies buf
    ensures buf[..at + 4] == old(buf[..at]) + packed
    ensures buf[at + 4..] == old(buf[at + 4..])
  {
    forall j | 0 <= j < 4 {
      buf[at + j] := packed[j];
    }
  }

  const WORD: nat := 0x1_0000_0000

  /** Packing 32-bit words one after the other is writing bytes one after the other. */
  lemma WordAtATime(n: nat, count: nat)
    requires count >= 4
    ensures LittleEndian(n, count) == LittleEndian(n % WORD, 4) + LittleEndian(n / WORD, count - 4)
  {
    hide LittleEndian;
    var a, b, c, w := n / 256, n / 256 / 256, n / 256 / 256 / 256, n % WORD;
    assert a == 0x100_0000 * (n / WORD) + w / 256;
    assert b == 0x1_0000 * (n / WORD) + w / 256 / 256;
    assert c == 0x100 * (n / WORD) + w / 256 / 256 / 256;
    FirstByte(n, count);
    FirstByte(a, count - 1);
    FirstByte(b, count - 2);
    FirstByte(c, count - 3);
    FirstByte(w, 4);
    FirstByte(w / 256, 3);
    FirstByte(w / 256 / 256, 2);
    FirstByte(w / 256 / 256 / 256, 1);
    assert c / 256 == n / WORD;
    var rest := LittleEndian(n / WORD, count - 4);
    assert LittleEndian(n, count) == [n % 256, a % 256, b % 256, c % 256] + rest;
    assert LittleEndian(w, 4) == [w % 256, w / 256 % 256, w / 256 / 256 % 256, w / 256 / 256 / 256 % 256];
  }

  lemma FirstByte(n: nat, count: nat)
    requires count > 0
    ensures LittleEndian(n, count) == [n % 256] + LittleEndian(n / 256, count - 1)
  {
  }

  /** `to_int_from_big_uint128_le`: reverse in place, then read big-endian. */
  method ToIntFromBigUint128Le(hex: string) returns (r: Result<nat, ValueError>)
    ensures r == Decode(hex)
  {
    var bytes := FromHex(StripPrefix(hex));
    if bytes.None? {
      return Err(NotHex);
    }
    ghost var was := bytes.value;
    var n := |bytes.value|;
    var buf := new Byte[n](i requires 0 <= i < n => bytes.value[i]);
    assert buf[..] == was;
    var i := 0;
    while i < n / 2
      invariant 0 <= i <= n / 2
      invariant forall k :: 0 <= k < i ==> buf[k] == was[n - 1 - k] && buf[n - 1 - k] == was[k]
      invariant forall k :: i <= k < n - i ==> buf[k] == was[k]
    {
      buf[i], buf[n - 1 - i] := buf[n - 1 - i], buf[i];
      i := i + 1;
    }
    assert buf[..] == Reversed(was);
    r := Ok(BigEndianValue(buf[..]));
  }

  // ----- round trips -----

  lemma DigitInverse(d: nat)
    requires d < 16
    ensures HexValue(JsonText.Digit(d)) == d && !IsSpace(JsonText.Digit(d))
  {
  }

  lemma {:induction false} HexInverse(buf: seq<Byte>)
    ensures FromHex(ToHex(buf)) == Some(buf)
  {
    if buf != [] {
      HexInverse(buf[1..]);
      DigitInverse(buf[0] / 16);
      DigitInverse(buf[0] % 16);
      assert ToHex(buf)[2..] == ToHex(buf[1..]);
      assert buf == [buf[0]] + buf[1..];
    }
  }

  lemma {:induction false} ReadBack(n: nat, count: nat)
    requires n < Pow256(count)
    ensures BigEndianValue(Reversed(LittleEndian(n, count))) == n
  {
    if count > 0 {
      ReadBack(n / 256, count - 1);
      var rest := LittleEndian(n / 256, count - 1);
      assert Reversed([n % 256] + rest) == Reversed(rest) + [n % 256];
      assert (Reversed(rest) + [n % 256])[..count - 1] == Reversed(rest);
    }
  }

  lemma {:induction false} WriteBack(buf: seq<Byte>)
    ensures var n := BigEndianValue(Reversed(buf)); n < Pow256(|buf|) && LittleEndian(n, |buf|) == buf
  {
    if buf != [] {
      WriteBack(buf[1..]);
      var n := BigEndianValue(Reversed(buf[1..]));
      assert Reversed(buf) == Reversed(buf[1..]) + [buf[0]];
      assert Reversed(buf)[..|buf| - 1] == Reversed(buf[1..]);
      assert buf == [buf[0]] + buf[1..];
      assert BigEndianValue(Reversed(buf)) == n * 256 + buf[0];
    }
  }

  lemma MaxIsPow()
    ensures Pow256(16) == U128_MAX + 1
  {
    assert Pow256(4) == 0x1_0000_0000;
    assert Pow256(8) == 0x1_0000_0000_0000_0000;
    assert Pow256(12) == 0x1_0000_0000_0000_0000_0000_0000;
  }

  /** Encoding accepts exactly the u128 range, and decoding gives the number back. */
  lemma DecodeEncode(num: int)
    ensures Encode(num).Ok? <==> 0 <= num <= U128_MAX
    ensures (Encode(num) == Err(TooSmall) <==> num < 0) && (Encode(num) == Err(TooLarge) <==> num > U128_MAX)
    ensures Encode(num).Ok? ==> Decode(Encode(num).value) == Ok(num)
  {
    if 0 <= num <= U128_MAX {
      MaxIsPow();
      var buf := LittleEndian(num, 16);
      var s := "0x" + ToHex(buf);
      assert s[..2] == "0x" && s[2..] == ToHex(buf);
      HexInverse(buf);
      ReadBack(num, 16);
    }
  }

  // ----- which texts are read -----

  const BLANKS := " \t\n\r\U{b}\U{c}"

  predicate AllBlank(s: string) {
    forall i :: 0 <= i < |s| ==> s[i] in BLANKS
  }

  /** `c` is the hexadecimal digit of value `d`, in either case. */
  predicate DigitFor(c: char, d: nat) {
    d < 16 && (c == "0123456789abcdef"[d] || c == "0123456789ABCDEF"[d])
  }

  /** The first pair of digits stands at `i` after blanks only, and is that byte. */
  predicate PairAt(s: string, i: nat, b: Byte) {
    && i + 2 <= |s| && AllBlank(s[..i])
    && DigitFor(s[i], b / 16) && DigitFor(s[i + 1], b % 16)
  }

  /** The text consists of two digits for each byte, in order, and blanks around these pairs. */
  ghost predicate Spells(s: string, buf: seq<Byte>)
    decreases |buf|
  {
    if buf == [] then AllBlank(s)
    else exists i: nat :: PairAt(s, i, buf[0]) && Spells(s[i + 2..], buf[1..])
  }

  lemma Characters(c: char)
    ensures IsSpace(c) <==> c in BLANKS
    ensures HexValue(c) < 16 ==> !IsSpace(c)
    ensures forall d: nat | d < 16 :: DigitFor(c, d) <==> HexValue(c) == d
  {
    var low, up := "0123456789abcdef", "0123456789ABCDEF";
    var v := HexValue(c);
    assert v < 16 ==> c == low[v] || c == up[v];
    forall d: nat | d < 16 ensures DigitFor(c, d) <==> v == d {
      DigitsRead(d);
    }
  }

  lemma DigitsRead(d: nat)
    requires d < 16
    ensures HexValue("0123456789abcdef"[d]) == d && HexValue("0123456789ABCDEF"[d]) == d
  {
  }

  lemma SpellsAfterBlank(s: string, buf: seq<Byte>)
    requires s != [] && IsSpace(s[0])
    ensures Spells(s, buf) <==> Spells(s[1..], buf)
  {
    hide IsSpace, HexValue, DigitFor;
    var rest := s[1..];
    Characters(s[0]);
    if buf == [] {
      assert s == [s[0]] + rest;
    } else {
      BlankFirst(s, buf[0]);
      if i: nat :| PairAt(s, i, buf[0]) && Spells(s[i + 2..], buf[1..]) {
        assert PairAt(rest, i - 1, buf[0]) && rest[i - 1 + 2..] == s[i + 2..];
      }
      if i: nat :| PairAt(rest, i, buf[0]) && Spells(rest[i + 2..], buf[1..]) {
        assert PairAt(s, i + 1, buf[0]) && s[i + 1 + 2..] == rest[i + 2..];
      }
    }
  }

  lemma BlankFirst(s: string, b: Byte)
    requires s != [] && IsSpace(s[0])
    ensures forall i: nat :: PairAt(s, i, b) ==> i > 0 && PairAt(s[1..], i - 1, b)
    ensures forall i: nat :: PairAt(s[1..], i, b) ==> PairAt(s, i + 1, b)
  {
    hide IsSpace, HexValue, DigitFor;
    Characters(s[0]);
    forall i: nat | PairAt(s, i, b) ensures i > 0 && PairAt(s[1..], i - 1, b) {
      Characters(s[i]);
      assert s[1..][..i - 1] == s[..i][1..];
    }
    forall i: nat | PairAt(s[1..], i, b) ensures PairAt(s, i + 1, b) {
      assert s[..i + 1] == [s[0]] + s[1..][..i];
    }
  }

  lemma DigitFirst(s: string, i: nat, b: Byte)
    requires s != [] && !IsSpace(s[0])
    ensures PairAt(s, i, b) <==> i == 0 && |s| >= 2 && HexValue(s[0]) == b / 16 && HexValue(s[1]) == b % 16
  {
    hide IsSpace, HexValue, DigitFor;
    Characters(s[0]);
    if |s| >= 2 {
      Characters(s[1]);
    }
    assert 0 < i <= |s| ==> s[..i][0] == s[0];
  }

  lemma SpellsAfterDigit(s: string, buf: seq<Byte>)
    requires s != [] && !IsSpace(s[0])
    ensures Spells(s, buf) <==>
      && buf != [] && |s| >= 2 && HexValue(s[0]) == buf[0] / 16 && HexValue(s[1]) == buf[0] % 16
      && Spells(s[2..], buf[1..])
  {
    hide HexValue, IsSpace, DigitFor;
    if buf == [] {
      Characters(s[0]);
    } else {
      if i: nat :| PairAt(s, i, buf[0]) && Spells(s[i + 2..], buf[1..]) {
        DigitFirst(s, i, buf[0]);
      }
      DigitFirst(s, 0, buf[0]);
      assert |s| >= 2 ==> s[0 + 2..] == s[2..];
    }
  }

  lemma ReadAfterDigit(s: string, buf: seq<Byte>)
    requires s != [] && !IsSpace(s[0])
    ensures FromHex(s) == Some(buf) <==>
      && buf != [] && |s| >= 2 && HexValue(s[0]) == buf[0] / 16 && HexValue(s[1]) == buf[0] % 16
      && FromHex(s[2..]) == Some(buf[1..])
  {
    hide IsSpace, HexValue;
    if buf != [] && |s| >= 2 && FromHex(s[2..]).Some? {
      assert buf == [buf[0]] + buf[1..];
      assert ([buf[0]] + FromHex(s[2..]).value)[1..] == FromHex(s[2..]).value;
    }
  }

  /** `fromhex` gives exactly the bytes that the text spells, and refuses a text that spells none. */
  lemma {:induction false} FromHexIff(s: string, buf: seq<Byte>)
    ensures FromHex(s) == Some(buf) <==> Spells(s, buf)
    decreases |s|
  {
    hide IsSpace, HexValue, Spells;
    if s == [] {
      EmptySpells(buf);
    } else if IsSpace(s[0]) {
      SpellsAfterBlank(s, buf);
      FromHexIff(s[1..], buf);
    } else {
      SpellsAfterDigit(s, buf);
      ReadAfterDigit(s, buf);
      if |s| >= 2 && buf != [] {
        FromHexIff(s[2..], buf[1..]);
      }
    }
  }

  lemma EmptySpells(buf: seq<Byte>)
    ensures Spells([], buf) <==> buf == []
  {
  }

  /** Decoding reads exactly the texts that spell the little-endian bytes of a number, the prefix apart. */
  lemma DecodeIff(hex: string, n: nat)
    ensures Decode(hex) == Ok(n) <==>
      exists buf: seq<Byte> ::
        && Spells(if |hex| >= 2 && hex[0] == '0' && hex[1] == 'x' then hex[2..] else hex, buf)
        && n < Pow256(|buf|) && LittleEndian(n, |buf|) == buf
  {
    hide FromHex, Spells, LittleEndian, Pow256;
    var s := if |hex| >= 2 && hex[0] == '0' && hex[1] == 'x' then hex[2..] else hex;
    assert s == StripPrefix(hex);
    if Decode(hex) == Ok(n) {
      var buf := FromHex(s).value;
      FromHexIff(s, buf);
      WriteBack(buf);
    }
    forall buf: seq<Byte> | Spells(s, buf) && n < Pow256(|buf|) && LittleEndian(n, |buf|) == buf
      ensures Decode(hex) == Ok(n)
    {
      FromHexIff(s, buf);
      ReadBack(n, |buf|);
    }
  }

  predicate IsLowerHex(c: char) {
    '0' <= c <= '9' || 'a' <= c <= 'f'
  }

  lemma HexPair(c: char, d: char)
    requires IsLowerHex(c) && IsLowerHex(d)
    ensures var a, b := HexValue(c), HexValue(d);
      && a < 16 && b < 16 && !IsSpace(c)
      && JsonText.Digit((a * 16 + b) / 16) == c && JsonText.Digit((a * 16 + b) % 16) == d
  {
  }

  lemma {:induction false} CanonicalHex(s: string)
    requires |s| % 2 == 0 && forall i :: 0 <= i < |s| ==> IsLowerHex(s[i])
    ensures FromHex(s).Some? && |FromHex(s).value| == |s| / 2 && ToHex(FromHex(s).value) == s
    decreases |s|
  {
    hide HexValue, IsSpace;
    if s != [] {
      CanonicalHex(s[2..]);
      HexPair(s[0], s[1]);
      var rest := FromHex(s[2..]).value;
      assert ToHex([HexValue(s[0]) * 16 + HexValue(s[1])] + rest) == [s[0], s[1]] + s[2..];
      assert s == [s[0], s[1]] + s[2..];
    }
  }

  /** Canonical text of 16 bytes is decoded to a number in range whose encoding is that text. */
  lemma EncodeDecode(h: string)
    requires |h| == 34 && h[..2] == "0x" && forall i :: 2 <= i < 34 ==> IsLowerHex(h[i])
    ensures Decode(h).Ok? && Encode(Decode(h).value) == Ok(h)
  {
    var s := h[2..];
    CanonicalHex(s);
    var buf := FromHex(s).value;
    WriteBack(buf);
    MaxIsPow();
    assert h == "0x" + s;
  }
}

/** CKB compact difficulty targets: one byte of exponent and three of mantissa, without a sign bit. */
module CompactTarget {

  function Pow2(n: nat): (p: nat)
    ensures p > 0
  {
    if n == 0 then 1 else 2 * Pow2(n - 1)
  }

  /** `x << n` and `x >> n`. */
  function Shl(x: nat, n: nat): nat {
    x * Pow2(n)
  }

  function Shr(x: nat, n: nat): nat {
    Quotient(x, Pow2(n))
  }

  function Quotient(x: nat, d: nat): nat
    requires d > 0
  {
    x / d
  }

  /** Bitwise or. */
  function Or(a: nat, b: nat): nat {
    if a == 0 then b
    else if b == 0 then a
    else 2 * Or(a / 2, b / 2) + (if a % 2 == 1 || b % 2 == 1 then 1 else 0)
  }

  function BitLength(x: nat): nat {
    if x == 0 then 0 else 1 + BitLength(x / 2)
  }

  const MANTISSA := 0x100_0000

  function CompactToTarget(compact: nat): (nat, bool) {
    var exponent, mantissa := Shr(compact, 24), compact % MANTISSA;
    if exponent <= 3 then
      var m := Shr(mantissa, 8 * (3 - exponent));
      (m, m != 0 && exponent > 32)
    else
      (Shl(mantissa, 8 * (exponent - 3)), mantissa != 0 && exponent > 32)
  }

  /** The number of bytes of a target. */
  function ByteLength(target: nat): nat {
    (BitLength(target) + 7) / 8
  }

  function TargetToCompact(target: nat): nat {
    var exponent := ByteLength(target);
    var compact := if exponent <= 3 then Shl(target, 8 * (3 - exponent)) else Shr(target, 8 * (exponent - 3));
    Or(compact, Shl(exponent, 24))
  }

  // ----- powers of two -----

  lemma {:induction false} Pow2Add(m: nat, n: nat)
    ensures Pow2(m + n) == Pow2(m) * Pow2(n)
  {
    if m > 0 {
      Pow2Add(m - 1, n);
    }
  }

  lemma {:induction false} Pow2Mono(m: nat, n: nat)
    requires m <= n
    ensures Pow2(m) <= Pow2(n)
  {
    if m < n {
      Pow2Mono(m, n - 1);
    }
  }

  lemma Pow2Small()
    ensures Pow2(8) == 0x100 && Pow2(16) == 0x1_0000 && Pow2(24) == MANTISSA
  {
    assert Pow2(4) == 16;
    Pow2Add(4, 4);
    Pow2Add(8, 8);
    Pow2Add(16, 8);
  }

  lemma {:induction false} BitLengthBounds(x: nat)
    ensures x < Pow2(BitLength(x))
    ensures x > 0 ==> BitLength(x) > 0 && Pow2(BitLength(x) - 1) <= x
  {
    if x > 0 {
      BitLengthBounds(x / 2);
    }
  }

  /** The bit length is the least number of bits that hold the number. */
  lemma {:induction false} BitLengthLeast(x: nat, n: nat)
    requires x < Pow2(n)
    ensures BitLength(x) <= n
  {
    if BitLength(x) > n {
      BitLengthBounds(x);
      Pow2Mono(n, BitLength(x) - 1);
    }
  }

  /** A target of `e > 0` bytes lies in [256^(e-1), 256^e). */
  lemma ByteLengthBounds(target: nat)
    ensures target < Pow2(8 * ByteLength(target))
    ensures target > 0 ==> ByteLength(target) > 0 && Pow2(8 * (ByteLength(target) - 1)) <= target
  {
    BitLengthBounds(target);
    Pow2Mono(BitLength(target), 8 * ByteLength(target));
    if target > 0 {
      Pow2Mono(8 * (ByteLength(target) - 1), BitLength(target) - 1);
    }
  }

  lemma ByteLengthMono(a: nat, b: nat)
    requires a <= b
    ensures ByteLength(a) <= ByteLength(b)
  {
    BitLengthBounds(b);
    BitLengthLeast(a, BitLength(b));
  }

  // ----- the mantissa field and the exponent field do not overlap -----

  lemma {:induction false} OrDisjoint(a: nat, b: nat, n: nat)
    requires a < Pow2(n)
    ensures Or(a, Shl(b, n)) == a + Shl(b, n)
  {
    if n == 0 {
      assert Shl(b, 0) == b;
    } else if a != 0 && Shl(b, n) != 0 {
      assert Shl(b, n) == 2 * Shl(b, n - 1) by {
        assert b * (2 * Pow2(n - 1)) == 2 * (b * Pow2(n - 1));
      }
      OrDisjoint(a / 2, b, n - 1);
    }
  }

  /** The mantissa that encoding stores. */
  function Mantissa(target: nat): nat {
    var e := ByteLength(target);
    if e <= 3 then Shl(target, 8 * (3 - e)) else Shr(target, 8 * (e - 3))
  }

  lemma ShrBounds(x: nat, lo: nat, hi: nat, n: nat)
    requires Pow2(n + lo) <= x < Pow2(n + hi)
    ensures Pow2(lo) <= Shr(x, n) < Pow2(hi)
  {
    hide Pow2;
    Pow2Add(lo, n);
    Pow2Add(hi, n);
    DivBounds(x, Pow2(n), Pow2(lo), Pow2(hi));
  }

  lemma DivBounds(x: nat, d: nat, lo: nat, hi: nat)
    requires d > 0 && lo * d <= x < hi * d
    ensures lo <= x / d < hi
  {
    var q := x / d;
    Truncated(x, d);
    MulOrder(q + 1, lo, d);
    MulOrder(hi, q, d);
  }

  /** Integer division by `d` loses less than `d`. */
  lemma Truncated(x: nat, d: nat)
    requires d > 0
    ensures x / d * d <= x < (x / d + 1) * d
  {
    assert x == d * (x / d) + x % d;
  }

  lemma MulOrder(a: nat, b: nat, c: nat)
    ensures a <= b ==> a * c <= b * c
  {
  }

  /** A positive target is stored with all three mantissa bytes in use. */
  lemma MantissaBounds(target: nat)
    ensures Mantissa(target) < MANTISSA
    ensures target > 0 ==> 0x1_0000 <= Mantissa(target)
  {
    hide Pow2, ByteLength;
    var e := ByteLength(target);
    ByteLengthBounds(target);
    Pow2Small();
    if target > 0 {
      if e <= 3 {
        var n := 8 * (3 - e);
        Pow2Add(8 * e, n);
        Pow2Add(8 * (e - 1), n);
        MulStrict(target, Pow2(8 * e), Pow2(n));
        MulMono(Pow2(8 * (e - 1)), target, Pow2(n));
      } else {
        ShrBounds(target, 16, 24, 8 * (e - 3));
      }
    }
  }

  lemma MulMono(a: nat, b: nat, c: nat)
    requires a <= b
    ensures a * c <= b * c
  {
  }

  lemma MulStrict(a: nat, b: nat, c: nat)
    requires a < b && c > 0
    ensures a * c < b * c
  {
  }

  /** The two fields of an encoded target. */
  lemma Encoded(target: nat)
    ensures TargetToCompact(target) == Mantissa(target) + ByteLength(target) * MANTISSA
    ensures Shr(TargetToCompact(target), 24) == ByteLength(target)
    ensures TargetToCompact(target) % MANTISSA == Mantissa(target)
  {
    MantissaBounds(target);
    Pow2Small();
    OrDisjoint(Mantissa(target), ByteLength(target), 24);
  }

  // ----- decoding what was encoded -----

  lemma ShlShr(x: nat, n: nat)
    ensures Shr(Shl(x, n), n) == x
  {
    DivExact(x, Pow2(n));
  }

  lemma DivExact(x: nat, d: nat)
    requires d > 0
    ensures x * d / d == x
  {
    DivBounds(x * d, d, x, x + 1);
  }

  /** What decoding gives back: the leading three bytes, the rest cleared. */
  lemma DecodeEncoded(target: nat)
    ensures var e, r := ByteLength(target), CompactToTarget(TargetToCompact(target)).0;
      r == if e <= 3 then target else Shl(Shr(target, 8 * (e - 3)), 8 * (e - 3))
  {
    Encoded(target);
    var e := ByteLength(target);
    if e <= 3 {
      ShlShr(target, 8 * (3 - e));
    }
  }

  /** Encoding and decoding a target never increases it and loses less than one part in 65536;
      a target of at most three bytes comes back exactly. */
  lemma RoundTrip(target: nat)
    ensures var r := CompactToTarget(TargetToCompact(target)).0;
      && r <= target
      && (target > 0 ==> (target - r) * 0x1_0000 < r)
      && (ByteLength(target) <= 3 ==> r == target)
  {
    DecodeEncoded(target);
    MantissaBounds(target);
    var e := ByteLength(target);
    if e > 3 {
      var d := Pow2(8 * (e - 3));
      Truncated(target, d);
      LossBound(target, d);
    }
  }

  lemma LossBound(x: nat, d: nat)
    requires d > 0 && 0x1_0000 <= x / d && x / d * d <= x < (x / d + 1) * d
    ensures (x - x / d * d) * 0x1_0000 < x / d * d
  {
    MulMono(0x1_0000, x / d, d);
  }

  /** The overflow flag of an encoded target says that it needs more than 256 bits. */
  lemma OverflowIffTooWide(target: nat)
    ensures CompactToTarget(TargetToCompact(target)).1 <==> target >= Pow2(256)
  {
    Encoded(target);
    MantissaBounds(target);
    ByteLengthBounds(target);
    var e := ByteLength(target);
    if e <= 32 {
      Pow2Mono(8 * e, 256);
    } else {
      Pow2Mono(256, 8 * (e - 1));
    }
  }

  /** Encoding is monotone. */
  lemma EncodeMonotone(a: nat, b: nat)
    requires a <= b
    ensures TargetToCompact(a) <= TargetToCompact(b)
  {
    Encoded(a);
    Encoded(b);
    MantissaBounds(a);
    MantissaBounds(b);
    ByteLengthMono(a, b);
    var e, e' := ByteLength(a), ByteLength(b);
    if e < e' {
      MulMono(e + 1, e', MANTISSA);
    } else if e <= 3 {
      MulMono(a, b, Pow2(8 * (3 - e)));
    } else {
      DivMono(a, b, Pow2(8 * (e - 3)));
    }
  }

  lemma DivMono(a: nat, b: nat, d: nat)
    requires a <= b && d > 0
    ensures a / d <= b / d
  {
    Truncated(a, d);
    Truncated(b, d);
    MulOrder(b / d + 1, a / d, d);
  }

  /** What any compact form means: with its leading byte `e` and the rest `m`, the target is m * 256^e / 256^3
      rounded down, and the flag says that there is something to shift and more than 32 bytes to shift it. */
  lemma Decoded(compact: nat)
    ensures var (t, overflow) := CompactToTarget(compact);
      var e, m := compact / 0x100_0000, compact % 0x100_0000;
      && t * 0x100_0000 <= m * Pow2(8 * e) < (t + 1) * 0x100_0000
      && (overflow <==> e > 32 && m > 0)
  {
    hide Pow2;
    var t, e, m := CompactToTarget(compact).0, compact / 0x100_0000, compact % 0x100_0000;
    Pow2Small();
    assert Shr(compact, 24) == e;
    if e <= 3 {
      var d, p := Pow2(8 * (3 - e)), Pow2(8 * e);
      Pow2Add(8 * (3 - e), 8 * e);
      Truncated(m, d);
      MulMono(t * d, m, p);
      MulStrict(m, (t + 1) * d, p);
      MulAssoc(t, d, p);
      MulAssoc(t + 1, d, p);
    } else {
      Pow2Add(8 * (e - 3), 24);
      MulAssoc(m, Pow2(8 * (e - 3)), Pow2(24));
    }
  }

  // ----- encoding what was decoded -----

  /** The value of any compact form has at most three significant bytes, so encoding it again loses
      nothing: decoding, encoding and decoding gives the same target, for every compact form. */
  lemma DecodedSurvives(compact: nat)
    ensures var t := CompactToTarget(compact).0;
      CompactToTarget(TargetToCompact(t)).0 == t
  {
    hide Pow2, TargetToCompact, ByteLength;
    var t, exponent, m := CompactToTarget(compact).0, Shr(compact, 24), compact % MANTISSA;
    DecodeEncoded(t);
    var e := ByteLength(t);
    if exponent <= 3 {
      Pow2Small();
      ShrSmaller(m, 8 * (3 - exponent));
      FewBytes(t, 3);
    } else if e > 3 {
      var n := 8 * (exponent - 3);
      Pow2Small();
      MulStrict(m, Pow2(24), Pow2(n));
      Pow2Add(24, n);
      FewBytes(t, exponent);
      LowBitsClear(m, n, 8 * (e - 3));
    }
  }

  lemma FewBytes(x: nat, e: nat)
    requires x < Pow2(8 * e)
    ensures ByteLength(x) <= e
  {
    hide Pow2;
    BitLengthLeast(x, 8 * e);
  }

  /** Clearing fewer low bits than were shifted in changes nothing. */
  lemma LowBitsClear(m: nat, n: nat, k: nat)
    requires k <= n
    ensures Shl(Shr(Shl(m, n), k), k) == Shl(m, n)
  {
    hide Pow2;
    Pow2Add(n - k, k);
    MulAssoc(m, Pow2(n - k), Pow2(k));
    DivExact(m * Pow2(n - k), Pow2(k));
  }

  lemma MulAssoc(a: nat, b: nat, c: nat)
    ensures a * (b * c) == a * b * c
  {
  }

  lemma ShrSmaller(x: nat, n: nat)
    ensures Shr(x, n) <= x
  {
    Truncated(x, Pow2(n));
    MulMono(1, Pow2(n), Shr(x, n));
  }

  /** An encoding is a fixed point of decoding and encoding again. */
  lemma EncodingIsFixedPoint(target: nat)
    ensures var c := TargetToCompact(target);
      TargetToCompact(CompactToTarget(c).0) == c
  {
    hide Pow2, Shr, Shl;
    DecodeEncoded(target);
    var e := ByteLength(target);
    if e > 3 {
      var n := 8 * (e - 3);
      ByteLengthBounds(target);
      ShrBounds(target, 16, 24, n);
      SameByteLength(Shr(target, n), e, n);
      ShlShr(Shr(target, n), n);
      SameEncoding(Shl(Shr(target, n), n), target, n);
    }
  }

  /** Two long targets with the same length and the same leading bytes have one encoding. */
  lemma SameEncoding(r: nat, target: nat, n: nat)
    requires ByteLength(r) == ByteLength(target) > 3 && n == 8 * (ByteLength(target) - 3) && Shr(r, n) == Shr(target, n)
    ensures TargetToCompact(r) == TargetToCompact(target)
  {
    hide Pow2, ByteLength, Shr, Shl, Or;
  }

  lemma SameByteLength(m: nat, e: nat, n: nat)
    requires e > 3 && n == 8 * (e - 3) && Pow2(16) <= m < Pow2(24)
    ensures ByteLength(Shl(m, n)) == e
  {
    hide Pow2, ByteLength;
    var r := Shl(m, n);
    Pow2Add(16, n);
    Pow2Add(24, n);
    MulMono(Pow2(16), m, Pow2(n));
    MulStrict(m, Pow2(24), Pow2(n));
    FewBytes(r, e);
    ByteLengthBounds(r);
    if ByteLength(r) < e {
      Pow2Mono(8 * ByteLength(r), 8 * (e - 1));
    }
  }
}

/** The fixed-width fields of RTCP: the loss fraction and its percentage, the
    24-bit cumulative loss, and the exponent and mantissa of a TMMBR bit rate. */
module ReportFields {
  import opened Basics

  /** lost * 256 / expected with the source's 32-bit product. */
  function Quotient(lost: nat, expected: U32): int
    requires expected > 0
  {
    lost * 256 % 0x1_0000_0000 / expected
  }

  function TrueQuotient(lost: nat, expected: nat): int
    requires expected > 0
  {
    lost * 256 / expected
  }

  /** The fraction field for lost of expected packets, cut to 8 bits. */
  function Fraction(lost: nat, expected: U32): Byte {
    if expected > 0 && lost > 0 then
      if lost == expected then 255 else Quotient(lost, expected) % 256
    else 0
  }

  /** The same without the special case for losing everything, as first written. */
  function FractionUnpatched(lost: nat, expected: U32): Byte {
    if expected > 0 && lost > 0 then Quotient(lost, expected) % 256 else 0
  }

  /** The value section 6.4.1 of RFC 3550 asks for, capped at 255. */
  function IdealFraction(lost: nat, expected: nat): int
    requires expected > 0
  {
    Min(255, TrueQuotient(lost, expected))
  }

  /** Dividing by e stays at or above k exactly if k * e fits. */
  lemma QuotientAtLeastIff(x: nat, e: nat, k: nat)
    requires e > 0
    ensures k <= x / e <==> k * e <= x
  {
    var q := x / e;
    assert x == e * q + x % e;
    if k <= q {
      MulAtLeast(e, k, q);
    } else {
      MulAtLeast(e, q + 1, k);
    }
  }

  lemma QuotientDrops(x: nat, y: nat, e: nat)
    requires e > 0 && x + e <= y
    ensures x / e < y / e
  {
    var k := x / e + 1;
    assert x == e * (x / e) + x % e;
    assert k * e <= y;
    QuotientAtLeastIff(y, e, k);
  }

  lemma TrueQuotientIs(lost: nat, expected: nat)
    requires 0 < expected && lost <= expected
    ensures TrueQuotient(lost, expected) == 256 <==> lost == expected
    ensures TrueQuotient(lost, expected) == 0 <==> lost * 256 < expected
    ensures 0 <= TrueQuotient(lost, expected) <= 256
  {
    QuotientAtLeastIff(lost * 256, expected, 257);
    QuotientAtLeastIff(lost * 256, expected, 256);
    QuotientAtLeastIff(lost * 256, expected, 1);
    QuotientAtLeastIff(lost * 256, expected, 0);
  }

  /** The product fits exactly if lost has 24 bits. */
  lemma QuotientIs(lost: nat, expected: U32)
    requires 0 < expected && lost <= expected
    ensures 0 <= Quotient(lost, expected) <= TrueQuotient(lost, expected)
    ensures Quotient(lost, expected) == TrueQuotient(lost, expected) <==> lost < 0x100_0000
  {
    var product := lost * 256;
    var wrapped := product % 0x1_0000_0000;
    QuotientAtLeastIff(wrapped, expected, 0);
    if lost < 0x100_0000 {
      assert wrapped == product;
    } else {
      assert wrapped + 0x1_0000_0000 <= product;
      QuotientDrops(wrapped, product, expected);
    }
  }

  /** The fraction is right exactly if the 32-bit product does not overflow or
      nothing is left to compute. */
  lemma FractionExactIff(lost: nat, expected: U32)
    requires 0 < expected && lost <= expected && lost < 0x8000_0000
    ensures Fraction(lost, expected) == IdealFraction(lost, expected) <==> lost < 0x100_0000 || lost == expected
  {
    hide Quotient, TrueQuotient;
    TrueQuotientIs(lost, expected);
    QuotientIs(lost, expected);
  }

  /** As first written it reported no loss at all exactly when everything, or very
      little, was lost. */
  lemma UnpatchedReportsNothingIff(lost: nat, expected: U32)
    requires 0 < lost <= expected && lost < 0x100_0000
    ensures FractionUnpatched(lost, expected) == 0 <==> lost == expected || lost * 256 < expected
  {
    hide Quotient, TrueQuotient;
    TrueQuotientIs(lost, expected);
    QuotientIs(lost, expected);
  }

  /** The percentage read off a received fraction, rescaled so that 255 is all. */
  function Percent(fraction: Byte): nat { fraction * 100 / 255 }

  /** It is the fraction of 255 in percent, rounded down. */
  lemma PercentIs(a: Byte)
    ensures 255 * Percent(a) <= 100 * (a as int) < 255 * (Percent(a) + 1)
  {
  }

  lemma PercentInRange(a: Byte, b: Byte)
    ensures 0 <= Percent(a) <= 100
    ensures Percent(a) == 100 <==> a == 255
    ensures a <= b ==> Percent(a) <= Percent(b)
  {
  }

  /** The byte swap of htonl and ntohl on a little-endian machine. */
  function Swap32(x: bv32): bv32 { Bottom(x) | Top(x) }

  /** Where the swap puts the three low bytes, and the top one. */
  function Bottom(x: bv32): bv32 { (x << 24) | ((x & 0xFF00) << 8) | ((x >> 8) & 0xFF00) }

  function Top(x: bv32): bv32 { x >> 24 }

  /** The low 24 bits of x as a signed bit field, read back as 32 bits. */
  function Field24(x: bv32): bv32 { if x & 0x80_0000 != 0 then x | 0xFF00_0000 else x & 0xFF_FFFF }

  function EncodeLost(cumLost: bv32): bv32 { Field24(Swap32(cumLost) >> 8) }

  function SignExtended(low: bv32): bv32 { low | if low & 0x80_0000 != 0 then 0xFF00_0000 else 0 }

  function DecodeLost(field: bv32): bv32 { SignExtended(Swap32(field) >> 8) }

  /** The cumulative loss survives the 24-bit field exactly if it is in -2^23 .. 2^23 - 1. */
  lemma LostRoundTripIff(cumLost: bv32)
    ensures DecodeLost(EncodeLost(cumLost)) == cumLost <==> cumLost <= 0x7F_FFFF || cumLost >= 0xFF80_0000
  {
    FieldIsLow(Swap32(cumLost) >> 8);
    SwapTwice(cumLost);
    SignExtendIff(cumLost);
    hide Swap32, Field24, SignExtended;
    assert EncodeLost(cumLost) == Field24(Swap32(cumLost) >> 8);
  }

  /** Whatever sign bits the field carries, its low 24 bits are x's. */
  lemma FieldIsLow(x: bv32)
    requires x <= 0xFF_FFFF
    ensures Swap32(Field24(x)) >> 8 == Swap32(x) >> 8
  {
    hide Swap32;
    if x & 0x80_0000 != 0 { SignShiftedOut(x); }
    assert x & 0xFF_FFFF == x;
  }

  /** Sign bits in the top byte end up in the bottom byte, which is shifted out. */
  lemma SignShiftedOut(x: bv32)
    ensures Swap32(x | 0xFF00_0000) >> 8 == Swap32(x) >> 8
  {
    hide Bottom, Top;
    BottomIgnoresSign(x);
    TopIsByte(x);
    TopIsByte(x | 0xFF00_0000);
    ShiftedOut(Bottom(x), Top(x), Top(x | 0xFF00_0000));
  }

  lemma BottomIgnoresSign(x: bv32)
    ensures Bottom(x | 0xFF00_0000) == Bottom(x)
  {
    assert (x | 0xFF00_0000) << 24 == x << 24;
    assert (x | 0xFF00_0000) & 0xFF00 == x & 0xFF00;
    assert ((x | 0xFF00_0000) >> 8) & 0xFF00 == (x >> 8) & 0xFF00;
  }

  lemma TopIsByte(x: bv32)
    ensures Top(x) <= 0xFF
  {
  }

  lemma ShiftedOut(a: bv32, b: bv32, c: bv32)
    requires b <= 0xFF && c <= 0xFF
    ensures (a | b) >> 8 == (a | c) >> 8
  {
    assert (a | b) >> 8 == (a >> 8) | (b >> 8);
    assert (a | c) >> 8 == (a >> 8) | (c >> 8);
  }

  lemma SwapTwice(x: bv32)
    ensures Swap32(x) >> 8 <= 0xFF_FFFF
    ensures Swap32(Swap32(x) >> 8) >> 8 == x & 0xFF_FFFF
  {
  }

  lemma SignExtendIff(x: bv32)
    ensures SignExtended(x & 0xFF_FFFF) == x <==> x <= 0x7F_FFFF || x >= 0xFF80_0000
  {
    if x & 0x80_0000 != 0 {
      SignExtendNegative(x);
    } else {
      SignExtendPositive(x);
    }
  }

  lemma SignExtendNegative(x: bv32)
    requires x & 0x80_0000 != 0
    ensures SignExtended(x & 0xFF_FFFF) == x <==> x >= 0xFF80_0000
    ensures x > 0x7F_FFFF
  {
    assert (x & 0xFF_FFFF) & 0x80_0000 != 0;
    assert SignExtended(x & 0xFF_FFFF) == (x & 0xFF_FFFF) | 0xFF00_0000;
    assert (x & 0xFF_FFFF) | 0xFF00_0000 == x | 0xFF00_0000;
  }

  lemma SignExtendPositive(x: bv32)
    requires x & 0x80_0000 == 0
    ensures SignExtended(x & 0xFF_FFFF) == x <==> x <= 0x7F_FFFF
    ensures x < 0xFF80_0000
  {
    assert (x & 0xFF_FFFF) & 0x80_0000 == 0;
    assert SignExtended(x & 0xFF_FFFF) == x & 0xFF_FFFF;
  }

  // ---- TMMBR ----

  const MANTISSA_MAX := 0x1_FFFF

  /** The bit rates for which the exponent search succeeds. */
  const BPS_MAX := 0x1_0000_0000 - 0x8000

  lemma Twice(a: nat, b: nat)
    ensures 2 * (a * b) == (2 * a) * b
  {
  }

  lemma {:induction false} Pow2Splits(i: nat, j: nat)
    requires i <= j
    ensures Pow2(j) == Pow2(i) * Pow2(j - i)
  {
    if i > 0 {
      Pow2Splits(i - 1, j - 1);
      Twice(Pow2(i - 1), Pow2(j - i));
    }
  }

  lemma Pow2Values()
    ensures Pow2(0) == 1 && Pow2(15) == 0x8000 && Pow2(31) == 0x8000_0000 && Pow2(17) == 0x2_0000
    ensures Pow2(32) == 0x1_0000_0000
  {
    assert Pow2(4) == 16 && Pow2(8) == 0x100 && Pow2(12) == 0x1000;
    assert Pow2(15) == 0x8000;
    assert Pow2(16) == 0x1_0000;
    Pow2Splits(16, 32);
    Pow2Splits(16, 31);
  }

  lemma {:induction false} Pow2Monotone(i: nat, j: nat)
    requires i <= j
    ensures Pow2(i) <= Pow2(j) && 1 <= Pow2(i)
  {
    if i < j { Pow2Monotone(i, j - 1); }
    else if i > 0 { Pow2Monotone(i - 1, j - 1); }
  }

  /** mantissa_max << i in 32 bits. */
  function ShiftedMax(i: nat): U32 { MANTISSA_MAX * Pow2(i) % 0x1_0000_0000 }

  /** Up to i = 15 the shift is exact; beyond, what is left falls short of every
      bit rate for which it is tried. */
  lemma ShiftedMaxIs(i: nat)
    requires i < 32
    ensures i <= 15 ==> ShiftedMax(i) == MANTISSA_MAX * Pow2(i) <= BPS_MAX
    ensures i > 15 ==> ShiftedMax(i) == 0x1_0000_0000 - Pow2(i) <= BPS_MAX
  {
    Pow2Values();
    if i <= 15 {
      Pow2Monotone(i, 15);
      Pow2Monotone(0, i);
      assert MANTISSA_MAX * Pow2(i) < 0x1_0000_0000;
    } else {
      HighShift(i);
    }
  }

  lemma HighShift(i: nat)
    requires 15 < i < 32
    ensures ShiftedMax(i) == 0x1_0000_0000 - Pow2(i) <= BPS_MAX
  {
    hide Pow2;
    Pow2Values();
    Pow2Monotone(15, i);
    Pow2Monotone(i, 31);
    Pow2Monotone(0, i - 15);
    var p, r := Pow2(i), Pow2(i - 15);
    Pow2Splits(15, i);
    assert 0x2_0000 * p == r * 0x1_0000_0000;
    Remainder(r, p);
  }

  lemma Remainder(r: nat, p: nat)
    requires 0 < p <= 0x8000_0000 && 0x2_0000 * p == r * 0x1_0000_0000
    requires r > 0
    ensures 0x1_FFFF * p % 0x1_0000_0000 == 0x1_0000_0000 - p
  {
    assert 0x1_FFFF * p == (r - 1) * 0x1_0000_0000 + (0x1_0000_0000 - p);
  }

  lemma ShiftRight(bps: nat, p: nat, mantissa: nat)
    requires p > 0 && mantissa == Shifted(bps, p)
    ensures mantissa * p <= bps < (mantissa + 1) * p
    ensures bps < (MANTISSA_MAX + 1) * p ==> mantissa <= MANTISSA_MAX
  {
    assert bps == p * (bps / p) + bps % p;
    QuotientAtLeastIff(bps, p, MANTISSA_MAX + 1);
  }

  /** The four bytes of a TMMBR item, after its SSRC. */
  datatype Parts = Parts(p0: Byte, p1: Byte, p2: Byte, p3: Byte)

  const OVERHEAD := 60

  function PartsOf(exp: nat, mantissa: nat): Parts {
    Parts((exp * 4 + mantissa / 0x8000 % 4) % 256, mantissa / 128 % 256,
          (mantissa / 2 + OVERHEAD / 256 % 2) % 256, OVERHEAD % 256)
  }

  /** The first exponent from i on for which the bit rate fits; 0 if there is none. */
  function Exponent(bps: U32, i: nat): nat
    requires i <= 32
    decreases 32 - i
  {
    if i == 32 then 0 else if bps <= ShiftedMax(i) then i else Exponent(bps, i + 1)
  }

  /** bps >> i, where p is 2^i. */
  function Shifted(bps: nat, p: nat): nat
    requires p > 0
  {
    QuotientAtLeastIff(bps, p, 0);
    bps / p
  }

  function ItemOf(bps: U32): Parts {
    var exp := Exponent(bps, 0);
    Pow2Monotone(0, exp);
    PartsOf(exp, Shifted(bps, Pow2(exp)))
  }

  /** What the search for the first sufficient shift finds. */
  lemma FirstShift(bps: U32, i: nat)
    requires i <= 32 && (i < 32 ==> bps <= ShiftedMax(i))
    requires forall j :: 0 <= j < i ==> bps > ShiftedMax(j)
    ensures i < 32 <==> bps <= BPS_MAX
    ensures i < 32 ==> i <= 15 && bps < (MANTISSA_MAX + 1) * Pow2(i)
    ensures 0 < i < 32 ==> bps > MANTISSA_MAX * Pow2(i - 1)
  {
    hide ShiftedMax, Pow2;
    ShiftedMaxIs(15);
    Pow2Values();
    Pow2Monotone(0, i);
    if i < 32 { ShiftedMaxIs(i); }
    if i > 0 { ShiftedMaxIs(i - 1); }
  }

  lemma ExponentStep(bps: U32, i: nat)
    requires i < 32
    ensures Exponent(bps, i) == if bps <= ShiftedMax(i) then i else Exponent(bps, i + 1)
    ensures Exponent(bps, 32) == 0
  {
  }

  lemma ItemIs(bps: U32)
    ensures Pow2(Exponent(bps, 0)) > 0
    ensures ItemOf(bps) == PartsOf(Exponent(bps, 0), Shifted(bps, Pow2(Exponent(bps, 0))))
  {
    Pow2Monotone(0, Exponent(bps, 0));
  }

  /** Encode a bit rate. It comes out as the least exponent for which the mantissa
      has 17 bits; above BPS_MAX the search fails and the mantissa is the bit rate. */
  method CalcBwExp(bps: U32) returns (parts: Parts, exp: nat, mantissa: nat)
    ensures parts == ItemOf(bps) == PartsOf(exp, mantissa)
    ensures mantissa * Pow2(exp) <= bps < (mantissa + 1) * Pow2(exp)
    ensures bps <= BPS_MAX ==> exp <= 15 && mantissa <= MANTISSA_MAX
    ensures bps <= BPS_MAX && exp > 0 ==> bps > MANTISSA_MAX * Pow2(exp - 1)
    ensures bps > BPS_MAX ==> exp == 0 && mantissa == bps
  {
    hide *;
    ItemIs(bps);
    ExponentStep(bps, 0);
    exp := 0;
    var i := 0;
    while i < 32
      invariant 0 <= i <= 32 && exp == 0
      invariant Exponent(bps, i) == Exponent(bps, 0)
      invariant forall j :: 0 <= j < i ==> bps > ShiftedMax(j)
    {
      ExponentStep(bps, i);
      if bps <= ShiftedMax(i) {
        exp := i;
        break;
      }
      i := i + 1;
    }
    FirstShift(bps, i);
    Pow2Monotone(0, exp);
    Pow2Values();
    mantissa := Shifted(bps, Pow2(exp));
    ShiftRight(bps, Pow2(exp), mantissa);
    parts := PartsOf(exp, mantissa);
  }

  lemma MantissaKeeps16(h: nat, mantissa: nat)
    requires MANTISSA_MAX * h < (mantissa + 1) * (2 * h)
    ensures mantissa >= 0xFFFF
  {
    if mantissa < 0xFFFF { MulAtLeast(2 * h, mantissa + 1, 0xFFFF); }
  }

  /** A mantissa cut to 17 bits keeps 16 significant ones, so what is lost of the bit
      rate is less than one part in 2^16 - 1. */
  lemma RelativeError(bps: U32, exp: nat, mantissa: nat)
    requires mantissa * Pow2(exp) <= bps < (mantissa + 1) * Pow2(exp)
    requires exp > 0 ==> bps > MANTISSA_MAX * Pow2(exp - 1)
    ensures exp > 0 ==> mantissa >= 0xFFFF
    ensures (bps - mantissa * Pow2(exp)) * 0xFFFF <= bps
    ensures exp == 0 ==> bps == mantissa
  {
    var p := Pow2(exp);
    if exp > 0 {
      var h := Pow2(exp - 1);
      assert p == 2 * h;
      MantissaKeeps16(h, mantissa);
      MulAtLeast(p, 0xFFFF, mantissa);
      assert (bps - mantissa * p) * 0xFFFF <= p * 0xFFFF;
    }
  }

  /** The fields as section 4.2.1.1 of RFC 5104 lays them out. */
  function ExpOf(p: Parts): nat { p.p0 / 4 }

  function MantissaOf(p: Parts): nat { p.p0 % 4 * 0x8000 + p.p1 * 128 + p.p2 / 2 }

  function OverheadOf(p: Parts): nat { p.p2 % 2 * 256 + p.p3 }

  /** The first two bytes carry the exponent and all but seven bits of the mantissa. */
  lemma HighPartsRight(exp: nat, mantissa: nat)
    requires exp <= 15 && mantissa <= MANTISSA_MAX
    ensures ExpOf(PartsOf(exp, mantissa)) == exp
    ensures MantissaOf(PartsOf(exp, mantissa)) / 128 == mantissa / 128
  {
    var p := PartsOf(exp, mantissa);
    assert mantissa / 0x8000 < 4;
    assert p.p0 == exp * 4 + mantissa / 0x8000;
    assert mantissa / 128 == mantissa / 0x8000 * 256 + mantissa / 128 % 256;
  }

  /** The third byte shifts the mantissa the wrong way: the item as a whole decodes
      to what was encoded only for two residues of the mantissa modulo 512. */
  lemma ItemRightIff(exp: nat, mantissa: nat)
    requires exp <= 15 && mantissa <= MANTISSA_MAX
    ensures
      var p := PartsOf(exp, mantissa);
      MantissaOf(p) == mantissa && OverheadOf(p) == OVERHEAD <==> mantissa % 512 == 0 || mantissa % 512 == 341
  {
    hide PartsOf, MantissaOf;
    var p := PartsOf(exp, mantissa);
    HighPartsRight(exp, mantissa);
    ThirdPartIs(exp, mantissa);
    LowPart(mantissa);
    MantissaLow(p);
    SameIff(MantissaOf(p), mantissa);
    LowPartRightIff(mantissa % 512);
  }

  lemma ThirdPartIs(exp: nat, mantissa: nat)
    ensures PartsOf(exp, mantissa).p2 == mantissa % 512 / 2
    ensures PartsOf(exp, mantissa).p3 == OVERHEAD
  {
    LowPart(mantissa);
  }

  lemma MantissaLow(p: Parts)
    ensures MantissaOf(p) % 128 == p.p2 / 2
  {
    DivUnique(MantissaOf(p), 128, p.p0 % 4 * 256 + p.p1, p.p2 / 2);
  }

  lemma LowPart(mantissa: nat)
    ensures mantissa / 2 % 256 == mantissa % 512 / 2
    ensures mantissa % 128 == mantissa % 512 % 128
  {
    var q, r := mantissa / 512, mantissa % 512;
    DivUnique(mantissa, 2, q * 256 + r / 2, r % 2);
    DivUnique(mantissa / 2, 256, q, r / 2);
    DivUnique(mantissa, 128, q * 4 + r / 128, r % 128);
  }

  lemma SameIff(a: nat, b: nat)
    requires a / 128 == b / 128
    ensures a == b <==> a % 128 == b % 128
  {
  }

  lemma LowPartRightIff(r: nat)
    requires r < 512
    ensures r / 2 % 2 == 0 && r / 2 / 2 == r % 128 <==> r == 0 || r == 341
  {
  }
}

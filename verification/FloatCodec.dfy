/** The sort keys of duckdb_encode_decode.hpp for floating-point numbers, on bit patterns of the binary
    interchange formats of section 3.4 of IEEE 754-2019, for any width. */
module FloatCodec {

  /** Widths of the biased exponent and of the trailing significand: (8, 23) for float, (11, 52) for double. */
  datatype Format = Format(exponent: nat, significand: nat)

  const BINARY32 := Format(8, 23)
  const BINARY64 := Format(11, 52)

  predicate Ok(f: Format) {
    f.exponent >= 2 && f.significand >= 1
  }

  function Pow2(n: nat): (p: nat)
    ensures p > 0
  {
    if n == 0 then 1 else 2 * Pow2(n - 1)
  }

  // ---- bit patterns ----------------------------------------------------------------------------------

  /** The weight of the sign bit, msb in the code. */
  function SignBit(f: Format): nat {
    Pow2(f.exponent) * Pow2(f.significand)
  }

  predicate IsPattern(f: Format, x: nat) {
    x < 2 * SignBit(f)
  }

  function Max(f: Format): nat {
    2 * SignBit(f) - 1
  }

  predicate Negative(f: Format, x: nat) {
    x >= SignBit(f)
  }

  /** Exponent and significand together. */
  function Magnitude(f: Format, x: nat): nat {
    if Negative(f, x) then x - SignBit(f) else x
  }

  /** The magnitude of infinity: exponent all ones, significand zero. */
  function InfMagnitude(f: Format): int {
    SignBit(f) - Pow2(f.significand)
  }

  predicate IsNan(f: Format, x: nat) {
    Magnitude(f, x) > InfMagnitude(f)
  }

  predicate IsInf(f: Format, x: nat) {
    Magnitude(f, x) == InfMagnitude(f)
  }

  // ---- what a pattern stands for -----------------------------------------------------------------------

  /** The absolute value of a finite number in units of the smallest subnormal. */
  function Scaled(f: Format, m: nat): int {
    Significant(Pow2(f.significand), m / Pow2(f.significand), m % Pow2(f.significand))
  }

  /** Subnormal numbers have biased exponent zero and no hidden bit. */
  function Significant(hidden: nat, e: int, s: int): int {
    if e <= 0 then s else (hidden + s) * Pow2(e - 1)
  }

  function Value(f: Format, x: nat): int {
    if Negative(f, x) then -Scaled(f, Magnitude(f, x)) else Scaled(f, Magnitude(f, x))
  }

  /** The order of numbers, infinities included, with -0 below +0. */
  predicate Less(f: Format, x: nat, y: nat)
    requires !IsNan(f, x) && !IsNan(f, y)
  {
    if IsInf(f, x) && Negative(f, x) then !(IsInf(f, y) && Negative(f, y))
    else if IsInf(f, x) then false
    else if IsInf(f, y) then !Negative(f, y)
    else Value(f, x) < Value(f, y) || (Value(f, x) == Value(f, y) && Negative(f, x) && !Negative(f, y))
  }

  // ---- the codec -----------------------------------------------------------------------------------------

  function Encode(f: Format, x: nat): (u: nat)
    requires Ok(f) && IsPattern(f, x)
    ensures IsPattern(f, u)
  {
    if IsNan(f, x) then Max(f)
    else if IsInf(f, x) then if Negative(f, x) then 0 else Max(f) - 1
    else if Negative(f, x) then Max(f) - x          // all bits complemented
    else x + SignBit(f)                             // sign bit set
  }

  /** Exponent all ones and the first significand bit. */
  function QuietNan(f: Format): nat
    requires Ok(f)
  {
    InfMagnitude(f) + Pow2(f.significand - 1)
  }

  function Decode(f: Format, u: nat): nat
    requires Ok(f) && IsPattern(f, u)
  {
    if u == Max(f) then QuietNan(f)
    else if u == Max(f) - 1 then InfMagnitude(f)
    else if u == 0 then SignBit(f) + InfMagnitude(f)
    else if u >= SignBit(f) then u - SignBit(f)     // sign bit cleared
    else Max(f) - u                                 // all bits complemented
  }

  // ---- theorems --------------------------------------------------------------------------------------------

  lemma MulMonotone(a: int, b: int, c: int)
    requires a <= b && 0 <= c
    ensures a * c <= b * c
  {
  }

  lemma MulStrict(a: int, b: int, c: int)
    requires a < b && 0 < c
    ensures a * c < b * c
  {
  }

  lemma Layout(f: Format)
    requires Ok(f)
    ensures Pow2(f.significand) >= 2 && Pow2(f.significand) == 2 * Pow2(f.significand - 1)
    ensures SignBit(f) >= 4 * Pow2(f.significand)
    ensures 0 < InfMagnitude(f) < InfMagnitude(f) + Pow2(f.significand - 1) < SignBit(f)
  {
    assert Pow2(f.exponent) == 2 * Pow2(f.exponent - 1) && Pow2(f.exponent - 1) == 2 * Pow2(f.exponent - 2);
    MulMonotone(4, Pow2(f.exponent), Pow2(f.significand));
  }

  lemma {:induction false} Pow2Monotone(a: nat, b: nat)
    requires a <= b
    ensures Pow2(a) <= Pow2(b)
  {
    if a < b { Pow2Monotone(a, b - 1); }
  }

  /** A larger exponent outweighs any significand. */
  lemma ExponentDecides(p: nat, s1: int, s2: int, e1: nat, e2: nat)
    requires 0 <= s1 < p && 0 <= s2 < p && 0 < e1 < e2
    ensures (p + s1) * Pow2(e1 - 1) < (p + s2) * Pow2(e2 - 1)
  {
    Pow2Monotone(e1, e2 - 1);
    var a, b := Pow2(e1 - 1), Pow2(e2 - 1);
    assert 2 * a <= b;
    MulStrict(p + s1, 2 * p, a);
    assert (2 * p) * a == p * (2 * a);
    MulMonotone(2 * a, b, p);
    MulMonotone(p, p + s2, b);
  }

  lemma SignificantMonotone(p: nat, e1: int, s1: int, e2: int, s2: int)
    requires p > 0 && 0 <= s1 < p && 0 <= s2 < p && 0 <= e1 && (e1 < e2 || (e1 == e2 && s1 < s2))
    ensures Significant(p, e1, s1) < Significant(p, e2, s2)
  {
    if e1 == e2 {
      if e1 > 0 { MulStrict(p + s1, p + s2, Pow2(e1 - 1)); }
    } else if e1 == 0 {
      MulMonotone(1, Pow2(e2 - 1), p + s2);
    } else {
      ExponentDecides(p, s1, s2, e1, e2);
    }
  }

  lemma QuotientRemainder(m: nat, p: nat)
    requires p > 0
    ensures m == (m / p) * p + m % p && 0 <= m % p < p && 0 <= m / p
  {
  }

  lemma QuotientOrder(m: nat, n: nat, p: nat)
    requires p > 0 && m < n
    ensures m / p < n / p || (m / p == n / p && m % p < n % p)
  {
    QuotientRemainder(m, p);
    QuotientRemainder(n, p);
    if m / p > n / p { MulMonotone(n / p + 1, m / p, p); }
  }

  /** Larger magnitude bits are larger values. */
  lemma ScaledMonotone(f: Format, m: nat, n: nat)
    requires m < n
    ensures Scaled(f, m) < Scaled(f, n)
  {
    hide Significant, Pow2;
    var p := Pow2(f.significand);
    QuotientRemainder(m, p);
    QuotientRemainder(n, p);
    QuotientOrder(m, n, p);
    SignificantMonotone(p, m / p, m % p, n / p, n % p);
  }

  lemma ScaledZero(f: Format)
    ensures Scaled(f, 0) == 0
  {
    QuotientRemainder(0, Pow2(f.significand));
  }

  lemma ScaledOrder(f: Format, m: nat, n: nat)
    ensures m < n <==> Scaled(f, m) < Scaled(f, n)
    ensures m == n <==> Scaled(f, m) == Scaled(f, n)
    ensures Scaled(f, m) >= 0 && (Scaled(f, m) == 0 <==> m == 0)
  {
    if m < n { ScaledMonotone(f, m, n); }
    if n < m { ScaledMonotone(f, n, m); }
    ScaledZero(f);
    if m > 0 { ScaledMonotone(f, 0, m); }
  }

  /** The sort key keeps the order of numbers, exactly. */
  lemma EncodeMonotone(f: Format, x: nat, y: nat)
    requires Ok(f) && IsPattern(f, x) && IsPattern(f, y) && !IsNan(f, x) && !IsNan(f, y)
    ensures Less(f, x, y) <==> Encode(f, x) < Encode(f, y)
  {
    hide Scaled, Pow2, SignBit, InfMagnitude;
    Layout(f);
    ScaledOrder(f, Magnitude(f, x), Magnitude(f, y));
    ScaledOrder(f, Magnitude(f, y), Magnitude(f, x));
  }

  /** Every NaN gets the largest key, and nothing else does. */
  lemma NanIsLargest(f: Format, x: nat)
    requires Ok(f) && IsPattern(f, x)
    ensures IsNan(f, x) <==> Encode(f, x) == Max(f)
  {
    hide Pow2, SignBit, InfMagnitude;
    Layout(f);
  }

  /** Decoding gives back every number and both infinities, bit for bit; a NaN comes back as the quiet NaN. */
  lemma RoundTrip(f: Format, x: nat)
    requires Ok(f) && IsPattern(f, x)
    ensures Decode(f, Encode(f, x)) == if IsNan(f, x) then QuietNan(f) else x
    ensures IsNan(f, QuietNan(f)) && IsPattern(f, QuietNan(f))
  {
    hide Pow2, SignBit, InfMagnitude;
    Layout(f);
  }

  /** No two different numbers share a key. */
  lemma NoCollisions(f: Format, x: nat, y: nat)
    requires Ok(f) && IsPattern(f, x) && IsPattern(f, y) && !IsNan(f, x) && Encode(f, x) == Encode(f, y)
    ensures x == y
  {
    hide Encode, Decode;
    RoundTrip(f, x);
    RoundTrip(f, y);
    NanIsLargest(f, x);
    NanIsLargest(f, y);
  }

  /** The widths of the two formats the program instantiates. */
  lemma ProgramFormats()
    ensures Ok(BINARY32) && SignBit(BINARY32) == 0x8000_0000
    ensures Ok(BINARY64) && SignBit(BINARY64) == 0x8000_0000_0000_0000
  {
    Pow2Values();
  }

  lemma Pow2Values()
    ensures Pow2(8) == 256 && Pow2(11) == 2048 && Pow2(23) == 0x80_0000 && Pow2(52) == 0x10_0000_0000_0000
  {
    assert Pow2(8) == 256;
    assert Pow2(16) == 0x1_0000;
    assert Pow2(23) == 0x80_0000;
    assert Pow2(32) == 0x1_0000_0000;
    assert Pow2(40) == 0x100_0000_0000;
    assert Pow2(48) == 0x1_0000_0000_0000;
  }

  // ---- the two formats, bit pattern by bit pattern ------------------------------------------------------------

  /** The two infinities, and they alone, get the least key and the one below the NaNs; other numbers move with their
      sign bit set, or with all bits complemented. */
  lemma KeyOf(f: Format, x: nat)
    requires Ok(f) && IsPattern(f, x)
    ensures Encode(f, x) == 0 <==> x == SignBit(f) + InfMagnitude(f)
    ensures Encode(f, x) == Max(f) - 1 <==> x == InfMagnitude(f)
    ensures x < InfMagnitude(f) ==> Encode(f, x) == x + SignBit(f)
    ensures SignBit(f) <= x < SignBit(f) + InfMagnitude(f) ==> Encode(f, x) + x == Max(f)
  {
    hide Pow2, SignBit, InfMagnitude;
    Layout(f);
  }

  lemma Keys32(x: nat)
    requires x < 0x1_0000_0000
    ensures Ok(BINARY32) && IsPattern(BINARY32, x)
    ensures Encode(BINARY32, x) ==
      if 0x7F80_0000 < x < 0x8000_0000 || x > 0xFF80_0000 then 0xFFFF_FFFF
      else if x == 0x7F80_0000 then 0xFFFF_FFFE
      else if x == 0xFF80_0000 then 0
      else if x < 0x8000_0000 then 0x8000_0000 + x
      else 0xFFFF_FFFF - x
  {
    Pow2Values();
    hide Pow2;
    NanIsLargest(BINARY32, x);
    KeyOf(BINARY32, x);
  }

  lemma Keys64(x: nat)
    requires x < 0x1_0000_0000_0000_0000
    ensures Ok(BINARY64) && IsPattern(BINARY64, x)
    ensures Encode(BINARY64, x) ==
      if 0x7FF0_0000_0000_0000 < x < 0x8000_0000_0000_0000 || x > 0xFFF0_0000_0000_0000 then 0xFFFF_FFFF_FFFF_FFFF
      else if x == 0x7FF0_0000_0000_0000 then 0xFFFF_FFFF_FFFF_FFFE
      else if x == 0xFFF0_0000_0000_0000 then 0
      else if x < 0x8000_0000_0000_0000 then 0x8000_0000_0000_0000 + x
      else 0xFFFF_FFFF_FFFF_FFFF - x
  {
    Pow2Values();
    hide Pow2;
    NanIsLargest(BINARY64, x);
    KeyOf(BINARY64, x);
  }

  lemma Decoded32(u: nat)
    requires u < 0x1_0000_0000
    ensures Ok(BINARY32) && IsPattern(BINARY32, u)
    ensures Decode(BINARY32, u) ==
      if u == 0xFFFF_FFFF then 0x7FC0_0000 else if u == 0xFFFF_FFFE then 0x7F80_0000 else if u == 0 then 0xFF80_0000
      else if u >= 0x8000_0000 then u - 0x8000_0000 else 0xFFFF_FFFF - u
  {
    Pow2Values();
    assert Pow2(23) == 2 * Pow2(22);
    hide Pow2;
  }

  lemma Decoded64(u: nat)
    requires u < 0x1_0000_0000_0000_0000
    ensures Ok(BINARY64) && IsPattern(BINARY64, u)
    ensures Decode(BINARY64, u) ==
      if u == 0xFFFF_FFFF_FFFF_FFFF then 0x7FF8_0000_0000_0000
      else if u == 0xFFFF_FFFF_FFFF_FFFE then 0x7FF0_0000_0000_0000
      else if u == 0 then 0xFFF0_0000_0000_0000
      else if u >= 0x8000_0000_0000_0000 then u - 0x8000_0000_0000_0000
      else 0xFFFF_FFFF_FFFF_FFFF - u
  {
    Pow2Values();
    assert Pow2(52) == 2 * Pow2(51);
    hide Pow2;
  }
}

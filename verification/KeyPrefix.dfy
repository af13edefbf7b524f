/** The packed key prefix of art_internal_impl.hpp: up to seven bytes and their number in one 64-bit word,
    and the proof that its bit operations are operations on the sequence of bytes it stands for. */
module KeyPrefix {
  import opened ArtKey

  type Word = bv64

  const KEY_BYTES_MASK: Word := 0x00FF_FFFF_FFFF_FFFF
  const CAPACITY: nat := 7

  // ---- bit operations, one at a time ---------------------------------------------------------------

  function Or(a: Word, b: Word): Word { a | b }
  function And(a: Word, b: Word): Word { a & b }
  function Xor(a: Word, b: Word): Word { a ^ b }
  function Right8(w: Word): Word { w >> 8 }
  function Left8(w: Word): Word { w << 8 }
  function LowByte(w: Word): Word { w & 0xFF }
  function AtTop(n: Word): Word { n << 56 }

  lemma RightOr(a: Word, b: Word)
    ensures Right8(Or(a, b)) == Or(Right8(a), Right8(b))
  {
  }

  lemma RightAnd(a: Word, b: Word)
    ensures Right8(And(a, b)) == And(Right8(a), Right8(b))
  {
  }

  lemma RightXor(a: Word, b: Word)
    ensures Right8(Xor(a, b)) == Xor(Right8(a), Right8(b))
  {
  }

  lemma LowOr(a: Word, b: Word)
    ensures LowByte(Or(a, b)) == Or(LowByte(a), LowByte(b))
  {
  }

  lemma LowAnd(a: Word, b: Word)
    ensures LowByte(And(a, b)) == And(LowByte(a), LowByte(b))
  {
  }

  lemma LowXor(a: Word, b: Word)
    ensures LowByte(Xor(a, b)) == Xor(LowByte(a), LowByte(b))
  {
  }

  lemma BitShifts(w: Word)
    ensures LowByte(Left8(w)) == 0 && Right8(Left8(w)) == And(w, KEY_BYTES_MASK)
    ensures LowByte(LowByte(w)) == LowByte(w)
  {
  }

  // ---- bytes of a word -----------------------------------------------------------------------------

  /** Shift right by whole bytes. */
  function Shr(w: Word, n: nat): Word {
    if n == 0 then w else Shr(Right8(w), n - 1)
  }

  /** Shift left by whole bytes. */
  function Shl(w: Word, n: nat): Word {
    if n == 0 then w else Left8(Shl(w, n - 1))
  }

  function ByteAt(w: Word, i: nat): Word {
    LowByte(Shr(w, i))
  }

  lemma {:induction false} RightOnce(w: Word, n: nat)
    ensures Shr(w, n + 1) == Right8(Shr(w, n))
    decreases n
  {
    hide Right8;
    if n > 0 { RightOnce(Right8(w), n - 1); }
  }

  lemma {:induction false} RightTwice(w: Word, n: nat, i: nat)
    ensures Shr(Shr(w, n), i) == Shr(w, n + i)
    decreases n
  {
    hide Right8;
    if n > 0 { RightTwice(Right8(w), n - 1, i); }
  }

  lemma {:induction false} RightBits(a: Word, b: Word, n: nat)
    ensures Shr(Or(a, b), n) == Or(Shr(a, n), Shr(b, n))
    ensures Shr(And(a, b), n) == And(Shr(a, n), Shr(b, n))
    ensures Shr(Xor(a, b), n) == Xor(Shr(a, n), Shr(b, n))
    decreases n
  {
    hide Or, And, Xor, Right8, LowByte;
    if n > 0 {
      RightOr(a, b);
      RightAnd(a, b);
      RightXor(a, b);
      RightBits(Right8(a), Right8(b), n - 1);
    }
  }

  lemma ByteBits(a: Word, b: Word, i: nat)
    ensures ByteAt(Or(a, b), i) == Or(ByteAt(a, i), ByteAt(b, i))
    ensures ByteAt(And(a, b), i) == And(ByteAt(a, i), ByteAt(b, i))
    ensures ByteAt(Xor(a, b), i) == Xor(ByteAt(a, i), ByteAt(b, i))
  {
    hide Or, And, Xor, Right8, LowByte, Shr;
    RightBits(a, b, i);
    LowOr(Shr(a, i), Shr(b, i));
    LowAnd(Shr(a, i), Shr(b, i));
    LowXor(Shr(a, i), Shr(b, i));
  }

  lemma NextShift(w: Word)
    ensures Right8(w) == w >> 8 && Right8(w >> 8) == w >> 16 && Right8(w >> 16) == w >> 24
    ensures Right8(w >> 24) == w >> 32 && Right8(w >> 32) == w >> 40 && Right8(w >> 40) == w >> 48
    ensures Right8(w >> 48) == w >> 56
  {
  }

  /** Whole-byte shifts are the shifts by multiples of eight bits that the program writes. */
  lemma {:induction false} RightShifts(w: Word, n: nat)
    requires n < 8
    ensures Shr(w, n) ==
      match n
      case 0 => w
      case 1 => w >> 8
      case 2 => w >> 16
      case 3 => w >> 24
      case 4 => w >> 32
      case 5 => w >> 40
      case 6 => w >> 48
      case _ => w >> 56
  {
    hide Right8;
    NextShift(w);
    if n > 0 {
      RightOnce(w, n - 1);
      RightShifts(w, n - 1);
    }
  }

  lemma MaskBytes(i: nat)
    requires i < 7
    ensures ByteAt(KEY_BYTES_MASK, i) == 0xFF
  {
    RightShifts(KEY_BYTES_MASK, i);
    hide Shr;
  }

  lemma AllOnes(x: Word)
    ensures And(LowByte(x), 0xFF) == LowByte(x) && And(x, 0) == 0 && Or(0, x) == x && Or(x, 0) == x
  {
  }

  lemma ByteMask(w: Word, i: nat)
    requires i < 7
    ensures ByteAt(And(w, KEY_BYTES_MASK), i) == ByteAt(w, i)
  {
    hide Or, And, Xor, Right8, LowByte, Shr;
    ByteBits(w, KEY_BYTES_MASK, i);
    MaskBytes(i);
    AllOnes(Shr(w, i));
  }

  lemma {:induction false} ByteLeft(w: Word, n: nat, i: nat)
    requires i < 8
    ensures ByteAt(Shl(w, n), i) == if i < n then 0 else ByteAt(w, i - n)
  {
    hide Or, And, Xor, Right8, Left8, LowByte;
    if n > 0 {
      var x := Shl(w, n - 1);
      BitShifts(x);
      if i > 0 {
        ByteMask(x, i - 1);
        ByteLeft(w, n - 1, i - 1);
      }
    }
  }

  lemma ByteTop(n: Word, i: nat)
    requires n <= 7 && i < 8
    ensures ByteAt(AtTop(n), i) == if i < 7 then 0 else n
  {
    RightShifts(AtTop(n), i);
    hide Shr;
  }

  /** The word with its `n` lowest bytes set: one bit shifted left, less one. */
  function LowMask(n: nat): Word {
    Shl(1, n) - 1
  }

  lemma LowMaskIs(n: nat)
    requires n < 8
    ensures LowMask(n) ==
      match n
      case 0 => 0
      case 1 => 0xFF
      case 2 => 0xFFFF
      case 3 => 0xFF_FFFF
      case 4 => 0xFFFF_FFFF
      case 5 => 0xFF_FFFF_FFFF
      case 6 => 0xFFFF_FFFF_FFFF
      case _ => 0xFF_FFFF_FFFF_FFFF
  {
    assert Shl(1, 1) == Left8(Shl(1, 0)) == 0x100;
    assert Shl(1, 2) == Left8(Shl(1, 1)) == 0x1_0000;
    assert Shl(1, 3) == Left8(Shl(1, 2)) == 0x100_0000;
    assert Shl(1, 4) == Left8(Shl(1, 3)) == 0x1_0000_0000;
    assert Shl(1, 5) == Left8(Shl(1, 4)) == 0x100_0000_0000;
    assert Shl(1, 6) == Left8(Shl(1, 5)) == 0x1_0000_0000_0000;
    assert Shl(1, 7) == Left8(Shl(1, 6)) == 0x100_0000_0000_0000;
  }

  lemma LowMaskBytes(n: nat, i: nat)
    requires n < 8 && i < 8
    ensures ByteAt(LowMask(n), i) == if i < n then 0xFF else 0
  {
    LowMaskIs(n);
    RightShifts(LowMask(n), i);
    hide Shr, Shl, LowMask;
  }

  lemma ByteLow(w: Word, n: nat, i: nat)
    requires n < 8 && i < 8
    ensures ByteAt(And(w, LowMask(n)), i) == if i < n then ByteAt(w, i) else 0
  {
    hide Or, And, Xor, Right8, Left8, LowByte, Shr, Shl, LowMask;
    ByteBits(w, LowMask(n), i);
    LowMaskBytes(n, i);
    AllOnes(Shr(w, i));
    AllOnes(ByteAt(w, i));
  }

  // ---- counting trailing zero bits -----------------------------------------------------------------------

  predicate LowBit(w: Word) { w & 1 == 1 }
  function Right1(w: Word): Word { w >> 1 }

  function TrailingZeros(w: Word, bits: nat): nat {
    if bits == 0 || LowBit(w) then 0 else 1 + TrailingZeros(Right1(w), bits - 1)
  }

  function RightBy(w: Word, n: nat): Word {
    if n == 0 then w else RightBy(Right1(w), n - 1)
  }

  predicate LowBitsClear(w: Word, n: nat) {
    n == 0 || (!LowBit(w) && LowBitsClear(Right1(w), n - 1))
  }

  lemma {:induction false} SkipClear(w: Word, bits: nat, n: nat)
    requires n <= bits
    ensures if LowBitsClear(w, n) then TrailingZeros(w, bits) == n + TrailingZeros(RightBy(w, n), bits - n)
            else TrailingZeros(w, bits) < n
    decreases n
  {
    hide LowBit, Right1;
    if n > 0 { SkipClear(Right1(w), bits - 1, n - 1); }
  }

  lemma EightBits(w: Word)
    ensures LowByte(w) == 0 <==>
      (&& !LowBit(w) && !LowBit(w >> 1) && !LowBit(w >> 2) && !LowBit(w >> 3)
       && !LowBit(w >> 4) && !LowBit(w >> 5) && !LowBit(w >> 6) && !LowBit(w >> 7))
  {
  }

  lemma OneBitSteps(w: Word)
    ensures Right1(w) == w >> 1 && Right1(w >> 1) == w >> 2 && Right1(w >> 2) == w >> 3 && Right1(w >> 3) == w >> 4
    ensures Right1(w >> 4) == w >> 5 && Right1(w >> 5) == w >> 6 && Right1(w >> 6) == w >> 7 && Right1(w >> 7) == Right8(w)
  {
  }

  lemma EightClear(w: Word)
    ensures LowBitsClear(w, 8) <==> LowByte(w) == 0
    ensures RightBy(w, 8) == Right8(w)
  {
    hide LowBit, Right1, LowByte, Right8;
    EightBits(w);
    OneBitSteps(w);
    var w1, w2, w3, w4, w5, w6, w7 := w >> 1, w >> 2, w >> 3, w >> 4, w >> 5, w >> 6, w >> 7;
    assert RightBy(w, 8) == RightBy(w1, 7) == RightBy(w2, 6) == RightBy(w3, 5) == RightBy(w4, 4);
    assert RightBy(w4, 4) == RightBy(w5, 3) == RightBy(w6, 2) == RightBy(w7, 1) == RightBy(Right8(w), 0);
    assert LowBitsClear(w7, 1) <==> !LowBit(w7);
    assert LowBitsClear(w6, 2) <==> !LowBit(w6) && LowBitsClear(w7, 1);
    assert LowBitsClear(w5, 3) <==> !LowBit(w5) && LowBitsClear(w6, 2);
    assert LowBitsClear(w4, 4) <==> !LowBit(w4) && LowBitsClear(w5, 3);
    assert LowBitsClear(w3, 5) <==> !LowBit(w3) && LowBitsClear(w4, 4);
    assert LowBitsClear(w2, 6) <==> !LowBit(w2) && LowBitsClear(w3, 5);
    assert LowBitsClear(w1, 7) <==> !LowBit(w1) && LowBitsClear(w2, 6);
  }

  /** An eighth of the trailing zero bits is the place of the first byte that is not zero. */
  lemma {:induction false} FirstNonzeroByte(w: Word, bytes: nat)
    ensures var r := TrailingZeros(w, 8 * bytes) / 8;
      && r <= bytes && (r < bytes ==> ByteAt(w, r) != 0)
      && forall i :: 0 <= i < r ==> ByteAt(w, i) == 0
    decreases bytes
  {
    hide LowBit, Right1, LowByte, Right8;
    if bytes > 0 {
      EightClear(w);
      SkipClear(w, 8 * bytes, 8);
      if LowByte(w) == 0 {
        FirstNonzeroByte(Right8(w), bytes - 1);
        var r := TrailingZeros(w, 8 * bytes) / 8;
        assert r == 1 + TrailingZeros(Right8(w), 8 * (bytes - 1)) / 8;
        forall i | 0 <= i < r ensures ByteAt(w, i) == 0 {
          if i > 0 { assert ByteAt(w, i) == ByteAt(Right8(w), i - 1); }
        }
      }
    }
  }

  // ---- the packed prefix ---------------------------------------------------------------------------------

  function NatOf(w: Word): nat {
    if w == 0 then 0 else if w == 1 then 1 else if w == 2 then 2 else if w == 3 then 3
    else if w == 4 then 4 else if w == 5 then 5 else if w == 6 then 6 else 7
  }

  function WordOf(n: nat): Word {
    match n case 0 => 0 case 1 => 1 case 2 => 2 case 3 => 3 case 4 => 4 case 5 => 5 case 6 => 6 case _ => 7
  }

  /** The length, kept in the top byte. */
  function Length(w: Word): nat {
    NatOf(ByteAt(w, 7))
  }

  ghost predicate Valid(w: Word) {
    ByteAt(w, 7) <= 7
  }

  /** The sequence of bytes a packed prefix stands for; bytes at or beyond the length do not show. */
  function Bytes(w: Word): seq<Word> {
    seq(Length(w), (i: nat) => ByteAt(w, i))
  }

  function LengthToWord(n: nat): Word {
    AtTop(WordOf(n))
  }

  /** The constructor from a length and another prefix. */
  function WithLength(w: Word, n: nat): Word {
    Or(And(w, KEY_BYTES_MASK), LengthToWord(n))
  }

  function Cut(w: Word, n: nat): Word
    requires n <= Length(w)
  {
    Or(And(Shr(w, n), KEY_BYTES_MASK), LengthToWord(Length(w) - n))
  }

  function Prepend(w: Word, prefix1: Word, prefix2: Word): Word {
    var prefix3 := And(w, LowMask(Length(w)));
    Or(Or(Or(Shl(prefix3, Length(prefix1) + 1), Shl(prefix2, Length(prefix1))), And(prefix1, LowMask(Length(prefix1)))),
       LengthToWord(Length(w) + Length(prefix1) + 1))
  }

  /** Bytes shared by two words, at most `clamp`. */
  function SharedLen(k1: Word, k2: Word, clamp: nat): nat {
    TrailingZeros(Or(Xor(k1, k2), Shl(1, clamp)), 64) / 8
  }

  /** The constructor from two keys: the bytes of the first that the second shares, at most seven. */
  function MakeU64(k1: Word, shiftedK2: Word): Word {
    var k := And(k1, KEY_BYTES_MASK);
    Or(k, LengthToWord(SharedLen(k, shiftedK2, CAPACITY)))
  }

  lemma LengthBytes(n: nat, i: nat)
    requires n <= 7 && i < 8
    ensures ByteAt(LengthToWord(n), i) == if i < 7 then 0 else WordOf(n)
    ensures NatOf(WordOf(n)) == n && WordOf(n) <= 7
  {
    assert WordOf(n) <= 7;
    hide ByteAt, AtTop;
    ByteTop(WordOf(n), i);
  }

  lemma ZeroTop(w: Word)
    ensures ByteAt(And(w, KEY_BYTES_MASK), 7) == 0
  {
    RightShifts(And(w, KEY_BYTES_MASK), 7);
    hide Shr;
  }

  /** A word of key bytes and a length: the length shows at the top, the bytes below it. */
  lemma Packed(w: Word, n: nat, i: nat)
    requires n <= 7 && i < 7
    ensures var p := Or(And(w, KEY_BYTES_MASK), LengthToWord(n));
      Length(p) == n && Valid(p) && ByteAt(p, i) == ByteAt(w, i)
  {
    hide Or, And, LowByte, Shr, Shl, AtTop, LengthToWord, ByteAt;
    var k := And(w, KEY_BYTES_MASK);
    ByteBits(k, LengthToWord(n), i);
    ByteBits(k, LengthToWord(n), 7);
    LengthBytes(n, i);
    LengthBytes(n, 7);
    ByteMask(w, i);
    ZeroTop(w);
    OrZero(ByteAt(w, i));
    OrZero(WordOf(n));
  }

  lemma OrZero(x: Word)
    ensures Or(0, x) == x && Or(x, 0) == x && Xor(x, x) == 0
  {
  }

  /** The length constructor takes the first bytes. */
  lemma WithLengthTakes(w: Word, n: nat)
    requires Valid(w) && n <= Length(w)
    ensures Valid(WithLength(w, n)) && Bytes(WithLength(w, n)) == Bytes(w)[..n]
  {
    hide Or, And, ByteAt, LengthToWord, NatOf;
    assert Length(w) <= 7 by { NatSmall(ByteAt(w, 7)); }
    Packed(w, n, 0);
    forall i | 0 <= i < n ensures ByteAt(WithLength(w, n), i) == ByteAt(w, i) {
      Packed(w, n, i);
    }
  }

  lemma NatSmall(w: Word)
    ensures NatOf(w) <= 7 && (w <= 7 ==> WordOf(NatOf(w)) == w)
  {
  }

  lemma CutByte(w: Word, n: nat, i: nat)
    requires Valid(w) && i + n < Length(w)
    ensures ByteAt(Cut(w, n), i) == ByteAt(w, n + i)
  {
    hide Or, And, LengthToWord, NatOf, LowByte, Right8, Shr;
    NatSmall(ByteAt(w, 7));
    Packed(Shr(w, n), Length(w) - n, i);
    RightTwice(w, n, i);
  }

  /** Cutting drops the first bytes. */
  lemma CutDrops(w: Word, n: nat)
    requires Valid(w) && n <= Length(w)
    ensures Valid(Cut(w, n)) && Bytes(Cut(w, n)) == Bytes(w)[n..]
  {
    hide Or, And, LengthToWord, NatOf, ByteAt, Shr;
    var len := Length(w);
    assert len <= 7 by { NatSmall(ByteAt(w, 7)); }
    Packed(Shr(w, n), len - n, 0);
    forall i: nat | i < len - n ensures ByteAt(Cut(w, n), i) == ByteAt(w, n + i) {
      CutByte(w, n, i);
    }
  }

  lemma FourOrs(a: Word, b: Word, c: Word, d: Word, i: nat)
    ensures ByteAt(Or(Or(Or(a, b), c), d), i) == Or(Or(Or(ByteAt(a, i), ByteAt(b, i)), ByteAt(c, i)), ByteAt(d, i))
  {
    hide Or, ByteAt;
    ByteBits(Or(Or(a, b), c), d, i);
    ByteBits(Or(a, b), c, i);
    ByteBits(a, b, i);
  }

  lemma SmallByte(b: Word, i: nat)
    requires b <= 0xFF && i < 8
    ensures ByteAt(b, i) == if i == 0 then b else 0
  {
    RightShifts(b, i);
    hide Shr;
  }

  /** The bytes of the four words that prepending puts together. */
  lemma PrependParts(w: Word, prefix1: Word, b: Word, i: nat)
    requires Length(w) + Length(prefix1) < CAPACITY && b <= 0xFF && i < 8
    ensures var l1, l3 := Length(prefix1), Length(w);
      && ByteAt(Shl(And(w, LowMask(l3)), l1 + 1), i) == (if l1 < i <= l1 + l3 then ByteAt(w, i - l1 - 1) else 0)
      && ByteAt(Shl(b, l1), i) == (if i == l1 then b else 0)
      && ByteAt(And(prefix1, LowMask(l1)), i) == (if i < l1 then ByteAt(prefix1, i) else 0)
      && ByteAt(LengthToWord(l3 + l1 + 1), i) == (if i == 7 then WordOf(l3 + l1 + 1) else 0)
  {
    hide And, ByteAt, Shl, LowMask, LengthToWord, Length, WordOf;
    var l1, l3 := Length(prefix1), Length(w);
    ByteLeft(And(w, LowMask(l3)), l1 + 1, i);
    if i >= l1 + 1 { ByteLow(w, l3, i - l1 - 1); }
    ByteLeft(b, l1, i);
    if i >= l1 { SmallByte(b, i - l1); }
    ByteLow(prefix1, l1, i);
    LengthBytes(l3 + l1 + 1, i);
  }

  lemma PrependedByte(w: Word, prefix1: Word, b: Word, i: nat)
    requires Length(w) + Length(prefix1) < CAPACITY && b <= 0xFF && i < 8
    ensures ByteAt(Prepend(w, prefix1, b), i) ==
      if i == 7 then WordOf(Length(w) + Length(prefix1) + 1)
      else if i < Length(prefix1) then ByteAt(prefix1, i)
      else if i == Length(prefix1) then b
      else if i < Length(prefix1) + 1 + Length(w) then ByteAt(w, i - Length(prefix1) - 1)
      else 0
  {
    hide Or, And, ByteAt, Shl, LowMask, LengthToWord, Length, WordOf;
    var l1, l3 := Length(prefix1), Length(w);
    PrependParts(w, prefix1, b, i);
    FourOrs(Shl(And(w, LowMask(l3)), l1 + 1), Shl(b, l1), And(prefix1, LowMask(l1)), LengthToWord(l3 + l1 + 1), i);
    OrZero(0);
    if i == 7 {
      OrZero(WordOf(l3 + l1 + 1));
    } else if i < l1 {
      OrZero(ByteAt(prefix1, i));
    } else if i == l1 {
      OrZero(b);
    } else if i < l1 + 1 + l3 {
      OrZero(ByteAt(w, i - l1 - 1));
    }
  }

  /** Prepending puts the other prefix and the byte in front. */
  lemma PrependConcatenates(w: Word, prefix1: Word, b: Word)
    requires Length(w) + Length(prefix1) < CAPACITY && b <= 0xFF
    ensures Valid(Prepend(w, prefix1, b))
    ensures Bytes(Prepend(w, prefix1, b)) == Bytes(prefix1) + [b] + Bytes(w)
  {
    hide ByteAt, Prepend, NatOf, WordOf;
    PrependedByte(w, prefix1, b, 7);
    LengthBytes(Length(w) + Length(prefix1) + 1, 0);
    forall i | 0 <= i < Length(w) + Length(prefix1) + 1
      ensures ByteAt(Prepend(w, prefix1, b), i) == (Bytes(prefix1) + [b] + Bytes(w))[i]
    {
      PrependedByte(w, prefix1, b, i);
    }
  }

  /** Splitting a prefix at any byte and prepending the parts again restores every byte. */
  lemma SplitThenPrepend(w: Word, i: nat)
    requires Valid(w) && i < Length(w)
    ensures Length(WithLength(w, i)) + Length(Cut(w, i + 1)) < CAPACITY
    ensures Bytes(Prepend(Cut(w, i + 1), WithLength(w, i), ByteAt(w, i))) == Bytes(w)
  {
    hide WithLength, Cut, Prepend, ByteAt, NatOf;
    NatSmall(ByteAt(w, 7));
    WithLengthTakes(w, i);
    CutDrops(w, i + 1);
    assert |Bytes(Cut(w, i + 1))| == Length(w) - i - 1 && |Bytes(WithLength(w, i))| == i;
    OneByte(w, i);
    PrependConcatenates(Cut(w, i + 1), WithLength(w, i), ByteAt(w, i));
    assert Bytes(w) == Bytes(w)[..i] + [Bytes(w)[i]] + Bytes(w)[i + 1..];
  }

  lemma OneByte(w: Word, i: nat)
    ensures ByteAt(w, i) <= 0xFF
  {
    hide Shr;
  }

  // ---- shared length -------------------------------------------------------------------------------------

  /** The clamped length of the longest common prefix, byte by byte. */
  lemma SharedLenIs(k1: Word, k2: Word, clamp: nat)
    requires clamp < 8
    ensures var r := SharedLen(k1, k2, clamp);
      && r <= clamp && (r < clamp ==> ByteAt(k1, r) != ByteAt(k2, r))
      && forall i :: 0 <= i < r ==> ByteAt(k1, i) == ByteAt(k2, i)
  {
    hide Or, Xor, Shl, ByteAt, TrailingZeros;
    var x := Or(Xor(k1, k2), Shl(1, clamp));
    var r := SharedLen(k1, k2, clamp);
    FirstNonzeroByte(x, 8);
    forall i | 0 <= i < 8
      ensures i < clamp ==> (ByteAt(x, i) == 0 <==> ByteAt(k1, i) == ByteAt(k2, i))
      ensures i == clamp ==> ByteAt(x, i) != 0
    {
      ByteBits(Xor(k1, k2), Shl(1, clamp), i);
      ByteBits(k1, k2, i);
      ByteLeft(1, clamp, i);
      if i == clamp { SmallByte(1, 0); }
      XorZero(ByteAt(k1, i), ByteAt(k2, i));
    }
    assert ByteAt(x, clamp) != 0;
    assert !(clamp < r);
    if r < clamp { assert ByteAt(x, r) != 0; }
  }

  lemma XorZero(a: Word, b: Word)
    ensures Or(Xor(a, b), 0) == 0 <==> a == b
    ensures Or(Xor(a, b), 1) != 0
  {
  }

  /** The first `n` bytes agree and, short of both lengths, the next do not. */
  ghost predicate IsCommon(a: seq<Word>, b: seq<Word>, n: nat) {
    && n <= |a| && n <= |b| && (forall i :: 0 <= i < n ==> a[i] == b[i])
    && (n < |a| && n < |b| ==> a[n] != b[n])
  }

  function KeyBytes(k: Word): seq<Word> {
    seq(8, (i: nat) => ByteAt(k, i))
  }

  /** get_shared_length: the common prefix of the packed bytes and the key's. */
  lemma SharedWithKey(w: Word, key: Word)
    requires Valid(w)
    ensures IsCommon(Bytes(w), KeyBytes(key), SharedLen(key, w, Length(w)))
  {
    hide SharedLen, ByteAt, NatOf;
    NatSmall(ByteAt(w, 7));
    SharedLenIs(key, w, Length(w));
  }

  /** The prefix of a new node over two leaves holds the bytes both keys share, at most seven. */
  lemma MadeOfShared(k1: Word, k2: Word)
    ensures var w := MakeU64(k1, k2);
      && Valid(w) && Bytes(w) == KeyBytes(k1)[..Length(w)]
      && IsCommon(KeyBytes(k1)[..7], KeyBytes(k2)[..7], Length(w))
  {
    hide Or, And, SharedLen, ByteAt, LengthToWord, NatOf;
    var k := And(k1, KEY_BYTES_MASK);
    var n := SharedLen(k, k2, CAPACITY);
    SharedLenIs(k, k2, CAPACITY);
    forall i | 0 <= i < 7 ensures ByteAt(k, i) == ByteAt(k1, i) {
      ByteMask(k1, i);
    }
    Packed(k1, n, 0);
    forall i | 0 <= i < 7 ensures ByteAt(MakeU64(k1, k2), i) == ByteAt(k1, i) {
      Packed(k1, n, i);
    }
  }

  lemma {:induction false} CommonUnique(a: seq<Word>, b: seq<Word>, n: nat, m: nat)
    requires IsCommon(a, b, n) && IsCommon(a, b, m)
    ensures n == m
  {
  }

  /** Bytes left behind above the length by a cut never show: prefixes that stand for the same bytes answer alike. */
  lemma StaleBytesDoNotShow(v: Word, w: Word, key: Word, n: nat, p: Word, b: Word)
    requires Valid(v) && Valid(w) && Bytes(v) == Bytes(w) && n <= Length(v)
    requires Length(v) + Length(p) < CAPACITY && b <= 0xFF
    ensures Length(v) == Length(w) && SharedLen(key, v, Length(v)) == SharedLen(key, w, Length(w))
    ensures Bytes(WithLength(v, n)) == Bytes(WithLength(w, n)) && Bytes(Cut(v, n)) == Bytes(Cut(w, n))
    ensures Bytes(Prepend(v, p, b)) == Bytes(Prepend(w, p, b))
  {
    hide WithLength, Cut, Prepend, SharedLen, ByteAt, NatOf;
    assert Length(v) == |Bytes(v)| && Length(w) == |Bytes(w)|;
    SharedWithKey(v, key);
    SharedWithKey(w, key);
    CommonUnique(Bytes(v), KeyBytes(key), SharedLen(key, v, Length(v)), SharedLen(key, w, Length(w)));
    WithLengthTakes(v, n);
    WithLengthTakes(w, n);
    CutDrops(v, n);
    CutDrops(w, n);
    PrependConcatenates(v, p, b);
    PrependConcatenates(w, p, b);
  }

  /** The word of an inner node, changed in place. */
  class PackedPrefix {
    var u64: Word

    ghost predicate Ok()
      reads this
    {
      Valid(u64)
    }

    constructor (k1: Word, shiftedK2: Word)
      ensures Ok() && u64 == MakeU64(k1, shiftedK2)
    {
      u64 := MakeU64(k1, shiftedK2);
      MadeOfShared(k1, shiftedK2);
    }

    method CutFront(n: nat)
      requires Ok() && 0 < n <= Length(u64)
      modifies this
      ensures Ok() && Bytes(u64) == old(Bytes(u64))[n..]
    {
      CutDrops(u64, n);
      u64 := Cut(u64, n);
    }

    method PrependFront(prefix1: Word, prefix2: Word)
      requires Ok() && Valid(prefix1) && prefix2 <= 0xFF && Length(u64) + Length(prefix1) < CAPACITY
      modifies this
      ensures Ok() && Bytes(u64) == Bytes(prefix1) + [prefix2] + old(Bytes(u64))
    {
      PrependConcatenates(u64, prefix1, prefix2);
      u64 := Prepend(u64, prefix1, prefix2);
    }
  }
}

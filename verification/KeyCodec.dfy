/** The composite keys of art_common.hpp: what bytes the encoder writes for each kind of component, and why
    comparing the bytes compares the components. */
module KeyCodec {
  import opened ArtKey
  import FloatCodec

  // ---- byte strings ----------------------------------------------------------------------------------

  /** `x` sorts before `y` at a byte both have. Neither is then a prefix of the other. */
  predicate Before(x: seq<Byte>, y: seq<Byte>) {
    var c := Common(x, y);
    c < |x| && c < |y| && x[c] < y[c]
  }

  lemma BeforeAt(x: seq<Byte>, y: seq<Byte>, m: nat)
    requires m < |x| && m < |y| && x[..m] == y[..m] && x[m] < y[m]
    ensures Before(x, y)
  {
    hide Common;
    CommonIs(x, y, m);
  }

  /** What follows two strings that are already decided does not matter. */
  lemma BeforeAppend(x: seq<Byte>, y: seq<Byte>, u: seq<Byte>, v: seq<Byte>)
    requires Before(x, y)
    ensures Before(x + u, y + v)
  {
    hide Common;
    var c := Common(x, y);
    assert (x + u)[..c] == x[..c] && (y + v)[..c] == y[..c];
    BeforeAt(x + u, y + v, c);
  }

  /** A common start does not matter either. */
  lemma BeforePrepend(p: seq<Byte>, x: seq<Byte>, y: seq<Byte>)
    requires Before(x, y)
    ensures Before(p + x, p + y)
  {
    hide Common;
    var c := Common(x, y);
    assert (p + x)[..|p| + c] == p + x[..c] && (p + y)[..|p| + c] == p + y[..c];
    BeforeAt(p + x, p + y, |p| + c);
  }

  lemma BeforeExcludes(x: seq<Byte>, y: seq<Byte>)
    requires Before(x, y)
    ensures !Before(y, x) && x != y && !(x <= y) && !(y <= x)
  {
    hide Common;
    CommonSymmetric(x, y);
  }

  // ---- integers --------------------------------------------------------------------------------------

  /** The sign bit of an integer of `width` bytes. */
  function Msb(width: nat): (m: nat)
    requires width > 0
    ensures 2 * m == Power(width) && m > 0
  {
    128 * Power(width - 1)
  }

  predicate FitsSigned(width: nat, v: int)
    requires width > 0
  {
    0 - Msb(width) <= v < Msb(width)
  }

  /** Flipping the sign bit, without leaving the signed range on the way. */
  function ToUnsigned(width: nat, v: int): (u: nat)
    requires width > 0 && FitsSigned(width, v)
    ensures u < Power(width)
  {
    if v >= 0 then Msb(width) + v else Msb(width) - (-(v + 1)) - 1
  }

  function ToSigned(width: nat, u: nat): (v: int)
    requires width > 0 && u < Power(width)
    ensures FitsSigned(width, v)
  {
    if u >= Msb(width) then u - Msb(width) else -(Msb(width) - 1 - u) - 1
  }

  /** Signed numbers keep their order and come back. */
  lemma SignFlip(width: nat, v: int, w: int)
    requires width > 0 && FitsSigned(width, v) && FitsSigned(width, w)
    ensures ToSigned(width, ToUnsigned(width, v)) == v
    ensures v < w <==> ToUnsigned(width, v) < ToUnsigned(width, w)
  {
  }

  lemma {:induction false} DigitsOrder(m: nat, n: nat, width: nat)
    requires m < n < Power(width)
    ensures Before(Digits(m, width), Digits(n, width))
  {
    hide Common;
    DigitsRoundTrip(m, width);
    DigitsRoundTrip(n, width);
    LessIsNumeric(Digits(m, width), Digits(n, width));
  }

  // ---- text --------------------------------------------------------------------------------------------

  const PAD: Byte := 0
  const SIZE_BYTES: nat := 2
  /** The largest 16-bit number, less one pad byte and the run length. */
  const MAXLEN: nat := 0xFFFF - 1 - SIZE_BYTES

  function Truncated(text: seq<Byte>): (t: seq<Byte>)
    ensures |t| <= MAXLEN
  {
    if |text| > MAXLEN then text[..MAXLEN] else text
  }

  /** The text without its trailing pad bytes. */
  function Stripped(text: seq<Byte>): (t: seq<Byte>)
    ensures t <= text
    ensures t != [] ==> t[|t| - 1] != PAD
    ensures forall i :: |t| <= i < |text| ==> text[i] == PAD
  {
    if text != [] && text[|text| - 1] == PAD then Stripped(text[..|text| - 1]) else text
  }

  function Stem(text: seq<Byte>): (t: seq<Byte>)
    ensures |t| <= MAXLEN
    ensures t != [] ==> t[|t| - 1] != PAD
  {
    Stripped(Truncated(text))
  }

  /** The stem, one pad byte, and how many pad bytes the full width would take. */
  function TextCode(text: seq<Byte>): seq<Byte> {
    Stem(text) + [PAD] + Digits(MAXLEN - |Stem(text)|, SIZE_BYTES)
  }

  /** What a text field stands for: the bytes up to the maximal length, and pad bytes where the text has none. */
  function Padded(text: seq<Byte>): (t: seq<Byte>)
    ensures |t| == MAXLEN
  {
    seq(MAXLEN, i requires 0 <= i < MAXLEN => if i < |text| then text[i] else PAD)
  }

  predicate TextLess(a: seq<Byte>, b: seq<Byte>) {
    Less(Padded(a), Padded(b))
  }

  /** The pair of texts the code gets wrong: the stem of `a` continues in `b` with a pad byte, and the two bytes
      of the run length written there for `a` are not below what `b` has at that place. */
  predicate Shadowed(a: seq<Byte>, b: seq<Byte>) {
    var p, q := Stem(a), Stem(b);
    && p < q && q[|p|] == PAD
    && var run := Digits(MAXLEN - |p|, SIZE_BYTES);
    !(run[0] < q[|p| + 1] || (run[0] == q[|p| + 1] && |p| + 2 < |q| && run[1] < q[|p| + 2]))
  }

  /** No pad byte but at the end. */
  predicate NoInteriorPad(text: seq<Byte>) {
    forall i, j :: 0 <= i < j < |text| && j < MAXLEN && text[i] == PAD ==> text[j] == PAD
  }

  lemma StemIsPadded(text: seq<Byte>, i: nat)
    requires i < MAXLEN
    ensures Padded(text)[i] == if i < |Stem(text)| then Stem(text)[i] else PAD
  {
    hide Padded, Stripped;
    StemWithin(text);
    PaddedAt(text, i);
  }

  lemma PaddedAt(text: seq<Byte>, i: nat)
    requires i < MAXLEN
    ensures Padded(text)[i] == if i < |text| then text[i] else PAD
  {
  }

  /** The stem is the shortest start of the text after which only pad bytes follow, up to the maximal length. */
  lemma StemWithin(text: seq<Byte>)
    ensures Stem(text) <= text && |Stem(text)| <= MAXLEN
    ensures forall i :: |Stem(text)| <= i < |text| && i < MAXLEN ==> text[i] == PAD
  {
    hide Stripped;
    var cut := Truncated(text);
    assert forall i :: 0 <= i < |cut| ==> cut[i] == text[i];
  }

  /** The code byte by byte: the text up to its last byte that is not a pad byte among the first 65532, one zero byte, and
      the two-byte count of what is missing to 65532. */
  lemma TextLayout(text: seq<Byte>, n: nat)
    requires n <= |text| && n <= 65532 && (n > 0 ==> text[n - 1] != 0)
    requires forall i :: n <= i < |text| && i < 65532 ==> text[i] == 0
    ensures var code := TextCode(text);
      && |code| == n + 3 && code[..n] == text[..n] && code[n] == 0
      && code[n + 1] as int * 256 + code[n + 2] == 65532 - n
  {
    hide Stem, Digits;
    StemWithin(text);
    var m := |Stem(text)|;
    assert m > 0 ==> Stem(text)[m - 1] == text[m - 1];
    assert m == n;
    TwoDigits(MAXLEN - n);
  }

  lemma TwoDigits(n: nat)
    requires n < 0x1_0000
    ensures var d := Digits(n, 2); d[0] as int * 256 + d[1] == n
  {
    assert Digits(n, 2) == Digits(n / 256, 1) + [n % 256];
    assert Digits(n / 256, 1) == Digits(n / 256 / 256, 0) + [n / 256 % 256];
  }

  /** Two texts are the same field value exactly if they have the same stem. */
  lemma PaddedSame(a: seq<Byte>, b: seq<Byte>)
    ensures Padded(a) == Padded(b) <==> Stem(a) == Stem(b)
  {
    hide Padded, Stem;
    forall i: nat | i < MAXLEN
      ensures Padded(a)[i] == if i < |Stem(a)| then Stem(a)[i] else PAD
      ensures Padded(b)[i] == if i < |Stem(b)| then Stem(b)[i] else PAD
    {
      StemIsPadded(a, i);
      StemIsPadded(b, i);
    }
    if |Stem(a)| != |Stem(b)| {
      var last := (if |Stem(a)| < |Stem(b)| then |Stem(b)| else |Stem(a)|) - 1;
      assert Padded(a)[last] != Padded(b)[last];
    } else if Padded(a) == Padded(b) {
      assert forall i :: 0 <= i < |Stem(a)| ==> Padded(a)[i] == Padded(b)[i];
    }
  }

  lemma PaddedPrefix(a: seq<Byte>, b: seq<Byte>)
    requires Stem(a) < Stem(b)
    ensures TextLess(a, b)
  {
    hide Padded, Stem, Common;
    PaddedSame(a, b);
    CommonInside(Padded(a), Padded(b));
    var c := Common(Padded(a), Padded(b));
    StemIsPadded(a, c);
    StemIsPadded(b, c);
  }

  lemma PaddedDecided(a: seq<Byte>, b: seq<Byte>)
    requires Before(Stem(a), Stem(b))
    ensures TextLess(a, b)
  {
    hide Padded, Stem, Common;
    var c := Common(Stem(a), Stem(b));
    forall i: nat | i <= c
      ensures Padded(a)[i] == Stem(a)[i] && Padded(b)[i] == Stem(b)[i]
    {
      StemIsPadded(a, i);
      StemIsPadded(b, i);
    }
    forall i | 0 <= i < c ensures Padded(a)[i] == Padded(b)[i] {
      assert Stem(a)[..c][i] == Stem(b)[..c][i];
    }
    assert Padded(a)[..c] == Padded(b)[..c];
    CommonIs(Padded(a), Padded(b), c);
  }

  /** Of any two byte strings one is before the other, or one is a prefix of the other. */
  lemma FourWays(x: seq<Byte>, y: seq<Byte>)
    ensures Before(x, y) || Before(y, x) || x <= y || y <= x
  {
    hide Common;
    var c := Common(x, y);
    CommonSymmetric(x, y);
    if c == |x| { assert x == y[..c]; }
    if c == |y| { assert y == x[..c]; }
  }

  lemma LessExcludes(x: seq<Byte>, y: seq<Byte>)
    requires |x| == |y| && Less(x, y)
    ensures !Less(y, x) && x != y
  {
    hide Common;
    CommonSymmetric(x, y);
  }

  /** The code of a proper prefix, at the pad byte and the run length that follow the shared stem. */
  lemma PrefixCode(a: seq<Byte>, b: seq<Byte>)
    requires Stem(a) < Stem(b)
    ensures Before(TextCode(a), TextCode(b)) <==> !Shadowed(a, b)
  {
    hide Common, Stem, Digits;
    var p, q := Stem(a), Stem(b);
    var run := Digits(MAXLEN - |p|, SIZE_BYTES);
    var x, y := TextCode(a), TextCode(b);
    var n := |p|;
    assert x == p + [PAD] + run && x[..n] == p == q[..n] == y[..n];
    assert y[n] == q[n] && x[n] == PAD;
    if q[n] != PAD {
      BeforeAt(x, y, n);
    } else {
      AfterThePad(x, y, n, run, q);
    }
  }

  /** Below the shared stem and the pad byte, the run length of one text meets the rest of the other. */
  lemma AfterThePad(x: seq<Byte>, y: seq<Byte>, n: nat, run: seq<Byte>, q: seq<Byte>)
    requires |run| == 2 && n + 1 < |q| && |y| == |q| + 3 && q <= y && y[|q|] == PAD
    requires |x| == n + 3 && x[..n] == q[..n] && x[n] == q[n] == PAD && x[n + 1] == run[0] && x[n + 2] == run[1]
    ensures Before(x, y) <==> run[0] < q[n + 1] || (run[0] == q[n + 1] && n + 2 < |q| && run[1] < q[n + 2])
  {
    hide Common;
    assert forall i :: 0 <= i < |q| ==> y[i] == q[i];
    assert forall i :: 0 <= i < n ==> x[i] == x[..n][i] == q[..n][i];
    if run[0] != q[n + 1] {
      assert x[..n + 1] == y[..n + 1];
      CommonIs(x, y, n + 1);
    } else {
      assert x[..n + 2] == y[..n + 2];
      assert n + 2 == |q| ==> y[n + 2] == PAD;
      if x[n + 2] != y[n + 2] {
        CommonIs(x, y, n + 2);
      } else {
        assert x == y[..n + 3];
        if Before(x, y) { BeforeExcludes(x, y); }
      }
    }
  }

  /** Exactly when the code of a text fails to sort it before a larger one. */
  lemma TextOrder(a: seq<Byte>, b: seq<Byte>)
    ensures Shadowed(a, b) <==> TextLess(a, b) && !Before(TextCode(a), TextCode(b))
  {
    hide Common, Stem, Digits, Padded, Less;
    FourWays(Stem(a), Stem(b));
    PaddedSame(a, b);
    if Before(Stem(a), Stem(b)) {
      PaddedDecided(a, b);
      StemsDecideCodes(a, b);
    } else if Before(Stem(b), Stem(a)) {
      BeforeExcludes(Stem(b), Stem(a));
      PaddedDecided(b, a);
      LessExcludes(Padded(b), Padded(a));
    } else if Stem(a) == Stem(b) {
      NotLessSelf(Padded(a));
    } else if Stem(a) < Stem(b) {
      PaddedPrefix(a, b);
      PrefixCode(a, b);
    } else {
      PaddedPrefix(b, a);
      LessExcludes(Padded(b), Padded(a));
    }
  }

  lemma NotLessSelf(x: seq<Byte>)
    ensures !Less(x, x)
  {
    hide Common;
    if Less(x, x) { LessExcludes(x, x); }
  }

  lemma StemsDecideCodes(a: seq<Byte>, b: seq<Byte>)
    requires Before(Stem(a), Stem(b))
    ensures Before(TextCode(a), TextCode(b)) && !Shadowed(a, b)
  {
    hide Common, Stem, Digits;
    BeforeExcludes(Stem(a), Stem(b));
    BeforeAppend(Stem(a), Stem(b), [PAD] + Digits(MAXLEN - |Stem(a)|, SIZE_BYTES), [PAD] + Digits(MAXLEN - |Stem(b)|, SIZE_BYTES));
    assert TextCode(a) == Stem(a) + ([PAD] + Digits(MAXLEN - |Stem(a)|, SIZE_BYTES));
    assert TextCode(b) == Stem(b) + ([PAD] + Digits(MAXLEN - |Stem(b)|, SIZE_BYTES));
  }

  /** Texts share a code exactly if they agree in their first 65532 bytes, the shorter one filled with pad bytes. */
  lemma SameCodeSameText(a: seq<Byte>, b: seq<Byte>)
    ensures TextCode(a) == TextCode(b) <==>
      forall i: nat :: i < 65532 ==> (if i < |a| then a[i] else 0) == (if i < |b| then b[i] else 0)
  {
    hide TextCode, Padded;
    TextCodeSame(a, b);
    forall i: nat | i < 65532
      ensures Padded(a)[i] == (if i < |a| then a[i] else 0) && Padded(b)[i] == (if i < |b| then b[i] else 0)
    {
      PaddedAt(a, i);
      PaddedAt(b, i);
    }
  }

  lemma TextCodeSame(a: seq<Byte>, b: seq<Byte>)
    ensures TextCode(a) == TextCode(b) <==> Padded(a) == Padded(b)
  {
    hide Stem, Digits, Padded;
    PaddedSame(a, b);
    assert |TextCode(a)| == |Stem(a)| + 3 && |TextCode(b)| == |Stem(b)| + 3;
    assert TextCode(a)[..|Stem(a)|] == Stem(a) && TextCode(b)[..|Stem(b)|] == Stem(b);
  }

  /** Without interior pad bytes nothing is shadowed. */
  lemma NoPadNotShadowed(a: seq<Byte>, b: seq<Byte>)
    requires NoInteriorPad(b)
    ensures !Shadowed(a, b)
  {
    hide Stem, Digits;
    StemWithin(b);
    assert forall i :: 0 <= i < |Stem(b)| ==> b[i] == Stem(b)[i];
  }

  /** The empty text is below the text 00 01, but its code is above. */
  lemma MisorderedTexts()
    ensures TextLess([], [0, 1]) && Before(TextCode([0, 1]), TextCode([]))
  {
    ShortCodes();
    PaddedPrefix([], [0, 1]);
    BeforeAt(TextCode([0, 1]), TextCode([]), 1);
  }

  /** The code of the empty text is a proper prefix of the code of the text 00 FF FC 01. */
  lemma PrefixOfAnotherCode()
    ensures TextCode([]) < TextCode([0, 0xFF, 0xFC, 1])
  {
    ShortCodes();
  }

  lemma ShortCodes()
    ensures Stem([]) == [] && TextCode([]) == [0, 0xFF, 0xFC]
    ensures Stem([0, 1]) == [0, 1] && TextCode([0, 1]) == [0, 1, 0, 0xFF, 0xFA]
    ensures TextCode([0, 0xFF, 0xFC, 1])[..4] == [0, 0xFF, 0xFC, 1]
  {
    assert Digits(MAXLEN, 2) == Digits(MAXLEN / 256, 1) + [MAXLEN % 256];
    assert Digits(MAXLEN / 256, 1) == Digits(MAXLEN / 256 / 256, 0) + [MAXLEN / 256 % 256];
    assert Digits(MAXLEN - 2, 2) == Digits((MAXLEN - 2) / 256, 1) + [(MAXLEN - 2) % 256];
    assert Digits((MAXLEN - 2) / 256, 1) == Digits((MAXLEN - 2) / 256 / 256, 0) + [(MAXLEN - 2) / 256 % 256];
    assert Stripped([0, 1]) == [0, 1];
    var t: seq<Byte> := [0, 0xFF, 0xFC, 1];
    assert Stripped(t) == t;
    assert Stem(t) == t;
  }

  // ---- fields and tuples -------------------------------------------------------------------------------

  datatype Kind = UnsignedKind(width: nat) | SignedKind(width: nat) | FloatKind(format: FloatCodec.Format) | TextKind

  datatype Field =
    | Unsigned(width: nat, n: nat)
    | Signed(width: nat, v: int)
    | Float(format: FloatCodec.Format, bits: nat)
    | Text(text: seq<Byte>)
  {
    function Kind(): Kind {
      match this
      case Unsigned(w, _) => UnsignedKind(w)
      case Signed(w, _) => SignedKind(w)
      case Float(f, _) => FloatKind(f)
      case Text(_) => TextKind
    }

    /** The field holds a value of its C++ type. */
    predicate Ok() {
      match this
      case Unsigned(w, n) => n < Power(w)
      case Signed(w, v) => w > 0 && FitsSigned(w, v)
      case Float(f, bits) => (f == FloatCodec.BINARY32 || f == FloatCodec.BINARY64) && FloatCodec.IsPattern(f, bits)
      case Text(_) => true
    }

    function Code(): seq<Byte>
      requires Ok()
    {
      match this
      case Unsigned(w, n) => Digits(n, w)
      case Signed(w, v) => Digits(ToUnsigned(w, v), w)
      case Float(f, bits) => Digits(FloatCodec.Encode(f, bits), FloatBytes(f))
      case Text(t) => TextCode(t)
    }
  }

  function FloatBytes(f: FloatCodec.Format): nat {
    if f == FloatCodec.BINARY32 then 4 else 8
  }

  /** The order the caller means. */
  predicate FieldLess(a: Field, b: Field)
    requires a.Kind() == b.Kind()
  {
    match a
    case Unsigned(_, n) => n < b.n
    case Signed(_, v) => v < b.v
    case Float(f, x) => !FloatCodec.IsNan(f, x) && (FloatCodec.IsNan(f, b.bits) || FloatCodec.Less(f, x, b.bits))
    case Text(t) => TextLess(t, b.text)
  }

  predicate FieldSame(a: Field, b: Field)
    requires a.Kind() == b.Kind()
  {
    match a
    case Unsigned(_, n) => n == b.n
    case Signed(_, v) => v == b.v
    case Float(f, x) => x == b.bits || (FloatCodec.IsNan(f, x) && FloatCodec.IsNan(f, b.bits))
    case Text(t) => Padded(t) == Padded(b.text)
  }

  /** Neither text shadows the other; always so for numbers, and for text without interior pad bytes. */
  predicate Apart(a: Field, b: Field)
    requires a.Kind() == b.Kind()
  {
    a.Text? ==> !Shadowed(a.text, b.text) && !Shadowed(b.text, a.text)
  }

  lemma FloatWidth(f: FloatCodec.Format)
    requires f == FloatCodec.BINARY32 || f == FloatCodec.BINARY64
    ensures FloatCodec.Ok(f) && 2 * FloatCodec.SignBit(f) == Power(FloatBytes(f))
  {
    FloatCodec.ProgramFormats();
    assert Power(4) == 0x1_0000_0000;
    assert Power(8) == 0x1_0000_0000_0000_0000;
  }

  lemma FloatFieldOrder(f: FloatCodec.Format, x: nat, y: nat)
    requires Float(f, x).Ok() && Float(f, y).Ok()
    ensures FieldLess(Float(f, x), Float(f, y)) ==> FloatCodec.Encode(f, x) < FloatCodec.Encode(f, y)
    ensures FieldSame(Float(f, x), Float(f, y)) <==> FloatCodec.Encode(f, x) == FloatCodec.Encode(f, y)
    ensures FloatCodec.Encode(f, x) < Power(FloatBytes(f)) && FloatCodec.Encode(f, y) < Power(FloatBytes(f))
  {
    hide FloatCodec.Encode, FloatCodec.IsNan, FloatCodec.Less, FloatCodec.SignBit, Power;
    FloatWidth(f);
    FloatCodec.NanIsLargest(f, x);
    FloatCodec.NanIsLargest(f, y);
    if !FloatCodec.IsNan(f, x) && FloatCodec.Encode(f, x) == FloatCodec.Encode(f, y) {
      FloatCodec.NoCollisions(f, x, y);
    }
    if !FloatCodec.IsNan(f, x) && !FloatCodec.IsNan(f, y) {
      FloatCodec.EncodeMonotone(f, x, y);
    }
  }

  lemma NumberCodes(m: nat, n: nat, width: nat)
    requires m < Power(width) && n < Power(width)
    ensures m < n ==> Before(Digits(m, width), Digits(n, width))
    ensures Digits(m, width) == Digits(n, width) <==> m == n
  {
    hide Before, Digits, Power;
    DigitsRoundTrip(m, width);
    DigitsRoundTrip(n, width);
    if m < n { DigitsOrder(m, n, width); }
  }

  /** One component: its code sorts as its value does, and only equal values share a code. */
  lemma FieldOrder(a: Field, b: Field)
    requires a.Kind() == b.Kind() && a.Ok() && b.Ok() && Apart(a, b)
    ensures FieldLess(a, b) ==> Before(a.Code(), b.Code())
    ensures FieldSame(a, b) <==> a.Code() == b.Code()
  {
    hide Before, Digits, Power, Msb, FloatCodec.Encode, FloatCodec.IsNan, FloatCodec.Less, TextLess, TextCode, Padded,
      Shadowed, FloatBytes, FloatCodec.IsPattern;
    match a
    case Unsigned(w, n) =>
      NumberCodes(n, b.n, w);
    case Signed(w, v) =>
      SignFlip(w, v, b.v);
      SignFlip(w, b.v, v);
      NumberCodes(ToUnsigned(w, v), ToUnsigned(w, b.v), w);
    case Float(f, x) =>
      FloatFieldOrder(f, x, b.bits);
      NumberCodes(FloatCodec.Encode(f, x), FloatCodec.Encode(f, b.bits), FloatBytes(f));
    case Text(t) =>
      TextOrder(t, b.text);
      TextCodeSame(t, b.text);
  }

  /** Any two values of a component are ordered one way, or are the same. */
  lemma FieldTotal(a: Field, b: Field)
    requires a.Kind() == b.Kind() && a.Ok() && b.Ok()
    ensures FieldLess(a, b) || FieldLess(b, a) || FieldSame(a, b)
  {
    hide Common, Padded, FloatCodec.Scaled, FloatCodec.Pow2, FloatCodec.SignBit, FloatCodec.InfMagnitude;
    if a.Text? {
      CommonSymmetric(Padded(a.text), Padded(b.text));
      var c := Common(Padded(a.text), Padded(b.text));
      if c == MAXLEN { assert Padded(a.text) == Padded(a.text)[..c] == Padded(b.text)[..c] == Padded(b.text); }
    } else if a.Float? {
      FloatCodec.ScaledOrder(a.format, FloatCodec.Magnitude(a.format, a.bits), FloatCodec.Magnitude(a.format, b.bits));
      FloatCodec.ScaledOrder(a.format, FloatCodec.Magnitude(a.format, b.bits), FloatCodec.Magnitude(a.format, a.bits));
    }
  }

  type Tuple = seq<Field>

  predicate AllOk(t: Tuple) {
    forall f :: f in t ==> f.Ok()
  }

  predicate SameSchema(a: Tuple, b: Tuple) {
    |a| == |b| && forall i :: 0 <= i < |a| ==> a[i].Kind() == b[i].Kind()
  }

  predicate AllApart(a: Tuple, b: Tuple)
    requires SameSchema(a, b)
  {
    forall i :: 0 <= i < |a| ==> Apart(a[i], b[i])
  }

  function TupleCode(t: Tuple): seq<Byte>
    requires AllOk(t)
  {
    if t == [] then [] else t[0].Code() + TupleCode(t[1..])
  }

  /** The first component that differs decides. */
  predicate TupleLess(a: Tuple, b: Tuple)
    requires SameSchema(a, b)
  {
    a != [] && (FieldLess(a[0], b[0]) || (FieldSame(a[0], b[0]) && TupleLess(a[1..], b[1..])))
  }

  predicate TupleSame(a: Tuple, b: Tuple)
    requires SameSchema(a, b)
  {
    forall i :: 0 <= i < |a| ==> FieldSame(a[i], b[i])
  }

  lemma {:induction false} LessTuplesFirst(a: Tuple, b: Tuple)
    requires SameSchema(a, b) && AllOk(a) && AllOk(b) && AllApart(a, b)
    ensures TupleLess(a, b) ==> Before(TupleCode(a), TupleCode(b))
    ensures TupleSame(a, b) ==> TupleCode(a) == TupleCode(b)
    ensures TupleLess(a, b) || TupleLess(b, a) || TupleSame(a, b)
  {
    hide Before, FieldLess, Shadowed;
    if a != [] {
      LessTuplesFirst(a[1..], b[1..]);
      FieldOrder(a[0], b[0]);
      FieldOrder(b[0], a[0]);
      FieldTotal(a[0], b[0]);
      if FieldLess(a[0], b[0]) {
        BeforeAppend(a[0].Code(), b[0].Code(), TupleCode(a[1..]), TupleCode(b[1..]));
      } else if FieldSame(a[0], b[0]) && TupleLess(a[1..], b[1..]) {
        BeforePrepend(a[0].Code(), TupleCode(a[1..]), TupleCode(b[1..]));
      }
    }
  }

  /** Every text component is free of interior pad bytes. */
  predicate Tidy(t: Tuple) {
    forall f :: f in t && f.Text? ==> NoInteriorPad(f.text)
  }

  lemma TidyTuplesApart(a: Tuple, b: Tuple)
    requires SameSchema(a, b) && Tidy(a) && Tidy(b)
    ensures AllApart(a, b)
  {
    hide Shadowed, NoInteriorPad;
    forall i | 0 <= i < |a| ensures Apart(a[i], b[i]) {
      assert a[i].Kind() == b[i].Kind();
      if a[i].Text? {
        NoPadNotShadowed(a[i].text, b[i].text);
        NoPadNotShadowed(b[i].text, a[i].text);
      }
    }
  }

  /** Comparing codes compares tuples: same order, equal codes for equal tuples only, and no code is a proper
      prefix of another. */
  lemma CompositeKeys(a: Tuple, b: Tuple)
    requires SameSchema(a, b) && AllOk(a) && AllOk(b)
    requires AllApart(a, b) || (Tidy(a) && Tidy(b))
    ensures TupleLess(a, b) <==> Before(TupleCode(a), TupleCode(b))
    ensures TupleSame(a, b) <==> TupleCode(a) == TupleCode(b)
    ensures !(TupleCode(a) < TupleCode(b))
  {
    hide Before, TupleLess, TupleSame, TupleCode, Apart, Tidy, AllOk;
    if !AllApart(a, b) { TidyTuplesApart(a, b); }
    ApartSwapped(a, b);
    LessTuplesFirst(a, b);
    LessTuplesFirst(b, a);
    SameSwapped(a, b);
    var x, y := TupleCode(a), TupleCode(b);
    if Before(x, y) { BeforeExcludes(x, y); }
    if Before(y, x) { BeforeExcludes(y, x); }
    NotBeforeItself(x);
  }

  lemma NotBeforeItself(x: seq<Byte>)
    ensures !Before(x, x)
  {
    if Before(x, x) { BeforeExcludes(x, x); }
  }

  lemma ApartSwapped(a: Tuple, b: Tuple)
    requires SameSchema(a, b) && AllApart(a, b)
    ensures SameSchema(b, a) && AllApart(b, a)
  {
    hide Shadowed;
    forall i | 0 <= i < |a| ensures b[i].Kind() == a[i].Kind() && Apart(b[i], a[i]) {
      assert Apart(a[i], b[i]);
    }
  }

  lemma SameSwapped(a: Tuple, b: Tuple)
    requires SameSchema(a, b) && SameSchema(b, a)
    ensures TupleSame(a, b) <==> TupleSame(b, a)
  {
    hide Padded, FloatCodec.IsNan;
    if TupleSame(a, b) {
      forall i | 0 <= i < |a| ensures FieldSame(b[i], a[i]) { assert FieldSame(a[i], b[i]); }
    }
    if TupleSame(b, a) {
      forall i | 0 <= i < |a| ensures FieldSame(a[i], b[i]) { assert FieldSame(b[i], a[i]); }
    }
  }

  // ---- decoding ----------------------------------------------------------------------------------------

  /** Bytes taken by a component that can be decoded. */
  function CodeBytes(k: Kind): nat
    requires Decodable(k)
  {
    match k
    case UnsignedKind(w) => w
    case SignedKind(w) => w
    case FloatKind(f) => FloatBytes(f)
  }

  predicate Decodable(k: Kind) {
    match k
    case UnsignedKind(_) => true
    case SignedKind(w) => w > 0
    case FloatKind(f) => f == FloatCodec.BINARY32 || f == FloatCodec.BINARY64
    case TextKind => false
  }

  function DecodeField(k: Kind, s: seq<Byte>): Field
    requires Decodable(k) && |s| == CodeBytes(k)
  {
    NumberRoundTrip(s);
    match k
    case UnsignedKind(w) => Unsigned(w, Number(s))
    case SignedKind(w) => Signed(w, ToSigned(w, Number(s)))
    case FloatKind(f) => FloatWidth(f); Float(f, FloatCodec.Decode(f, Number(s)))
  }

  predicate AllDecodable(ks: seq<Kind>) {
    forall i :: 0 <= i < |ks| ==> Decodable(ks[i])
  }

  function Total(ks: seq<Kind>): nat
    requires AllDecodable(ks)
  {
    if ks == [] then 0 else CodeBytes(ks[0]) + Total(ks[1..])
  }

  function DecodeTuple(ks: seq<Kind>, s: seq<Byte>): Tuple
    requires AllDecodable(ks) && |s| == Total(ks)
  {
    if ks == [] then [] else
      var n := CodeBytes(ks[0]);
      [DecodeField(ks[0], s[..n])] + DecodeTuple(ks[1..], s[n..])
  }

  /** All NaNs are one NaN to the codec. */
  function Canonical(f: Field): Field
    requires f.Ok()
  {
    if f.Float? && FloatCodec.IsNan(f.format, f.bits) then
      FloatWidth(f.format);
      Float(f.format, FloatCodec.QuietNan(f.format))
    else f
  }

  lemma FieldRoundTrip(f: Field)
    requires f.Ok() && !f.Text?
    ensures Decodable(f.Kind()) && |f.Code()| == CodeBytes(f.Kind())
    ensures DecodeField(f.Kind(), f.Code()) == Canonical(f)
  {
    hide Digits, Number, FloatCodec.Encode, FloatCodec.Decode, FloatCodec.IsNan, FloatCodec.QuietNan, FloatCodec.IsPattern,
      Power, Msb, FloatBytes, FloatCodec.SignBit;
    match f
    case Unsigned(w, n) =>
      DigitsRoundTrip(n, w);
    case Signed(w, v) =>
      SignFlip(w, v, v);
      DigitsRoundTrip(ToUnsigned(w, v), w);
    case Float(t, x) =>
      FloatFieldOrder(t, x, x);
      FloatWidth(t);
      FloatCodec.RoundTrip(t, x);
      DigitsRoundTrip(FloatCodec.Encode(t, x), FloatBytes(t));
  }

  function Kinds(t: Tuple): seq<Kind> {
    seq(|t|, i requires 0 <= i < |t| => t[i].Kind())
  }

  function Canonicals(t: Tuple): Tuple
    requires AllOk(t)
  {
    if t == [] then [] else [Canonical(t[0])] + Canonicals(t[1..])
  }

  lemma KindsOfRest(t: Tuple)
    requires t != []
    ensures Kinds(t)[1..] == Kinds(t[1..]) && Kinds(t)[0] == t[0].Kind()
    ensures Decodable(t[0].Kind()) && AllDecodable(Kinds(t[1..])) ==> AllDecodable(Kinds(t))
  {
    hide Decodable, Field.Kind;
    assert forall i :: 0 < i < |t| ==> Kinds(t)[i] == Kinds(t[1..])[i - 1];
  }

  lemma DecodeStep(ks: seq<Kind>, x: seq<Byte>, y: seq<Byte>)
    requires ks != [] && Decodable(ks[0]) && AllDecodable(ks[1..]) && AllDecodable(ks)
    requires |x| == CodeBytes(ks[0]) && |y| == Total(ks[1..])
    ensures |x + y| == Total(ks) && DecodeTuple(ks, x + y) == [DecodeField(ks[0], x)] + DecodeTuple(ks[1..], y)
  {
    hide DecodeField, CodeBytes, Decodable;
    assert (x + y)[..|x|] == x && (x + y)[|x|..] == y;
  }

  /** A key of numbers decodes to the numbers that were encoded. */
  lemma {:induction false} TupleRoundTrip(t: Tuple)
    requires AllOk(t) && forall f :: f in t ==> !f.Text?
    ensures AllDecodable(Kinds(t))
    ensures |TupleCode(t)| == Total(Kinds(t))
    ensures DecodeTuple(Kinds(t), TupleCode(t)) == Canonicals(t)
  {
    hide DecodeField, CodeBytes, Decodable, Canonical, DecodeTuple, Field.Code, Field.Kind, Field.Ok;
    if t == [] {
      NothingToDecode();
    } else {
      FieldRoundTrip(t[0]);
      TupleRoundTrip(t[1..]);
      KindsOfRest(t);
      DecodeStep(Kinds(t), t[0].Code(), TupleCode(t[1..]));
    }
  }

  lemma NothingToDecode()
    ensures DecodeTuple([], []) == []
  {
  }
}

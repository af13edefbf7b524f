/** key_encoder and key_decoder of art_common.hpp: a byte buffer that grows to the next power of two, and a
    reader over a finished key. The machine is little-endian, as the code asserts. */
module KeyBuffers {
  import opened ArtKey
  import opened KeyCodec
  import FloatCodec

  // ---- machine words -----------------------------------------------------------------------------------

  /** The bytes of an unsigned integer in memory, least significant first. */
  function Memory(n: nat, width: nat): (s: seq<Byte>)
    ensures |s| == width
  {
    if width == 0 then [] else [n % 256] + Memory(n / 256, width - 1)
  }

  function FromMemory(s: seq<Byte>): nat {
    if s == [] then 0 else s[0] + 256 * FromMemory(s[1..])
  }

  /** bswap: the integer whose bytes in memory are reversed. */
  function ByteSwap(n: nat, width: nat): nat {
    FromMemory(Reversed(Memory(n, width)))
  }

  lemma LowByte(b: Byte, rest: nat)
    ensures (b + 256 * rest) % 256 == b && (b + 256 * rest) / 256 == rest
  {
  }

  lemma {:induction false} MemoryRoundTrip(s: seq<Byte>)
    ensures Memory(FromMemory(s), |s|) == s
  {
    if s != [] {
      MemoryRoundTrip(s[1..]);
      LowByte(s[0], FromMemory(s[1..]));
      assert s == [s[0]] + s[1..];
    }
  }

  lemma {:induction false} MemoryIsReversed(n: nat, width: nat)
    ensures Reversed(Memory(n, width)) == Digits(n, width)
  {
    if width > 0 {
      MemoryIsReversed(n / 256, width - 1);
      assert Reversed(Memory(n, width)) == Reversed(Memory(n / 256, width - 1)) + [n % 256];
    }
  }

  /** Swapped, an integer lies in memory most significant byte first. */
  lemma SwappedInMemory(n: nat, width: nat)
    ensures Memory(ByteSwap(n, width), width) == Digits(n, width)
  {
    MemoryIsReversed(n, width);
    MemoryRoundTrip(Reversed(Memory(n, width)));
  }

  lemma {:induction false} ReversedNumber(s: seq<Byte>)
    ensures FromMemory(Reversed(s)) == Number(s)
  {
    if s != [] {
      ReversedNumber(s[..|s| - 1]);
      assert Reversed(s)[1..] == Reversed(s[..|s| - 1]) && Reversed(s)[0] == s[|s| - 1];
    }
  }

  /** Bytes read as an integer and swapped back are the number written most significant byte first. */
  lemma SwappedFromMemory(s: seq<Byte>)
    ensures ByteSwap(FromMemory(s), |s|) == Number(s)
  {
    MemoryRoundTrip(s);
    ReversedNumber(s);
  }

  // ---- buffer sizes --------------------------------------------------------------------------------------

  const INITIAL_BUFFER_CAPACITY: nat := 256

  predicate IsPowerOfTwo(n: nat) {
    n == 1 || (n > 1 && n % 2 == 0 && IsPowerOfTwo(n / 2))
  }

  /** The least power of two that is not below `n`. */
  function BitCeil(n: nat): (p: nat)
    ensures p >= n && IsPowerOfTwo(p) && (p > 1 ==> p / 2 < n)
  {
    if n <= 1 then 1 else 2 * BitCeil((n + 1) / 2)
  }

  // ---- key_encoder ---------------------------------------------------------------------------------------

  class KeyEncoder {
    var buf: array<Byte>
    var cap: nat
    var off: nat

    ghost predicate Valid()
      reads this
    {
      cap == buf.Length && off <= cap && cap >= INITIAL_BUFFER_CAPACITY && IsPowerOfTwo(cap)
    }

    /** The bytes encoded since the last reset. */
    ghost function Written(): (s: seq<Byte>)
      reads this, buf
      requires Valid()
      ensures |s| == off
    {
      buf[..off]
    }

    constructor ()
      ensures Valid() && fresh(buf) && Written() == [] && cap == 256
    {
      buf := new Byte[INITIAL_BUFFER_CAPACITY](_ => 0);
      cap := INITIAL_BUFFER_CAPACITY;
      off := 0;
    }

    method EnsureCapacity(minCapacity: nat)
      requires Valid() && cap < minCapacity
      modifies this`buf, this`cap
      ensures Valid() && fresh(buf) && cap >= minCapacity && cap / 2 < minCapacity
      ensures Written() == old(Written())
    {
      var asize := BitCeil(minCapacity);
      var tmp := new Byte[asize](_ => 0);
      forall i | 0 <= i < off {
        tmp[i] := buf[i];
      }
      buf := tmp;
      cap := asize;
    }

    /** Growing keeps what was written; enough room means no growth. */
    method EnsureAvailable(req: nat)
      requires Valid()
      modifies this`buf, this`cap
      ensures Valid() && off + req <= cap && Written() == old(Written())
      ensures if old(off + req <= cap) then buf == old(buf) && cap == old(cap) else fresh(buf) && cap / 2 < off + req
    {
      if off + req > cap {
        EnsureCapacity(off + req);
      }
    }

    method Reset()
      requires Valid()
      modifies this`off
      ensures Valid() && Written() == []
    {
      off := 0;
    }

    /** memcpy to the end of the written bytes. */
    method Store(data: seq<Byte>)
      requires Valid() && off + |data| <= cap
      modifies this`off, buf
      ensures Valid() && Written() == old(Written()) + data
    {
      forall i | 0 <= i < |data| {
        buf[off + i] := data[i];
      }
      off := off + |data|;
      assert buf[..off][..old(off)] == old(buf[..off]);
    }

    method AppendBytes(data: seq<Byte>)
      requires Valid()
      modifies this, buf
      ensures Valid() && (buf == old(buf) || fresh(buf))
      ensures Written() == old(Written()) + data
      ensures if old(off + |data| <= cap) then buf == old(buf) && cap == old(cap) else cap / 2 < off
    {
      EnsureAvailable(|data|);
      Store(data);
    }

    method EncodeUnsigned(n: nat, width: nat)
      requires Valid() && n < Power(width) && (width == 1 || width == 2 || width == 4 || width == 8)
      modifies this, buf
      ensures Valid() && (buf == old(buf) || fresh(buf))
      ensures Written() == old(Written()) + Unsigned(width, n).Code()
      ensures if old(off + width <= cap) then buf == old(buf) && cap == old(cap) else cap / 2 < off
    {
      EnsureAvailable(width);
      if width == 1 {
        assert Digits(n, 1) == Digits(n / 256, 0) + [n % 256];
        Store([n]);
      } else {
        SwappedInMemory(n, width);
        var u := ByteSwap(n, width);
        Store(Memory(u, width));
      }
    }

    method EncodeSigned(v: int, width: nat)
      requires Valid() && (width == 1 || width == 2 || width == 4 || width == 8) && FitsSigned(width, v)
      modifies this, buf
      ensures Valid() && (buf == old(buf) || fresh(buf))
      ensures Written() == old(Written()) + Signed(width, v).Code()
      ensures if old(off + width <= cap) then buf == old(buf) && cap == old(cap) else cap / 2 < off
    {
      var u := if v >= 0 then Msb(width) + v else Msb(width) - (-(v + 1)) - 1;
      EncodeUnsigned(u, width);
    }

    method EncodeFloat(f: FloatCodec.Format, bits: nat)
      requires Valid() && Float(f, bits).Ok()
      modifies this, buf
      ensures Valid() && (buf == old(buf) || fresh(buf))
      ensures Written() == old(Written()) + Float(f, bits).Code()
      ensures if old(off + FloatBytes(f) <= cap) then buf == old(buf) && cap == old(cap) else cap / 2 < off
    {
      FloatFieldOrder(f, bits, bits);
      EncodeUnsigned(FloatCodec.Encode(f, bits), FloatBytes(f));
    }

    static method StripPadding(view: seq<Byte>) returns (sz: nat)
      ensures sz <= |view| && view[..sz] == Stripped(view)
    {
      sz := |view|;
      assert view[..sz] == view;
      while sz > 0
        invariant sz <= |view| && Stripped(view[..sz]) == Stripped(view)
      {
        if view[sz - 1] != PAD {
          break;
        }
        assert view[..sz][..sz - 1] == view[..sz - 1];
        sz := sz - 1;
      }
    }

    /** The three writes of a text field all happen after one check for room. */
    method EncodeText(text: seq<Byte>)
      requires Valid()
      modifies this, buf
      ensures Valid() && (buf == old(buf) || fresh(buf))
      ensures Written() == old(Written()) + Text(text).Code()
      ensures if old(off + |Text(text).Code()| <= cap) then buf == old(buf) && cap == old(cap) else cap / 2 < off
    {
      hide Digits, Power, Stripped, IsPowerOfTwo, TextCode, Field.Code, Written;
      TextParts(text);
      var view := if |text| > MAXLEN then text[..MAXLEN] else text;
      var sz := StripPadding(view);
      EnsureAvailable(sz + 1 + SIZE_BYTES);
      var padlen := MAXLEN - sz;
      AppendBytes(view[..sz]);
      EncodeUnsigned(PAD, 1);
      EncodeUnsigned(padlen, SIZE_BYTES);
    }
  }

  /** A text field is the stripped text, a pad byte and a 16-bit run length. */
  lemma TextParts(text: seq<Byte>)
    ensures PAD < Power(1) && MAXLEN - |Stem(text)| < Power(SIZE_BYTES)
    ensures Text(text).Code() == Stem(text) + Unsigned(1, PAD).Code() + Unsigned(SIZE_BYTES, MAXLEN - |Stem(text)|).Code()
    ensures |Text(text).Code()| == |Stem(text)| + 1 + SIZE_BYTES
    ensures |Unsigned(1, PAD).Code()| == 1 && |Unsigned(SIZE_BYTES, MAXLEN - |Stem(text)|).Code()| == SIZE_BYTES
  {
    hide Stem;
    assert Digits(PAD, 1) == Digits(PAD / 256, 0) + [PAD % 256];
    assert Power(1) == 256;
  }

  // ---- key_decoder -----------------------------------------------------------------------------------------

  class KeyDecoder {
    const buf: seq<Byte>
    var off: nat

    ghost predicate Valid()
      reads this
    {
      off <= |buf|
    }

    ghost function Unread(): seq<Byte>
      reads this
      requires Valid()
    {
      buf[off..]
    }

    constructor (key: seq<Byte>)
      ensures Valid() && Unread() == key
    {
      buf := key;
      off := 0;
    }

    /** The caller must know that the component is there; the code reads without a check. */
    method DecodeUnsigned(width: nat) returns (n: nat)
      requires Valid() && |Unread()| >= width && (width == 1 || width == 2 || width == 4 || width == 8)
      modifies this
      ensures Valid() && Unread() == old(Unread())[width..]
      ensures Unsigned(width, n) == DecodeField(UnsignedKind(width), old(Unread())[..width])
    {
      var s := buf[off..off + width];
      assert s == Unread()[..width];
      NumberRoundTrip(s);
      SwappedFromMemory(s);
      if width == 1 {
        assert s == Digits(Number(s), 1) == Digits(Number(s) / 256, 0) + [Number(s) % 256];
        n := s[0];
      } else {
        n := ByteSwap(FromMemory(s), width);
      }
      off := off + width;
    }

    method DecodeSigned(width: nat) returns (v: int)
      requires Valid() && |Unread()| >= width && (width == 1 || width == 2 || width == 4 || width == 8)
      modifies this
      ensures Valid() && Unread() == old(Unread())[width..]
      ensures Signed(width, v) == DecodeField(SignedKind(width), old(Unread())[..width])
    {
      NumberRoundTrip(Unread()[..width]);
      var u := DecodeUnsigned(width);
      v := if u >= Msb(width) then u - Msb(width) else -(Msb(width) - 1 - u) - 1;
    }

    method DecodeFloat(f: FloatCodec.Format) returns (bits: nat)
      requires Valid() && (f == FloatCodec.BINARY32 || f == FloatCodec.BINARY64) && |Unread()| >= FloatBytes(f)
      modifies this
      ensures Valid() && Unread() == old(Unread())[FloatBytes(f)..]
      ensures Float(f, bits) == DecodeField(FloatKind(f), old(Unread())[..FloatBytes(f)])
    {
      FloatWidth(f);
      NumberRoundTrip(Unread()[..FloatBytes(f)]);
      var u := DecodeUnsigned(FloatBytes(f));
      bits := FloatCodec.Decode(f, u);
    }
  }
}

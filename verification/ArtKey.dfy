/** Fixed-width keys as art_internal.hpp stores them: eight bytes, most significant first, so that comparing
    bytes compares numbers. */
module ArtKey {

  type Byte = b: nat | b < 256
  type Value = seq<Byte>

  const KEY_BYTES: nat := 8
  type Key = k: seq<Byte> | |k| == KEY_BYTES witness [0, 0, 0, 0, 0, 0, 0, 0]

  datatype Option<T> = None | Some(value: T)

  function Reversed<T>(s: seq<T>): (r: seq<T>)
    ensures |r| == |s|
  {
    seq(|s|, i requires 0 <= i < |s| => s[|s| - 1 - i])
  }

  // ---- prefixes ------------------------------------------------------------------------------

  /** Length of the longest common prefix. */
  function Common(a: seq<Byte>, b: seq<Byte>): (n: nat)
    ensures n <= |a| && n <= |b| && a[..n] == b[..n]
    ensures n < |a| && n < |b| ==> a[n] != b[n]
  {
    if a == [] || b == [] || a[0] != b[0] then 0 else
      var n := 1 + Common(a[1..], b[1..]);
      assert a[..n] == [a[0]] + a[1..][..n - 1] && b[..n] == [b[0]] + b[1..][..n - 1];
      n
  }

  /** The byte at position `i`; shifting past the end of the key yields zero. */
  function KeyByte(k: Key, i: nat): Byte {
    if i < KEY_BYTES then k[i] else 0
  }

  /** The key with its first `d` bytes shifted out. */
  function Rest(k: Key, d: nat): seq<Byte> {
    if d <= KEY_BYTES then k[d..] else []
  }

  lemma CommonInside(a: seq<Byte>, b: seq<Byte>)
    requires |a| == |b| && a != b
    ensures Common(a, b) < |a| && a[Common(a, b)] != b[Common(a, b)]
  {
    assert a == a[..|a|] && b == b[..|b|];
  }

  /** The common length is where two sequences agree up to and disagree. */
  lemma CommonIs(a: seq<Byte>, b: seq<Byte>, n: nat)
    requires n <= |a| && n <= |b| && a[..n] == b[..n] && (n < |a| && n < |b| ==> a[n] != b[n])
    ensures Common(a, b) == n
  {
    hide Common;
    var c := Common(a, b);
    assert forall i :: 0 <= i < c ==> a[..c][i] == b[..c][i];
    assert forall i :: 0 <= i < n ==> a[..n][i] == b[..n][i];
  }

  lemma TailsDiffer(path: seq<Byte>, a: Key, b: Key)
    requires path <= a && path <= b && a != b
    ensures a[|path|..] != b[|path|..]
  {
    assert a == path + a[|path|..] && b == path + b[|path|..];
  }

  lemma StemMatches(prefix: seq<Byte>, path: seq<Byte>, k: Key)
    requires path + prefix <= k
    ensures Common(prefix, Rest(k, |path|)) == |prefix|
  {
    hide Common;
    var c := Common(prefix, k[|path|..]);
    assert forall i :: 0 <= i < |prefix| ==> prefix[i] == (path + prefix)[|path| + i] == k[|path| + i] == k[|path|..][i];
  }

  lemma MatchesStem(prefix: seq<Byte>, path: seq<Byte>, k: Key)
    requires path <= k && Common(prefix, Rest(k, |path|)) == |prefix|
    ensures path + prefix <= k
  {
    var r := k[|path|..];
    assert prefix == r[..|prefix|];
    hide Common;
    assert k == path + r;
    assert path + prefix == (path + r)[..|path| + |prefix|];
  }

  lemma SharedBytes(prefix: seq<Byte>, path: seq<Byte>, k: Key)
    requires path <= k
    ensures Common(prefix, Rest(k, |path|)) == |prefix| <==> path + prefix <= k
  {
    hide Common;
    if path + prefix <= k {
      StemMatches(prefix, path, k);
    } else if Common(prefix, Rest(k, |path|)) == |prefix| {
      MatchesStem(prefix, path, k);
    }
  }

  lemma Comparable<T>(p: seq<T>, q: seq<T>, r: seq<T>)
    requires p <= r && q <= r
    ensures p <= q || q <= p
  {
    if |p| <= |q| {
      assert p == r[..|q|][..|p|];
    } else {
      assert q == r[..|p|][..|q|];
    }
  }

  // ---- order ---------------------------------------------------------------------------------

  /** memcmp on spans of equal length: the first byte that differs decides. */
  predicate Less(a: seq<Byte>, b: seq<Byte>)
    requires |a| == |b|
  {
    Common(a, b) < |a| && a[Common(a, b)] < b[Common(a, b)]
  }

  function Number(a: seq<Byte>): nat {
    if a == [] then 0 else Number(a[..|a| - 1]) * 256 + a[|a| - 1]
  }

  function Digits(n: nat, len: nat): (a: seq<Byte>)
    ensures |a| == len
  {
    if len == 0 then [] else Digits(n / 256, len - 1) + [n % 256]
  }

  function Power(len: nat): (p: nat)
    ensures p > 0
  {
    if len == 0 then 1 else Power(len - 1) * 256
  }

  /** The internal key of a number is its big-endian digits, and gives the number back. */
  lemma {:induction false} DigitsRoundTrip(n: nat, len: nat)
    requires n < Power(len)
    ensures Number(Digits(n, len)) == n
  {
    if len > 0 {
      DigitsRoundTrip(n / 256, len - 1);
      assert Digits(n, len)[..len - 1] == Digits(n / 256, len - 1);
    }
  }

  lemma {:induction false} NumberRoundTrip(a: seq<Byte>)
    ensures Number(a) < Power(|a|) && Digits(Number(a), |a|) == a
  {
    if a != [] {
      NumberRoundTrip(a[..|a| - 1]);
    }
  }

  /** The first differing byte decides the numbers too. */
  lemma {:induction false} DecidedAt(a: seq<Byte>, b: seq<Byte>, m: nat)
    requires m < |a| == |b| && a[..m] == b[..m] && a[m] < b[m]
    ensures Number(a) < Number(b)
    decreases |a|
  {
    var n := |a| - 1;
    if m < n {
      assert a[..n][..m] == a[..m] && b[..n][..m] == b[..m];
      DecidedAt(a[..n], b[..n], m);
    } else {
      assert a[..n] == b[..n];
    }
  }

  /** Byte order is numeric order, and is total. */
  lemma LessIsNumeric(a: seq<Byte>, b: seq<Byte>)
    requires |a| == |b|
    ensures Less(a, b) <==> Number(a) < Number(b)
    ensures a == b <==> Number(a) == Number(b)
  {
    var m := Common(a, b);
    if m == |a| {
      assert a == a[..m] == b[..m] == b;
    } else if a[m] < b[m] {
      DecidedAt(a, b, m);
    } else {
      DecidedAt(b, a, m);
    }
    CommonSymmetric(a, b);
  }

  lemma {:induction false} CommonSymmetric(a: seq<Byte>, b: seq<Byte>)
    ensures Common(a, b) == Common(b, a)
  {
    if a != [] && b != [] {
      CommonSymmetric(a[1..], b[1..]);
    }
  }
}

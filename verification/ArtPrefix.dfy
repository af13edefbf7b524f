/** The tree keeps prefixes as byte sequences, the program packs them into words. Here the two are tied together: the
    packed operations compute what the tree's functions say. */
module ArtPrefix {
  import opened ArtKey
  import opened ArtTree
  import P = KeyPrefix

  // ---- bytes as words ------------------------------------------------------------------------------------

  function Append(w: P.Word, bit: bool): P.Word {
    if bit then (w << 1) | 1 else w << 1
  }

  /** The word with the binary digits of `b`. */
  function AsWord(b: nat): P.Word {
    if b == 0 then 0 else Append(AsWord(b / 2), b % 2 == 1)
  }

  function Size(k: nat): nat {
    match k case 0 => 1 case 1 => 2 case 2 => 4 case 3 => 8 case 4 => 16 case 5 => 32 case 6 => 64 case 7 => 128 case _ => 256
  }

  function Mask(k: nat): P.Word {
    match k case 0 => 0 case 1 => 1 case 2 => 3 case 3 => 7 case 4 => 0xF case 5 => 0x1F case 6 => 0x3F case 7 => 0x7F case _ => 0xFF
  }

  lemma AppendFits(w: P.Word, bit: bool, k: nat)
    requires 0 < k <= 8 && w <= Mask(k - 1)
    ensures Append(w, bit) <= Mask(k)
  {
  }

  lemma ZeroFits(k: nat)
    ensures 0 <= Mask(k)
  {
  }

  lemma Halved(b: nat, k: nat)
    requires 0 < b < Size(k) && k <= 8
    ensures k > 0 && b / 2 < Size(k - 1)
  {
  }

  lemma {:induction false} Small(b: nat, k: nat)
    requires k <= 8 && b < Size(k)
    ensures AsWord(b) <= Mask(k)
  {
    hide Append, Mask, Size;
    if b == 0 {
      ZeroFits(k);
    } else {
      Halved(b, k);
      Small(b / 2, k - 1);
      AppendFits(AsWord(b / 2), b % 2 == 1, k);
    }
  }

  lemma AppendSame(v: P.Word, x: bool, w: P.Word, y: bool)
    requires v <= 0xFF && w <= 0xFF && Append(v, x) == Append(w, y)
    ensures v == w && x == y
  {
  }

  /** Different bytes are different words. */
  lemma {:induction false} SameWord(b: nat, c: nat)
    requires b < 256 && c < 256 && AsWord(b) == AsWord(c)
    ensures b == c
  {
    hide Append;
    if b > 0 || c > 0 {
      Small(b / 2, 8);
      Small(c / 2, 8);
      assert Append(0, false) == 0 by { AppendZero(); }
      AppendSame(AsWord(b / 2), b % 2 == 1, AsWord(c / 2), c % 2 == 1);
      SameWord(b / 2, c / 2);
    }
  }

  lemma AppendZero()
    ensures Append(0, false) == 0
  {
  }

  function Words(s: seq<Byte>): (r: seq<P.Word>)
    ensures |r| == |s|
  {
    seq(|s|, i requires 0 <= i < |s| => AsWord(s[i]))
  }

  /** The word stands for the prefix. */
  ghost predicate Packs(w: P.Word, prefix: seq<Byte>) {
    P.Valid(w) && P.Bytes(w) == Words(prefix)
  }

  /** The word of a key whose remaining bytes are `rest`, shifted so that they come first. */
  ghost predicate Holds(key: P.Word, rest: seq<Byte>) {
    |rest| <= 8 && P.KeyBytes(key)[..|rest|] == Words(rest)
  }

  // ---- the operations ------------------------------------------------------------------------------------

  /** Comparing words compares bytes. */
  lemma CommonWords(a: seq<Byte>, b: seq<Byte>, u: seq<P.Word>, v: seq<P.Word>, n: nat)
    requires |a| <= |u| && |b| <= |v| && u[..|a|] == Words(a) && v[..|b|] == Words(b)
    requires P.IsCommon(u, v, n) && n <= |a| && n <= |b|
    ensures Common(a, b) == n
  {
    hide AsWord, Common;
    assert forall i :: 0 <= i < |a| ==> u[i] == u[..|a|][i] == AsWord(a[i]);
    assert forall i :: 0 <= i < |b| ==> v[i] == v[..|b|][i] == AsWord(b[i]);
    forall i | 0 <= i < n ensures a[i] == b[i] { SameWord(a[i], b[i]); }
    assert a[..n] == b[..n];
    CommonIs(a, b, n);
  }

  /** get_shared_length is the common length that decides whether an inner node's prefix matches. */
  lemma SharedLength(w: P.Word, key: P.Word, n: Node, path: seq<Byte>, k: Key)
    requires n.Inode? && InodeOk(n, |path|) && path <= k
    requires Packs(w, n.prefix) && Holds(key, Rest(k, |path|))
    ensures P.SharedLen(key, w, P.Length(w)) == Common(n.prefix, Rest(k, |path|))
    ensures P.SharedLen(key, w, P.Length(w)) == |n.prefix| <==> PrefixMatches(n, k, |path|)
  {
    hide P.SharedLen, P.ByteAt, Common, AsWord, Words;
    var rest, r := Rest(k, |path|), P.SharedLen(key, w, P.Length(w));
    assert |P.Bytes(w)| == |n.prefix|;
    P.SharedWithKey(w, key);
    assert P.Bytes(w)[..|n.prefix|] == P.Bytes(w);
    CommonWords(n.prefix, rest, P.Bytes(w), P.KeyBytes(key), r);
  }

  /** A prefix split: the new node takes the first bytes, the old one keeps what follows the byte that differs. */
  lemma SplitPacks(w: P.Word, prefix: seq<Byte>, m: nat)
    requires Packs(w, prefix) && m < |prefix|
    ensures P.Length(w) == |prefix|
    ensures Packs(P.WithLength(w, m), prefix[..m]) && Packs(P.Cut(w, m + 1), prefix[m + 1..])
  {
    hide P.WithLength, P.Cut, P.ByteAt, AsWord;
    assert |P.Bytes(w)| == |prefix|;
    P.WithLengthTakes(w, m);
    P.CutDrops(w, m + 1);
    assert Words(prefix)[..m] == Words(prefix[..m]) && Words(prefix)[m + 1..] == Words(prefix[m + 1..]);
  }

  /** A collapse: the child's prefix grows by its parent's prefix and its own key byte. */
  lemma CollapsePacks(w: P.Word, prefix: seq<Byte>, above: P.Word, stem: seq<Byte>, b: Byte)
    requires Packs(w, prefix) && Packs(above, stem) && |stem| + |prefix| < 7
    ensures P.Length(w) + P.Length(above) < P.CAPACITY
    ensures Packs(P.Prepend(w, above, AsWord(b)), stem + [b] + prefix)
  {
    hide P.Prepend, P.ByteAt, AsWord;
    assert |P.Bytes(w)| == |prefix| && |P.Bytes(above)| == |stem|;
    assert AsWord(b) <= 0xFF by { Small(b, 8); }
    P.PrependConcatenates(w, above, AsWord(b));
    assert Words(stem) + [AsWord(b)] + Words(prefix) == Words(stem + [b] + prefix);
  }

  lemma FirstDifference(u: seq<P.Word>, v: seq<P.Word>, m: nat, n: nat)
    requires m < 8 == |u| == |v| && (forall i :: 0 <= i < m ==> u[i] == v[i]) && u[m] != v[m]
    requires P.IsCommon(u[..7], v[..7], n)
    ensures n == m
  {
    assert n < 7 ==> u[..7][n] == u[n] && v[..7][n] == v[n];
    assert forall i :: 0 <= i < n ==> u[..7][i] == u[i] && v[..7][i] == v[i];
  }

  lemma WordsDiffer(a: seq<Byte>, b: seq<Byte>, u: seq<P.Word>, v: seq<P.Word>)
    requires |a| == |b| <= |u| == |v| && u[..|a|] == Words(a) && v[..|b|] == Words(b) && a != b
    ensures var m := Common(a, b);
            m < |a| && (forall i :: 0 <= i < m ==> u[i] == v[i]) && u[m] != v[m]
  {
    hide Common, AsWord, Words;
    CommonInside(a, b);
    var m := Common(a, b);
    WordsAt(a, u);
    WordsAt(b, v);
    if u[m] == v[m] { SameWord(a[m], b[m]); }
    assert forall i :: 0 <= i < m ==> a[..m][i] == b[..m][i];
  }

  /** A leaf split: the new node's prefix is what the remaining bytes of the two keys share. */
  lemma ForkPacks(k1: P.Word, k2: P.Word, a: seq<Byte>, b: seq<Byte>)
    requires Holds(k1, a) && Holds(k2, b) && |a| == |b| && a != b
    ensures Packs(P.MakeU64(k1, k2), b[..Common(a, b)])
  {
    hide P.MakeU64, P.ByteAt, P.Bytes, P.KeyBytes, P.Valid, P.Length, P.IsCommon, Common, AsWord, Words;
    var m, w, u, v := Common(a, b), P.MakeU64(k1, k2), P.KeyBytes(k1), P.KeyBytes(k2);
    EightBytes(k1);
    EightBytes(k2);
    WordsDiffer(a, b, u, v);
    P.MadeOfShared(k1, k2);
    FirstDifference(u, v, m, P.Length(w));
    WordsTake(a, m);
    assert u[..m] == u[..|a|][..m];
  }

  lemma EightBytes(k: P.Word)
    ensures |P.KeyBytes(k)| == 8
  {
  }

  lemma WordsAt(a: seq<Byte>, u: seq<P.Word>)
    requires |a| <= |u| && u[..|a|] == Words(a)
    ensures forall i :: 0 <= i < |a| ==> u[i] == AsWord(a[i])
  {
    hide AsWord;
    assert forall i :: 0 <= i < |a| ==> u[i] == u[..|a|][i];
  }

  lemma WordsTake(a: seq<Byte>, m: nat)
    requires m <= |a|
    ensures Words(a[..m]) == Words(a)[..m]
  {
    hide AsWord;
  }
}

/** Where a search for a key ends, and which place in the sorted entries the contract of seek asks for. */
module ArtSeek {
  import opened ArtKey
  import opened ArtTree
  import opened ArtUpdate
  import opened ArtOrder
  import opened ArtPath

  ghost predicate AllLess(s: seq<Item>, k: Key) {
    forall i :: 0 <= i < |s| ==> Less(s[i].key, k)
  }

  ghost predicate AllMore(s: seq<Item>, k: Key) {
    forall i :: 0 <= i < |s| ==> Less(k, s[i].key)
  }

  /** Where the declared contract of seek wants the iterator: forward at the least key not less than `k`, in reverse at
      the greatest key not more, and at the end when there is none. */
  ghost predicate LandsRight(entries: seq<Item>, k: Key, fwd: bool, at: Option<nat>)
    requires at.Some? ==> at.value < |entries|
  {
    if fwd then
      if at.None? then AllLess(entries, k) else AllLess(entries[..at.value], k) && !Less(entries[at.value].key, k)
    else
      if at.None? then AllMore(entries, k) else AllMore(entries[at.value + 1..], k) && !Less(k, entries[at.value].key)
  }

  /** No child lies beyond the key byte in the direction of travel. */
  predicate AtEdge(n: Node, k: Key, d: nat, fwd: bool)
    requires n.Inode?
  {
    Rank(n.kids, NextByte(n, k, d)) == if fwd then |n.kids| else 0
  }

  predicate SiblingOf(n: Node, i: nat, fwd: bool)
    requires n.Inode?
  {
    if fwd then i + 1 < |n.kids| else i > 0
  }

  /** The guard of the branch that goes wrong, in terms of tree and key: the search ends at an inner node with no child
      on or beyond the key byte, after taking a child with a sibling in the direction of travel. */
  function Stranded(n: Node, k: Key, d: nat, fwd: bool, sibling: bool): bool
    decreases n
  {
    if n.Leaf? || !PrefixMatches(n, k, d) then false
    else if HasChild(n, k, d) then
      var i := ChildIndex(n, k, d);
      Stranded(n.kids[i].node, k, d + |n.prefix| + 1, fwd, sibling || SiblingOf(n, i, fwd))
    else sibling && AtEdge(n, k, d, fwd)
  }

  /** A stranded search comes to rest on an entry, instead of at the end, when some child above the last one taken has
      such a sibling. `above` says so of the children above the last one, `sibling` of all taken so far. */
  function Strays(n: Node, k: Key, d: nat, fwd: bool, above: bool, sibling: bool): bool
    decreases n
  {
    if n.Leaf? || !PrefixMatches(n, k, d) then false
    else if HasChild(n, k, d) then
      var i := ChildIndex(n, k, d);
      Strays(n.kids[i].node, k, d + |n.prefix| + 1, fwd, sibling, sibling || SiblingOf(n, i, fwd))
    else above && AtEdge(n, k, d, fwd)
  }

  ghost predicate SiblingAbove(s: seq<Frame>, fwd: bool) {
    s != [] && HasSibling(s[..|s| - 1], fwd)
  }

  lemma SiblingPush(s: seq<Frame>, f: Frame, fwd: bool)
    ensures HasSibling(s + [f], fwd) <==> SiblingAt(f, fwd) || HasSibling(s, fwd)
  {
    hide SiblingAt;
    var t := s + [f];
    assert t[..|t| - 1] == s && t[|t| - 1] == f;
  }

  /** Being stranded below is decided with the siblings met so far, those at this node included. */
  lemma StrandedBelow(n: Node, k: Key, d: nat, fwd: bool, s: seq<Frame>)
    requires n.Inode? && HasChild(n, k, d)
    ensures var i := ChildIndex(n, k, d);
      Stranded(n, k, d, fwd, HasSibling(s, fwd)) ==
        Stranded(n.kids[i].node, k, d + |n.prefix| + 1, fwd, HasSibling(s + [Frame(n, i)], fwd))
  {
    hide Common, Find, HasSibling, AtEdge;
    SiblingPush(s, Frame(n, ChildIndex(n, k, d)), fwd);
  }

  lemma StraysUnfolds(n: Node, k: Key, d: nat, fwd: bool, above: bool, sibling: bool)
    requires n.Inode? && HasChild(n, k, d)
    ensures var i := ChildIndex(n, k, d);
      Strays(n, k, d, fwd, above, sibling) ==
        Strays(n.kids[i].node, k, d + |n.prefix| + 1, fwd, sibling, sibling || SiblingOf(n, i, fwd))
  {
    hide Find, AtEdge, SiblingOf, Common, NextByte;
  }

  lemma StraysBelow(n: Node, k: Key, d: nat, fwd: bool, s: seq<Frame>)
    requires n.Inode? && HasChild(n, k, d)
    ensures var i := ChildIndex(n, k, d); var t := s + [Frame(n, i)];
      Strays(n, k, d, fwd, SiblingAbove(s, fwd), HasSibling(s, fwd)) ==
        Strays(n.kids[i].node, k, d + |n.prefix| + 1, fwd, SiblingAbove(t, fwd), HasSibling(t, fwd))
  {
    hide Strays, PrefixMatches, Find, HasSibling, NextByte;
    var f := Frame(n, ChildIndex(n, k, d));
    StraysUnfolds(n, k, d, fwd, SiblingAbove(s, fwd), HasSibling(s, fwd));
    SiblingPush(s, f, fwd);
    assert (s + [f])[..|s + [f]| - 1] == s;
  }

  lemma AboveCounts(s: seq<Frame>, fwd: bool)
    ensures SiblingAbove(s, fwd) ==> HasSibling(s, fwd)
  {
  }

  /** The search stands at `n`: what is left of the path is less than the key, what is right of it is more. */
  ghost predicate Approaching(root: Node, s: seq<Frame>, n: Node, path: seq<Byte>, k: Key) {
    && Wf(root, []) && Path(root, s) && n == Below(root, s) && Wf(n, path) && path <= k
    && AllLess(Before(s), k) && AllMore(After(s), k)
  }

  /** For an absent key: everything before place `c` is less, everything from there on is more. */
  ghost predicate Boundary(entries: seq<Item>, k: Key, c: nat) {
    c <= |entries| && AllLess(entries[..c], k) && AllMore(entries[c..], k)
  }

  lemma NotBoth(a: Key, b: Key)
    ensures !(Less(a, b) && Less(b, a)) && !Less(a, a)
    ensures Less(a, b) || Less(b, a) || a == b
  {
    LessIsNumeric(a, b);
    LessIsNumeric(b, a);
    LessIsNumeric(a, a);
  }

  /** The boundary is the only right place. */
  lemma BoundaryDecides(entries: seq<Item>, k: Key, c: nat, fwd: bool, at: Option<nat>)
    requires Boundary(entries, k, c) && (at.Some? ==> at.value < |entries|)
    ensures LandsRight(entries, k, fwd, at) <==>
      if fwd then if at.None? then c == |entries| else at.value == c
      else if at.None? then c == 0 else at.value + 1 == c
  {
    forall i | 0 <= i < |entries| ensures Less(entries[i].key, k) <==> i < c
      ensures Less(k, entries[i].key) <==> i >= c
    {
      NotBoth(entries[i].key, k);
      if i < c {
        assert Less(entries[..c][i].key, k);
      } else {
        assert Less(k, entries[c..][i - c].key);
      }
    }
    hide Less;
    if at.Some? && fwd && at.value > c { assert entries[..at.value][c] == entries[c]; }
    if at.Some? && !fwd && at.value + 1 < c { assert entries[at.value + 1..][c - 1 - (at.value + 1)] == entries[c - 1]; }
    if at.None? && fwd && c < |entries| { assert !Less(entries[c].key, k); }
    if at.None? && !fwd && c > 0 { assert !Less(k, entries[c - 1].key); }
  }

  /** Which side of the boundary a place is on. */
  lemma BoundarySide(entries: seq<Item>, k: Key, c: nat, i: nat)
    requires Boundary(entries, k, c) && i < |entries|
    ensures if i < c then Less(entries[i].key, k) else Less(k, entries[i].key)
  {
    hide Less;
    assert if i < c then entries[..c][i] == entries[i] else entries[c..][i - c] == entries[i];
  }

  /** An entry on the wrong side of the key for the direction of travel. */
  predicate WrongSide(key: Key, k: Key, fwd: bool) {
    if fwd then Less(key, k) else Less(k, key)
  }

  lemma BoundaryOf(a: seq<Item>, l: seq<Item>, r: seq<Item>, b: seq<Item>, entries: seq<Item>, k: Key)
    requires entries == a + (l + r) + b && AllLess(a, k) && AllLess(l, k) && AllMore(r, k) && AllMore(b, k)
    ensures Boundary(entries, k, |a| + |l|)
  {
    var c := |a| + |l|;
    assert entries[..c] == a + l && entries[c..] == r + b;
    hide Less;
  }

  lemma ExactLands(a: seq<Item>, m: Item, b: seq<Item>, entries: seq<Item>, k: Key, fwd: bool)
    requires entries == a + [m] + b && AllLess(a, k) && AllMore(b, k) && m.key == k
    ensures LandsRight(entries, k, fwd, Some(|a|)) && entries[|a|] == m
  {
    NotBoth(k, k);
    assert entries[..|a|] == a && entries[|a| + 1..] == b;
  }

  /** All entries of a node whose prefix leaves the key at byte `m` are on the same side of it. */
  lemma PrefixSide(n: Node, path: seq<Byte>, k: Key)
    requires Wf(n, path) && n.Inode? && path <= k && !PrefixMatches(n, k, |path|)
    ensures var m := Common(n.prefix, Rest(k, |path|));
      && m < |n.prefix| && KeyByte(k, |path| + m) != n.prefix[m]
      && if KeyByte(k, |path| + m) < n.prefix[m] then AllMore(Flat(n), k) else AllLess(Flat(n), k)
  {
    var m := Common(n.prefix, Rest(k, |path|));
    SplitPrefixParts(n, k, path);
    var items := Flat(n);
    forall i | 0 <= i < |items|
      ensures if KeyByte(k, |path| + m) < n.prefix[m] then Less(k, items[i].key) else Less(items[i].key, k)
    {
      assert items[i] in items;
      BelowStem(n, path, items[i]);
      hide Flat, Wf;
      StemSide(path, n.prefix, k, m, items[i].key);
    }
  }

  lemma BelowStem(n: Node, path: seq<Byte>, p: Item)
    requires Wf(n, path) && n.Inode? && p in Flat(n)
    ensures path + n.prefix <= p.key
  {
    FlatKidsHas(n.kids, p);
    var i :| 0 <= i < |n.kids| && p in Flat(n.kids[i].node);
    WfKid(n, path, i);
    FlatUnder(n.kids[i].node, KidPath(n, path, i), p);
    hide Flat, Wf;
    assert path + n.prefix == KidPath(n, path, i)[..|path| + |n.prefix|];
  }

  lemma StemSide(path: seq<Byte>, prefix: seq<Byte>, k: Key, m: nat, p: Key)
    requires m < |prefix| && Parts(path, prefix[..m], prefix[m], k, KeyByte(k, |path| + m)) && path + prefix <= p
    ensures if KeyByte(k, |path| + m) < prefix[m] then Less(k, p) else Less(p, k)
  {
    var e, b := |path| + m, KeyByte(k, |path| + m);
    var stem := path + prefix;
    var mine := path + prefix[..m] + [b];
    assert mine[..e] == stem[..e] && p[..e] == stem[..e] && p[e] == stem[e] == prefix[m];
    assert k[..e] == mine[..e] && k[e] == b;
    if b < prefix[m] { DecidedLess(k[..e + 1], p[..e + 1], k, p, e); } else { DecidedLess(p[..e + 1], k[..e + 1], p, k, e); }
  }

  /** Entries of children for smaller bytes are less than the key, those of children for larger bytes more. */
  lemma KidSide(n: Node, path: seq<Byte>, k: Key, i: nat, p: Item)
    requires Wf(n, path) && n.Inode? && path <= k && PrefixMatches(n, k, |path|)
    requires i < |n.kids| && p in Flat(n.kids[i].node)
    ensures n.kids[i].byte < NextByte(n, k, |path|) ==> Less(p.key, k)
    ensures n.kids[i].byte > NextByte(n, k, |path|) ==> Less(k, p.key)
  {
    WfKid(n, path, i);
    FlatUnder(n.kids[i].node, KidPath(n, path, i), p);
    Descends(n, path, k);
    hide Flat, Wf;
    var e, b := |path| + |n.prefix|, NextByte(n, k, |path|);
    var mine, kid := path + n.prefix + [b], KidPath(n, path, i);
    if n.kids[i].byte < b { DecidedLess(kid, mine, p.key, k, e); }
    if n.kids[i].byte > b { DecidedLess(mine, kid, k, p.key, e); }
  }

  lemma KidsLess(n: Node, path: seq<Byte>, k: Key, hi: nat)
    requires Wf(n, path) && n.Inode? && path <= k && PrefixMatches(n, k, |path|) && hi <= |n.kids|
    requires forall i :: 0 <= i < hi ==> n.kids[i].byte < NextByte(n, k, |path|)
    ensures AllLess(FlatKids(n.kids[..hi]), k)
  {
    var kids := n.kids[..hi];
    var items := FlatKids(kids);
    forall j | 0 <= j < |items| ensures Less(items[j].key, k) {
      assert items[j] in items;
      FlatKidsHas(kids, items[j]);
      var i :| 0 <= i < |kids| && items[j] in Flat(kids[i].node);
      KidSide(n, path, k, i, items[j]);
    }
  }

  lemma KidsMore(n: Node, path: seq<Byte>, k: Key, lo: nat)
    requires Wf(n, path) && n.Inode? && path <= k && PrefixMatches(n, k, |path|) && lo <= |n.kids|
    requires forall i :: lo <= i < |n.kids| ==> n.kids[i].byte > NextByte(n, k, |path|)
    ensures AllMore(FlatKids(n.kids[lo..]), k)
  {
    var kids := n.kids[lo..];
    var items := FlatKids(kids);
    forall j | 0 <= j < |items| ensures Less(k, items[j].key) {
      assert items[j] in items;
      FlatKidsHas(kids, items[j]);
      var i :| 0 <= i < |kids| && items[j] in Flat(kids[i].node);
      KidSide(n, path, k, lo + i, items[j]);
    }
  }

  // The three ways a search ends, each with its boundary.

  lemma LeafEnd(root: Node, s: seq<Frame>, n: Node, path: seq<Byte>, k: Key)
    requires Approaching(root, s, n, path, k) && n.Leaf?
    ensures Flat(root) == Before(s) + [Item(n.key, n.val)] + After(s)
    ensures n.key != k ==> Boundary(Flat(root), k, |Before(s)| + if Less(n.key, k) then 1 else 0)
  {
    hide Before, After, Less, Wf, Path, Below, AllLess, AllMore, Boundary;
    Around(root, s);
    NotBoth(n.key, k);
    assert Flat(n) == [Item(n.key, n.val)];
    OneSided(Before(s), Flat(n), After(s), Flat(root), k);
    OneSide(n.key, n.val, k);
  }

  lemma OneSide(key: Key, val: Value, k: Key)
    ensures Less(key, k) ==> AllLess([Item(key, val)], k)
    ensures Less(k, key) ==> AllMore([Item(key, val)], k)
  {
  }

  lemma PrefixEnd(root: Node, s: seq<Frame>, n: Node, path: seq<Byte>, k: Key)
    requires Approaching(root, s, n, path, k) && n.Inode? && !PrefixMatches(n, k, |path|)
    ensures var m := Common(n.prefix, Rest(k, |path|));
      && m < |n.prefix| && |Flat(root)| == |Before(s)| + |Flat(n)| + |After(s)| && Flat(n) != []
      && Boundary(Flat(root), k, |Before(s)| + if KeyByte(k, |path| + m) < n.prefix[m] then 0 else |Flat(n)|)
  {
    hide Flat, Before, After, Less, Wf, Common, Rest, Path, Below, AllLess, AllMore, Boundary, InodeOk, KeyByte;
    Around(root, s);
    PrefixSide(n, path, k);
    FlatIncreasing(n, path);
    var m := Common(n.prefix, Rest(k, |path|));
    OneSided(Before(s), Flat(n), After(s), Flat(root), k);
  }

  /** A stretch of entries all on one side of the key. */
  lemma OneSided(a: seq<Item>, m: seq<Item>, b: seq<Item>, entries: seq<Item>, k: Key)
    requires entries == a + m + b && AllLess(a, k) && AllMore(b, k)
    ensures |entries| == |a| + |m| + |b|
    ensures AllMore(m, k) ==> Boundary(entries, k, |a|)
    ensures AllLess(m, k) ==> Boundary(entries, k, |a| + |m|)
  {
    assert m == m + [] == [] + m;
    if AllMore(m, k) { BoundaryOf(a, [], m, b, entries, k); }
    if AllLess(m, k) { BoundaryOf(a, m, [], b, entries, k); }
  }

  /** The children around the gap. */
  lemma GapSides(n: Node, path: seq<Byte>, k: Key)
    requires Wf(n, path) && n.Inode? && path <= k && PrefixMatches(n, k, |path|) && !HasChild(n, k, |path|)
    ensures var r := Rank(n.kids, NextByte(n, k, |path|));
      AllLess(FlatKids(n.kids[..r]), k) && AllMore(FlatKids(n.kids[r..]), k)
  {
    var b := NextByte(n, k, |path|);
    var r := Rank(n.kids, b);
    assert Sorted(n.kids) by { hide FlatKids; }
    RankSplits(n.kids, b);
    assert forall i :: 0 <= i < |n.kids| ==> n.kids[i].byte != b;
    hide Flat, FlatKids, Less, Wf, Rank, AllLess, AllMore, Find, Sorted;
    KidsLess(n, path, k, r);
    KidsMore(n, path, k, r);
  }

  lemma GapEnd(root: Node, s: seq<Frame>, n: Node, path: seq<Byte>, k: Key)
    requires Approaching(root, s, n, path, k) && n.Inode? && PrefixMatches(n, k, |path|) && !HasChild(n, k, |path|)
    ensures var r := Rank(n.kids, NextByte(n, k, |path|));
      && Boundary(Flat(root), k, |Before(s)| + |FlatKids(n.kids[..r])|)
      && |Flat(root)| == |Before(s)| + |FlatKids(n.kids[..r])| + |FlatKids(n.kids[r..])| + |After(s)|
      && (r == |n.kids| ==> |FlatKids(n.kids[..r])| > 0 && |FlatKids(n.kids[r..])| == 0)
      && (r == 0 ==> |FlatKids(n.kids[..r])| == 0 && |FlatKids(n.kids[r..])| > 0)
  {
    hide Flat, FlatKids, Before, After, Less, Wf, Rank, Path, Below, AllLess, AllMore, Boundary, HasChild, PrefixMatches;
    var r := Rank(n.kids, NextByte(n, k, |path|));
    Around(root, s);
    GapSides(n, path, k);
    FlatIncreasing(n, path);
    KidsCut(n, r);
    BoundaryOf(Before(s), FlatKids(n.kids[..r]), FlatKids(n.kids[r..]), After(s), Flat(root), k);
  }

  /** The children around the one the key leads to. */
  lemma ChildSides(n: Node, path: seq<Byte>, k: Key)
    requires Wf(n, path) && n.Inode? && path <= k && HasChild(n, k, |path|)
    ensures var i := ChildIndex(n, k, |path|);
      AllLess(FlatKids(n.kids[..i]), k) && AllMore(FlatKids(n.kids[i + 1..]), k)
  {
    var i := ChildIndex(n, k, |path|);
    assert Sorted(n.kids) && n.kids[i].byte == NextByte(n, k, |path|);
    hide Flat, FlatKids, Less, Wf, AllLess, AllMore, Find;
    KidsLess(n, path, k, i);
    KidsMore(n, path, k, i + 1);
  }

  lemma AllConcat(a: seq<Item>, b: seq<Item>, k: Key)
    ensures AllLess(a, k) && AllLess(b, k) ==> AllLess(a + b, k)
    ensures AllMore(a, k) && AllMore(b, k) ==> AllMore(a + b, k)
  {
    hide Less;
  }

  /** One step down the matching child. */
  lemma Approach(root: Node, s: seq<Frame>, n: Node, path: seq<Byte>, k: Key)
    requires Approaching(root, s, n, path, k) && n.Inode? && HasChild(n, k, |path|)
    ensures var i := ChildIndex(n, k, |path|); var t := s + [Frame(n, i)];
      && Approaching(root, t, n.kids[i].node, KidPath(n, path, i), k)
      && |KidPath(n, path, i)| == |path| + |n.prefix| + 1
      && Lookup(n, k, |path|) == Lookup(n.kids[i].node, k, |path| + |n.prefix| + 1)
  {
    hide Flat, FlatKids, Before, After, Less, Wf, Path, Below, AllLess, AllMore, Find, Common, Lookup;
    var i := ChildIndex(n, k, |path|);
    WfKid(n, path, i);
    NotVia(n, path, k);
    Via(n, path, k, i);
    PathPush(root, s, i);
    ChildSides(n, path, k);
    AllConcat(Before(s), FlatKids(n.kids[..i]), k);
    AllConcat(FlatKids(n.kids[i + 1..]), After(s), k);
  }

  lemma Departs(root: Node, k: Key, fwd: bool)
    requires Wf(root, [])
    ensures Approaching(root, [], root, [], k) && !HasSibling([], fwd) && !SiblingAbove([], fwd)
  {
    Bare(root);
  }

  /** Where a search stops, lookup has its answer; only the gap can strand it. */
  lemma Stops(n: Node, k: Key, d: nat, fwd: bool, sibling: bool)
    requires n.Leaf? || !HasChild(n, k, d)
    ensures n.Leaf? ==> (Lookup(n, k, d).Some? <==> n.key == k)
    ensures n.Inode? ==> Lookup(n, k, d).None?
    ensures n.Leaf? || !PrefixMatches(n, k, d) ==> !Stranded(n, k, d, fwd, sibling)
  {
  }

  // ---- a search that goes wrong ------------------------------------------------------------------------

  const ZEROS: Key := [0, 0, 0, 0, 0, 0, 0, 0]
  const LOW_PAIR: Node := Inode(I4, [], [Edge(0, Leaf(ZEROS, [])), Edge(1, Leaf([0, 1, 0, 0, 0, 0, 0, 0], []))])
  const HIGH_LEAF: Node := Leaf([1, 0, 0, 0, 0, 0, 0, 0], [])

  /** Three keys: two that begin with byte 0, one that begins with byte 1. */
  const THREE_KEYS: Node := Inode(I4, [], [Edge(0, LOW_PAIR), Edge(1, HIGH_LEAF)])

  lemma ThreeKeysWf()
    ensures Wf(THREE_KEYS, []) && Flat(THREE_KEYS) == Flat(LOW_PAIR) + Flat(HIGH_LEAF)
  {
    PairWf([], [], 0, LOW_PAIR, 1, HIGH_LEAF) by {
      assert KidPath(LOW_PAIR, [0], 0) == [0, 0] && KidPath(LOW_PAIR, [0], 1) == [0, 1];
      assert [] + [] + [0] == [0] && [] + [] + [1] == [1];
    }
    var kids := THREE_KEYS.kids;
    KidsCut(THREE_KEYS, 1);
    assert kids[..1] == [kids[0]] && kids[1..] == [kids[1]];
    OneKid(kids[0]);
    OneKid(kids[1]);
  }

  lemma OneKid(e: Edge)
    ensures FlatKids([e]) == Flat(e.node)
  {
    assert [e][..0] == [];
    assert FlatKids([e]) == FlatKids([e][..0]) + FlatEdge(e);
  }

  lemma PairWf(path: seq<Byte>, prefix: seq<Byte>, b: Byte, m: Node, c: Byte, n: Node)
    requires |path| + |prefix| < KEY_BYTES && b < c
    requires Wf(m, path + prefix + [b]) && Wf(n, path + prefix + [c])
    ensures Wf(Inode(I4, prefix, [Edge(b, m), Edge(c, n)]), path)
  {
  }

  /** Searching forward for a key beyond those that begin with byte 0 pops the root unexamined and ends at the end,
      although the key that begins with byte 1 follows; the mirror image fails in reverse. */
  lemma StrandedExample()
    ensures Wf(THREE_KEYS, [])
    ensures Stranded(THREE_KEYS, [0, 2, 0, 0, 0, 0, 0, 0], 0, true, false)
    ensures !LandsRight(Flat(THREE_KEYS), [0, 2, 0, 0, 0, 0, 0, 0], true, None)
  {
    ThreeKeysWf();
    var k: Key := [0, 2, 0, 0, 0, 0, 0, 0];
    assert Flat(HIGH_LEAF) == [Item(HIGH_LEAF.key, [])];
    var items := Flat(THREE_KEYS);
    assert items[|items| - 1] == Item(HIGH_LEAF.key, []);
    DecidedLess([0], [1], k, HIGH_LEAF.key, 0);
    NotBoth(k, HIGH_LEAF.key);
    assert !Less(items[|items| - 1].key, k);
    StuckAtPair(k);
  }

  lemma StuckAtPair(k: Key)
    requires k == [0, 2, 0, 0, 0, 0, 0, 0]
    ensures Stranded(THREE_KEYS, k, 0, true, false)
  {
    var kids := LOW_PAIR.kids;
    assert Find(kids[1..], 2) == 1 by { assert kids[1..][1..] == []; }
    assert Find(kids, 2) == 2;
    assert kids[..1][..0] == [] && Rank(kids[..1][..0], 2) == 0 && Rank(kids[..1], 2) == 1;
    assert Rank(kids, 2) == 2;
    assert !HasChild(LOW_PAIR, k, 1);
    assert Stranded(LOW_PAIR, k, 1, true, true);
    assert Find(THREE_KEYS.kids, 0) == 0;
  }
}

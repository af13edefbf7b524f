/** Where a new key joins the tree, told from the stored keys alone: by those that share the most leading bytes with it. */
module ArtNearest {
  import opened ArtKey
  import opened ArtTree
  import opened ArtUpdate
  import opened ArtOrder
  import opened ArtStats

  /** No stored key shares more leading bytes with `k`. */
  ghost predicate Nearest(keys: set<Key>, k: Key, j: Key) {
    j in keys && forall l :: l in keys ==> Common(k, l) <= Common(k, j)
  }

  ghost predicate TwoNearest(keys: set<Key>, k: Key) {
    exists i: Key, j: Key :: i != j && Nearest(keys, k, i) && Nearest(keys, k, j)
  }

  /** The nearest keys all go the same way at the byte where `k` leaves them. */
  ghost predicate OneWay(keys: set<Key>, k: Key) {
    forall i: Key, j: Key :: Nearest(keys, k, i) && Nearest(keys, k, j) ==>
      KeyByte(i, Common(k, i)) == KeyByte(j, Common(k, j))
  }

  /** A new key splits a prefix when several keys are nearest and stay together where it leaves them. */
  ghost predicate SplitsPrefix(keys: set<Key>, k: Key) {
    k !in keys && TwoNearest(keys, k) && OneWay(keys, k)
  }

  ghost function KeysBelow(n: Node): set<Key> {
    set p | p in Flat(n) :: p.key
  }

  lemma KeyUnder(n: Node, path: seq<Byte>, j: Key)
    requires Wf(n, path) && j in KeysBelow(n)
    ensures path <= j
  {
    var p :| p in Flat(n) && p.key == j;
    FlatUnder(n, path, p);
  }

  /** The keys of an inner node are those of its children. */
  lemma KeysOfKids(n: Node, j: Key)
    requires n.Inode?
    ensures j in KeysBelow(n) <==> exists i :: 0 <= i < |n.kids| && j in KeysBelow(n.kids[i].node)
  {
    if j in KeysBelow(n) {
      var p :| p in Flat(n) && p.key == j;
      FlatKidsHas(n.kids, p);
      var i :| 0 <= i < |n.kids| && p in Flat(n.kids[i].node);
      assert j in KeysBelow(n.kids[i].node);
    }
    if i :| 0 <= i < |n.kids| && j in KeysBelow(n.kids[i].node) {
      var p :| p in Flat(n.kids[i].node) && p.key == j;
      FlatKidsHas(n.kids, p);
    }
  }

  lemma KidHasKey(n: Node, path: seq<Byte>, i: nat) returns (j: Key)
    requires Wf(n, path) && n.Inode? && i < |n.kids|
    ensures j in KeysBelow(n.kids[i].node) && j in KeysBelow(n) && KidPath(n, path, i) <= j
  {
    WfKid(n, path, i);
    FlatIncreasing(n.kids[i].node, KidPath(n, path, i));
    var p := Flat(n.kids[i].node)[0];
    j := p.key;
    assert p in Flat(n.kids[i].node);
    hide Flat, Wf;
    KeysOfKids(n, j);
    KeyUnder(n.kids[i].node, KidPath(n, path, i), j);
  }

  /** Two keys that go through the same bytes and then apart. */
  lemma Parted(stem: seq<Byte>, k: Key, j: Key)
    requires |stem| < KEY_BYTES && stem <= k && stem <= j && k[|stem|] != j[|stem|]
    ensures Common(k, j) == |stem|
  {
    CommonIs(k, j, |stem|);
  }

  /** Below a node whose prefix leaves the key, all keys are equally near and go the same way. */
  lemma AllAtPrefix(n: Node, path: seq<Byte>, k: Key, j: Key)
    requires Wf(n, path) && n.Inode? && path <= k && !PrefixMatches(n, k, |path|) && j in KeysBelow(n)
    ensures var m := Common(n.prefix, Rest(k, |path|));
      m < |n.prefix| && Common(k, j) == |path| + m && KeyByte(j, |path| + m) == n.prefix[m]
  {
    hide Wf, KeysBelow, Common, InodeOk;
    var m := Common(n.prefix, Rest(k, |path|));
    WfShape(n, path);
    SplitPrefixParts(n, k, path);
    KeysOfKids(n, j);
    var i :| 0 <= i < |n.kids| && j in KeysBelow(n.kids[i].node);
    WfKid(n, path, i);
    KeyUnder(n.kids[i].node, KidPath(n, path, i), j);
    AtPrefixByte(path, n.prefix, m, [n.kids[i].byte], k, j, KeyByte(k, |path| + m));
  }

  lemma AtPrefixByte(path: seq<Byte>, prefix: seq<Byte>, m: nat, more: seq<Byte>, k: Key, j: Key, b: Byte)
    requires m < |prefix| && path + prefix + more <= j
    requires Parts(path, prefix[..m], prefix[m], k, b)
    ensures Common(k, j) == |path| + m && KeyByte(j, |path| + m) == prefix[m]
  {
    hide Common;
    var stem, kp, mine := path + prefix[..m], path + prefix + more, path + prefix[..m] + [b];
    assert stem == kp[..|stem|] == j[..|stem|] && j[|stem|] == kp[|stem|] == prefix[m];
    assert stem == mine[..|stem|] == k[..|stem|];
    Parted(stem, k, j);
  }

  /** Below a node without a child for the key, all keys are equally near, and each goes the way of its child. */
  lemma AllAtGap(n: Node, path: seq<Byte>, k: Key, i: nat, j: Key)
    requires Wf(n, path) && n.Inode? && path <= k && PrefixMatches(n, k, |path|)
    requires i < |n.kids| && n.kids[i].byte != NextByte(n, k, |path|) && j in KeysBelow(n.kids[i].node)
    ensures Common(k, j) == |path| + |n.prefix| && KeyByte(j, |path| + |n.prefix|) == n.kids[i].byte
  {
    WfKid(n, path, i);
    Descends(n, path, k);
    KeyUnder(n.kids[i].node, KidPath(n, path, i), j);
    hide Wf, KeysBelow, Common, PrefixMatches;
    var stem := path + n.prefix;
    var kp := KidPath(n, path, i);
    assert stem == kp[..|stem|] == j[..|stem|] && j[|stem|] == kp[|stem|] == n.kids[i].byte;
    var mine := stem + [NextByte(n, k, |path|)];
    assert stem == mine[..|stem|] == k[..|stem|] && k[|stem|] == mine[|stem|];
    Parted(stem, k, j);
  }

  /** Following the child the key leads to keeps the nearest keys. */
  lemma NearestBelow(n: Node, path: seq<Byte>, k: Key, j: Key)
    requires Wf(n, path) && n.Inode? && path <= k && HasChild(n, k, |path|)
    ensures Nearest(KeysBelow(n), k, j) <==> Nearest(KeysBelow(n.kids[ChildIndex(n, k, |path|)].node), k, j)
  {
    hide Wf, KeysBelow, Common, PrefixMatches, Find;
    var i := ChildIndex(n, k, |path|);
    var kid := n.kids[i].node;
    var near := KidHasKey(n, path, i);
    forall l | l in KeysBelow(n)
      ensures l in KeysBelow(kid) || Common(k, l) == |path| + |n.prefix|
    {
      KeysOfKids(n, l);
      var c :| 0 <= c < |n.kids| && l in KeysBelow(n.kids[c].node);
      if c != i {
        OtherByte(n, path, i, c);
        AllAtGap(n, path, k, c, l);
      }
    }
    forall l | l in KeysBelow(kid)
      ensures l in KeysBelow(n) && Common(k, l) > |path| + |n.prefix|
    {
      KeysOfKids(n, l);
      ThroughKid(n, path, k, l);
    }
  }

  lemma OtherByte(n: Node, path: seq<Byte>, i: nat, c: nat)
    requires Wf(n, path) && n.Inode? && i < |n.kids| && c < |n.kids| && c != i
    ensures n.kids[c].byte != n.kids[i].byte
  {
    WfShape(n, path);
  }

  lemma ThroughKid(n: Node, path: seq<Byte>, k: Key, l: Key)
    requires Wf(n, path) && n.Inode? && path <= k && HasChild(n, k, |path|)
    requires l in KeysBelow(n.kids[ChildIndex(n, k, |path|)].node)
    ensures Common(k, l) > |path| + |n.prefix|
  {
    var i := ChildIndex(n, k, |path|);
    WfKid(n, path, i);
    NotVia(n, path, k);
    KeyUnder(n.kids[i].node, KidPath(n, path, i), l);
    hide Wf, KeysBelow, Common, HasChild, ChildIndex;
    var kp, c := KidPath(n, path, i), Common(k, l);
    assert forall e :: 0 <= e < |kp| ==> k[e] == kp[e] == l[e];
  }

  /** What an insert does, told from the keys below the node. */
  ghost predicate ChangeFits(c: Change, keys: set<Key>, k: Key) {
    && (c.ForkPrefix? <==> SplitsPrefix(keys, k))
    && (c.ForkLeaf? <==> k !in keys && !TwoNearest(keys, k))
    && (c.Unchanged? <==> k in keys)
  }

  lemma FitsBelow(c: Change, keys: set<Key>, below: set<Key>, k: Key)
    requires ChangeFits(c, below, k) && (forall j :: Nearest(keys, k, j) <==> Nearest(below, k, j)) && (k in keys <==> k in below)
    ensures ChangeFits(c, keys, k)
  {
    hide Nearest;
    if i: Key, j: Key :| i != j && Nearest(below, k, i) && Nearest(below, k, j) {
      assert Nearest(keys, k, i) && Nearest(keys, k, j);
    }
    if i: Key, j: Key :| i != j && Nearest(keys, k, i) && Nearest(keys, k, j) {
      assert Nearest(below, k, i) && Nearest(below, k, j);
    }
    assert TwoNearest(keys, k) <==> TwoNearest(below, k);
    assert OneWay(keys, k) <==> OneWay(below, k);
  }

  lemma LeafFits(n: Node, k: Key, d: nat)
    requires n.Leaf?
    ensures ChangeFits(InsertChange(n, k, d), KeysBelow(n), k)
  {
    hide Common;
    assert Flat(n) == [Item(n.key, n.val)];
    assert n.key in KeysBelow(n) by { assert Item(n.key, n.val) in Flat(n); }
    assert forall j :: j in KeysBelow(n) ==> j == n.key;
    assert Nearest(KeysBelow(n), k, n.key);
  }

  lemma PrefixFits(n: Node, path: seq<Byte>, k: Key)
    requires Wf(n, path) && n.Inode? && path <= k && !PrefixMatches(n, k, |path|)
    ensures ChangeFits(ForkPrefix, KeysBelow(n), k)
  {
    hide Wf, KeysBelow, Common, PrefixMatches;
    var i, j := TwoKeys(n, path);
    forall l | l in KeysBelow(n)
      ensures Common(k, l) == |path| + Common(n.prefix, Rest(k, |path|)) && l != k
      ensures KeyByte(l, Common(k, l)) == KeyByte(i, Common(k, i))
    {
      AllAtPrefix(n, path, k, l);
      AllAtPrefix(n, path, k, i);
      WfShape(n, path);
      if l == k { SelfCommon(k); }
    }
    assert Nearest(KeysBelow(n), k, i) && Nearest(KeysBelow(n), k, j);
  }

  lemma SelfCommon(k: Key)
    ensures Common(k, k) == KEY_BYTES
  {
    CommonIs(k, k, KEY_BYTES);
  }

  lemma TwoKeys(n: Node, path: seq<Byte>) returns (i: Key, j: Key)
    requires Wf(n, path) && n.Inode?
    ensures i in KeysBelow(n) && j in KeysBelow(n) && i != j
    ensures |n.kids| >= 2 && n.kids[0].byte != n.kids[1].byte
    ensures i in KeysBelow(n.kids[0].node) && j in KeysBelow(n.kids[1].node)
  {
    WfShape(n, path);
    i := KidHasKey(n, path, 0);
    j := KidHasKey(n, path, 1);
    hide Wf, KeysBelow;
    var e := |path| + |n.prefix|;
    assert i[e] == KidPath(n, path, 0)[e] && j[e] == KidPath(n, path, 1)[e];
  }

  lemma GapFits(n: Node, path: seq<Byte>, k: Key, c: Change)
    requires Wf(n, path) && n.Inode? && path <= k && PrefixMatches(n, k, |path|) && !HasChild(n, k, |path|)
    requires c.AddInPlace? || c.GrowTo?
    ensures ChangeFits(c, KeysBelow(n), k)
  {
    hide Wf, KeysBelow, Common, PrefixMatches;
    var i, j := TwoKeys(n, path);
    NoKidByte(n, k, |path|);
    forall l | l in KeysBelow(n) ensures Common(k, l) == |path| + |n.prefix| && l != k {
      KeysOfKids(n, l);
      var a :| 0 <= a < |n.kids| && l in KeysBelow(n.kids[a].node);
      AllAtGap(n, path, k, a, l);
      WfShape(n, path);
      if l == k { SelfCommon(k); }
    }
    AllAtGap(n, path, k, 0, i);
    AllAtGap(n, path, k, 1, j);
    assert Nearest(KeysBelow(n), k, i) && Nearest(KeysBelow(n), k, j);
  }

  lemma NoKidByte(n: Node, k: Key, d: nat)
    requires n.Inode? && PrefixMatches(n, k, d) && !HasChild(n, k, d)
    ensures forall a :: 0 <= a < |n.kids| ==> n.kids[a].byte != NextByte(n, k, d)
  {
  }

  lemma {:induction false} ChangeByKeysBelow(n: Node, path: seq<Byte>, k: Key)
    requires Wf(n, path) && path <= k
    ensures ChangeFits(InsertChange(n, k, |path|), KeysBelow(n), k)
    decreases n
  {
    hide Wf, KeysBelow, Common, PrefixMatches, Find, InsertChange, ChangeFits, NextByte;
    if n.Leaf? {
      LeafFits(n, k, |path|);
    } else {
      InsertChangeUnfolds(n, k, |path|);
      if !PrefixMatches(n, k, |path|) {
        PrefixFits(n, path, k);
      } else if HasChild(n, k, |path|) {
        BelowFits(n, path, k);
        var i := ChildIndex(n, k, |path|);
        ChangeByKeysBelow(n.kids[i].node, KidPath(n, path, i), k);
        FitsBelow(InsertChange(n, k, |path|), KeysBelow(n), KeysBelow(n.kids[i].node), k);
      } else {
        GapFits(n, path, k, InsertChange(n, k, |path|));
      }
    }
  }

  lemma BelowFits(n: Node, path: seq<Byte>, k: Key)
    requires Wf(n, path) && n.Inode? && path <= k && HasChild(n, k, |path|)
    ensures var i := ChildIndex(n, k, |path|);
      && Wf(n.kids[i].node, KidPath(n, path, i)) && KidPath(n, path, i) <= k
      && |KidPath(n, path, i)| == |path| + |n.prefix| + 1
      && (forall j :: Nearest(KeysBelow(n), k, j) <==> Nearest(KeysBelow(n.kids[i].node), k, j))
      && (k in KeysBelow(n) <==> k in KeysBelow(n.kids[i].node))
  {
    hide Nearest, KeysBelow, Common, PrefixMatches, Find;
    var i := ChildIndex(n, k, |path|);
    WfKid(n, path, i);
    NotVia(n, path, k);
    hide Wf;
    forall j ensures Nearest(KeysBelow(n), k, j) <==> Nearest(KeysBelow(n.kids[i].node), k, j) {
      NearestBelow(n, path, k, j);
    }
    KeysOfKids(n, k);
    if k in KeysBelow(n) {
      var c :| 0 <= c < |n.kids| && k in KeysBelow(n.kids[c].node);
      if c != i {
        OtherByte(n, path, i, c);
        AllAtGap(n, path, k, c, k);
        SelfCommon(k);
        WfShape(n, path);
      }
    }
  }

  /** Which kind of change an insert makes is decided by the stored keys: a leaf is split when one key is nearest, a prefix
      when several are and stay together, and otherwise a node gets another child. */
  lemma ChangeByKeys(n: Node, k: Key)
    requires Wf(n, [])
    ensures var m, c := Contents(Some(n)), InsertChange(n, k, 0);
      && (c.Unchanged? <==> k in m)
      && (c.ForkPrefix? <==> SplitsPrefix(m.Keys, k))
      && (c.ForkLeaf? <==> k !in m && !TwoNearest(m.Keys, k))
  {
    hide Wf, Flat, Common, InsertChange, SplitsPrefix, TwoNearest;
    ChangeByKeysBelow(n, [], k);
    SameKeys(n);
  }

  lemma SameKeys(n: Node)
    requires Wf(n, [])
    ensures KeysBelow(n) == Contents(Some(n)).Keys
  {
    FlatIncreasing(n, []);
    hide Flat, Wf;
    var m := Contents(Some(n));
    forall k: Key ensures k in KeysBelow(n) <==> k in m {
      if k in m { MapOfHas(Flat(n), k, m[k]); }
      if k in KeysBelow(n) {
        var p :| p in Flat(n) && p.key == k;
        MapOfHas(Flat(n), k, p.val);
      }
    }
  }
}

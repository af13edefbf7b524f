/** History independence: the tree, node types and prefixes included, is a function of the stored map. */
module ArtCanonical {
  import opened ArtKey
  import opened ArtTree
  import opened ArtUpdate

  /** The key of the left-most leaf. */
  function FirstKey(n: Node): Key {
    if n.Leaf? || n.kids == [] then (if n.Leaf? then n.key else [0, 0, 0, 0, 0, 0, 0, 0])
    else FirstKey(n.kids[0].node)
  }

  /** Every tree stores at least one key. */
  lemma {:induction false} FirstKeyStored(n: Node, path: seq<Byte>)
    requires Wf(n, path)
    ensures path <= FirstKey(n) && Lookup(n, FirstKey(n), |path|).Some?
    decreases n, 1
  {
    if n.Inode? {
      StoredVia(n, path, 0);
    }
  }

  /** Every child of an inner node stores at least one key. */
  lemma {:induction false} StoredVia(n: Node, path: seq<Byte>, i: nat)
    requires Wf(n, path) && n.Inode? && i < |n.kids|
    ensures var x := FirstKey(n.kids[i].node);
      Leads(n, path, x, i) && path <= x && Lookup(n, x, |path|).Some?
    decreases n, 0
  {
    hide Wf, Lookup, InodeOk, HasChild, ChildIndex, FirstKey;
    WfKid(n, path, i);
    var kid, p := n.kids[i].node, KidPath(n, path, i);
    FirstKeyStored(kid, p);
    assert Leads(n, path, FirstKey(kid), i);
    hide KidPath, Leads;
    Via(n, path, FirstKey(kid), i);
  }

  ghost predicate SameMap(a: Node, b: Node, path: seq<Byte>) {
    forall j: Key :: path <= j ==> Lookup(a, j, |path|) == Lookup(b, j, |path|)
  }

  lemma AlongPath(n: Node, path: seq<Byte>, x: Key, i: nat)
    requires n.Inode? && Leads(n, path, x, i)
    ensures i < |n.kids| && path + n.prefix <= x
    ensures |path| + |n.prefix| < KEY_BYTES && x[|path| + |n.prefix|] == n.kids[i].byte
  {
    var p := KidPath(n, path, i);
    assert p[|path| + |n.prefix|] == n.kids[i].byte && path + n.prefix == p[..|p| - 1];
    assert |p| <= |x| && p == x[..|p|];
    assert path + n.prefix == x[..|p| - 1];
  }

  /** Where a key of one tree goes in the other. */
  lemma Elsewhere(a: Node, b: Node, path: seq<Byte>, i: nat)
    requires Wf(a, path) && Wf(b, path) && SameMap(a, b, path) && a.Inode? && i < |a.kids|
    ensures var x := FirstKey(a.kids[i].node);
      && Leads(a, path, x, i)
      && (b.Leaf? ==> b.key == x)
      && (b.Inode? ==> Leads(b, path, x, ChildIndex(b, x, |path|)))
  {
    var x := FirstKey(a.kids[i].node);
    StoredVia(a, path, i);
    StoredBelow(b, path, x);
    hide Lookup, KidPath;
    if b.Inode? { NotVia(b, path, x); }
  }

  lemma TwoKids(n: Node, path: seq<Byte>)
    requires Wf(n, path) && n.Inode?
    ensures |n.kids| >= 2 && n.kids[0].byte < n.kids[1].byte
  {
  }

  /** Prefixes are as long as the stored keys allow, so equal maps mean equal prefixes. */
  lemma NotShorter(a: Node, b: Node, path: seq<Byte>)
    requires Wf(a, path) && Wf(b, path) && SameMap(a, b, path) && a.Inode? && b.Inode?
    ensures |a.prefix| >= |b.prefix|
  {
    TwoKids(a, path);
    hide Wf, SameMap, Leads, KidPath, ChildIndex;
    var x, y, e, s := FirstKey(a.kids[0].node), FirstKey(a.kids[1].node), |path| + |a.prefix|, path + b.prefix;
    Elsewhere(a, b, path, 0);
    Elsewhere(a, b, path, 1);
    AlongPath(a, path, x, 0);
    AlongPath(a, path, y, 1);
    AlongPath(b, path, x, ChildIndex(b, x, |path|));
    AlongPath(b, path, y, ChildIndex(b, y, |path|));
    assert forall i :: 0 <= i < |s| ==> x[i] == s[i] == y[i];
  }

  lemma SamePrefix(a: Node, b: Node, path: seq<Byte>)
    requires Wf(a, path) && Wf(b, path) && SameMap(a, b, path) && a.Inode? && b.Inode?
    ensures a.prefix == b.prefix
  {
    TwoKids(a, path);
    assert SameMap(b, a, path);
    hide Wf, SameMap, Leads, KidPath, ChildIndex;
    NotShorter(a, b, path);
    NotShorter(b, a, path);
    Elsewhere(a, b, path, 0);
    var x := FirstKey(a.kids[0].node);
    AlongPath(a, path, x, 0);
    AlongPath(b, path, x, ChildIndex(b, x, |path|));
    assert path + a.prefix == x[..|path| + |a.prefix|] == path + b.prefix;
    assert a.prefix == (path + a.prefix)[|path|..] == (path + b.prefix)[|path|..] == b.prefix;
  }

  lemma BothInodes(a: Node, b: Node, path: seq<Byte>)
    requires Wf(a, path) && Wf(b, path) && SameMap(a, b, path)
    ensures a.Inode? ==> b.Inode?
  {
    if a.Inode? && b.Leaf? {
      TwoKids(a, path);
      hide Wf, SameMap, Leads, KidPath;
      Elsewhere(a, b, path, 0);
      Elsewhere(a, b, path, 1);
      AlongPath(a, path, b.key, 0);
      AlongPath(a, path, b.key, 1);
    }
  }

  // ---- the list of children ---------------------------------------------------------------------

  ghost predicate HasByte(kids: seq<Edge>, b: Byte) {
    exists i :: 0 <= i < |kids| && kids[i].byte == b
  }

  lemma BytesGoAcross(a: Node, b: Node, path: seq<Byte>, i: nat)
    requires Wf(a, path) && Wf(b, path) && SameMap(a, b, path) && a.Inode? && b.Inode? && i < |a.kids|
    ensures HasByte(b.kids, a.kids[i].byte)
  {
    hide Wf, SameMap, Leads, KidPath, ChildIndex;
    SamePrefix(a, b, path);
    Elsewhere(a, b, path, i);
    var x := FirstKey(a.kids[i].node);
    AlongPath(a, path, x, i);
    AlongPath(b, path, x, ChildIndex(b, x, |path|));
  }

  /** Sorted lists of the same bytes agree place by place. */
  lemma {:induction false} SamePlace(a: seq<Edge>, b: seq<Edge>, i: nat)
    requires Sorted(a) && Sorted(b) && i < |a|
    requires forall j :: 0 <= j < |a| ==> HasByte(b, a[j].byte)
    requires forall j :: 0 <= j < |b| ==> HasByte(a, b[j].byte)
    ensures i < |b| && a[i].byte == b[i].byte
  {
    if i > 0 {
      forall c | 0 <= c < i ensures c < |b| && a[c].byte == b[c].byte {
        SamePlace(a, b, c);
      }
    }
    var j :| 0 <= j < |b| && b[j].byte == a[i].byte;
    assert j >= i;
    var c :| 0 <= c < |a| && a[c].byte == b[i].byte;
  }

  lemma SameBytes(a: Node, b: Node, path: seq<Byte>)
    requires Wf(a, path) && Wf(b, path) && SameMap(a, b, path) && a.Inode? && b.Inode?
    ensures |a.kids| == |b.kids| && a.ty == b.ty
    ensures forall i :: 0 <= i < |a.kids| ==> a.kids[i].byte == b.kids[i].byte
  {
    assert SameMap(b, a, path);
    forall j | 0 <= j < |a.kids| ensures HasByte(b.kids, a.kids[j].byte) {
      BytesGoAcross(a, b, path, j);
    }
    forall j | 0 <= j < |b.kids| ensures HasByte(a.kids, b.kids[j].byte) {
      BytesGoAcross(b, a, path, j);
    }
    assert InodeOk(a, |path|) && InodeOk(b, |path|);
    hide Wf, SameMap, HasByte;
    forall i | 0 <= i < |a.kids| ensures i < |b.kids| && a.kids[i].byte == b.kids[i].byte {
      SamePlace(a.kids, b.kids, i);
    }
    if |a.kids| > 0 { SamePlace(a.kids, b.kids, |a.kids| - 1); }
    if |b.kids| > |a.kids| {
      SamePlace(b.kids, a.kids, |a.kids|);
    }
  }

  lemma SameBelow(a: Node, b: Node, path: seq<Byte>, i: nat)
    requires Wf(a, path) && Wf(b, path) && SameMap(a, b, path) && a.Inode? && b.Inode? && i < |a.kids|
    ensures i < |b.kids| && KidPath(a, path, i) == KidPath(b, path, i)
    ensures Wf(a.kids[i].node, KidPath(a, path, i)) && Wf(b.kids[i].node, KidPath(a, path, i))
    ensures SameMap(a.kids[i].node, b.kids[i].node, KidPath(a, path, i))
  {
    SamePrefix(a, b, path);
    SameBytes(a, b, path);
    WfKid(a, path, i);
    WfKid(b, path, i);
    hide Wf;
    var p := KidPath(a, path, i);
    forall j: Key | p <= j ensures Lookup(a.kids[i].node, j, |p|) == Lookup(b.kids[i].node, j, |p|) {
      SameBelowAt(a, b, path, i, j);
    }
  }

  lemma SameBelowAt(a: Node, b: Node, path: seq<Byte>, i: nat, j: Key)
    requires a.Inode? && b.Inode? && InodeOk(a, |path|) && InodeOk(b, |path|) && SameMap(a, b, path)
    requires i < |a.kids| && i < |b.kids| && KidPath(a, path, i) == KidPath(b, path, i) && KidPath(a, path, i) <= j
    ensures var d := |KidPath(a, path, i)|;
      Lookup(a.kids[i].node, j, d) == Lookup(b.kids[i].node, j, d)
  {
    hide Lookup, InodeOk, HasChild, ChildIndex;
    assert Leads(a, path, j, i) && Leads(b, path, j, i);
    Via(a, path, j, i);
    Via(b, path, j, i);
  }

  /** Well-formed trees that store the same map are the same tree. */
  lemma {:induction false} Canonical(a: Node, b: Node, path: seq<Byte>)
    requires Wf(a, path) && Wf(b, path) && SameMap(a, b, path)
    ensures a == b
    decreases a
  {
    BothInodes(a, b, path);
    assert SameMap(b, a, path);
    BothInodes(b, a, path);
    if a.Inode? {
      SamePrefix(a, b, path);
      SameBytes(a, b, path);
      forall i | 0 <= i < |a.kids| ensures a.kids[i] == b.kids[i] {
        SameBelow(a, b, path, i);
        Canonical(a.kids[i].node, b.kids[i].node, KidPath(a, path, i));
      }
      assert a.kids == b.kids;
    } else {
      assert Lookup(a, a.key, |path|) == Lookup(b, a.key, |path|);
    }
  }

  /** Inserting an absent key and removing it again restores the very tree, node types and prefixes included. */
  lemma InsertThenRemove(n: Node, k: Key, v: Value)
    requires Wf(n, []) && Lookup(n, k, 0) == None
    ensures Insert(n, k, v, 0).Inode? && Remove(Insert(n, k, v, 0), k, 0) == n
  {
    var grown := Insert(n, k, v, 0);
    InsertWf(n, [], k, v);
    InsertedInode(n, k, v);
    RemoveWf(grown, [], k);
    var back := Remove(grown, k, 0);
    forall j: Key | [] <= j ensures Lookup(back, j, 0) == Lookup(n, j, 0) {
      InsertLookup(n, [], k, v, j);
      RemoveLookup(grown, [], k, j);
    }
    Canonical(back, n, []);
  }

  lemma InsertedInode(n: Node, k: Key, v: Value)
    requires Lookup(n, k, 0) == None
    ensures Insert(n, k, v, 0).Inode?
  {
  }
}

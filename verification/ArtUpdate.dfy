/** What insert and remove do to the map a tree stores, and that they keep trees well formed. */
module ArtUpdate {
  import opened ArtKey
  import opened ArtTree

  // ---- where a lookup goes -------------------------------------------------------------------

  /** Child `i` of the node at `path` is the one a key extending `path` leads to. */
  ghost predicate Leads(n: Node, path: seq<Byte>, k: Key, i: nat)
    requires n.Inode?
  {
    i < |n.kids| && KidPath(n, path, i) <= k
  }

  lemma Via(n: Node, path: seq<Byte>, k: Key, i: nat)
    requires InodeOk(n, |path|) && Leads(n, path, k, i)
    ensures path <= k && HasChild(n, k, |path|) && ChildIndex(n, k, |path|) == i
    ensures Lookup(n, k, |path|) == Lookup(n.kids[i].node, k, |path| + |n.prefix| + 1)
    ensures |KidPath(n, path, i)| == |path| + |n.prefix| + 1
  {
    var p := KidPath(n, path, i);
    assert path <= k by { assert path == p[..|path|]; }
    Descends(n, path, k);
    var e := |path| + |n.prefix|;
    assert path + n.prefix == p[..e] == k[..e] && k[e] == p[e] == n.kids[i].byte;
    FindUnique(n.kids, n.kids[i].byte, i);
  }

  lemma NotVia(n: Node, path: seq<Byte>, k: Key)
    requires InodeOk(n, |path|) && path <= k
    ensures HasChild(n, k, |path|) ==> Leads(n, path, k, ChildIndex(n, k, |path|))
    ensures !HasChild(n, k, |path|) ==> Lookup(n, k, |path|) == None
  {
    Descends(n, path, k);
  }

  /** Sequences that end in different bytes at the same place extend to different keys. */
  lemma OneChild(n: Node, path: seq<Byte>, k: Key, i: nat, j: nat)
    requires InodeOk(n, |path|) && Leads(n, path, k, i) && Leads(n, path, k, j)
    ensures i == j
  {
    Via(n, path, k, i);
    Via(n, path, k, j);
  }

  lemma RestemWf(a: Node, pa: seq<Byte>, b: Node, pb: seq<Byte>)
    requires a.Inode? && b.Inode? && a.kids == b.kids && a.ty == b.ty
    requires pa + a.prefix == pb + b.prefix && Wf(a, pa)
    ensures Wf(b, pb)
  {
    assert |pa + a.prefix| == |pb + b.prefix|;
    forall i | 0 <= i < |b.kids| ensures Wf(b.kids[i].node, KidPath(b, pb, i)) {
      assert KidPath(a, pa, i) == KidPath(b, pb, i);
    }
  }

  lemma StemLeads(a: Node, pa: seq<Byte>, b: Node, pb: seq<Byte>, k: Key, i: nat)
    requires a.Inode? && b.Inode? && a.kids == b.kids && pa + a.prefix == pb + b.prefix
    ensures Leads(a, pa, k, i) <==> Leads(b, pb, k, i)
    ensures |pa| + |a.prefix| == |pb| + |b.prefix|
  {
    assert |pa + a.prefix| == |pb + b.prefix|;
  }

  /** Moving bytes between a node's path and its prefix changes nothing below it. */
  lemma RestemLookup(a: Node, pa: seq<Byte>, b: Node, pb: seq<Byte>, k: Key)
    requires a.Inode? && b.Inode? && a.kids == b.kids && InodeOk(a, |pa|) && InodeOk(b, |pb|)
    requires pa + a.prefix == pb + b.prefix && pa <= k && pb <= k
    ensures Lookup(a, k, |pa|) == Lookup(b, k, |pb|)
  {
    hide Lookup, InodeOk, Leads, HasChild, ChildIndex, KidPath;
    NotVia(a, pa, k);
    NotVia(b, pb, k);
    StemLeads(a, pa, b, pb, k, ChildIndex(a, k, |pa|));
    StemLeads(a, pa, b, pb, k, ChildIndex(b, k, |pb|));
    if HasChild(a, k, |pa|) {
      var i := ChildIndex(a, k, |pa|);
      LeadsBound(a, pa, k, i);
      Via(a, pa, k, i);
      Via(b, pb, k, i);
    } else if HasChild(b, k, |pb|) {
      LeadsBound(b, pb, k, ChildIndex(b, k, |pb|));
      Via(a, pa, k, ChildIndex(b, k, |pb|));
    }
  }

  // ---- new four-way nodes ------------------------------------------------------------------------

  lemma TwoOk(path: seq<Byte>, prefix: seq<Byte>, e: Edge, f: Edge)
    requires |path| + |prefix| < KEY_BYTES && e.byte != f.byte
    requires Wf(e.node, path + prefix + [e.byte]) && Wf(f.node, path + prefix + [f.byte])
    ensures Wf(Two(prefix, e, f), path)
  {
    var n := Two(prefix, e, f);
    forall i | 0 <= i < |n.kids| ensures Wf(n.kids[i].node, KidPath(n, path, i)) {
      assert n.kids[i] == e || n.kids[i] == f;
    }
  }

  lemma TwoLookup(path: seq<Byte>, prefix: seq<Byte>, e: Edge, f: Edge, k: Key)
    requires |path| + |prefix| < KEY_BYTES && e.byte != f.byte && path <= k
    ensures
      Lookup(Two(prefix, e, f), k, |path|) ==
        if path + prefix + [e.byte] <= k then Lookup(e.node, k, |path| + |prefix| + 1)
        else if path + prefix + [f.byte] <= k then Lookup(f.node, k, |path| + |prefix| + 1)
        else None
  {
    var n := Two(prefix, e, f);
    hide Lookup;
    var i := if e.byte < f.byte then 0 else 1;
    if path + prefix + [e.byte] <= k {
      assert Leads(n, path, k, i);
      Via(n, path, k, i);
    } else if path + prefix + [f.byte] <= k {
      assert Leads(n, path, k, 1 - i);
      Via(n, path, k, 1 - i);
    } else {
      NotVia(n, path, k);
    }
  }

  /** The shape shared by both splits: the key and the old node part after `pre`, at bytes `c` and `b`. */
  ghost predicate Parts(path: seq<Byte>, pre: seq<Byte>, c: Byte, k: Key, b: Byte) {
    && |path| + |pre| < KEY_BYTES && b != c
    && path + pre + [b] <= k && k[|path| + |pre|] == b
  }

  /** A fork of an old subtree and a new leaf stores what the old one stored, and the new entry. */
  lemma ForkLookup(path: seq<Byte>, pre: seq<Byte>, c: Byte, old_: Node, k: Key, v: Value, b: Byte, j: Key)
    requires Parts(path, pre, c, k, b) && path <= j
    ensures
      Lookup(Two(pre, Edge(c, old_), Edge(b, Leaf(k, v))), j, |path|) ==
        if path + pre + [c] <= j then Lookup(old_, j, |path| + |pre| + 1)
        else if j == k then Some(v) else None
    ensures j == k ==> !(path + pre + [c] <= j)
  {
    hide Two;
    TwoLookup(path, pre, Edge(c, old_), Edge(b, Leaf(k, v)), j);
    if path + pre + [c] <= j {
      assert j[|path| + |pre|] == (path + pre + [c])[|path| + |pre|] == c;
    }
  }

  lemma KeyParts(path: seq<Byte>, k: Key, m: nat)
    requires path <= k && |path| + m < KEY_BYTES
    ensures k[|path|..][m] == k[|path| + m]
    ensures path + k[|path|..][..m] + [k[|path| + m]] <= k
  {
    assert path + k[|path|..][..m] + [k[|path| + m]] == k[..|path| + m + 1];
  }

  lemma SplitLeafParts(n: Node, k: Key, path: seq<Byte>)
    requires n.Leaf? && n.key != k && path <= n.key && path <= k
    ensures var m := Common(Rest(n.key, |path|), Rest(k, |path|));
      var pre, c, b := Rest(k, |path|)[..m], KeyByte(n.key, |path| + m), KeyByte(k, |path| + m);
      Parts(path, pre, c, k, b) && path + pre + [c] <= n.key
  {
    hide Common;
    TailsDiffer(path, n.key, k);
    CommonInside(n.key[|path|..], k[|path|..]);
    var m := Common(n.key[|path|..], k[|path|..]);
    KeyParts(path, k, m);
    KeyParts(path, n.key, m);
  }

  lemma SplitLeafOk(n: Node, k: Key, v: Value, path: seq<Byte>, j: Key)
    requires n.Leaf? && n.key != k && path <= n.key && path <= k && path <= j
    ensures Wf(SplitLeaf(n, k, v, |path|), path)
    ensures Lookup(SplitLeaf(n, k, v, |path|), j, |path|) == if j == k then Some(v) else Lookup(n, j, |path|)
  {
    SplitLeafParts(n, k, path);
    var m := Common(Rest(n.key, |path|), Rest(k, |path|));
    var pre, c, b := Rest(k, |path|)[..m], KeyByte(n.key, |path| + m), KeyByte(k, |path| + m);
    hide Rest, KeyByte, Common;
    TwoOk(path, pre, Edge(c, n), Edge(b, Leaf(k, v)));
    ForkLookup(path, pre, c, n, k, v, b, j);
    hide Two;
  }

  lemma SplitPrefixParts(n: Node, k: Key, path: seq<Byte>)
    requires n.Inode? && InodeOk(n, |path|) && path <= k && !PrefixMatches(n, k, |path|)
    ensures var m := Common(n.prefix, Rest(k, |path|));
      m < |n.prefix| && Parts(path, n.prefix[..m], n.prefix[m], k, KeyByte(k, |path| + m))
  {
    var d := |path|;
    var m := Common(n.prefix, k[d..]);
    assert m < |n.prefix| && d + m < KEY_BYTES;
    assert n.prefix[..m] == k[d..][..m] && n.prefix[m] != k[d..][m];
    hide Common, InodeOk;
    KeyParts(path, k, m);
  }

  lemma Rejoin(path: seq<Byte>, prefix: seq<Byte>, m: nat)
    requires m < |prefix|
    ensures path + prefix[..m] + [prefix[m]] + prefix[m + 1..] == path + prefix
  {
  }

  lemma LowWf(n: Node, path: seq<Byte>, m: nat)
    requires n.Inode? && Wf(n, path) && m < |n.prefix|
    ensures var low, lp := n.(prefix := n.prefix[m + 1..]), path + n.prefix[..m] + [n.prefix[m]];
      && Wf(low, lp) && InodeOk(n, |path|) && InodeOk(low, |lp|) && lp + low.prefix == path + n.prefix
      && |path| + m < KEY_BYTES && |lp| == |path| + |n.prefix[..m]| + 1
  {
    var low, lp := n.(prefix := n.prefix[m + 1..]), path + n.prefix[..m] + [n.prefix[m]];
    Rejoin(path, n.prefix, m);
    RestemWf(n, path, low, lp);
  }

  lemma SplitPrefixOk(n: Node, k: Key, v: Value, path: seq<Byte>, j: Key)
    requires n.Inode? && Wf(n, path) && path <= k && !PrefixMatches(n, k, |path|) && path <= j
    ensures Wf(SplitPrefix(n, k, v, |path|), path)
    ensures Lookup(SplitPrefix(n, k, v, |path|), j, |path|) == if j == k then Some(v) else Lookup(n, j, |path|)
    ensures Lookup(n, k, |path|) == None
  {
    hide Rest, KeyByte, Common, Wf, Lookup, InodeOk, Parts, Two;
    InodeOfWf(n, path);
    SplitPrefixParts(n, k, path);
    var m := Common(n.prefix, Rest(k, |path|));
    LowWf(n, path, m);
    var pre, c, b := n.prefix[..m], n.prefix[m], KeyByte(k, |path| + m);
    var low := n.(prefix := n.prefix[m + 1..]);
    PartsFacts(path, pre, c, k, b);
    LeafWf(k, v, path + pre + [b]);
    TwoOk(path, pre, Edge(c, low), Edge(b, Leaf(k, v)));
    ForkLookup(path, pre, c, low, k, v, b, j);
    NotVia(n, path, k);
    LowLookup(n, path, low, path + pre + [c], j);
  }

  lemma InodeOfWf(n: Node, path: seq<Byte>)
    requires Wf(n, path) && n.Inode?
    ensures InodeOk(n, |path|)
  {
  }

  lemma LeafWf(k: Key, v: Value, path: seq<Byte>)
    requires path <= k
    ensures Wf(Leaf(k, v), path)
  {
  }

  lemma PartsFacts(path: seq<Byte>, pre: seq<Byte>, c: Byte, k: Key, b: Byte)
    requires Parts(path, pre, c, k, b)
    ensures |path| + |pre| < KEY_BYTES && b != c && path + pre + [b] <= k
  {
  }

  /** The old inner node, now below the fork, answers for the keys it used to answer for. */
  lemma LowLookup(n: Node, path: seq<Byte>, low: Node, lp: seq<Byte>, j: Key)
    requires n.Inode? && low.Inode? && low.kids == n.kids && InodeOk(n, |path|) && InodeOk(low, |lp|)
    requires lp + low.prefix == path + n.prefix && path <= j
    ensures Lookup(n, j, |path|) == if lp <= j then Lookup(low, j, |lp|) else None
  {
    hide Lookup, InodeOk;
    if lp <= j {
      RestemLookup(n, path, low, lp, j);
    } else {
      assert lp <= lp + low.prefix;
      OutsideStem(n, path, j, lp);
    }
  }

  /** Keys that leave the node's stem are not below it. */
  lemma OutsideStem(n: Node, path: seq<Byte>, j: Key, p: seq<Byte>)
    requires InodeOk(n, |path|) && path <= j && p <= path + n.prefix && !(p <= j)
    ensures Lookup(n, j, |path|) == None
  {
    NotVia(n, path, j);
  }

  // ---- children of a node --------------------------------------------------------------------------

  ghost predicate NoKid(n: Node, b: Byte)
    requires n.Inode?
  {
    forall i :: 0 <= i < |n.kids| ==> n.kids[i].byte != b
  }

  lemma {:induction false} BytesFall(kids: seq<Edge>, i: nat)
    requires Sorted(kids) && i < |kids|
    ensures kids[i].byte + (|kids| - 1 - i) < 256
    decreases |kids| - i
  {
    if i + 1 < |kids| { BytesFall(kids, i + 1); }
  }

  lemma {:induction false} BytesGrow(kids: seq<Edge>, i: nat)
    requires Sorted(kids) && i < |kids|
    ensures i <= kids[i].byte
  {
    if i > 0 { BytesGrow(kids, i - 1); }
  }

  /** A node without a child for some byte has at most 255 children, so the largest type is never full. */
  lemma RoomForOne(n: Node, b: Byte)
    requires n.Inode? && Sorted(n.kids) && NoKid(n, b)
    ensures |n.kids| < 256
  {
    if |n.kids| > 0 {
      BytesFall(n.kids, 0);
      if |n.kids| >= 256 {
        BytesGrow(n.kids, b);
        BytesFall(n.kids, b);
        assert false;
      }
    }
  }

  lemma AddKidInodeOk(n: Node, path: seq<Byte>, e: Edge)
    requires InodeOk(n, |path|) && NoKid(n, e.byte)
    ensures InodeOk(AddKid(n, e), |path|) && AddKid(n, e).Inode? && AddKid(n, e).prefix == n.prefix
  {
    RankSplits(n.kids, e.byte);
    RoomForOne(n, e.byte);
  }

  /** Where the children are after the new one came in at its rank. */
  lemma AddKidAt(n: Node, path: seq<Byte>, e: Edge, i: nat)
    requires n.Inode? && i < |n.kids| + 1
    ensures var g, r := AddKid(n, e), Rank(n.kids, e.byte);
      && |g.kids| == |n.kids| + 1
      && (i == r ==> g.kids[i] == e && KidPath(g, path, i) == path + n.prefix + [e.byte])
      && (i < r ==> g.kids[i] == n.kids[i] && KidPath(g, path, i) == KidPath(n, path, i))
      && (i > r ==> g.kids[i] == n.kids[i - 1] && KidPath(g, path, i) == KidPath(n, path, i - 1))
  {
  }

  lemma AddKidWf(n: Node, path: seq<Byte>, e: Edge)
    requires Wf(n, path) && n.Inode? && NoKid(n, e.byte) && Wf(e.node, path + n.prefix + [e.byte])
    ensures Wf(AddKid(n, e), path)
  {
    var g, r := AddKid(n, e), Rank(n.kids, e.byte);
    AddKidInodeOk(n, path, e);
    forall i | 0 <= i < |g.kids| ensures Wf(g.kids[i].node, KidPath(g, path, i)) {
      AddKidAt(n, path, e, i);
      if i != r { WfKid(n, path, if i < r then i else i - 1); }
    }
    hide AddKid;
    WfInode(g, path);
  }

  /** The key goes on along a new edge at the node. */
  ghost predicate Along(n: Node, path: seq<Byte>, e: Edge, j: Key)
    requires n.Inode?
  {
    path + n.prefix + [e.byte] <= j
  }

  lemma AddKidLeads(n: Node, path: seq<Byte>, e: Edge, j: Key, i: nat)
    requires n.Inode? && i < |n.kids| + 1
    ensures var g, r := AddKid(n, e), Rank(n.kids, e.byte);
      && g.Inode? && |g.kids| == |n.kids| + 1 && g.prefix == n.prefix
      && (i == r ==> g.kids[i] == e && (Leads(g, path, j, i) <==> Along(n, path, e, j)))
      && (i < r ==> g.kids[i] == n.kids[i] && (Leads(g, path, j, i) <==> Leads(n, path, j, i)))
      && (i > r ==> g.kids[i] == n.kids[i - 1] && (Leads(g, path, j, i) <==> Leads(n, path, j, i - 1)))
  {
    AddKidAt(n, path, e, i);
  }

  lemma AddKidLookup(n: Node, path: seq<Byte>, e: Edge, j: Key)
    requires n.Inode? && InodeOk(n, |path|) && NoKid(n, e.byte) && path <= j
    ensures
      Lookup(AddKid(n, e), j, |path|) ==
        if Along(n, path, e, j) then Lookup(e.node, j, |path| + |n.prefix| + 1) else Lookup(n, j, |path|)
  {
    hide AddKid, InodeOk, Lookup, Leads, HasChild, ChildIndex, KidPath, NoKid, Along, Rank;
    var g, r := AddKid(n, e), Rank(n.kids, e.byte);
    AddKidInodeOk(n, path, e);
    AddKidLeads(n, path, e, j, r);
    if Along(n, path, e, j) {
      Via(g, path, j, r);
    } else if HasChild(n, j, |path|) {
      AddKidKeeps(n, path, e, j);
    } else {
      NotVia(n, path, j);
      NotVia(g, path, j);
      if HasChild(g, j, |path|) {
        var i := ChildIndex(g, j, |path|);
        LeadsBound(g, path, j, i);
        AddKidLeads(n, path, e, j, i);
        if i < r { Via(n, path, j, i); }
        if i > r { Via(n, path, j, i - 1); }
      }
    }
  }

  lemma AddKidKeeps(n: Node, path: seq<Byte>, e: Edge, j: Key)
    requires n.Inode? && InodeOk(n, |path|) && NoKid(n, e.byte) && path <= j && HasChild(n, j, |path|)
    ensures Lookup(AddKid(n, e), j, |path|) == Lookup(n, j, |path|)
  {
    hide AddKid, InodeOk, Lookup, Leads, HasChild, ChildIndex, KidPath, NoKid, Along, Rank;
    var g, r := AddKid(n, e), Rank(n.kids, e.byte);
    AddKidInodeOk(n, path, e);
    NotVia(n, path, j);
    var i := ChildIndex(n, j, |path|);
    LeadsBound(n, path, j, i);
    var now := if i < r then i else i + 1;
    AddKidLeads(n, path, e, j, now);
    Via(g, path, j, now);
    Via(n, path, j, i);
  }

  lemma LeadsBound(n: Node, path: seq<Byte>, k: Key, i: nat)
    requires n.Inode? && Leads(n, path, k, i)
    ensures i < |n.kids|
  {
  }

  lemma SetKidWf(n: Node, path: seq<Byte>, i: nat, kid: Node)
    requires Wf(n, path) && n.Inode? && i < |n.kids| && Wf(kid, KidPath(n, path, i))
    ensures Wf(SetKid(n, i, kid), path)
  {
    var g := SetKid(n, i, kid);
    forall a | 0 <= a < |g.kids| ensures Wf(g.kids[a].node, KidPath(g, path, a)) {
      assert KidPath(g, path, a) == KidPath(n, path, a);
      WfKid(n, path, a);
    }
    WfInode(g, path);
  }

  lemma SetKidLeads(n: Node, path: seq<Byte>, i: nat, kid: Node, j: Key, a: nat)
    requires n.Inode? && i < |n.kids|
    ensures var g := SetKid(n, i, kid);
      && g.Inode? && |g.kids| == |n.kids| && g.prefix == n.prefix
      && (Leads(g, path, j, a) <==> Leads(n, path, j, a))
      && (a < |n.kids| ==> g.kids[a].node == if a == i then kid else n.kids[a].node)
  {
  }

  lemma SetKidInodeOk(n: Node, d: nat, i: nat, kid: Node)
    requires InodeOk(n, d) && i < |n.kids|
    ensures InodeOk(SetKid(n, i, kid), d)
  {
  }

  lemma SetKidLookup(n: Node, path: seq<Byte>, i: nat, kid: Node, j: Key)
    requires n.Inode? && InodeOk(n, |path|) && i < |n.kids| && path <= j
    ensures
      Lookup(SetKid(n, i, kid), j, |path|) ==
        if Leads(n, path, j, i) then Lookup(kid, j, |path| + |n.prefix| + 1) else Lookup(n, j, |path|)
  {
    hide SetKid, InodeOk, Lookup, Leads, HasChild, ChildIndex, KidPath;
    var g := SetKid(n, i, kid);
    SetKidInodeOk(n, |path|, i, kid);
    SetKidLeads(n, path, i, kid, j, i);
    NotVia(n, path, j);
    NotVia(g, path, j);
    if Leads(n, path, j, i) {
      Via(g, path, j, i);
    } else if HasChild(n, j, |path|) {
      var c := ChildIndex(n, j, |path|);
      LeadsBound(n, path, j, c);
      SetKidLeads(n, path, i, kid, j, c);
      Via(g, path, j, c);
      Via(n, path, j, c);
    } else if HasChild(g, j, |path|) {
      var c := ChildIndex(g, j, |path|);
      SetKidLeads(n, path, i, kid, j, c);
      Via(n, path, j, c);
    }
  }

  // ---- insert ------------------------------------------------------------------------------------------

  /** One level of an insert. */
  lemma InsertUnfolds(n: Node, k: Key, v: Value, d: nat)
    requires n.Inode?
    ensures Insert(n, k, v, d) ==
      if !PrefixMatches(n, k, d) then SplitPrefix(n, k, v, d)
      else if HasChild(n, k, d) then
        var i := ChildIndex(n, k, d);
        SetKid(n, i, Insert(n.kids[i].node, k, v, d + |n.prefix| + 1))
      else AddKid(n, Edge(NextByte(n, k, d), Leaf(k, v)))
  {
    hide PrefixMatches, Find, SplitPrefix, SetKid, AddKid;
  }

  lemma InsertLeaf(n: Node, k: Key, v: Value, d: nat)
    requires n.Leaf?
    ensures Insert(n, k, v, d) == if n.key == k then n else SplitLeaf(n, k, v, d)
  {
  }

  lemma {:induction false} InsertWf(n: Node, path: seq<Byte>, k: Key, v: Value)
    requires Wf(n, path) && path <= k
    ensures Wf(Insert(n, k, v, |path|), path)
    decreases n
  {
    hide Wf, Insert, Find, Common, SplitLeaf, SplitPrefix, SetKid, AddKid;
    var d := |path|;
    WfShape(n, path);
    if n.Leaf? {
      InsertLeaf(n, k, v, d);
      if n.key != k { SplitLeafOk(n, k, v, path, k); }
    } else {
      InsertUnfolds(n, k, v, d);
      if !PrefixMatches(n, k, d) {
        SplitPrefixOk(n, k, v, path, k);
      } else if HasChild(n, k, d) {
        var i := ChildIndex(n, k, d);
        WfKid(n, path, i);
        NotVia(n, path, k);
        InsertWf(n.kids[i].node, KidPath(n, path, i), k, v);
        SetKidWf(n, path, i, Insert(n.kids[i].node, k, v, d + |n.prefix| + 1));
      } else {
        AddNewWf(n, path, k, v);
      }
    }
  }

  lemma AddNewWf(n: Node, path: seq<Byte>, k: Key, v: Value)
    requires n.Inode? && Wf(n, path) && path <= k && PrefixMatches(n, k, |path|) && !HasChild(n, k, |path|)
    ensures NoKid(n, NextByte(n, k, |path|))
    ensures Wf(AddKid(n, Edge(NextByte(n, k, |path|), Leaf(k, v))), path)
  {
    Descends(n, path, k);
    AddKidWf(n, path, Edge(NextByte(n, k, |path|), Leaf(k, v)));
  }

  /** Insert adds the key if it was absent, never overwrites, and changes nothing else. */
  lemma {:induction false} InsertLookup(n: Node, path: seq<Byte>, k: Key, v: Value, j: Key)
    requires Wf(n, path) && path <= k && path <= j
    ensures
      Lookup(Insert(n, k, v, |path|), j, |path|) ==
        if j == k && Lookup(n, k, |path|) == None then Some(v) else Lookup(n, j, |path|)
    decreases n
  {
    var d := |path|;
    if n.Leaf? {
      if n.key != k { SplitLeafOk(n, k, v, path, j); }
    } else if !PrefixMatches(n, k, d) {
      SplitPrefixOk(n, k, v, path, j);
    } else if HasChild(n, k, d) {
      InsertLookupBelow(n, path, k, v, j);
    } else {
      Descends(n, path, k);
      NotVia(n, path, k);
      AddKidLookup(n, path, Edge(NextByte(n, k, d), Leaf(k, v)), j);
      if path + n.prefix + [NextByte(n, k, d)] <= j {
        SameNext(n, path, k, j);
      }
    }
  }

  /** Keys that share the byte that chooses the child have the same child, or both have none. */
  lemma SameNext(n: Node, path: seq<Byte>, k: Key, j: Key)
    requires InodeOk(n, |path|) && path <= k && path + n.prefix + [NextByte(n, k, |path|)] <= j
    requires PrefixMatches(n, k, |path|) && !HasChild(n, k, |path|)
    ensures path <= j && !HasChild(n, j, |path|) && Lookup(n, j, |path|) == None
  {
    var e := |path| + |n.prefix|;
    var p := path + n.prefix + [NextByte(n, k, |path|)];
    assert j[e] == p[e] == k[e] && path == p[..|path|] == j[..|path|];
    NotVia(n, path, j);
  }

  lemma {:induction false} InsertLookupBelow(n: Node, path: seq<Byte>, k: Key, v: Value, j: Key)
    requires n.Inode? && Wf(n, path) && path <= k && path <= j && HasChild(n, k, |path|)
    ensures
      Lookup(Insert(n, k, v, |path|), j, |path|) ==
        if j == k && Lookup(n, k, |path|) == None then Some(v) else Lookup(n, j, |path|)
    decreases n, 0
  {
    var d, i := |path|, ChildIndex(n, k, |path|);
    WfKid(n, path, i);
    NotVia(n, path, k);
    Via(n, path, k, i);
    var kid := n.kids[i].node;
    var kid' := Insert(kid, k, v, d + |n.prefix| + 1);
    assert Insert(n, k, v, d) == SetKid(n, i, kid');
    SetKidLookup(n, path, i, kid', j);
    if Leads(n, path, j, i) {
      Via(n, path, j, i);
      InsertLookup(kid, KidPath(n, path, i), k, v, j);
    }
  }

  // ---- remove ------------------------------------------------------------------------------------------

  lemma DropKidAt(n: Node, path: seq<Byte>, i: nat, a: nat)
    requires n.Inode? && i < |n.kids| && a < |n.kids| - 1 && !(|n.kids| == MinSize(n.ty) && n.ty == I4)
    ensures var g := DropKid(n, i);
      && g.Inode? && |g.kids| == |n.kids| - 1 && g.prefix == n.prefix
      && (a < i ==> g.kids[a] == n.kids[a] && KidPath(g, path, a) == KidPath(n, path, a))
      && (a >= i ==> g.kids[a] == n.kids[a + 1] && KidPath(g, path, a) == KidPath(n, path, a + 1))
  {
  }

  lemma DropKidInodeOk(n: Node, path: seq<Byte>, i: nat)
    requires InodeOk(n, |path|) && i < |n.kids| && !(|n.kids| == MinSize(n.ty) && n.ty == I4)
    ensures InodeOk(DropKid(n, i), |path|)
    ensures var g := DropKid(n, i); g.Inode? && g.prefix == n.prefix && |g.kids| == |n.kids| - 1
  {
  }

  lemma DropKidWf(n: Node, path: seq<Byte>, i: nat)
    requires Wf(n, path) && n.Inode? && i < |n.kids| && !(|n.kids| == MinSize(n.ty) && n.ty == I4)
    ensures Wf(DropKid(n, i), path)
  {
    var g := DropKid(n, i);
    DropKidInodeOk(n, path, i);
    forall a | 0 <= a < |g.kids| ensures Wf(g.kids[a].node, KidPath(g, path, a)) {
      DropKidAt(n, path, i, a);
      WfKid(n, path, if a < i then a else a + 1);
    }
    hide DropKid;
    WfInode(g, path);
  }

  lemma DropKidLeads(n: Node, path: seq<Byte>, i: nat, j: Key, a: nat)
    requires n.Inode? && i < |n.kids| && a < |n.kids| - 1 && !(|n.kids| == MinSize(n.ty) && n.ty == I4)
    ensures var g := DropKid(n, i);
      && g.Inode? && |g.kids| == |n.kids| - 1 && g.prefix == n.prefix
      && (a < i ==> g.kids[a] == n.kids[a] && (Leads(g, path, j, a) <==> Leads(n, path, j, a)))
      && (a >= i ==> g.kids[a] == n.kids[a + 1] && (Leads(g, path, j, a) <==> Leads(n, path, j, a + 1)))
  {
    DropKidAt(n, path, i, a);
  }

  lemma DropKidLookup(n: Node, path: seq<Byte>, i: nat, j: Key)
    requires n.Inode? && InodeOk(n, |path|) && i < |n.kids| && path <= j && !(|n.kids| == MinSize(n.ty) && n.ty == I4)
    ensures Lookup(DropKid(n, i), j, |path|) == if Leads(n, path, j, i) then None else Lookup(n, j, |path|)
  {
    hide DropKid, InodeOk, Lookup, Leads, HasChild, ChildIndex, KidPath, MinSize;
    var g := DropKid(n, i);
    DropKidInodeOk(n, path, i);
    if HasChild(g, j, |path|) {
      DropKidVia(n, path, i, j, g);
    } else {
      NotVia(g, path, j);
      NotVia(n, path, j);
      if HasChild(n, j, |path|) && !Leads(n, path, j, i) { DropKidKeeps(n, path, i, j, g); }
    }
  }

  lemma DropKidVia(n: Node, path: seq<Byte>, i: nat, j: Key, g: Node)
    requires n.Inode? && InodeOk(n, |path|) && i < |n.kids| && path <= j && !(|n.kids| == MinSize(n.ty) && n.ty == I4)
    requires g == DropKid(n, i) && g.Inode? && InodeOk(g, |path|) && |g.kids| == |n.kids| - 1 && HasChild(g, j, |path|)
    ensures !Leads(n, path, j, i) && Lookup(g, j, |path|) == Lookup(n, j, |path|)
  {
    hide DropKid, InodeOk, Lookup, Leads, HasChild, ChildIndex, KidPath, MinSize;
    NotVia(g, path, j);
    var a := ChildIndex(g, j, |path|);
    LeadsBound(g, path, j, a);
    DropKidLeads(n, path, i, j, a);
    Via(g, path, j, a);
    var was := if a < i then a else a + 1;
    Via(n, path, j, was);
    if Leads(n, path, j, i) { Via(n, path, j, i); }
  }

  lemma DropKidKeeps(n: Node, path: seq<Byte>, i: nat, j: Key, g: Node)
    requires InodeOk(n, |path|) && i < |n.kids| && path <= j && !(|n.kids| == MinSize(n.ty) && n.ty == I4)
    requires n.Inode? && HasChild(n, j, |path|) && !Leads(n, path, j, i)
    requires g == DropKid(n, i) && g.Inode? && InodeOk(g, |path|)
    ensures HasChild(g, j, |path|)
  {
    hide DropKid, InodeOk, Leads, HasChild, ChildIndex, KidPath, MinSize;
    NotVia(n, path, j);
    var c := ChildIndex(n, j, |path|);
    LeadsBound(n, path, j, c);
    if c < i {
      DropKidLeads(n, path, i, j, c);
      Via(g, path, j, c);
    } else {
      DropKidLeads(n, path, i, j, c - 1);
      Via(g, path, j, c - 1);
    }
  }

  /** When a child absorbs its parent's prefix and byte, the result fits the seven bytes a packed prefix can hold. */
  lemma MergedPrefixFits(n: Node, path: seq<Byte>, i: nat)
    requires Wf(n, path) && n.Inode? && i < |n.kids| && n.kids[i].node.Inode?
    ensures |n.kids[i].node.prefix| + |n.prefix| < 7
  {
    WfKid(n, path, i);
    InodeOfWf(n.kids[i].node, KidPath(n, path, i));
    hide Wf;
  }

  lemma LeaveLastWf(n: Node, path: seq<Byte>, i: nat)
    requires Wf(n, path) && n.Inode? && |n.kids| == 2 && i < 2
    ensures Wf(LeaveLast(n, i), path)
  {
    var kid, kp := n.kids[1 - i].node, KidPath(n, path, 1 - i);
    WfKid(n, path, 1 - i);
    if kid.Inode? {
      assert path + LeaveLast(n, i).prefix == kp + kid.prefix;
      RestemWf(kid, kp, LeaveLast(n, i), path);
    } else {
      assert kp[..|path|] == path && kp == kid.key[..|kp|];
    }
  }

  /** The surviving child, moved up, stores what it stored before and nothing else. */
  lemma RaisedLookup(n: Node, path: seq<Byte>, i: nat, j: Key)
    requires Wf(n, path) && n.Inode? && |n.kids| == 2 && i < 2 && path <= j
    ensures Lookup(LeaveLast(n, i), j, |path|)
            == if Leads(n, path, j, 1 - i) then Lookup(n.kids[1 - i].node, j, |path| + |n.prefix| + 1) else None
  {
    var o := 1 - i;
    var kid, kp, up := n.kids[o].node, KidPath(n, path, o), LeaveLast(n, i);
    WfKid(n, path, o);
    assert Leads(n, path, j, o) <==> kp <= j;
    assert |kp| == |path| + |n.prefix| + 1;
    if kid.Inode? {
      LeaveLastWf(n, path, i);
      assert path + up.prefix == kp + kid.prefix && InodeOk(kid, |kp|) && InodeOk(up, |path|);
      hide Wf, Lookup, InodeOk, LeaveLast, Leads, KidPath;
      if kp <= j {
        RestemLookup(kid, kp, up, path, j);
      } else {
        OutsideStem(up, path, j, kp);
      }
    } else {
      assert kp <= kid.key && up == kid;
      hide Wf, InodeOk, LeaveLast, Leads, KidPath;
    }
  }

  lemma LeaveLastLookup(n: Node, path: seq<Byte>, i: nat, j: Key)
    requires Wf(n, path) && n.Inode? && |n.kids| == 2 && i < 2 && path <= j
    ensures Lookup(LeaveLast(n, i), j, |path|) == if Leads(n, path, j, i) then None else Lookup(n, j, |path|)
  {
    var o := 1 - i;
    WfKid(n, path, o);
    RaisedLookup(n, path, i, j);
    hide Wf, Lookup, InodeOk, LeaveLast, HasChild, ChildIndex;
    NotVia(n, path, j);
    if Leads(n, path, j, o) {
      Via(n, path, j, o);
      if Leads(n, path, j, i) { OneChild(n, path, j, i, o); }
    }
  }

  lemma DropKidOk(n: Node, path: seq<Byte>, i: nat, j: Key)
    requires Wf(n, path) && n.Inode? && i < |n.kids| && path <= j
    ensures Wf(DropKid(n, i), path)
    ensures Lookup(DropKid(n, i), j, |path|) == if Leads(n, path, j, i) then None else Lookup(n, j, |path|)
  {
    if |n.kids| == MinSize(n.ty) && n.ty == I4 {
      hide Wf, Lookup;
      LeaveLastWf(n, path, i);
      LeaveLastLookup(n, path, i, j);
    } else {
      DropKidWf(n, path, i);
      DropKidLookup(n, path, i, j);
    }
  }

  lemma {:induction false} RemoveWf(n: Node, path: seq<Byte>, k: Key)
    requires Wf(n, path) && path <= k
    ensures Wf(Remove(n, k, |path|), path)
    decreases n
  {
    if n.Inode? && HasChild(n, k, |path|) {
      RemoveBelowWf(n, path, k);
    }
  }

  lemma WhereNext(n: Node, path: seq<Byte>, k: Key)
    requires n.Inode? && Wf(n, path) && path <= k && HasChild(n, k, |path|)
    ensures var i := ChildIndex(n, k, |path|);
      && i < |n.kids| && KidPath(n, path, i) <= k && Wf(n.kids[i].node, KidPath(n, path, i))
      && |KidPath(n, path, i)| == |path| + |n.prefix| + 1
  {
    WfKid(n, path, ChildIndex(n, k, |path|));
    hide Wf;
    NotVia(n, path, k);
  }

  lemma {:induction false} RemoveBelowWf(n: Node, path: seq<Byte>, k: Key)
    requires n.Inode? && Wf(n, path) && path <= k && HasChild(n, k, |path|)
    ensures Wf(Remove(n, k, |path|), path)
    decreases n, 0
  {
    hide Wf, HasChild, ChildIndex, KidPath;
    WhereNext(n, path, k);
    var i := ChildIndex(n, k, |path|);
    if n.kids[i].node.Inode? {
      RemoveWf(n.kids[i].node, KidPath(n, path, i), k);
      SetKidWf(n, path, i, Remove(n.kids[i].node, k, |path| + |n.prefix| + 1));
    } else {
      DropKidOk(n, path, i, k);
    }
  }

  lemma LookupUnfolds(n: Node, k: Key, d: nat)
    requires n.Inode?
    ensures !HasChild(n, k, d) ==> Lookup(n, k, d).None?
    ensures HasChild(n, k, d) ==>
      Lookup(n, k, d) == Lookup(n.kids[ChildIndex(n, k, d)].node, k, d + |n.prefix| + 1)
  {
    hide PrefixMatches, Find, NextByte;
  }

  lemma LookupLeaf(n: Node, k: Key, d: nat)
    requires n.Leaf?
    ensures Lookup(n, k, d) == if n.key == k then Some(n.val) else None
  {
  }

  /** One level of a remove. */
  lemma RemoveUnfolds(n: Node, k: Key, d: nat)
    requires n.Inode?
    ensures !HasChild(n, k, d) ==> Remove(n, k, d) == n
    ensures HasChild(n, k, d) ==>
      var i := ChildIndex(n, k, d);
      var kid := n.kids[i].node;
      Remove(n, k, d) ==
        if kid.Inode? then SetKid(n, i, Remove(kid, k, d + |n.prefix| + 1))
        else if kid.key == k then DropKid(n, i)
        else n
  {
    hide PrefixMatches, Find, NextByte, SetKid, DropKid;
  }

  /** Below the root, remove takes the key out of the map and changes nothing else. */
  lemma {:induction false} RemoveLookup(n: Node, path: seq<Byte>, k: Key, j: Key)
    requires Wf(n, path) && n.Inode? && path <= k && path <= j
    ensures Lookup(Remove(n, k, |path|), j, |path|) == if j == k then None else Lookup(n, j, |path|)
    decreases n
  {
    hide Wf, Remove, Lookup, HasChild, ChildIndex, SetKid, DropKid;
    WfShape(n, path);
    NotVia(n, path, k);
    RemoveUnfolds(n, k, |path|);
    if HasChild(n, k, |path|) {
      var i := ChildIndex(n, k, |path|);
      WfKid(n, path, i);
      Via(n, path, k, i);
      var kid := n.kids[i].node;
      if Leads(n, path, j, i) { Via(n, path, j, i); }
      if kid.Inode? {
        SetKidLookup(n, path, i, Remove(kid, k, |path| + |n.prefix| + 1), j);
        if Leads(n, path, j, i) { RemoveLookup(kid, KidPath(n, path, i), k, j); }
      } else {
        LookupLeaf(kid, j, |path| + |n.prefix| + 1);
        if kid.key == k { DropKidOk(n, path, i, j); }
      }
    }
  }
}

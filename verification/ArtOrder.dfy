/** The sorted sequence of entries a tree stands for, and the finite map they form. */
module ArtOrder {
  import opened ArtKey
  import opened ArtTree
  import opened ArtUpdate

  datatype Item = Item(key: Key, val: Value)

  /** The entries from left to right. */
  function Flat(n: Node): seq<Item>
    decreases n
  {
    match n
    case Leaf(key, val) => [Item(key, val)]
    case Inode(_, _, kids) => FlatKids(kids)
  }

  function FlatKids(kids: seq<Edge>): seq<Item>
    decreases kids
  {
    if kids == [] then [] else FlatKids(kids[..|kids| - 1]) + FlatEdge(kids[|kids| - 1])
  }

  function FlatEdge(e: Edge): seq<Item>
    decreases e
  {
    Flat(e.node)
  }

  ghost predicate Increasing(s: seq<Item>) {
    forall i, j :: 0 <= i < j < |s| ==> Less(s[i].key, s[j].key)
  }

  function MapOf(s: seq<Item>): map<Key, Value> {
    if s == [] then map[] else MapOf(s[..|s| - 1])[s[|s| - 1].key := s[|s| - 1].val]
  }

  /** The finite map a tree stores; no root, no entries. */
  function Contents(root: Option<Node>): map<Key, Value> {
    if root.None? then map[] else MapOf(Flat(root.value))
  }

  // ---- entries and lookup ------------------------------------------------------------------------

  lemma {:induction false} FlatKidsSplit(kids: seq<Edge>, i: nat)
    requires i < |kids|
    ensures FlatKids(kids) == FlatKids(kids[..i]) + Flat(kids[i].node) + FlatKids(kids[i + 1..])
  {
    var n := |kids| - 1;
    if i < n {
      FlatKidsSplit(kids[..n], i);
      assert kids[..n][..i] == kids[..i] && kids[..n][i + 1..] == kids[i + 1..][..n - i - 1];
      assert kids[i + 1..][n - i - 1] == kids[n];
    } else {
      assert kids[i + 1..] == [];
    }
  }

  lemma {:induction false} FlatKidsHas(kids: seq<Edge>, p: Item)
    ensures p in FlatKids(kids) <==> exists i :: 0 <= i < |kids| && p in Flat(kids[i].node)
  {
    if kids != [] {
      var n := |kids| - 1;
      FlatKidsHas(kids[..n], p);
      if p in FlatKids(kids[..n]) {
        var i :| 0 <= i < n && p in Flat(kids[..n][i].node);
        assert p in Flat(kids[i].node);
      }
      if i :| 0 <= i < |kids| && p in Flat(kids[i].node) {
        assert i < n ==> kids[..n][i] == kids[i];
      }
    }
  }

  /** The entries are exactly what lookups find. */
  lemma {:induction false} FlatIsLookup(n: Node, path: seq<Byte>, k: Key, v: Value)
    requires Wf(n, path) && path <= k
    ensures Item(k, v) in Flat(n) <==> Lookup(n, k, |path|) == Some(v)
    decreases n
  {
    if n.Inode? {
      FlatKidsHas(n.kids, Item(k, v));
      if i :| 0 <= i < |n.kids| && Item(k, v) in Flat(n.kids[i].node) {
        WfKid(n, path, i);
        FlatUnder(n.kids[i].node, KidPath(n, path, i), Item(k, v));
        Via(n, path, k, i);
        FlatIsLookup(n.kids[i].node, KidPath(n, path, i), k, v);
      }
      NotVia(n, path, k);
      if HasChild(n, k, |path|) {
        var i := ChildIndex(n, k, |path|);
        WfKid(n, path, i);
        Via(n, path, k, i);
        FlatIsLookup(n.kids[i].node, KidPath(n, path, i), k, v);
      }
    }
  }

  lemma {:induction false} FlatUnder(n: Node, path: seq<Byte>, p: Item)
    requires Wf(n, path) && p in Flat(n)
    ensures path <= p.key
    decreases n
  {
    if n.Inode? {
      FlatKidsHas(n.kids, p);
      var i :| 0 <= i < |n.kids| && p in Flat(n.kids[i].node);
      WfKid(n, path, i);
      FlatUnder(n.kids[i].node, KidPath(n, path, i), p);
      assert path == KidPath(n, path, i)[..|path|];
    }
  }

  // ---- order -----------------------------------------------------------------------------------------

  /** Entries of an earlier child are smaller than those of a later one. */
  lemma KidsInOrder(n: Node, path: seq<Byte>, i: nat, j: nat, p: Item, q: Item)
    requires Wf(n, path) && n.Inode? && i < j < |n.kids|
    requires p in Flat(n.kids[i].node) && q in Flat(n.kids[j].node)
    ensures Less(p.key, q.key)
  {
    WfKid(n, path, i);
    WfKid(n, path, j);
    FlatUnder(n.kids[i].node, KidPath(n, path, i), p);
    FlatUnder(n.kids[j].node, KidPath(n, path, j), q);
    hide Flat, Wf;
    var m := |path| + |n.prefix|;
    DecidedLess(KidPath(n, path, i), KidPath(n, path, j), p.key, q.key, m);
  }

  lemma DecidedLess(a: seq<Byte>, b: seq<Byte>, p: Key, q: Key, m: nat)
    requires |a| == |b| == m + 1 && a[..m] == b[..m] && a[m] < b[m] && a <= p && b <= q
    ensures Less(p, q)
  {
    assert p[..m] == a[..m] && q[..m] == b[..m] && p[m] == a[m] && q[m] == b[m];
    DecidedAt(p, q, m);
    LessIsNumeric(p, q);
  }

  lemma IncreasingConcat(a: seq<Item>, b: seq<Item>)
    requires Increasing(a) && Increasing(b)
    requires forall p, q :: p in a && q in b ==> Less(p.key, q.key)
    ensures Increasing(a + b)
  {
    var s := a + b;
    forall i, j | 0 <= i < j < |s| ensures Less(s[i].key, s[j].key) {
      if i < |a| <= j {
        assert s[i] in a && s[j] in b;
      }
    }
  }

  lemma {:induction false} KidsIncreasing(n: Node, path: seq<Byte>, c: nat)
    requires Wf(n, path) && n.Inode? && c <= |n.kids|
    requires forall i :: 0 <= i < |n.kids| ==> Increasing(Flat(n.kids[i].node))
    ensures Increasing(FlatKids(n.kids[..c]))
    decreases c
  {
    if c > 0 {
      KidsIncreasing(n, path, c - 1);
      var init := n.kids[..c - 1];
      assert n.kids[..c][..c - 1] == init;
      forall p, q | p in FlatKids(init) && q in Flat(n.kids[c - 1].node) ensures Less(p.key, q.key) {
        FlatKidsHas(init, p);
        var i :| 0 <= i < |init| && p in Flat(init[i].node);
        KidsInOrder(n, path, i, c - 1, p, q);
      }
      IncreasingConcat(FlatKids(init), Flat(n.kids[c - 1].node));
    }
  }

  /** The entries come in strictly increasing key order, which is numeric order. */
  lemma {:induction false} FlatIncreasing(n: Node, path: seq<Byte>)
    requires Wf(n, path)
    ensures Increasing(Flat(n)) && Flat(n) != []
    decreases n
  {
    if n.Inode? {
      forall i | 0 <= i < |n.kids| ensures Increasing(Flat(n.kids[i].node)) && Flat(n.kids[i].node) != [] {
        WfKid(n, path, i);
        FlatIncreasing(n.kids[i].node, KidPath(n, path, i));
      }
      KidsIncreasing(n, path, |n.kids|);
      assert n.kids[..|n.kids|] == n.kids;
      assert FlatEdge(n.kids[|n.kids| - 1]) != [];
    }
  }

  // ---- the map -----------------------------------------------------------------------------------------

  lemma {:induction false} MapOfHas(s: seq<Item>, k: Key, v: Value)
    requires Increasing(s)
    ensures k in MapOf(s) && MapOf(s)[k] == v <==> Item(k, v) in s
    ensures |MapOf(s)| == |s|
  {
    if s != [] {
      var n := |s| - 1;
      var init, last := s[..n], s[n];
      MapOfHas(init, k, v);
      assert s == init + [last];
      forall i | 0 <= i < n ensures s[i].key != last.key {
        LessIsNumeric(s[i].key, s[n].key);
      }
      if last.key in MapOf(init) {
        MapOfHas(init, last.key, MapOf(init)[last.key]);
      }
    }
  }

  /** A lookup answers from the map; the map has one entry per leaf. */
  lemma LookupIsEntry(n: Node, k: Key)
    requires Wf(n, [])
    ensures Lookup(n, k, 0) == if k in Contents(Some(n)) then Some(Contents(Some(n))[k]) else None
    ensures |Contents(Some(n))| == |Flat(n)|
  {
    FlatIncreasing(n, []);
    if k in Contents(Some(n)) {
      MapOfHas(Flat(n), k, Contents(Some(n))[k]);
      FlatIsLookup(n, [], k, Contents(Some(n))[k]);
    }
    if Lookup(n, k, 0).Some? {
      MapOfHas(Flat(n), k, Lookup(n, k, 0).value);
      FlatIsLookup(n, [], k, Lookup(n, k, 0).value);
    }
    MapOfHas(Flat(n), k, []);
  }
}

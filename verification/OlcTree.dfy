/** The tree that concurrent inserts build, read off the heap, is the tree that the same inserts build one after the
    other in the sequential index: node types, prefixes and all. */
module OlcTree {
  import opened ArtKey
  import opened OlcHeap
  import opened OlcProtocol
  import opened OlcInvariant
  import opened OlcSteps
  import opened OlcSafety
  import opened OlcCapacity
  import T = ArtTree
  import ArtOrder
  import ArtDb
  import ArtHistory

  // ---- reading the tree off the heap ------------------------------------------------------------

  function LayoutType(capacity: nat): T.NodeType {
    if capacity == 4 then T.I4 else if capacity == 16 then T.I16 else if capacity == 48 then T.I48 else T.I256
  }

  ghost predicate IsInner(h: Heap, x: Id) {
    TreeInv(h) && x in h && x != ROOT && h[x].live && h[x].body.Inode?
  }

  lemma InnerKid(h: Heap, x: Id, b: Byte)
    requires IsInner(h, x) && b in h[x].body.kids
    ensures var kid := h[x].body.kids[b];
      && kid in h && kid != ROOT && h[kid].live && !h[kid].body.RootPointer?
      && h[kid].path == h[x].path + h[x].body.prefix + [b] && |h[x].path| < |h[kid].path| <= KEY_BYTES
  {
    hide TreeInv;
    LiveNode(h, x);
    LiveKid(h, x, b);
    LiveNode(h, h[x].body.kids[b]);
  }

  /** The subtree at a live node. */
  ghost function TreeAt(h: Heap, x: Id): T.Node
    requires TreeInv(h) && x in h && x != ROOT && h[x].live && !h[x].body.RootPointer? && |h[x].path| <= KEY_BYTES
    decreases KEY_BYTES - |h[x].path|, 257
  {
    match h[x].body
    case Leaf(key, val) => T.Leaf(key, val)
    case Inode(capacity, prefix, _) => T.Inode(LayoutType(capacity), prefix, KidsFrom(h, x, 0))
  }

  /** Its children for bytes from `b` on, in increasing order. */
  ghost function KidsFrom(h: Heap, x: Id, b: nat): seq<T.Edge>
    requires IsInner(h, x) && b <= 256 && |h[x].path| <= KEY_BYTES
    decreases KEY_BYTES - |h[x].path|, 256 - b
  {
    if b == 256 then []
    else if b in h[x].body.kids then
      InnerKid(h, x, b);
      [T.Edge(b, TreeAt(h, h[x].body.kids[b]))] + KidsFrom(h, x, b + 1)
    else KidsFrom(h, x, b + 1)
  }

  ghost function TreeOf(h: Heap): Option<T.Node>
    requires TreeInv(h)
  {
    LiveRoot(h);
    if 0 in h[ROOT].body.kids then
      LiveKid(h, ROOT, 0);
      LiveNode(h, h[ROOT].body.kids[0]);
      Some(TreeAt(h, h[ROOT].body.kids[0]))
    else None
  }

  ghost predicate IsEdge(h: Heap, x: Id, e: T.Edge)
    requires IsInner(h, x)
  {
    && e.byte in h[x].body.kids
    && var kid := h[x].body.kids[e.byte];
       kid in h && kid != ROOT && h[kid].live && !h[kid].body.RootPointer? && |h[kid].path| <= KEY_BYTES
       && e.node == TreeAt(h, kid)
  }

  ghost predicate HasByte(kids: seq<T.Edge>, b: Byte) {
    exists i :: 0 <= i < |kids| && kids[i].byte == b
  }

  lemma {:induction false} KidsListed(h: Heap, x: Id, b: nat)
    requires IsInner(h, x) && b <= 256 && |h[x].path| <= KEY_BYTES
    ensures var kids := KidsFrom(h, x, b);
      && T.Sorted(kids)
      && (forall i :: 0 <= i < |kids| ==> kids[i].byte >= b && IsEdge(h, x, kids[i]))
      && (forall c: Byte :: c in h[x].body.kids && c >= b ==> HasByte(kids, c))
    decreases 256 - b
  {
    hide TreeInv, TreeAt, IsEdge, HasByte;
    if b < 256 {
      KidsListed(h, x, b + 1);
      var kids, rest := KidsFrom(h, x, b), KidsFrom(h, x, b + 1);
      if b in h[x].body.kids {
        InnerKid(h, x, b);
        var e := T.Edge(b, TreeAt(h, h[x].body.kids[b]));
        OwnEdge(h, x, e);
        assert kids == [e] + rest;
        forall c: Byte | c in h[x].body.kids && c >= b ensures HasByte(kids, c) {
          FoundIn(e, rest, c);
        }
      }
    }
  }

  lemma OwnEdge(h: Heap, x: Id, e: T.Edge)
    requires IsInner(h, x) && e.byte in h[x].body.kids
    requires var kid := h[x].body.kids[e.byte];
      kid in h && kid != ROOT && h[kid].live && !h[kid].body.RootPointer? && |h[kid].path| <= KEY_BYTES && e.node == TreeAt(h, kid)
    ensures IsEdge(h, x, e)
  {
  }

  lemma FoundIn(e: T.Edge, rest: seq<T.Edge>, c: Byte)
    requires c == e.byte || HasByte(rest, c)
    ensures HasByte([e] + rest, c)
  {
    if c == e.byte {
      assert ([e] + rest)[0] == e;
    } else {
      var i :| 0 <= i < |rest| && rest[i].byte == c;
      assert ([e] + rest)[i + 1] == rest[i];
    }
  }

  lemma {:induction false} KidsCounted(h: Heap, x: Id, b: nat)
    requires IsInner(h, x) && b <= 256 && |h[x].path| <= KEY_BYTES
    ensures |KidsFrom(h, x, b)| == |set c: Byte | c in h[x].body.kids.Keys && c >= b|
    decreases 256 - b
  {
    hide TreeInv, TreeAt;
    var here := set c: Byte | c in h[x].body.kids.Keys && c >= b;
    if b == 256 {
      assert here == {};
    } else {
      KidsCounted(h, x, b + 1);
      var rest := set c: Byte | c in h[x].body.kids.Keys && c >= b + 1;
      if b in h[x].body.kids {
        assert here == rest + {b};
      } else {
        assert here == rest;
      }
    }
  }

  lemma AllKidsCounted(h: Heap, x: Id)
    requires IsInner(h, x) && |h[x].path| <= KEY_BYTES
    ensures |KidsFrom(h, x, 0)| == |h[x].body.kids|
  {
    hide TreeInv, TreeAt, KidsFrom;
    KidsCounted(h, x, 0);
    assert (set c: Byte | c in h[x].body.kids.Keys && c >= 0) == h[x].body.kids.Keys;
  }

  // ---- it is a well-formed tree ---------------------------------------------------------------------

  ghost predicate IsSubtree(h: Heap, x: Id) {
    TreeInv(h) && x in h && x != ROOT && h[x].live && !h[x].body.RootPointer? && |h[x].path| <= KEY_BYTES
  }

  lemma LayoutBounds(capacity: nat, c: nat)
    requires 2 <= c <= 256 && capacity == if c <= 4 then 4 else if c <= 16 then 16 else if c <= 48 then 48 else 256
    ensures T.MinSize(LayoutType(capacity)) <= c <= T.Capacity(LayoutType(capacity))
  {
  }

  lemma InnerOk(h: Heap, x: Id)
    requires IsSubtree(h, x) && h[x].body.Inode? && LayoutsFit(h)
    ensures T.InodeOk(TreeAt(h, x), |h[x].path|)
  {
    hide TreeInv, KidsFrom, IsEdge, HasByte;
    LiveNode(h, x);
    KidsListed(h, x, 0);
    AllKidsCounted(h, x);
    assert SmallestLayout(h[x]);
    LayoutBounds(h[x].body.capacity, |h[x].body.kids|);
  }

  lemma {:induction false} TreeWf(h: Heap, x: Id)
    requires IsSubtree(h, x) && LayoutsFit(h)
    ensures T.Wf(TreeAt(h, x), h[x].path)
    decreases KEY_BYTES - |h[x].path|
  {
    hide TreeInv, LayoutsFit, KidsFrom, HasByte, T.InodeOk, T.Wf;
    LiveNode(h, x);
    if h[x].body.Leaf? {
      LeafWf(h[x].body.key, h[x].body.val, h[x].path);
    } else {
      var n := TreeAt(h, x);
      InnerOk(h, x);
      KidsListed(h, x, 0);
      forall i | 0 <= i < |n.kids| ensures T.Wf(n.kids[i].node, T.KidPath(n, h[x].path, i)) {
        assert IsEdge(h, x, n.kids[i]);
        InnerKid(h, x, n.kids[i].byte);
        TreeWf(h, h[x].body.kids[n.kids[i].byte]);
      }
      T.WfInode(n, h[x].path);
    }
  }

  lemma LeafWf(key: Key, val: Value, path: seq<Byte>)
    requires path <= key
    ensures T.Wf(T.Leaf(key, val), path)
  {
  }

  // ---- it stores the map ----------------------------------------------------------------------------

  /** Where the heap's node leads the key, the tree's node does. */
  lemma SameChild(h: Heap, x: Id, k: Key, d: nat)
    requires IsSubtree(h, x) && h[x].body.Inode? && |h[x].path| == d
    ensures var n := TreeAt(h, x);
      && n.Inode? && (T.HasChild(n, k, d) <==> Decide(h[x].body, k, d).Child?)
      && (T.HasChild(n, k, d) ==>
            && T.NextByte(n, k, d) in h[x].body.kids && T.ChildIndex(n, k, d) < |n.kids|
            && Decide(h[x].body, k, d).id == h[x].body.kids[T.NextByte(n, k, d)]
            && IsEdge(h, x, n.kids[T.ChildIndex(n, k, d)]) && n.kids[T.ChildIndex(n, k, d)].byte == T.NextByte(n, k, d))
  {
    hide TreeInv, KidsFrom, Common, IsEdge;
    KidsListed(h, x, 0);
    var n := TreeAt(h, x);
    var b := T.NextByte(n, k, d);
    if b in h[x].body.kids {
      assert HasByte(n.kids, b);
    }
    if T.Find(n.kids, b) < |n.kids| {
      assert IsEdge(h, x, n.kids[T.Find(n.kids, b)]);
      EdgeByte(h, x, n.kids[T.Find(n.kids, b)]);
    }
  }

  lemma EdgeByte(h: Heap, x: Id, e: T.Edge)
    requires IsInner(h, x) && IsEdge(h, x, e)
    ensures e.byte in h[x].body.kids
    ensures var kid := h[x].body.kids[e.byte]; IsSubtree(h, kid) && e.node == TreeAt(h, kid)
  {
    hide TreeInv, TreeAt;
  }

  function LeafValue(h: Heap, x: Id, k: Key): Option<Value> {
    if x in h && h[x].body.Leaf? && h[x].body.key == k then Some(h[x].body.val) else None
  }

  lemma {:induction false} SameLookup(h: Heap, x: Id, k: Key, d: nat)
    requires TreeInv(h) && At(h, x, k, d) && !h[x].body.RootPointer?
    ensures T.Lookup(TreeAt(h, x), k, d) == LeafValue(h, Lookup(h, x, k, d), k)
    decreases KEY_BYTES - d
  {
    hide TreeInv, KidsFrom, Decide, IsEdge, T.HasChild, T.ChildIndex, T.NextByte;
    LiveNode(h, x);
    if h[x].body.Inode? {
      SameChild(h, x, k, d);
      if Decide(h[x].body, k, d).Child? {
        var n := TreeAt(h, x);
        EdgeByte(h, x, n.kids[T.ChildIndex(n, k, d)]);
        Follow(h, x, k, d);
        SameLookup(h, Decide(h[x].body, k, d).id, k, d + |h[x].body.prefix| + 1);
      }
    }
  }

  lemma SameSearch(h: Heap, k: Key)
    requires TreeInv(h) && LayoutsFit(h)
    ensures var root := TreeOf(h);
      && (root.Some? ==> T.Wf(root.value, []))
      && Search(h, k) == if root.Some? then T.Lookup(root.value, k, 0) else None
  {
    LiveRoot(h);
    hide TreeInv, LayoutsFit, T.Wf, T.Lookup, TreeAt, Lookup;
    if 0 in h[ROOT].body.kids {
      var x := h[ROOT].body.kids[0];
      LiveKid(h, ROOT, 0);
      LiveNode(h, x);
      TreeWf(h, x);
      TopNode(h, k);
      SameLookup(h, x, k, 0);
    }
  }

  lemma SameMap(h: Heap, m: map<Key, Value>)
    requires TreeInv(h) && LayoutsFit(h) && forall k :: Search(h, k) == Entry(m, k)
    ensures ArtHistory.TreeOk(TreeOf(h)) && ArtOrder.Contents(TreeOf(h)) == m
  {
    hide TreeInv, LayoutsFit, T.Wf, T.Lookup, TreeOf, Search, ArtOrder.Flat, ArtOrder.MapOf;
    var root := TreeOf(h);
    SameSearch(h, [0, 0, 0, 0, 0, 0, 0, 0]);
    forall k: Key ensures ArtDb.Entry(ArtOrder.Contents(root), k) == ArtDb.Entry(m, k) {
      SameSearch(h, k);
      if root.Some? { ArtOrder.LookupIsEntry(root.value, k); }
    }
    ArtDb.SameEntries(ArtOrder.Contents(root), m);
  }

  // ---- the theorem -------------------------------------------------------------------------------------

  /** The inserts of a history, as operations on the sequential index. */
  function Puts(log: seq<Event>): seq<ArtHistory.Op> {
    if log == [] then []
    else
      var e := log[|log| - 1];
      Puts(log[..|log| - 1]) + if e.op.Insert? then [ArtHistory.Put(e.op.key, e.op.val)] else []
  }

  lemma {:induction false} PutsReplay(log: seq<Event>)
    ensures ArtHistory.MapAfter(Puts(log)) == Replay(log)
  {
    if log != [] {
      var init, e := log[..|log| - 1], log[|log| - 1];
      PutsReplay(init);
      if e.op.Insert? {
        var op := ArtHistory.Put(e.op.key, e.op.val);
        assert Puts(log) == Puts(init) + [op];
        assert (Puts(init) + [op])[..|Puts(init)|] == Puts(init);
      } else {
        assert Puts(log) == Puts(init);
      }
    }
  }

  /** In every reachable state, whatever calls are in flight, the tree in the heap is the very tree the sequential index
      has after the same inserts in the order of the history. */
  lemma ConcurrentIsSequential(states: seq<State>, steps: seq<Step>, i: nat)
    requires IsRun(states, steps) && i < |states|
    ensures TreeInv(states[i].heap)
    ensures TreeOf(states[i].heap) == ArtHistory.TreeAfter(Puts(states[i].log))
  {
    hide IsRun, LayoutsFit, TreeInv, TreeOf, Puts, Replay, Search, Facts;
    var h, log := states[i].heap, states[i].log;
    RunInv(states, steps, i);
    StoredTree(states[i]);
    CapacityFits(states, steps, i);
    forall k ensures Search(h, k) == Entry(Replay(log), k) {
      TreeIsMap(states, steps, i, k);
    }
    SameMap(h, Replay(log));
    PutsReplay(log);
    ArtHistory.Refines(Puts(log));
    ArtHistory.OneTreePerMap(TreeOf(h), ArtHistory.TreeAfter(Puts(log)));
  }
}

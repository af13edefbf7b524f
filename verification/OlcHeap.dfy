/** The shared tree of olc_art.hpp under concurrent get and insert: nodes with optimistic locks, the
    shape every committed heap has, and the four ways an insert changes it. */
module OlcHeap {

  import opened ArtKey

  type Id = nat
  type Tid = nat

  /** The id that stands for the root pointer and its own lock. */
  const ROOT: Id := 0

  /** A lock word as module OptimisticLock decodes it; `owner` (who locked it last) is a history variable. */
  datatype Lock = Free(version: nat) | Locked(version: nat, owner: Tid) | Obsolete(owner: Tid)

  /** The root pointer is a node with at most one child slot, numbered 0. */
  datatype Body =
    | RootPointer(kids: map<Byte, Id>)
    | Leaf(key: Key, val: Value)
    | Inode(capacity: nat, prefix: seq<Byte>, kids: map<Byte, Id>)

  /** `path` (the key bytes consumed above the node) and `live` (linked into the tree) are history variables. */
  datatype Node = Node(lock: Lock, body: Body, path: seq<Byte>, live: bool)

  type Heap = map<Id, Node>

  /** The bytes consumed on arrival at the child in slot `b`. */
  function ChildPath(n: Node, b: Byte): seq<Byte>
    requires !n.body.Leaf?
  {
    if n.body.RootPointer? then [] else n.path + n.body.prefix + [b]
  }

  // ---- the shape of the tree -------------------------------------------------------------

  ghost predicate RootOk(h: Heap) {
    && ROOT in h && h[ROOT].live && h[ROOT].body.RootPointer? && h[ROOT].path == []
    && h[ROOT].body.kids.Keys <= {0}
    && (forall x :: x in h && x != ROOT ==> !h[x].body.RootPointer?)
  }

  /** Every leaf's key extends its path; depth plus prefix leaves room for one more key byte. */
  ghost predicate NodeOk(n: Node) {
    match n.body
    case RootPointer(_) => true
    case Leaf(key, _) => n.path <= key
    case Inode(capacity, prefix, kids) =>
      |n.path| + |prefix| < KEY_BYTES && 2 <= |kids| <= capacity && capacity in {4, 16, 48, 256}
  }

  ghost predicate NodesOk(h: Heap) {
    forall x :: x in h && h[x].live ==> NodeOk(h[x])
  }

  ghost predicate KidOk(h: Heap, x: Id, b: Byte)
    requires x in h && !h[x].body.Leaf? && b in h[x].body.kids
  {
    var kid := h[x].body.kids[b];
    kid in h && kid != ROOT && h[kid].live && h[kid].path == ChildPath(h[x], b)
  }

  ghost predicate KidsOk(h: Heap) {
    forall x, b :: x in h && h[x].live && !h[x].body.Leaf? && b in h[x].body.kids ==> KidOk(h, x, b)
  }

  /** When the path of `m` extends that of another node `n`, `m` lies below one of the children of `n`. */
  ghost predicate Nested(n: Node, m: Node) {
    n.path <= m.path ==>
      && n.body.Inode?
      && n.path + n.body.prefix < m.path
      && m.path[|n.path| + |n.body.prefix|] in n.body.kids
  }

  ghost predicate NestOk(h: Heap) {
    forall x, y :: x in h && y in h && x != y && x != ROOT && y != ROOT && h[x].live && h[y].live ==> Nested(h[x], h[y])
  }

  ghost predicate TopOk(h: Heap)
    requires RootOk(h)
  {
    forall x :: x in h && x != ROOT && h[x].live ==> 0 in h[ROOT].body.kids
  }

  ghost predicate TreeInv(h: Heap) {
    RootOk(h) && NodesOk(h) && KidsOk(h) && NestOk(h) && TopOk(h)
  }

  /** `w` says where the live leaf of each key is, and `m` is the map those leaves store. */
  ghost predicate Agree(h: Heap, w: map<Key, Id>, m: map<Key, Value>) {
    && w.Keys == m.Keys
    && (forall k :: k in w ==> w[k] in h && h[w[k]].live && h[w[k]].body == Leaf(k, m[k]))
    && (forall x :: x in h && h[x].live && h[x].body.Leaf? ==> h[x].body.key in w && w[h[x].body.key] == x)
  }

  // ---- what the shape gives a descent -----------------------------------------------------

  /** What a descent that reached `body` at depth `d` finds there. */
  datatype Branch = Same | LeafSplit | PrefixSplit | AddLeaf | Grow | Child(id: Id)

  function Decide(body: Body, k: Key, d: nat): Branch
    requires !body.RootPointer?
  {
    match body
    case Leaf(key, _) => if key == k then Same else LeafSplit
    case Inode(capacity, prefix, kids) =>
      if Common(prefix, Rest(k, d)) < |prefix| then PrefixSplit
      else if KeyByte(k, d + |prefix|) in kids then Child(kids[KeyByte(k, d + |prefix|)])
      else if capacity < 256 && |kids| == capacity then Grow
      else AddLeaf
  }

  /** The node at which a descent for `k` stands: live, with exactly the first `d` bytes of `k` consumed. */
  ghost predicate At(h: Heap, x: Id, k: Key, d: nat) {
    x in h && x != ROOT && h[x].live && d <= KEY_BYTES && h[x].path == k[..d]
  }

  lemma PairNested(h: Heap, x: Id, y: Id)
    requires TreeInv(h) && x in h && y in h && x != y && x != ROOT && y != ROOT && h[x].live && h[y].live
    ensures Nested(h[x], h[y])
  {
    hide Nested, NodeOk, KidOk;
  }

  lemma LiveRoot(h: Heap)
    requires TreeInv(h)
    ensures RootOk(h)
  {
  }

  lemma LiveTop(h: Heap, x: Id)
    requires TreeInv(h) && x in h && x != ROOT && h[x].live
    ensures 0 in h[ROOT].body.kids
  {
    hide NodeOk, KidOk, Nested;
  }

  lemma LiveNode(h: Heap, x: Id)
    requires TreeInv(h) && x in h && h[x].live
    ensures NodeOk(h[x]) && (h[x].body.RootPointer? <==> x == ROOT)
  {
    hide Nested, KidOk;
  }

  lemma LiveKid(h: Heap, x: Id, b: Byte)
    requires TreeInv(h) && x in h && h[x].live && !h[x].body.Leaf? && b in h[x].body.kids
    ensures KidOk(h, x, b)
  {
    hide Nested, NodeOk, KidOk;
  }

  /** What a descent finds when the leaf of its key is elsewhere in the tree: a child to follow. */
  lemma Leads(h: Heap, x: Id, k: Key, d: nat, l: Id)
    requires TreeInv(h) && At(h, x, k, d)
    requires l in h && l != x && h[l].live && h[l].body.Leaf? && h[l].body.key == k
    ensures h[x].body.Inode? && Decide(h[x].body, k, d).Child?
  {
    hide TreeInv;
    LiveNode(h, l);
    PairNested(h, x, l);
    PairNested(h, l, x);
    if |h[x].path| <= |h[l].path| {
      assert h[x].path <= h[l].path;
      SharedBytes(h[x].body.prefix, h[x].path, k);
    } else {
      Comparable(h[l].path, h[x].path, k);
      assert false;
    }
  }

  /** Anything but the key itself or a child to follow proves the key absent from the whole tree. */
  lemma Absent(h: Heap, w: map<Key, Id>, m: map<Key, Value>, x: Id, k: Key, d: nat)
    requires TreeInv(h) && Agree(h, w, m) && At(h, x, k, d)
    requires !h[x].body.RootPointer? && !Decide(h[x].body, k, d).Same? && !Decide(h[x].body, k, d).Child?
    ensures k !in m
  {
    if k in m {
      hide TreeInv;
      Leads(h, x, k, d, w[k]);
    }
  }

  lemma Present(h: Heap, w: map<Key, Id>, m: map<Key, Value>, x: Id, k: Key, d: nat)
    requires Agree(h, w, m) && x in h && h[x].live && !h[x].body.RootPointer? && Decide(h[x].body, k, d).Same?
    ensures k in m && h[x].body == Leaf(k, m[k])
  {
  }

  /** Following a child keeps the descent in the tree. */
  lemma Follow(h: Heap, x: Id, k: Key, d: nat)
    requires TreeInv(h) && At(h, x, k, d)
    requires !h[x].body.RootPointer? && Decide(h[x].body, k, d).Child?
    ensures h[x].body.Inode? && d + |h[x].body.prefix| < KEY_BYTES
    ensures KeyByte(k, d + |h[x].body.prefix|) in h[x].body.kids
    ensures ChildPath(h[x], KeyByte(k, d + |h[x].body.prefix|)) == k[..d + |h[x].body.prefix| + 1]
    ensures At(h, Decide(h[x].body, k, d).id, k, d + |h[x].body.prefix| + 1)
  {
    hide TreeInv;
    LiveNode(h, x);
    SharedBytes(h[x].body.prefix, h[x].path, k);
    var e := d + |h[x].body.prefix|;
    assert h[x].path + h[x].body.prefix == k[..e];
    assert k[..e + 1] == k[..e] + [k[e]];
    LiveKid(h, x, k[e]);
  }

  /** A search of the heap as it stands, from the root down: where a lone reader would end. */
  ghost function Lookup(h: Heap, x: Id, k: Key, d: nat): Id
    decreases KEY_BYTES - d
  {
    if x in h && h[x].body.Inode? && Decide(h[x].body, k, d).Child? && d + |h[x].body.prefix| < KEY_BYTES then
      Lookup(h, Decide(h[x].body, k, d).id, k, d + |h[x].body.prefix| + 1)
    else x
  }

  ghost predicate Ended(h: Heap, x: Id, k: Key) {
    x in h && At(h, x, k, |h[x].path|) && !h[x].body.RootPointer? && !Decide(h[x].body, k, |h[x].path|).Child?
  }

  lemma {:induction false} LookupEnds(h: Heap, x: Id, k: Key, d: nat)
    requires TreeInv(h) && At(h, x, k, d)
    ensures Ended(h, Lookup(h, x, k, d), k)
    decreases KEY_BYTES - d
  {
    hide TreeInv;
    LiveNode(h, x);
    if Decide(h[x].body, k, d).Child? {
      Follow(h, x, k, d);
      LookupEnds(h, Decide(h[x].body, k, d).id, k, d + |h[x].body.prefix| + 1);
    }
  }

  lemma TopNode(h: Heap, k: Key)
    requires TreeInv(h) && 0 in h[ROOT].body.kids
    ensures At(h, h[ROOT].body.kids[0], k, 0)
  {
    LiveRoot(h);
    hide TreeInv;
    LiveKid(h, ROOT, 0);
  }

  lemma EmptyTree(h: Heap, w: map<Key, Id>, m: map<Key, Value>)
    requires TreeInv(h) && Agree(h, w, m) && 0 !in h[ROOT].body.kids
    ensures m == map[]
  {
    hide Nested, NodeOk, KidOk;
    assert forall k :: k in m ==> w[k] in h && h[w[k]].live;
    assert m.Keys == {};
  }

  function Entry(m: map<Key, Value>, k: Key): Option<Value> {
    if k in m then Some(m[k]) else None
  }

  ghost function Search(h: Heap, k: Key): Option<Value> {
    if ROOT in h && h[ROOT].body.RootPointer? && 0 in h[ROOT].body.kids then
      var x := Lookup(h, h[ROOT].body.kids[0], k, 0);
      if x in h && h[x].body.Leaf? && h[x].body.key == k then Some(h[x].body.val) else None
    else None
  }

  /** The tree stores exactly the map: for every key a search from the root gives the map's answer. */
  lemma SearchIsMap(h: Heap, w: map<Key, Id>, m: map<Key, Value>, k: Key)
    requires TreeInv(h) && Agree(h, w, m)
    ensures Search(h, k) == Entry(m, k)
  {
    LiveRoot(h);
    hide TreeInv;
    if 0 in h[ROOT].body.kids {
      TopNode(h, k);
      var x := Lookup(h, h[ROOT].body.kids[0], k, 0);
      LookupEnds(h, h[ROOT].body.kids[0], k, 0);
      if Decide(h[x].body, k, |h[x].path|).Same? {
        Present(h, w, m, x, k, |h[x].path|);
      } else {
        Absent(h, w, m, x, k, |h[x].path|);
      }
    } else {
      EmptyTree(h, w, m);
    }
  }

  /** A live node hangs in one slot only. */
  lemma OneParent(h: Heap, x: Id, b: Byte, y: Id, c: Byte)
    requires TreeInv(h)
    requires x in h && h[x].live && !h[x].body.Leaf? && b in h[x].body.kids
    requires y in h && h[y].live && !h[y].body.Leaf? && c in h[y].body.kids
    requires h[x].body.kids[b] == h[y].body.kids[c]
    ensures x == y && b == c
  {
    hide TreeInv;
    LiveNode(h, x);
    LiveNode(h, y);
    LiveKid(h, x, b);
    LiveKid(h, y, c);
    if x == y {
      if x == ROOT {
        RootSlot(h, b);
        RootSlot(h, c);
      } else {
        assert ChildPath(h[x], b)[|h[x].path| + |h[x].body.prefix|] == b;
        assert ChildPath(h[x], c)[|h[x].path| + |h[x].body.prefix|] == c;
      }
    } else if x != ROOT && y != ROOT {
      Comparable(h[x].path, h[y].path, ChildPath(h[x], b));
      PairNested(h, x, y);
      PairNested(h, y, x);
      assert false;
    }
  }

  lemma RootSlot(h: Heap, b: Byte)
    requires TreeInv(h)
    ensures RootOk(h) && (b in h[ROOT].body.kids ==> b == 0)
  {
    LiveRoot(h);
  }
}

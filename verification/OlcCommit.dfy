/** The writes of an insert, made while it holds the locks of every node it changes, and the proof that
    each takes a well-formed tree to a well-formed tree that stores one more key. */
module OlcCommit {
  import opened ArtKey
  import opened OlcHeap

  /** A link of the tree: `x` is the child of `p` in slot `b`. */
  ghost predicate Link(h: Heap, p: Id, b: Byte, x: Id) {
    p in h && h[p].live && !h[p].body.Leaf? && b in h[p].body.kids && h[p].body.kids[b] == x
  }

  predicate Fresh(h: Heap, x: Id) {
    x !in h && x != ROOT
  }

  function NewLeaf(path: seq<Byte>, k: Key, v: Value): Node {
    Node(Free(0), Leaf(k, v), path, true)
  }

  function PutKid(n: Node, b: Byte, x: Id): Node
    requires !n.body.Leaf?
  {
    n.(body := n.body.(kids := n.body.kids[b := x]))
  }

  // ---- the first key of an empty tree ------------------------------------------------------

  function Plant(h: Heap, l: Id, k: Key, v: Value): Heap
    requires ROOT in h && h[ROOT].body.RootPointer?
  {
    h[l := NewLeaf([], k, v)][ROOT := PutKid(h[ROOT], 0, l)]
  }

  lemma PlantKeepsTree(h: Heap, l: Id, k: Key, v: Value)
    requires TreeInv(h) && 0 !in h[ROOT].body.kids && Fresh(h, l)
    ensures TreeInv(Plant(h, l, k, v))
  {
    LiveRoot(h);
    assert forall x :: x in h && h[x].live ==> x == ROOT;
  }

  // ---- a new leaf under an inner node ------------------------------------------------------

  function Add(h: Heap, x: Id, b: Byte, l: Id, k: Key, v: Value): Heap
    requires x in h && h[x].body.Inode?
  {
    h[l := NewLeaf(ChildPath(h[x], b), k, v)][x := PutKid(h[x], b, l)]
  }

  ghost predicate CanAdd(h: Heap, x: Id, b: Byte, l: Id, k: Key) {
    && x in h && x != ROOT && h[x].live && h[x].body.Inode? && Fresh(h, l)
    && b !in h[x].body.kids && |h[x].body.kids| < h[x].body.capacity
    && ChildPath(h[x], b) <= k
  }

  lemma AddNests(h: Heap, x: Id, b: Byte, l: Id, k: Key, v: Value, y: Id, z: Id)
    requires TreeInv(h) && CanAdd(h, x, b, l, k)
    requires var g := Add(h, x, b, l, k, v);
      y in g && z in g && y != z && y != ROOT && z != ROOT && g[y].live && g[z].live
    ensures Nested(Add(h, x, b, l, k, v)[y], Add(h, x, b, l, k, v)[z])
  {
    hide TreeInv;
    var g := Add(h, x, b, l, k, v);
    var lp := ChildPath(h[x], b);
    if y == l {
      if z != x { PairNested(h, x, z); }
    } else if z == l {
      if y != x && h[y].path <= lp {
        Comparable(h[x].path, h[y].path, lp);
        PairNested(h, x, y);
        PairNested(h, y, x);
        assert h[y].path <= h[x].path;
        assert h[y].path + h[y].body.prefix < h[x].path;
        assert h[x].path < lp;
      }
    } else {
      PairNested(h, y, z);
    }
  }

  lemma AddKeepsNodes(h: Heap, x: Id, b: Byte, l: Id, k: Key, v: Value)
    requires TreeInv(h) && CanAdd(h, x, b, l, k)
    ensures NodesOk(Add(h, x, b, l, k, v)) && KidsOk(Add(h, x, b, l, k, v))
  {
    hide TreeInv;
    var g := Add(h, x, b, l, k, v);
    LiveNode(h, x);
    forall y | y in g && g[y].live
      ensures NodeOk(g[y])
    {
      if y != l { LiveNode(h, y); }
    }
    forall y, c | y in g && g[y].live && !g[y].body.Leaf? && c in g[y].body.kids
      ensures KidOk(g, y, c)
    {
      if !(y == x && c == b) { LiveKid(h, y, c); }
    }
  }

  lemma AddKeepsRoot(h: Heap, x: Id, b: Byte, l: Id, k: Key, v: Value)
    requires TreeInv(h) && CanAdd(h, x, b, l, k)
    ensures RootOk(Add(h, x, b, l, k, v)) && TopOk(Add(h, x, b, l, k, v))
  {
    hide NodeOk, KidOk, Nested;
  }

  lemma AddKeepsTree(h: Heap, x: Id, b: Byte, l: Id, k: Key, v: Value)
    requires TreeInv(h) && CanAdd(h, x, b, l, k)
    ensures TreeInv(Add(h, x, b, l, k, v))
  {
    var g := Add(h, x, b, l, k, v);
    AddKeepsRoot(h, x, b, l, k, v);
    AddKeepsNodes(h, x, b, l, k, v);
    forall y, z | y in g && z in g && y != z && y != ROOT && z != ROOT && g[y].live && g[z].live
      ensures Nested(g[y], g[z])
    {
      AddNests(h, x, b, l, k, v, y, z);
    }
    hide Nested, RootOk, NodesOk, KidsOk;
  }

  // ---- a new inner node above a leaf or an inner node that disagrees with the key ---------

  /** What a node requires of a key below its path: a leaf its whole remaining key, an inner node its prefix. */
  function Tail(n: Node): seq<Byte> {
    match n.body
    case RootPointer(_) => []
    case Leaf(key, _) => Rest(key, |n.path|)
    case Inode(_, prefix, _) => prefix
  }

  /** `x` pushed down below a node that consumes `m` bytes of prefix and one key byte. */
  function Lowered(n: Node, m: nat): Node
    requires m < |Tail(n)|
  {
    var low := n.(path := n.path + Tail(n)[..m + 1]);
    if n.body.Inode? then low.(body := n.body.(prefix := n.body.prefix[m + 1..])) else low
  }

  /** The four-way node put in its place: the common bytes as prefix, `x` and the new leaf as children. */
  function Fork(n: Node, m: nat, x: Id, b: Byte, l: Id): Node
    requires m < |Tail(n)|
  {
    Node(Free(0), Inode(4, Tail(n)[..m], map[Tail(n)[m] := x, b := l]), n.path, true)
  }

  function Split(h: Heap, p: Id, c: Byte, x: Id, m: nat, n: Id, b: Byte, l: Id, k: Key, v: Value): Heap
    requires p in h && !h[p].body.Leaf? && x in h && m < |Tail(h[x])|
  {
    h[n := Fork(h[x], m, x, b, l)]
     [l := NewLeaf(h[x].path + Tail(h[x])[..m] + [b], k, v)]
     [x := Lowered(h[x], m)]
     [p := PutKid(h[p], c, n)]
  }

  ghost predicate CanSplit(h: Heap, p: Id, c: Byte, x: Id, m: nat, n: Id, b: Byte, l: Id, k: Key) {
    && Link(h, p, c, x) && x in h && x != p && x != ROOT && h[x].live && !h[x].body.RootPointer?
    && Fresh(h, n) && Fresh(h, l) && n != l
    && m < |Tail(h[x])| && Tail(h[x])[m] != b
    && h[x].path + Tail(h[x])[..m] + [b] <= k
  }

  lemma SplitAt(h: Heap, p: Id, c: Byte, x: Id, m: nat, n: Id, b: Byte, l: Id, k: Key, v: Value, y: Id)
    requires CanSplit(h, p, c, x, m, n, b, l, k)
    ensures y in Split(h, p, c, x, m, n, b, l, k, v) <==> y in h || y == n || y == l
    ensures y in Split(h, p, c, x, m, n, b, l, k, v) ==>
      Split(h, p, c, x, m, n, b, l, k, v)[y] ==
        if y == p then PutKid(h[p], c, n)
        else if y == x then Lowered(h[x], m)
        else if y == l then NewLeaf(h[x].path + Tail(h[x])[..m] + [b], k, v)
        else if y == n then Fork(h[x], m, x, b, l)
        else h[y]
  {
    hide Tail, Lowered, Fork, NewLeaf, PutKid;
  }

  /** The bytes of the lowered node's own path and prefix are what they were. */
  lemma LoweredStem(n: Node, m: nat)
    requires m < |Tail(n)| && n.body.Inode?
    ensures Lowered(n, m).path + Lowered(n, m).body.prefix == n.path + n.body.prefix
  {
  }

  lemma SplitNests(h: Heap, p: Id, c: Byte, x: Id, m: nat, n: Id, b: Byte, l: Id, k: Key, v: Value, y: Id, z: Id)
    requires TreeInv(h) && CanSplit(h, p, c, x, m, n, b, l, k)
    requires var g := Split(h, p, c, x, m, n, b, l, k, v);
      y in g && z in g && y != z && y != ROOT && z != ROOT && g[y].live && g[z].live
    ensures Nested(Split(h, p, c, x, m, n, b, l, k, v)[y], Split(h, p, c, x, m, n, b, l, k, v)[z])
  {
    hide TreeInv;
    var g := Split(h, p, c, x, m, n, b, l, k, v);
    var added := {x, n, l};
    if y in added {
      if z !in added {
        SplitNestsBelow(h, p, c, x, m, n, b, l, k, v, y, z);
      } else {
        SplitNestsInside(h, p, c, x, m, n, b, l, k, v, y, z);
      }
    } else if z in added {
      SplitNestsAbove(h, p, c, x, m, n, b, l, k, v, y, z);
    } else {
      PairNested(h, y, z);
    }
  }

  lemma SplitNestsInside(h: Heap, p: Id, c: Byte, x: Id, m: nat, n: Id, b: Byte, l: Id, k: Key, v: Value, y: Id, z: Id)
    requires CanSplit(h, p, c, x, m, n, b, l, k) && y in {x, n, l} && z in {x, n, l} && y != z
    ensures Nested(Split(h, p, c, x, m, n, b, l, k, v)[y], Split(h, p, c, x, m, n, b, l, k, v)[z])
  {
    var q, t := h[x].path, Tail(h[x]);
    assert q + t[..m + 1] == q + t[..m] + [t[m]];
    assert (q + t[..m] + [t[m]])[|q| + m] == t[m];
    assert (q + t[..m] + [b])[|q| + m] == b;
  }

  /** Old nodes whose paths extend those of the three nodes at the split. */
  lemma SplitNestsBelow(h: Heap, p: Id, c: Byte, x: Id, m: nat, n: Id, b: Byte, l: Id, k: Key, v: Value, y: Id, z: Id)
    requires TreeInv(h) && CanSplit(h, p, c, x, m, n, b, l, k)
    requires y in {x, n, l} && z in h && z != x && z != ROOT && h[z].live
    ensures Nested(Split(h, p, c, x, m, n, b, l, k, v)[y], Split(h, p, c, x, m, n, b, l, k, v)[z])
  {
    hide TreeInv;
    var g := Split(h, p, c, x, m, n, b, l, k, v);
    PairNested(h, x, z);
    var q, t := h[x].path, Tail(h[x]);
    if g[y].path <= g[z].path {
      assert q <= g[y].path;
      assert q <= h[z].path;
      assert h[x].body.Inode? && q + t < h[z].path;
      assert h[z].path[|q| + m] == (q + t)[|q| + m] == t[m];
      LoweredStem(h[x], m);
      assert q + t[..m] <= h[z].path by { assert q + t[..m] == (q + t)[..|q| + m]; }
    }
  }

  /** Old nodes that the three nodes at the split extend: exactly those that `x` extended. */
  lemma SplitNestsAbove(h: Heap, p: Id, c: Byte, x: Id, m: nat, n: Id, b: Byte, l: Id, k: Key, v: Value, y: Id, z: Id)
    requires TreeInv(h) && CanSplit(h, p, c, x, m, n, b, l, k)
    requires z in {x, n, l} && y in h && y != x && y != ROOT && h[y].live
    ensures Nested(Split(h, p, c, x, m, n, b, l, k, v)[y], Split(h, p, c, x, m, n, b, l, k, v)[z])
  {
    hide TreeInv;
    var g := Split(h, p, c, x, m, n, b, l, k, v);
    PairNested(h, x, y);
    PairNested(h, y, x);
    var q, t := h[x].path, Tail(h[x]);
    if g[y].path <= g[z].path {
      assert q <= g[z].path;
      Comparable(q, h[y].path, g[z].path);
      assert h[y].path <= q;
    }
  }

  lemma ForkOk(n: Node, m: nat, x: Id, b: Byte, l: Id, k: Key)
    requires m < |Tail(n)| && Tail(n)[m] != b && n.path + Tail(n)[..m] + [b] <= k
    ensures NodeOk(Fork(n, m, x, b, l))
  {
    var kids: map<Byte, Id> := map[Tail(n)[m] := x, b := l];
    assert kids.Keys == {Tail(n)[m], b} && |kids| == |kids.Keys|;
    assert |n.path + Tail(n)[..m] + [b]| <= KEY_BYTES;
  }

  lemma LoweredOk(n: Node, m: nat)
    requires m < |Tail(n)| && NodeOk(n)
    ensures NodeOk(Lowered(n, m))
  {
    match n.body
    case Leaf(key, _) =>
      assert key == n.path + Tail(n);
      assert n.path + Tail(n)[..m + 1] == key[..|n.path| + m + 1];
    case Inode(_, _, _) => LoweredStem(n, m);
    case _ =>
  }

  lemma SplitKeepsNodes(h: Heap, p: Id, c: Byte, x: Id, m: nat, n: Id, b: Byte, l: Id, k: Key, v: Value, y: Id)
    requires TreeInv(h) && CanSplit(h, p, c, x, m, n, b, l, k)
    requires y in Split(h, p, c, x, m, n, b, l, k, v) && Split(h, p, c, x, m, n, b, l, k, v)[y].live
    ensures NodeOk(Split(h, p, c, x, m, n, b, l, k, v)[y])
  {
    hide TreeInv;
    LiveNode(h, p);
    if y == n {
      ForkOk(h[x], m, x, b, l, k);
    } else if y == x {
      LiveNode(h, x);
      LoweredOk(h[x], m);
    } else if y == p {
      PutKidOk(h[p], c, n);
    } else if y != l {
      LiveNode(h, y);
    }
  }

  lemma PutKidOk(n: Node, b: Byte, x: Id)
    requires NodeOk(n) && !n.body.Leaf? && b in n.body.kids
    ensures NodeOk(PutKid(n, b, x))
  {
    assert PutKid(n, b, x).body.kids.Keys == n.body.kids.Keys;
    assert |PutKid(n, b, x).body.kids.Keys| == |n.body.kids.Keys|;
  }

  lemma SplitKeepsKids(h: Heap, p: Id, c: Byte, x: Id, m: nat, n: Id, b: Byte, l: Id, k: Key, v: Value, y: Id, d: Byte)
    requires TreeInv(h) && CanSplit(h, p, c, x, m, n, b, l, k)
    requires var g := Split(h, p, c, x, m, n, b, l, k, v);
      y in g && g[y].live && !g[y].body.Leaf? && d in g[y].body.kids
    ensures KidOk(Split(h, p, c, x, m, n, b, l, k, v), y, d)
  {
    hide TreeInv, Split;
    LiveKid(h, p, c);
    SplitAt(h, p, c, x, m, n, b, l, k, v, y);
    SplitAt(h, p, c, x, m, n, b, l, k, v, n);
    SplitAt(h, p, c, x, m, n, b, l, k, v, l);
    SplitAt(h, p, c, x, m, n, b, l, k, v, x);
    if y == n {
      assert h[x].path + Tail(h[x])[..m + 1] == h[x].path + Tail(h[x])[..m] + [Tail(h[x])[m]];
    } else if !(y == p && d == c) {
      SplitKeepsOldKid(h, p, c, x, m, n, b, l, k, v, y, d);
    }
  }

  lemma SplitKeepsOldKid(h: Heap, p: Id, c: Byte, x: Id, m: nat, n: Id, b: Byte, l: Id, k: Key, v: Value, y: Id, d: Byte)
    requires TreeInv(h) && CanSplit(h, p, c, x, m, n, b, l, k) && !(y == p && d == c)
    requires y in h && h[y].live && !h[y].body.Leaf? && d in h[y].body.kids
    ensures KidOk(Split(h, p, c, x, m, n, b, l, k, v), y, d)
  {
    hide TreeInv;
    LiveKid(h, y, d);
    if h[y].body.kids[d] == x { OneParent(h, y, d, p, c); }
    if y == x { LoweredStem(h[x], m); }
  }

  lemma SplitKeepsRoot(h: Heap, p: Id, c: Byte, x: Id, m: nat, n: Id, b: Byte, l: Id, k: Key, v: Value)
    requires TreeInv(h) && CanSplit(h, p, c, x, m, n, b, l, k)
    ensures RootOk(Split(h, p, c, x, m, n, b, l, k, v)) && TopOk(Split(h, p, c, x, m, n, b, l, k, v))
  {
    LiveRoot(h);
    hide TreeInv, Split;
    LiveTop(h, x);
    var g := Split(h, p, c, x, m, n, b, l, k, v);
    SplitAt(h, p, c, x, m, n, b, l, k, v, ROOT);
    forall y | y in g && y != ROOT ensures !g[y].body.RootPointer? {
      SplitAt(h, p, c, x, m, n, b, l, k, v, y);
    }
  }

  lemma SplitKeepsTree(h: Heap, p: Id, c: Byte, x: Id, m: nat, n: Id, b: Byte, l: Id, k: Key, v: Value)
    requires TreeInv(h) && CanSplit(h, p, c, x, m, n, b, l, k)
    ensures TreeInv(Split(h, p, c, x, m, n, b, l, k, v))
  {
    SplitKeepsRoot(h, p, c, x, m, n, b, l, k, v);
    var g := Split(h, p, c, x, m, n, b, l, k, v);
    hide Nested, NodeOk, KidOk, RootOk, Split;
    forall y, z | y in g && z in g && y != z && y != ROOT && z != ROOT && g[y].live && g[z].live
      ensures Nested(g[y], g[z])
    {
      SplitNests(h, p, c, x, m, n, b, l, k, v, y, z);
    }
    forall y | y in g && g[y].live ensures NodeOk(g[y]) {
      SplitKeepsNodes(h, p, c, x, m, n, b, l, k, v, y);
    }
    forall y, d | y in g && g[y].live && !g[y].body.Leaf? && d in g[y].body.kids ensures KidOk(g, y, d) {
      SplitKeepsKids(h, p, c, x, m, n, b, l, k, v, y, d);
    }
  }

  // ---- a larger copy of a full inner node ----------------------------------------------------

  function LargerCapacity(capacity: nat): nat {
    if capacity == 4 then 16 else if capacity == 16 then 48 else 256
  }

  /** The larger node takes over path, prefix and children; the old one leaves the tree. */
  function Move(h: Heap, p: Id, c: Byte, x: Id, n: Id): Heap
    requires p in h && !h[p].body.Leaf? && x in h && h[x].body.Inode?
  {
    h[n := h[x].(lock := Free(0), body := h[x].body.(capacity := LargerCapacity(h[x].body.capacity)))]
     [x := h[x].(live := false)]
     [p := PutKid(h[p], c, n)]
  }

  function GrowInto(h: Heap, p: Id, c: Byte, x: Id, n: Id, b: Byte, l: Id, k: Key, v: Value): Heap
    requires p in h && !h[p].body.Leaf? && x in h && h[x].body.Inode?
    requires p != x && n != p && n != x
  {
    Add(Move(h, p, c, x, n), n, b, l, k, v)
  }

  ghost predicate CanMove(h: Heap, p: Id, c: Byte, x: Id, n: Id) {
    && Link(h, p, c, x) && x in h && x != p && x != ROOT && h[x].live && h[x].body.Inode? && h[x].body.capacity < 256
    && Fresh(h, n)
  }

  lemma MoveAt(h: Heap, p: Id, c: Byte, x: Id, n: Id, y: Id)
    requires CanMove(h, p, c, x, n)
    ensures y in Move(h, p, c, x, n) <==> y in h || y == n
    ensures y in Move(h, p, c, x, n) ==>
      Move(h, p, c, x, n)[y] ==
        if y == p then PutKid(h[p], c, n)
        else if y == x then h[x].(live := false)
        else if y == n then h[x].(lock := Free(0), body := h[x].body.(capacity := LargerCapacity(h[x].body.capacity)))
        else h[y]
  {
    hide PutKid;
  }

  lemma MoveNests(h: Heap, p: Id, c: Byte, x: Id, n: Id, y: Id, z: Id)
    requires TreeInv(h) && CanMove(h, p, c, x, n)
    requires var g := Move(h, p, c, x, n);
      y in g && z in g && y != z && y != ROOT && z != ROOT && g[y].live && g[z].live
    ensures Nested(Move(h, p, c, x, n)[y], Move(h, p, c, x, n)[z])
  {
    hide TreeInv;
    PairNested(h, if y == n then x else y, if z == n then x else z);
  }

  lemma MoveKeepsNodes(h: Heap, p: Id, c: Byte, x: Id, n: Id, y: Id)
    requires TreeInv(h) && CanMove(h, p, c, x, n)
    requires y in Move(h, p, c, x, n) && Move(h, p, c, x, n)[y].live
    ensures NodeOk(Move(h, p, c, x, n)[y])
  {
    hide TreeInv;
    LiveNode(h, if y == n then x else y);
    if y == p { PutKidOk(h[p], c, n); }
  }

  lemma MoveKeepsKids(h: Heap, p: Id, c: Byte, x: Id, n: Id, y: Id, d: Byte)
    requires TreeInv(h) && CanMove(h, p, c, x, n)
    requires var g := Move(h, p, c, x, n);
      y in g && g[y].live && !g[y].body.Leaf? && d in g[y].body.kids
    ensures KidOk(Move(h, p, c, x, n), y, d)
  {
    hide TreeInv, Move;
    LiveKid(h, p, c);
    MoveAt(h, p, c, x, n, y);
    MoveAt(h, p, c, x, n, n);
    if !(y == p && d == c) {
      var was := if y == n then x else y;
      LiveKid(h, was, d);
      if h[was].body.kids[d] == x { OneParent(h, was, d, p, c); }
      MoveAt(h, p, c, x, n, h[was].body.kids[d]);
    }
  }

  lemma MoveKeepsRoot(h: Heap, p: Id, c: Byte, x: Id, n: Id)
    requires TreeInv(h) && CanMove(h, p, c, x, n)
    ensures RootOk(Move(h, p, c, x, n)) && TopOk(Move(h, p, c, x, n))
  {
    LiveRoot(h);
    hide TreeInv, Move;
    LiveTop(h, x);
    var g := Move(h, p, c, x, n);
    MoveAt(h, p, c, x, n, ROOT);
    forall y | y in g && y != ROOT ensures !g[y].body.RootPointer? {
      MoveAt(h, p, c, x, n, y);
    }
  }

  lemma MoveKeepsTree(h: Heap, p: Id, c: Byte, x: Id, n: Id)
    requires TreeInv(h) && CanMove(h, p, c, x, n)
    ensures TreeInv(Move(h, p, c, x, n))
  {
    MoveKeepsRoot(h, p, c, x, n);
    var g := Move(h, p, c, x, n);
    hide Nested, NodeOk, KidOk, RootOk, Move;
    forall y, z | y in g && z in g && y != z && y != ROOT && z != ROOT && g[y].live && g[z].live
      ensures Nested(g[y], g[z])
    {
      MoveNests(h, p, c, x, n, y, z);
    }
    forall y | y in g && g[y].live ensures NodeOk(g[y]) {
      MoveKeepsNodes(h, p, c, x, n, y);
    }
    forall y, d | y in g && g[y].live && !g[y].body.Leaf? && d in g[y].body.kids ensures KidOk(g, y, d) {
      MoveKeepsKids(h, p, c, x, n, y, d);
    }
  }

  lemma GrowKeepsTree(h: Heap, p: Id, c: Byte, x: Id, n: Id, b: Byte, l: Id, k: Key, v: Value)
    requires TreeInv(h) && CanMove(h, p, c, x, n) && Fresh(h, l) && l != n
    requires b !in h[x].body.kids && ChildPath(h[x], b) <= k && |h[x].body.kids| == h[x].body.capacity
    ensures TreeInv(GrowInto(h, p, c, x, n, b, l, k, v))
  {
    hide TreeInv;
    LiveNode(h, x);
    MoveKeepsTree(h, p, c, x, n);
    MoveAt(h, p, c, x, n, n);
    MoveAt(h, p, c, x, n, l);
    hide Move;
    AddKeepsTree(Move(h, p, c, x, n), n, b, l, k, v);
  }

  // ---- the stored map ----------------------------------------------------------------------

  /** `g` has the live leaves of `h` with their keys and values, and one more: `l`, storing `v` under `k`. */
  ghost predicate OneMoreLeaf(h: Heap, g: Heap, l: Id, k: Key, v: Value) {
    && l !in h && l in g && g[l].live && g[l].body == Leaf(k, v)
    && (forall x :: x in h && h[x].live && h[x].body.Leaf? ==> x in g && g[x].live && g[x].body == h[x].body)
    && (forall x :: x in g && x != l && g[x].live && g[x].body.Leaf? ==> x in h && h[x].live && h[x].body.Leaf?)
  }

  lemma AgreeWithOneMore(h: Heap, g: Heap, w: map<Key, Id>, m: map<Key, Value>, l: Id, k: Key, v: Value)
    requires Agree(h, w, m) && OneMoreLeaf(h, g, l, k, v) && k !in m
    ensures Agree(g, w[k := l], m[k := v])
  {
  }
}

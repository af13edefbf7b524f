/** The sequential adaptive radix tree of art.hpp as a value: nodes, the invariant every tree has, and
    what lookup, insert and remove make of a tree. */
module ArtTree {
  import opened ArtKey

  datatype NodeType = I4 | I16 | I48 | I256

  /** An inner node lists its children by increasing key byte; the four layouts differ in how they store that list. */
  datatype Node =
    | Leaf(key: Key, val: Value)
    | Inode(ty: NodeType, prefix: seq<Byte>, kids: seq<Edge>)

  datatype Edge = Edge(byte: Byte, node: Node)

  function Capacity(ty: NodeType): nat {
    match ty case I4 => 4 case I16 => 16 case I48 => 48 case I256 => 256
  }

  function MinSize(ty: NodeType): nat {
    match ty case I4 => 2 case I16 => 5 case I48 => 17 case I256 => 49
  }

  function Larger(ty: NodeType): NodeType {
    match ty case I4 => I16 case I16 => I48 case I48 => I256 case I256 => I256
  }

  function Smaller(ty: NodeType): NodeType {
    match ty case I4 => I4 case I16 => I4 case I48 => I16 case I256 => I48
  }

  // ---- the invariant ---------------------------------------------------------------------------

  ghost predicate Sorted(kids: seq<Edge>) {
    forall i, j :: 0 <= i < j < |kids| ==> kids[i].byte < kids[j].byte
  }

  /** An inner node reached after `depth` bytes: its prefix and one more byte fit into the key, and its type is the
      one its number of children calls for. */
  ghost predicate InodeOk(n: Node, depth: nat) {
    && n.Inode? && depth + |n.prefix| < KEY_BYTES && Sorted(n.kids)
    && MinSize(n.ty) <= |n.kids| <= Capacity(n.ty)
  }

  function KidPath(n: Node, path: seq<Byte>, i: nat): seq<Byte>
    requires n.Inode? && i < |n.kids|
  {
    path + n.prefix + [n.kids[i].byte]
  }

  ghost predicate Wf(n: Node, path: seq<Byte>)
    decreases n
  {
    if n.Leaf? then path <= n.key
    else InodeOk(n, |path|) && forall i :: 0 <= i < |n.kids| ==> Wf(n.kids[i].node, KidPath(n, path, i))
  }

  // ---- lookup ------------------------------------------------------------------------------------

  /** The index of the child for `b`, or the number of children when there is none. */
  function Find(kids: seq<Edge>, b: Byte): (i: nat)
    ensures i <= |kids| && forall j :: 0 <= j < i ==> kids[j].byte != b
    ensures i < |kids| ==> kids[i].byte == b
  {
    if kids == [] || kids[0].byte == b then 0 else 1 + Find(kids[1..], b)
  }

  /** How many children have smaller key bytes than `b`: where a child for `b` belongs. */
  function Rank(kids: seq<Edge>, b: Byte): (i: nat)
    ensures i <= |kids|
  {
    if kids == [] then 0 else Rank(kids[..|kids| - 1], b) + if kids[|kids| - 1].byte < b then 1 else 0
  }

  predicate PrefixMatches(n: Node, k: Key, d: nat)
    requires n.Inode?
  {
    Common(n.prefix, Rest(k, d)) == |n.prefix|
  }

  /** The key byte that chooses a child of an inner node reached after `d` bytes. */
  function NextByte(n: Node, k: Key, d: nat): Byte
    requires n.Inode?
  {
    KeyByte(k, d + |n.prefix|)
  }

  function ChildIndex(n: Node, k: Key, d: nat): nat
    requires n.Inode?
  {
    Find(n.kids, NextByte(n, k, d))
  }

  predicate HasChild(n: Node, k: Key, d: nat)
    requires n.Inode?
  {
    PrefixMatches(n, k, d) && ChildIndex(n, k, d) < |n.kids|
  }

  function Lookup(n: Node, k: Key, d: nat): Option<Value>
    decreases n
  {
    match n
    case Leaf(key, val) => if key == k then Some(val) else None
    case Inode(_, prefix, kids) =>
      if HasChild(n, k, d) then Lookup(kids[ChildIndex(n, k, d)].node, k, d + |prefix| + 1) else None
  }

  // ---- insert --------------------------------------------------------------------------------------

  /** add_two_to_empty: a four-way node with two children in byte order. */
  function Two(prefix: seq<Byte>, e: Edge, f: Edge): Node {
    Inode(I4, prefix, if e.byte < f.byte then [e, f] else [f, e])
  }

  /** The new node for a leaf whose key differs from `k` after depth `d`. */
  function SplitLeaf(n: Node, k: Key, v: Value, d: nat): Node
    requires n.Leaf?
  {
    var m := Common(Rest(n.key, d), Rest(k, d));
    Two(Rest(k, d)[..m], Edge(KeyByte(n.key, d + m), n), Edge(KeyByte(k, d + m), Leaf(k, v)))
  }

  /** The new node above an inner node whose prefix differs from the key: the shared bytes become its prefix, and
      the old node keeps what follows the byte that tells them apart. */
  function SplitPrefix(n: Node, k: Key, v: Value, d: nat): Node
    requires n.Inode? && !PrefixMatches(n, k, d)
  {
    var m := Common(n.prefix, Rest(k, d));
    Two(n.prefix[..m], Edge(n.prefix[m], n.(prefix := n.prefix[m + 1..])), Edge(KeyByte(k, d + m), Leaf(k, v)))
  }

  /** A new child, in a node of the next larger type when the node is full. */
  function AddKid(n: Node, e: Edge): Node
    requires n.Inode?
  {
    var i := Rank(n.kids, e.byte);
    Inode(if |n.kids| == Capacity(n.ty) then Larger(n.ty) else n.ty, n.prefix, n.kids[..i] + [e] + n.kids[i..])
  }

  function SetKid(n: Node, i: nat, kid: Node): Node
    requires n.Inode? && i < |n.kids|
  {
    n.(kids := n.kids[i := Edge(n.kids[i].byte, kid)])
  }

  function Insert(n: Node, k: Key, v: Value, d: nat): Node
    decreases n
  {
    match n
    case Leaf(key, _) => if key == k then n else SplitLeaf(n, k, v, d)
    case Inode(_, prefix, kids) =>
      if !PrefixMatches(n, k, d) then SplitPrefix(n, k, v, d)
      else if HasChild(n, k, d) then
        var i := ChildIndex(n, k, d);
        SetKid(n, i, Insert(kids[i].node, k, v, d + |prefix| + 1))
      else AddKid(n, Edge(NextByte(n, k, d), Leaf(k, v)))
  }

  // ---- remove --------------------------------------------------------------------------------------

  /** The child left of a smallest four-way node takes its place; an inner node absorbs prefix and key byte. */
  function LeaveLast(n: Node, i: nat): Node
    requires n.Inode? && |n.kids| == 2 && i < 2
  {
    var last := n.kids[1 - i];
    if last.node.Leaf? then last.node else last.node.(prefix := n.prefix + [last.byte] + last.node.prefix)
  }

  /** The node without child `i`: as its other child, in a node of the next smaller type, or in place. */
  function DropKid(n: Node, i: nat): Node
    requires n.Inode? && i < |n.kids|
  {
    if |n.kids| == MinSize(n.ty) && n.ty == I4 then LeaveLast(n, i)
    else
      Inode(if |n.kids| == MinSize(n.ty) then Smaller(n.ty) else n.ty, n.prefix, n.kids[..i] + n.kids[i + 1..])
  }

  /** The leaf of `k` is removed by its parent; a leaf at the root is left to the caller. */
  function Remove(n: Node, k: Key, d: nat): Node
    decreases n
  {
    if n.Leaf? || !HasChild(n, k, d) then n
    else
      var i := ChildIndex(n, k, d);
      var kid := n.kids[i].node;
      if kid.Inode? then SetKid(n, i, Remove(kid, k, d + |n.prefix| + 1))
      else if kid.key == k then DropKid(n, i)
      else n
  }

  // ---- whole trees ------------------------------------------------------------------------------------

  function InsertRoot(root: Option<Node>, k: Key, v: Value): Option<Node> {
    Some(if root.None? then Leaf(k, v) else Insert(root.value, k, v, 0))
  }

  function RemoveRoot(root: Option<Node>, k: Key): Option<Node> {
    if root.Some? && root.value.Inode? then Some(Remove(root.value, k, 0))
    else if root.Some? && root.value.key == k then None
    else root
  }

  // ---- basic facts -----------------------------------------------------------------------------------

  lemma WfKid(n: Node, path: seq<Byte>, i: nat)
    requires Wf(n, path) && n.Inode? && i < |n.kids|
    ensures InodeOk(n, |path|) && Wf(n.kids[i].node, KidPath(n, path, i))
  {
  }

  lemma WfShape(n: Node, path: seq<Byte>)
    requires Wf(n, path)
    ensures if n.Leaf? then path <= n.key else InodeOk(n, |path|)
  {
  }

  lemma WfInode(n: Node, path: seq<Byte>)
    requires InodeOk(n, |path|)
    requires forall i :: 0 <= i < |n.kids| ==> Wf(n.kids[i].node, KidPath(n, path, i))
    ensures Wf(n, path)
  {
  }

  lemma {:induction false} FindUnique(kids: seq<Edge>, b: Byte, i: nat)
    requires Sorted(kids) && i < |kids| && kids[i].byte == b
    ensures Find(kids, b) == i
  {
  }

  /** In a sorted list the rank splits smaller from larger bytes. */
  lemma {:induction false} RankSplits(kids: seq<Edge>, b: Byte)
    requires Sorted(kids)
    ensures forall i :: 0 <= i < Rank(kids, b) ==> kids[i].byte < b
    ensures forall i :: Rank(kids, b) <= i < |kids| ==> kids[i].byte >= b
  {
    if kids != [] {
      RankSplits(kids[..|kids| - 1], b);
    }
  }

  /** A descent that matches the prefix consumes exactly the bytes of the child's path. */
  lemma Descends(n: Node, path: seq<Byte>, k: Key)
    requires InodeOk(n, |path|) && path <= k
    ensures PrefixMatches(n, k, |path|) <==> path + n.prefix <= k
    ensures PrefixMatches(n, k, |path|) ==> path + n.prefix + [NextByte(n, k, |path|)] <= k
  {
    SharedBytes(n.prefix, path, k);
    if PrefixMatches(n, k, |path|) {
      var e := |path| + |n.prefix|;
      assert path + n.prefix == k[..e];
      assert k[..e + 1] == k[..e] + [k[e]];
    }
  }

  /** What a tree stores, it stores below its path and prefix. */
  lemma {:induction false} StoredBelow(n: Node, path: seq<Byte>, k: Key)
    requires Wf(n, path) && path <= k && Lookup(n, k, |path|).Some?
    ensures n.Inode? ==> HasChild(n, k, |path|) && KidPath(n, path, ChildIndex(n, k, |path|)) <= k
    ensures n.Leaf? ==> n.key == k
  {
    if n.Inode? {
      Descends(n, path, k);
    }
  }
}

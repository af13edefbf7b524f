/** Whole histories of the sequential index: whatever the operations, the tree is the one tree for the map. */
module ArtHistory {
  import opened ArtKey
  import opened ArtTree
  import opened ArtUpdate
  import opened ArtOrder
  import opened ArtCanonical
  import opened ArtStats
  import opened ArtMemory
  import opened ArtDb

  datatype Op = Put(key: Key, val: Value) | Delete(key: Key) | Clear

  function TreeAfter(ops: seq<Op>): Option<Node> {
    if ops == [] then None else StepTree(TreeAfter(ops[..|ops| - 1]), ops[|ops| - 1])
  }

  function StepTree(root: Option<Node>, op: Op): Option<Node> {
    match op
    case Put(k, v) => InsertRoot(root, k, v)
    case Delete(k) => RemoveRoot(root, k)
    case Clear => None
  }

  function MapAfter(ops: seq<Op>): map<Key, Value> {
    if ops == [] then map[] else StepMap(MapAfter(ops[..|ops| - 1]), ops[|ops| - 1])
  }

  function StepMap(m: map<Key, Value>, op: Op): map<Key, Value> {
    match op
    case Put(k, v) => if k in m then m else m[k := v]
    case Delete(k) => m - {k}
    case Clear => map[]
  }

  ghost predicate TreeOk(root: Option<Node>) {
    root.Some? ==> Wf(root.value, [])
  }

  lemma StepRefines(root: Option<Node>, op: Op)
    requires TreeOk(root)
    ensures TreeOk(StepTree(root, op)) && Contents(StepTree(root, op)) == StepMap(Contents(root), op)
  {
    match op
    case Put(k, v) =>
      if root.Some? {
        InsertWf(root.value, [], k, v);
        ContentsOfInsert(root.value, k, v);
        hide Contents;
      } else {
        OneItem(k, v);
      }
    case Delete(k) =>
      if root.Some? && root.value.Inode? {
        RemoveWf(root.value, [], k);
        ContentsOfRemove(root.value, k);
        hide Contents;
      } else if root.Some? {
        OneItem(root.value.key, root.value.val);
      }
    case Clear =>
  }

  /** After any history the tree is well formed and stores exactly the map. */
  lemma {:induction false} Refines(ops: seq<Op>)
    ensures TreeOk(TreeAfter(ops)) && Contents(TreeAfter(ops)) == MapAfter(ops)
  {
    if ops != [] {
      Refines(ops[..|ops| - 1]);
      hide TreeOk, Contents, StepTree, StepMap;
      StepRefines(TreeAfter(ops[..|ops| - 1]), ops[|ops| - 1]);
    }
  }

  lemma OneTreePerMap(a: Option<Node>, b: Option<Node>)
    requires TreeOk(a) && TreeOk(b) && Contents(a) == Contents(b)
    ensures a == b
  {
    if a.Some? && b.Some? {
      hide Contents;
      forall j: Key | [] <= j ensures Lookup(a.value, j, 0) == Lookup(b.value, j, 0) {
        LookupIsEntry(a.value, j);
        LookupIsEntry(b.value, j);
      }
      Canonical(a.value, b.value, []);
    } else if a.Some? {
      NotEmpty(a.value);
    } else if b.Some? {
      NotEmpty(b.value);
    }
  }

  lemma NotEmpty(n: Node)
    requires Wf(n, [])
    ensures Contents(Some(n)) != map[]
  {
    FlatIncreasing(n, []);
    LookupIsEntry(n, FirstKey(n));
    hide MapOf, Flat;
  }

  /** Histories that end in the same map end in the same tree, node types and prefixes included. */
  lemma HistoryIndependent(one: seq<Op>, other: seq<Op>)
    requires MapAfter(one) == MapAfter(other)
    ensures TreeAfter(one) == TreeAfter(other)
  {
    Refines(one);
    Refines(other);
    hide TreeOk, Contents, TreeAfter, MapAfter;
    OneTreePerMap(TreeAfter(one), TreeAfter(other));
  }

  // ---- leaves --------------------------------------------------------------------------------------

  /** The leaf counter is the size of the map, after any history. */
  lemma LeafCountIsMapSize(root: Option<Node>, s: Stats, sinceG: Counters, sinceS: Counters)
    requires TreeOk(root) && StatsOk(root, s, sinceG, sinceS)
    ensures s.leaves == |Contents(root)|
  {
    if root.Some? {
      LeavesAreItems(root.value);
      LookupIsEntry(root.value, FirstKey(root.value));
    }
  }

  // ---- node types ----------------------------------------------------------------------------------

  /** Every inner node is of the type for its number of children. */
  ghost predicate TypesFit(n: Node)
    decreases n
  {
    n.Inode? ==>
      && (match n.ty
          case I4 => 2 <= |n.kids| <= 4
          case I16 => 5 <= |n.kids| <= 16
          case I48 => 17 <= |n.kids| <= 48
          case I256 => 49 <= |n.kids| <= 256)
      && forall i :: 0 <= i < |n.kids| ==> TypesFit(n.kids[i].node)
  }

  lemma {:induction false} WfTypesFit(n: Node, path: seq<Byte>)
    requires Wf(n, path)
    ensures TypesFit(n)
    decreases n
  {
    if n.Inode? {
      forall i | 0 <= i < |n.kids| ensures TypesFit(n.kids[i].node) {
        WfKid(n, path, i);
        WfTypesFit(n.kids[i].node, KidPath(n, path, i));
      }
    }
  }

  /** After any history, four-way nodes have 2 to 4 children, sixteen-way nodes 5 to 16, and so on. */
  lemma SizesByType(ops: seq<Op>)
    ensures TreeAfter(ops).Some? ==> TypesFit(TreeAfter(ops).value)
  {
    Refines(ops);
    if TreeAfter(ops).Some? { WfTypesFit(TreeAfter(ops).value, []); }
  }
}

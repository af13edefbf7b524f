/** Node counts and memory use: what each kind of change to the tree adds and takes away. */
module ArtStats {
  import opened ArtKey
  import opened ArtTree
  import opened ArtUpdate

  /** What can be added up over the nodes of a tree. */
  datatype Metric = Leaves | LeafBytes | Inodes(ty: NodeType)

  /** Size of a leaf: two four-byte sizes, the key, the value, and the remainder of the fixed part. */
  function LeafSize(val: Value): nat {
    12 + KEY_BYTES + |val| - 1
  }

  const SIZE_I4: nat := 48
  const SIZE_I16: nat := 160
  const SIZE_I48: nat := 656
  const SIZE_I256: nat := 2064

  function InodeSize(ty: NodeType): nat {
    match ty case I4 => SIZE_I4 case I16 => SIZE_I16 case I48 => SIZE_I48 case I256 => SIZE_I256
  }

  function Total(n: Node, w: Metric): nat
    decreases n
  {
    match n
    case Leaf(_, val) => if w.Leaves? then 1 else if w.LeafBytes? then LeafSize(val) else 0
    case Inode(ty, _, kids) => (if w == Inodes(ty) then 1 else 0) + SumKids(kids, w)
  }

  function SumKids(kids: seq<Edge>, w: Metric): nat
    decreases kids
  {
    if kids == [] then 0 else SumKids(kids[..|kids| - 1], w) + EdgeTotal(kids[|kids| - 1], w)
  }

  function EdgeTotal(e: Edge, w: Metric): nat
    decreases e
  {
    Total(e.node, w)
  }

  lemma {:induction false} SumConcat(a: seq<Edge>, b: seq<Edge>, w: Metric)
    ensures SumKids(a + b, w) == SumKids(a, w) + SumKids(b, w)
    decreases |b|
  {
    if b == [] {
      assert a + b == a;
    } else {
      SumConcat(a, b[..|b| - 1], w);
      assert (a + b)[..|a + b| - 1] == a + b[..|b| - 1];
    }
  }

  lemma SumAround(kids: seq<Edge>, i: nat, w: Metric)
    requires i < |kids|
    ensures SumKids(kids, w) == SumKids(kids[..i], w) + Total(kids[i].node, w) + SumKids(kids[i + 1..], w)
  {
    assert kids == kids[..i] + ([kids[i]] + kids[i + 1..]);
    SumConcat(kids[..i], [kids[i]] + kids[i + 1..], w);
    SumConcat([kids[i]], kids[i + 1..], w);
    SumOne(kids[i], w);
  }

  lemma SumOne(e: Edge, w: Metric)
    ensures SumKids([e], w) == Total(e.node, w)
  {
    assert [e][..0] == [];
  }

  // ---- changes -------------------------------------------------------------------------------------

  /** What an insert or remove does to the nodes; exactly one of these happens. */
  datatype Change =
    | Unchanged
    | ForkLeaf                  // a leaf becomes a four-way node over two leaves
    | ForkPrefix                // a four-way node above an inner node whose prefix is split
    | AddInPlace
    | GrowTo(ty: NodeType)      // a full node is replaced by one of this type
    | RemoveInPlace
    | ShrinkFrom(ty: NodeType)  // a smallest node of this type is replaced by a smaller one, or by its last child

  function InsertChange(n: Node, k: Key, d: nat): Change
    decreases n
  {
    match n
    case Leaf(key, _) => if key == k then Unchanged else ForkLeaf
    case Inode(ty, prefix, kids) =>
      if !PrefixMatches(n, k, d) then ForkPrefix
      else if HasChild(n, k, d) then InsertChange(kids[ChildIndex(n, k, d)].node, k, d + |prefix| + 1)
      else if |kids| == Capacity(ty) then GrowTo(Larger(ty))
      else AddInPlace
  }

  function RemoveChange(n: Node, k: Key, d: nat): Change
    decreases n
  {
    if n.Leaf? || !HasChild(n, k, d) then Unchanged
    else
      var kid := n.kids[ChildIndex(n, k, d)].node;
      if kid.Inode? then RemoveChange(kid, k, d + |n.prefix| + 1)
      else if kid.key != k then Unchanged
      else if |n.kids| == MinSize(n.ty) then ShrinkFrom(n.ty)
      else RemoveInPlace
  }

  /** What a change adds to a metric; `val` is the value that comes or goes. */
  function Delta(c: Change, val: Value, w: Metric): int {
    var leaf := if w.Leaves? then 1 else if w.LeafBytes? then LeafSize(val) else 0;
    match c
    case Unchanged => 0
    case ForkLeaf => leaf + (if w == Inodes(I4) then 1 else 0)
    case ForkPrefix => leaf + (if w == Inodes(I4) then 1 else 0)
    case AddInPlace => leaf
    case GrowTo(ty) => leaf + (if w == Inodes(ty) then 1 else 0) - (if w == Inodes(Smaller(ty)) then 1 else 0)
    case RemoveInPlace => -leaf
    case ShrinkFrom(ty) =>
      -leaf - (if w == Inodes(ty) then 1 else 0) + (if ty != I4 && w == Inodes(Smaller(ty)) then 1 else 0)
  }

  lemma TwoTotal(prefix: seq<Byte>, e: Edge, f: Edge, w: Metric)
    ensures Total(Two(prefix, e, f), w)
            == Total(e.node, w) + Total(f.node, w) + if w == Inodes(I4) then 1 else 0
  {
    SumConcat([e], [f], w);
    SumConcat([f], [e], w);
    SumOne(e, w);
    SumOne(f, w);
    assert [e] + [f] == [e, f] && [f] + [e] == [f, e];
  }

  lemma SumInserted(kids: seq<Edge>, r: nat, e: Edge, w: Metric)
    requires r <= |kids|
    ensures SumKids(kids[..r] + [e] + kids[r..], w) == SumKids(kids, w) + Total(e.node, w)
  {
    assert kids == kids[..r] + kids[r..];
    SumConcat(kids[..r], kids[r..], w);
    SumConcat(kids[..r] + [e], kids[r..], w);
    SumConcat(kids[..r], [e], w);
    SumOne(e, w);
  }

  /** A new leaf under an inner node: in place, or in the next larger node. */
  lemma AddKidTotal(n: Node, b: Byte, k: Key, v: Value, w: Metric)
    requires n.Inode? && (|n.kids| == Capacity(n.ty) ==> n.ty != I256)
    ensures
      Total(AddKid(n, Edge(b, Leaf(k, v))), w) ==
        Total(n, w) + Delta(if |n.kids| == Capacity(n.ty) then GrowTo(Larger(n.ty)) else AddInPlace, v, w)
  {
    var e := Edge(b, Leaf(k, v));
    var g, r := AddKid(n, e), Rank(n.kids, b);
    SumInserted(n.kids, r, e, w);
    assert SumKids(g.kids, w) == SumKids(n.kids, w) + Total(e.node, w);
    hide SumKids, Rank;
  }

  lemma SetKidTotal(n: Node, i: nat, kid: Node, w: Metric)
    requires n.Inode? && i < |n.kids|
    ensures Total(SetKid(n, i, kid), w) == Total(n, w) - Total(n.kids[i].node, w) + Total(kid, w)
  {
    var g := SetKid(n, i, kid);
    SumAround(g.kids, i, w);
    SumAround(n.kids, i, w);
    assert g.kids[..i] == n.kids[..i] && g.kids[i + 1..] == n.kids[i + 1..];
  }

  /** The change an insert makes accounts for every count exactly. */
  lemma {:induction false} InsertTotal(n: Node, path: seq<Byte>, k: Key, v: Value, w: Metric)
    requires Wf(n, path) && path <= k
    ensures Total(Insert(n, k, v, |path|), w) == Total(n, w) + Delta(InsertChange(n, k, |path|), v, w)
    ensures InsertChange(n, k, |path|) == Unchanged <==> Lookup(n, k, |path|).Some?
    decreases n
  {
    hide Wf, Total, Find, Common, Rank, SplitLeaf, SplitPrefix, AddKid, SetKid;
    var d := |path|;
    if n.Leaf? {
      ForkLeafTotal(n, k, v, d, w);
    } else if !PrefixMatches(n, k, d) {
      ForkPrefixTotal(n, k, v, d, w);
    } else if HasChild(n, k, d) {
      var i := ChildIndex(n, k, d);
      WfKid(n, path, i);
      NotVia(n, path, k);
      InsertTotal(n.kids[i].node, KidPath(n, path, i), k, v, w);
      SetKidTotal(n, i, Insert(n.kids[i].node, k, v, d + |n.prefix| + 1), w);
    } else {
      WfShape(n, path);
      RoomForOne(n, NextByte(n, k, d));
      AddKidTotal(n, NextByte(n, k, d), k, v, w);
    }
  }

  lemma ForkLeafTotal(n: Node, k: Key, v: Value, d: nat, w: Metric)
    requires n.Leaf?
    ensures Total(SplitLeaf(n, k, v, d), w) == Total(n, w) + Delta(ForkLeaf, v, w)
  {
    var m := Common(Rest(n.key, d), Rest(k, d));
    TwoTotal(Rest(k, d)[..m], Edge(KeyByte(n.key, d + m), n), Edge(KeyByte(k, d + m), Leaf(k, v)), w);
  }

  lemma ForkPrefixTotal(n: Node, k: Key, v: Value, d: nat, w: Metric)
    requires n.Inode? && !PrefixMatches(n, k, d)
    ensures Total(SplitPrefix(n, k, v, d), w) == Total(n, w) + Delta(ForkPrefix, v, w)
  {
    var m := Common(n.prefix, Rest(k, d));
    var low := n.(prefix := n.prefix[m + 1..]);
    assert Total(low, w) == Total(n, w);
    hide Common, SumKids;
    TwoTotal(n.prefix[..m], Edge(n.prefix[m], low), Edge(KeyByte(k, d + m), Leaf(k, v)), w);
  }

  lemma DropKidTotal(n: Node, i: nat, w: Metric)
    requires n.Inode? && i < |n.kids| && n.kids[i].node.Leaf?
    requires |n.kids| >= MinSize(n.ty)
    ensures
      Total(DropKid(n, i), w) ==
        Total(n, w)
        + Delta(if |n.kids| == MinSize(n.ty) then ShrinkFrom(n.ty) else RemoveInPlace, n.kids[i].node.val, w)
  {
    SumAround(n.kids, i, w);
    SumConcat(n.kids[..i], n.kids[i + 1..], w);
    if |n.kids| == MinSize(n.ty) && n.ty == I4 {
      var last := n.kids[1 - i];
      assert n.kids[..i] + n.kids[i + 1..] == [last];
      SumOne(last, w);
    }
  }

  lemma RemoveChangeUnfolds(n: Node, k: Key, d: nat)
    requires n.Inode?
    ensures !HasChild(n, k, d) ==> RemoveChange(n, k, d).Unchanged?
    ensures HasChild(n, k, d) ==>
      var kid := n.kids[ChildIndex(n, k, d)].node;
      RemoveChange(n, k, d) ==
        if kid.Inode? then RemoveChange(kid, k, d + |n.prefix| + 1)
        else if kid.key != k then Unchanged
        else if |n.kids| == MinSize(n.ty) then ShrinkFrom(n.ty)
        else RemoveInPlace
  {
    hide PrefixMatches, Find, NextByte;
  }

  /** The change a remove makes accounts for every count exactly. */
  lemma {:induction false} RemoveTotal(n: Node, path: seq<Byte>, k: Key, w: Metric)
    requires Wf(n, path) && path <= k && n.Inode?
    ensures RemoveChange(n, k, |path|) == Unchanged <==> Lookup(n, k, |path|).None?
    ensures
      Total(Remove(n, k, |path|), w) ==
        Total(n, w)
        + Delta(RemoveChange(n, k, |path|), if Lookup(n, k, |path|).Some? then Lookup(n, k, |path|).value else [], w)
    decreases n
  {
    hide Wf, Total, PrefixMatches, Find, Remove, RemoveChange, Lookup, DropKid, SetKid;
    LookupUnfolds(n, k, |path|);
    RemoveUnfolds(n, k, |path|);
    RemoveChangeUnfolds(n, k, |path|);
    if HasChild(n, k, |path|) {
      var i := ChildIndex(n, k, |path|);
      var kid := n.kids[i].node;
      WfKid(n, path, i);
      if kid.Leaf? { LookupLeaf(kid, k, |path| + |n.prefix| + 1); }
      if kid.Inode? {
        NotVia(n, path, k);
        RemoveTotal(kid, KidPath(n, path, i), k, w);
        SetKidTotal(n, i, Remove(kid, k, |path| + |n.prefix| + 1), w);
      } else if kid.key == k {
        DropKidTotal(n, i, w);
      }
    }
  }

  // ---- the counters ---------------------------------------------------------------------------------

  datatype Counters = Counters(i4: int, i16: int, i48: int, i256: int) {
    function At(ty: NodeType): int {
      match ty case I4 => i4 case I16 => i16 case I48 => i48 case I256 => i256
    }

    function Plus(ty: NodeType, delta: int): Counters {
      match ty
      case I4 => this.(i4 := i4 + delta)
      case I16 => this.(i16 := i16 + delta)
      case I48 => this.(i48 := i48 + delta)
      case I256 => this.(i256 := i256 + delta)
    }
  }

  const ZERO := Counters(0, 0, 0, 0)

  datatype Stats = Stats(leaves: int, live: Counters, memory: int, growing: Counters, shrinking: Counters, splits: int) {
    function NewLeaf(val: Value): Stats {
      this.(leaves := leaves + 1, memory := memory + LeafSize(val))
    }

    function FreeLeaf(val: Value): Stats {
      this.(leaves := leaves - 1, memory := memory - LeafSize(val))
    }

    function NewInode(ty: NodeType): Stats {
      this.(live := live.Plus(ty, 1), memory := memory + InodeSize(ty))
    }

    function FreeInode(ty: NodeType): Stats {
      this.(live := live.Plus(ty, -1), memory := memory - InodeSize(ty))
    }

    function Grown(ty: NodeType): Stats {
      this.(growing := growing.Plus(ty, 1))
    }

    function Shrunk(ty: NodeType): Stats {
      this.(shrinking := shrinking.Plus(ty, 1))
    }
  }

  /** The statistics after a change, the value `val` coming or going with it. */
  function Account(s: Stats, c: Change, val: Value): Stats {
    match c
    case Unchanged => s
    case ForkLeaf => s.NewLeaf(val).NewInode(I4).Grown(I4)
    case ForkPrefix => var t := s.NewLeaf(val).NewInode(I4).Grown(I4); t.(splits := t.splits + 1)
    case AddInPlace => s.NewLeaf(val)
    case GrowTo(ty) => s.NewLeaf(val).NewInode(ty).FreeInode(Smaller(ty)).Grown(ty)
    case RemoveInPlace => s.FreeLeaf(val)
    case ShrinkFrom(ty) =>
      if ty == I4 then s.FreeLeaf(val).FreeInode(I4).Shrunk(I4)
      else s.NewInode(Smaller(ty)).FreeLeaf(val).FreeInode(ty).Shrunk(ty)
  }

  function TotalOf(root: Option<Node>, w: Metric): nat {
    if root.None? then 0 else Total(root.value, w)
  }

  /** The counters say what the tree holds: leaves, inner nodes of each type, and their sizes. */
  ghost predicate CountsOk(root: Option<Node>, s: Stats) {
    && s.leaves == TotalOf(root, Leaves)
    && s.live.i4 == TotalOf(root, Inodes(I4)) && s.live.i16 == TotalOf(root, Inodes(I16))
    && s.live.i48 == TotalOf(root, Inodes(I48)) && s.live.i256 == TotalOf(root, Inodes(I256))
    && s.memory == TotalOf(root, LeafBytes) + InodeBytes(s.live)
  }

  function InodeBytes(live: Counters): int {
    SIZE_I4 * live.i4 + SIZE_I16 * live.i16 + SIZE_I48 * live.i48 + SIZE_I256 * live.i256
  }

  /** How often nodes have grown into a type, less how often they have shrunk from it, since `sinceG` and `sinceS`. */
  function Net(s: Stats, sinceG: Counters, sinceS: Counters, ty: NodeType): int {
    (s.growing.At(ty) - sinceG.At(ty)) - (s.shrinking.At(ty) - sinceS.At(ty))
  }

  /** Conservation since the last clear: what grew into a type and has neither grown out of it nor shrunk from it, plus
      what shrank into it, is live. */
  ghost predicate Conserved(s: Stats, sinceG: Counters, sinceS: Counters) {
    && s.live.i4 == Net(s, sinceG, sinceS, I4) - Net(s, sinceG, sinceS, I16)
    && s.live.i16 == Net(s, sinceG, sinceS, I16) - Net(s, sinceG, sinceS, I48)
    && s.live.i48 == Net(s, sinceG, sinceS, I48) - Net(s, sinceG, sinceS, I256)
    && s.live.i256 == Net(s, sinceG, sinceS, I256)
    && Older(sinceS, sinceG) && Older(sinceG, s.growing) && Older(sinceS, s.shrinking)
  }

  /** Counters that only ever count up. */
  ghost predicate Older(a: Counters, b: Counters) {
    a.i4 <= b.i4 && a.i16 <= b.i16 && a.i48 <= b.i48 && a.i256 <= b.i256
  }

  ghost predicate StatsOk(root: Option<Node>, s: Stats, sinceG: Counters, sinceS: Counters) {
    && CountsOk(root, s) && Conserved(s, sinceG, sinceS)
    && s.splits <= s.growing.i4
    && (root.Some? && root.value.Inode? ==> s.splits < s.growing.i4)
  }

  /** The bounds the program asserts whenever it counts. */
  lemma CountBounds(root: Option<Node>, s: Stats, sinceG: Counters, sinceS: Counters, ty: NodeType)
    requires StatsOk(root, s, sinceG, sinceS)
    ensures 0 <= s.live.At(ty) <= s.growing.At(ty) - sinceG.At(ty)
    ensures s.shrinking.At(ty) - sinceS.At(ty) <= s.growing.At(ty) - sinceG.At(ty) && s.shrinking.At(ty) <= s.growing.At(ty)
  {
  }

  lemma AccountLive(s: Stats, c: Change, val: Value, ty: NodeType)
    ensures Account(s, c, val).leaves == s.leaves + Delta(c, val, Leaves)
    ensures Account(s, c, val).live.At(ty) == s.live.At(ty) + Delta(c, val, Inodes(ty))
  {
  }

  lemma AccountMemory(s: Stats, c: Change, val: Value)
    ensures Account(s, c, val).memory - InodeBytes(Account(s, c, val).live)
            == s.memory - InodeBytes(s.live) + Delta(c, val, LeafBytes)
  {
  }

  lemma AccountCounts(root: Option<Node>, root': Option<Node>, s: Stats, c: Change, val: Value)
    requires CountsOk(root, s)
    requires forall w :: TotalOf(root', w) == TotalOf(root, w) + Delta(c, val, w)
    ensures CountsOk(root', Account(s, c, val))
  {
    AccountLive(s, c, val, I4);
    AccountLive(s, c, val, I16);
    AccountLive(s, c, val, I48);
    AccountLive(s, c, val, I256);
    AccountMemory(s, c, val);
    hide TotalOf, Delta, Account, InodeBytes;
    assert TotalOf(root', Leaves) == TotalOf(root, Leaves) + Delta(c, val, Leaves);
    assert TotalOf(root', LeafBytes) == TotalOf(root, LeafBytes) + Delta(c, val, LeafBytes);
    forall ty ensures TotalOf(root', Inodes(ty)) == TotalOf(root, Inodes(ty)) + Delta(c, val, Inodes(ty)) {
    }
  }

  /** A change that can happen: only nodes that exist grow or shrink, and nothing grows into the smallest type. */
  ghost predicate Possible(c: Change) {
    c.GrowTo? ==> c.ty != I4
  }

  lemma AccountConserves(s: Stats, c: Change, val: Value, sinceG: Counters, sinceS: Counters)
    requires Conserved(s, sinceG, sinceS) && Possible(c)
    ensures Conserved(Account(s, c, val), sinceG, sinceS)
  {
  }

  lemma OlderSame(a: Counters)
    ensures Older(a, a)
  {
  }

  /** With no nodes and the present counters as the starting point, conservation starts afresh: at construction and
      after a clear. */
  lemma StartsAfresh(s: Stats, sinceG: Counters, sinceS: Counters)
    requires s.leaves == 0 && s.memory == 0 && s.splits <= s.growing.i4
    requires s.live.i4 == 0 && s.live.i16 == 0 && s.live.i48 == 0 && s.live.i256 == 0
    requires s.growing == sinceG && s.shrinking == sinceS && Older(sinceS, sinceG)
    ensures StatsOk(None, s, sinceG, sinceS)
  {
  }

  lemma InsertChangeUnfolds(n: Node, k: Key, d: nat)
    requires n.Inode?
    ensures InsertChange(n, k, d) ==
      if !PrefixMatches(n, k, d) then ForkPrefix
      else if HasChild(n, k, d) then InsertChange(n.kids[ChildIndex(n, k, d)].node, k, d + |n.prefix| + 1)
      else if |n.kids| == Capacity(n.ty) then GrowTo(Larger(n.ty))
      else AddInPlace
  {
    hide PrefixMatches, Find, NextByte;
  }

  lemma {:induction false} InsertChangePossible(n: Node, k: Key, d: nat)
    ensures Possible(InsertChange(n, k, d))
    ensures !InsertChange(n, k, d).RemoveInPlace? && !InsertChange(n, k, d).ShrinkFrom?
    decreases n
  {
    hide InsertChange, PrefixMatches, Find, NextByte;
    if n.Leaf? {
      InsertChangeOfLeaf(n, k, d);
    } else {
      InsertChangeUnfolds(n, k, d);
      if HasChild(n, k, d) { InsertChangePossible(n.kids[ChildIndex(n, k, d)].node, k, d + |n.prefix| + 1); }
    }
  }

  lemma InsertChangeOfLeaf(n: Node, k: Key, d: nat)
    requires n.Leaf?
    ensures InsertChange(n, k, d) == if n.key == k then Unchanged else ForkLeaf
  {
  }

  lemma AccountSplits(s: Stats, c: Change, val: Value)
    requires !c.RemoveInPlace? && !c.ShrinkFrom?
    ensures var t := Account(s, c, val);
      && t.growing.i4 >= s.growing.i4
      && (c.ForkPrefix? ==> t.splits == s.splits + 1 && t.growing.i4 == s.growing.i4 + 1)
      && (c.ForkLeaf? ==> t.growing.i4 == s.growing.i4 + 1)
      && (!c.ForkPrefix? ==> t.splits == s.splits)
  {
  }

  /** A type's growth counter moves with the number of its nodes, when an insert makes one more. */
  lemma GrowthCounted(s: Stats, c: Change, val: Value)
    requires Possible(c) && !c.RemoveInPlace? && !c.ShrinkFrom?
    ensures var t := Account(s, c, val);
      && (forall ty :: t.growing.At(ty) == s.growing.At(ty) + if t.live.At(ty) > s.live.At(ty) then 1 else 0)
      && t.shrinking == s.shrinking && t.splits == s.splits + if c.ForkPrefix? then 1 else 0
  {
  }

  /** A type's shrinkage counter moves with the number of its nodes, when a remove leaves one less. */
  lemma ShrinkageCounted(s: Stats, c: Change, val: Value)
    requires c.Unchanged? || c.RemoveInPlace? || c.ShrinkFrom?
    ensures var t := Account(s, c, val);
      && (forall ty :: t.shrinking.At(ty) == s.shrinking.At(ty) + if t.live.At(ty) < s.live.At(ty) then 1 else 0)
      && t.growing == s.growing && t.splits == s.splits
  {
  }

  /** Insert keeps the statistics true. */
  lemma InsertKeepsStats(n: Node, k: Key, v: Value, s: Stats, sinceG: Counters, sinceS: Counters)
    requires Wf(n, []) && StatsOk(Some(n), s, sinceG, sinceS)
    ensures StatsOk(Some(Insert(n, k, v, 0)), Account(s, InsertChange(n, k, 0), v), sinceG, sinceS)
  {
    var n', c := Insert(n, k, v, 0), InsertChange(n, k, 0);
    forall w ensures TotalOf(Some(n'), w) == TotalOf(Some(n), w) + Delta(c, v, w) {
      InsertTotal(n, [], k, v, w);
    }
    InsertChangePossible(n, k, 0);
    if n.Leaf? { InsertChangeOfLeaf(n, k, 0); }
    assert c.Unchanged? ==> n'.Leaf? == n.Leaf? by { UnchangedKind(n, k, v, 0); }
    hide Insert, InsertChange, TotalOf, CountsOk, Conserved, Delta, Wf;
    AccountCounts(Some(n), Some(n'), s, c, v);
    AccountConserves(s, c, v, sinceG, sinceS);
    AccountSplits(s, c, v);
    hide Account;
  }

  lemma UnchangedKind(n: Node, k: Key, v: Value, d: nat)
    ensures InsertChange(n, k, d).Unchanged? ==> Insert(n, k, v, d).Leaf? == n.Leaf?
  {
  }

  lemma RemoveChangeKind(n: Node, k: Key, d: nat)
    ensures RemoveChange(n, k, d).Unchanged? || RemoveChange(n, k, d).RemoveInPlace? || RemoveChange(n, k, d).ShrinkFrom?
    decreases n
  {
    if n.Inode? && HasChild(n, k, d) {
      RemoveChangeKind(n.kids[ChildIndex(n, k, d)].node, k, d + |n.prefix| + 1);
    }
  }

  lemma AccountNoSplits(s: Stats, c: Change, val: Value)
    requires c.Unchanged? || c.RemoveInPlace? || c.ShrinkFrom?
    ensures Account(s, c, val).growing == s.growing && Account(s, c, val).splits == s.splits
  {
  }

  /** Remove keeps the statistics true. */
  lemma RemoveKeepsStats(n: Node, k: Key, s: Stats, sinceG: Counters, sinceS: Counters)
    requires Wf(n, []) && n.Inode? && StatsOk(Some(n), s, sinceG, sinceS)
    ensures var val := if Lookup(n, k, 0).Some? then Lookup(n, k, 0).value else [];
      StatsOk(Some(Remove(n, k, 0)), Account(s, RemoveChange(n, k, 0), val), sinceG, sinceS)
  {
    var n', c := Remove(n, k, 0), RemoveChange(n, k, 0);
    var val := if Lookup(n, k, 0).Some? then Lookup(n, k, 0).value else [];
    forall w ensures TotalOf(Some(n'), w) == TotalOf(Some(n), w) + Delta(c, val, w) {
      RemoveTotal(n, [], k, w);
    }
    RemoveChangeKind(n, k, 0);
    hide Remove, RemoveChange, TotalOf, CountsOk, Conserved, Delta, Wf, Lookup;
    AccountCounts(Some(n), Some(n'), s, c, val);
    AccountConserves(s, c, val, sinceG, sinceS);
    AccountNoSplits(s, c, val);
    hide Account;
  }
}

/** The sequential index of art.hpp: the descents of get, insert and remove as loops over the tree, with
    the statistics each step of them keeps. */
module ArtDb {
  import opened ArtKey
  import opened ArtTree
  import opened ArtUpdate
  import opened ArtOrder
  import opened ArtStats
  import opened ArtNearest
  import opened ArtMemory

  function Entry(m: map<Key, Value>, k: Key): Option<Value> {
    if k in m then Some(m[k]) else None
  }

  // ---- maps --------------------------------------------------------------------------------------

  lemma ContentsOfInsert(n: Node, k: Key, v: Value)
    requires Wf(n, [])
    ensures var m := Contents(Some(n));
      Contents(Some(Insert(n, k, v, 0))) == if k in m then m else m[k := v]
    ensures Lookup(n, k, 0) == Entry(Contents(Some(n)), k)
  {
    var n', m := Insert(n, k, v, 0), Contents(Some(n));
    InsertWf(n, [], k, v);
    LookupIsEntry(n, k);
    var expected := if k in m then m else m[k := v];
    hide Contents;
    forall j: Key ensures Entry(Contents(Some(n')), j) == Entry(expected, j) {
      InsertLookup(n, [], k, v, j);
      LookupIsEntry(n', j);
      LookupIsEntry(n, j);
    }
    SameEntries(Contents(Some(n')), expected);
  }

  lemma ContentsOfRemove(n: Node, k: Key)
    requires Wf(n, []) && n.Inode?
    ensures Contents(Some(Remove(n, k, 0))) == Contents(Some(n)) - {k}
    ensures Lookup(n, k, 0) == Entry(Contents(Some(n)), k)
  {
    var n', m := Remove(n, k, 0), Contents(Some(n));
    RemoveWf(n, [], k);
    LookupIsEntry(n, k);
    hide Contents;
    forall j: Key ensures Entry(Contents(Some(n')), j) == Entry(m - {k}, j) {
      RemoveLookup(n, [], k, j);
      LookupIsEntry(n', j);
      LookupIsEntry(n, j);
    }
    SameEntries(Contents(Some(n')), m - {k});
  }

  lemma SameEntries(a: map<Key, Value>, b: map<Key, Value>)
    requires forall j: Key :: Entry(a, j) == Entry(b, j)
    ensures a == b
  {
    forall j: Key ensures (j in a <==> j in b) && (j in a ==> a[j] == b[j]) {
      assert Entry(a, j) == Entry(b, j);
    }
  }

  // ---- positions in the tree ---------------------------------------------------------------------

  /** An inner node on the way down and the child taken there. */
  datatype Crumb = Crumb(node: Node, index: nat)

  /** The tree with `n` stored in the slot at the end of the trail: assignment through a node pointer. */
  function Plug(trail: seq<Crumb>, n: Node): Node {
    if trail == [] then n else
      var last := trail[|trail| - 1];
      Plug(trail[..|trail| - 1],
           if last.node.Inode? && last.index < |last.node.kids| then SetKid(last.node, last.index, n) else n)
  }

  lemma PlugDeeper(trail: seq<Crumb>, n: Node, i: nat, kid: Node)
    requires n.Inode? && i < |n.kids|
    ensures Plug(trail + [Crumb(n, i)], kid) == Plug(trail, SetKid(n, i, kid))
  {
    assert (trail + [Crumb(n, i)])[..|trail|] == trail;
  }

  lemma PlugEmpty()
    ensures forall n :: Plug([], n) == n
  {
  }

  lemma AccountUnchanged()
    ensures forall s, v :: Account(s, Unchanged, v) == s
  {
  }

  lemma PlugSame(trail: seq<Crumb>, n: Node, i: nat)
    requires n.Inode? && i < |n.kids|
    ensures Plug(trail + [Crumb(n, i)], n.kids[i].node) == Plug(trail, n)
  {
    PlugDeeper(trail, n, i, n.kids[i].node);
    assert n.kids[i := Edge(n.kids[i].byte, n.kids[i].node)] == n.kids;
  }

  // ---- the index -----------------------------------------------------------------------------------

  class Db {
    var root: Option<Node>
    var leafCount: int
    var inodeCounts: Counters
    var memoryUse: int
    var growing: Counters
    var shrinking: Counters
    var prefixSplits: int
    ghost var clearedGrowing: Counters
    ghost var clearedShrinking: Counters

    function Statistics(): Stats
      reads this
    {
      Stats(leafCount, inodeCounts, memoryUse, growing, shrinking, prefixSplits)
    }

    ghost predicate Valid()
      reads this
    {
      (root.Some? ==> Wf(root.value, [])) && StatsOk(root, Statistics(), clearedGrowing, clearedShrinking)
    }

    constructor ()
      ensures Valid() && root == None && Contents(root) == map[]
      ensures Statistics() == Stats(0, ZERO, 0, ZERO, ZERO, 0)
    {
      root := None;
      leafCount, memoryUse, prefixSplits := 0, 0, 0;
      inodeCounts, growing, shrinking := ZERO, ZERO, ZERO;
      clearedGrowing, clearedShrinking := ZERO, ZERO;
      new;
      hide StatsOk, Older;
      OlderSame(ZERO);
      StartsAfresh(Statistics(), growing, shrinking);
    }

    method Get(k: Key) returns (r: Option<Value>)
      requires Valid()
      ensures r == Entry(Contents(root), k)
    {
      if root.None? {
        return None;
      }
      LookupIsEntry(root.value, k);
      hide Contents, StatsOk;
      var node, depth := root.value, 0;
      ghost var path: seq<Byte> := [];
      while true
        invariant Wf(node, path) && path <= k && depth == |path|
        invariant Lookup(node, k, depth) == Lookup(root.value, k, 0)
        decreases KEY_BYTES - depth
      {
        if node.Leaf? {
          return if node.key == k then Some(node.val) else None;
        }
        if Common(node.prefix, Rest(k, depth)) < |node.prefix| {
          return None;
        }
        var i := Find(node.kids, KeyByte(k, depth + |node.prefix|));
        if i == |node.kids| {
          return None;
        }
        Descend(node, path, k);
        path := KidPath(node, path, i);
        depth := depth + |node.prefix| + 1;
        node := node.kids[i].node;
      }
    }

    // The counting done by the node factories and deleters.

    method CountNewLeaf(v: Value)
      modifies `leafCount, `memoryUse
      ensures Statistics() == old(Statistics()).NewLeaf(v)
    {
      leafCount, memoryUse := leafCount + 1, memoryUse + LeafSize(v);
    }

    method CountFreedLeaf(v: Value)
      modifies `leafCount, `memoryUse
      ensures Statistics() == old(Statistics()).FreeLeaf(v)
    {
      leafCount, memoryUse := leafCount - 1, memoryUse - LeafSize(v);
    }

    method CountNewInode(ty: NodeType)
      modifies `inodeCounts, `memoryUse
      ensures Statistics() == old(Statistics()).NewInode(ty)
    {
      inodeCounts, memoryUse := inodeCounts.Plus(ty, 1), memoryUse + InodeSize(ty);
    }

    method CountFreedInode(ty: NodeType)
      modifies `inodeCounts, `memoryUse
      ensures Statistics() == old(Statistics()).FreeInode(ty)
    {
      inodeCounts, memoryUse := inodeCounts.Plus(ty, -1), memoryUse - InodeSize(ty);
    }

    /** A leaf or an inner node gives way to a four-way node above it and a new leaf. */
    method Fork(trail: seq<Crumb>, node: Node, k: Key, v: Value, depth: nat)
      requires node.Inode? ==> !PrefixMatches(node, k, depth)
      modifies `root, `leafCount, `inodeCounts, `memoryUse, `growing, `prefixSplits
      ensures root == Some(Plug(trail, if node.Leaf? then SplitLeaf(node, k, v, depth) else SplitPrefix(node, k, v, depth)))
      ensures Statistics() == Account(old(Statistics()), if node.Leaf? then ForkLeaf else ForkPrefix, v)
    {
      CountNewLeaf(v);
      CountNewInode(I4);
      if node.Leaf? {
        root := Some(Plug(trail, SplitLeaf(node, k, v, depth)));
        growing := growing.Plus(I4, 1);
      } else {
        root := Some(Plug(trail, SplitPrefix(node, k, v, depth)));
        growing := growing.Plus(I4, 1);
        prefixSplits := prefixSplits + 1;
      }
    }

    /** add_or_choose_subtree, when there is no subtree to choose. */
    method AddLeaf(trail: seq<Crumb>, node: Node, b: Byte, k: Key, v: Value)
      requires node.Inode?
      modifies `root, `leafCount, `inodeCounts, `memoryUse, `growing
      ensures root == Some(Plug(trail, AddKid(node, Edge(b, Leaf(k, v)))))
      ensures
        Statistics() ==
          Account(old(Statistics()), if |node.kids| == Capacity(node.ty) then GrowTo(Larger(node.ty)) else AddInPlace, v)
    {
      CountNewLeaf(v);
      root := Some(Plug(trail, AddKid(node, Edge(b, Leaf(k, v)))));
      if |node.kids| == Capacity(node.ty) {
        var ty := Larger(node.ty);
        CountNewInode(ty);
        CountFreedInode(Smaller(ty));
        growing := growing.Plus(ty, 1);
      }
    }

    /** insert: the key is added if it was absent, and never overwritten. */
    method Insert(k: Key, v: Value) returns (ok: bool)
      requires Valid()
      modifies this
      ensures Valid() && clearedGrowing == old(clearedGrowing) && clearedShrinking == old(clearedShrinking)
      ensures ok == (k !in old(Contents(root)))
      ensures Contents(root) == if ok then old(Contents(root))[k := v] else old(Contents(root))
      ensures root == InsertRoot(old(root), k, v)
      ensures !ok ==> root == old(root) && Statistics() == old(Statistics())
      ensures forall ty :: growing.At(ty) == old(growing).At(ty) + if inodeCounts.At(ty) > old(inodeCounts).At(ty) then 1 else 0
      ensures shrinking == old(shrinking)
      ensures prefixSplits == old(prefixSplits) + if SplitsPrefix(old(Contents(root)).Keys, k) then 1 else 0
    {
      hide StatsOk, Contents, ArtTree.Insert, InsertChange, Wf, Account, SplitsPrefix, Possible;
      ghost var c := if root.None? then AddInPlace else InsertChange(root.value, k, 0);
      if root.None? {
        FirstLeaf(k, v, Statistics(), clearedGrowing, clearedShrinking);
        NoSplit(k);
      } else {
        InsertOutcome(root.value, k, v, Statistics(), clearedGrowing, clearedShrinking);
        InsertChangePossible(root.value, k, 0);
        ChangeByKeys(root.value, k);
      }
      InPlacePossible();
      AccountUnchanged();
      GrowthCounted(Statistics(), c, v);
      ok := InsertInternal(k, v);
    }

    method InsertInternal(k: Key, v: Value) returns (ok: bool)
      requires root.Some? ==> Wf(root.value, [])
      modifies `root, `leafCount, `inodeCounts, `memoryUse, `growing, `prefixSplits
      ensures root == InsertRoot(old(root), k, v)
      ensures var c := if old(root).None? then AddInPlace else InsertChange(old(root).value, k, 0);
        ok == !c.Unchanged? && Statistics() == Account(old(Statistics()), c, v)
    {
      if root.None? {
        CountNewLeaf(v);
        root := Some(Leaf(k, v));
        return true;
      }
      PlugEmpty();
      AccountUnchanged();
      hide ArtTree.Insert, InsertChange, Wf, Lookup, Plug, Account, SplitLeaf, SplitPrefix, AddKid, SetKid, Find, Common;
      var node, depth, trail := root.value, 0, [];
      ghost var path: seq<Byte> := [];
      while true
        invariant root == old(root) && Statistics() == old(Statistics())
        invariant Wf(node, path) && path <= k && depth == |path|
        invariant InsertChange(node, k, depth) == InsertChange(old(root).value, k, 0)
        invariant Plug(trail, node) == old(root).value
        invariant Plug(trail, ArtTree.Insert(node, k, v, depth)) == ArtTree.Insert(old(root).value, k, v, 0)
        decreases KEY_BYTES - depth
      {
        if node.Leaf? {
          InsertHere(node, k, v, depth);
          if node.key == k {
            return false;
          }
          Fork(trail, node, k, v, depth);
          return true;
        }
        if Common(node.prefix, Rest(k, depth)) < |node.prefix| {
          InsertHere(node, k, v, depth);
          Fork(trail, node, k, v, depth);
          return true;
        }
        var b := KeyByte(k, depth + |node.prefix|);
        var i := Find(node.kids, b);
        if i == |node.kids| {
          InsertHere(node, k, v, depth);
          AddLeaf(trail, node, b, k, v);
          return true;
        }
        InsertStep(trail, node, path, k, v);
        trail := trail + [Crumb(node, i)];
        path := KidPath(node, path, i);
        depth := depth + |node.prefix| + 1;
        node := node.kids[i].node;
      }
    }

    /** remove_or_choose_subtree, when the child is the leaf to remove. */
    method DropLeaf(trail: seq<Crumb>, node: Node, i: nat)
      requires node.Inode? && i < |node.kids| && node.kids[i].node.Leaf?
      modifies `root, `leafCount, `inodeCounts, `memoryUse, `shrinking
      ensures root == Some(Plug(trail, DropKid(node, i)))
      ensures
        Statistics() ==
          Account(old(Statistics()), if |node.kids| == MinSize(node.ty) then ShrinkFrom(node.ty) else RemoveInPlace,
                  node.kids[i].node.val)
    {
      root := Some(Plug(trail, DropKid(node, i)));
      if |node.kids| == MinSize(node.ty) {
        if node.ty != I4 {
          CountNewInode(Smaller(node.ty));
        }
        CountFreedLeaf(node.kids[i].node.val);
        CountFreedInode(node.ty);
        shrinking := shrinking.Plus(node.ty, 1);
      } else {
        CountFreedLeaf(node.kids[i].node.val);
      }
    }

    /** remove: the key is taken out, and nothing else. */
    method Remove(k: Key) returns (ok: bool)
      requires Valid()
      modifies this
      ensures Valid() && clearedGrowing == old(clearedGrowing) && clearedShrinking == old(clearedShrinking)
      ensures ok == (k in old(Contents(root)))
      ensures Contents(root) == old(Contents(root)) - {k}
      ensures root == RemoveRoot(old(root), k)
      ensures !ok ==> root == old(root) && Statistics() == old(Statistics())
      ensures forall ty :: shrinking.At(ty) == old(shrinking).At(ty) + if inodeCounts.At(ty) < old(inodeCounts).At(ty) then 1 else 0
      ensures growing == old(growing) && prefixSplits == old(prefixSplits)
    {
      hide StatsOk, ArtTree.Remove, RemoveChange, Wf, Flat, MapOf, Lookup, Account;
      AccountUnchanged();
      if root.Some? {
        if root.value.Leaf? {
          RootLeaf(root.value, Statistics(), clearedGrowing, clearedShrinking);
        } else {
          RemoveOutcome(root.value, k, Statistics(), clearedGrowing, clearedShrinking);
          RemoveChangeKind(root.value, k, 0);
          ghost var found := Lookup(root.value, k, 0);
          ShrinkageCounted(Statistics(), RemoveChange(root.value, k, 0), if found.Some? then found.value else []);
        }
      }
      ok := RemoveInternal(k);
    }

    method RemoveInternal(k: Key) returns (ok: bool)
      requires root.Some? ==> Wf(root.value, [])
      modifies `root, `leafCount, `inodeCounts, `memoryUse, `shrinking
      ensures old(root).Some? && old(root).value.Inode? ==>
        var c, found := RemoveChange(old(root).value, k, 0), Lookup(old(root).value, k, 0);
        && root == Some(ArtTree.Remove(old(root).value, k, 0)) && ok == !c.Unchanged?
        && Statistics() == Account(old(Statistics()), c, if ok && found.Some? then found.value else [])
      ensures old(root).None? || old(root).value.Leaf? ==>
        && ok == (old(root).Some? && old(root).value.key == k)
        && root == (if ok then None else old(root))
        && Statistics() == if ok then old(Statistics()).FreeLeaf(old(root).value.val) else old(Statistics())
    {
      hide ArtTree.Remove, RemoveChange, Wf, Lookup, Plug, Account, DropKid, SetKid, Find, Common;
      if root.None? {
        return false;
      }
      if root.value.Leaf? {
        if root.value.key == k {
          CountFreedLeaf(root.value.val);
          root := None;
          return true;
        }
        return false;
      }
      PlugEmpty();
      AccountUnchanged();
      var node, depth, trail := root.value, 0, [];
      ghost var path: seq<Byte> := [];
      while true
        invariant root == old(root) && Statistics() == old(Statistics())
        invariant node.Inode? && Wf(node, path) && path <= k && depth == |path|
        invariant Lookup(node, k, depth) == Lookup(old(root).value, k, 0)
        invariant RemoveChange(node, k, depth) == RemoveChange(old(root).value, k, 0)
        invariant Plug(trail, node) == old(root).value
        invariant Plug(trail, ArtTree.Remove(node, k, depth)) == ArtTree.Remove(old(root).value, k, 0)
        decreases KEY_BYTES - depth
      {
        if Common(node.prefix, Rest(k, depth)) < |node.prefix| {
          RemoveHere(node, k, depth);
          return false;
        }
        var b := KeyByte(k, depth + |node.prefix|);
        var i := Find(node.kids, b);
        if i == |node.kids| {
          RemoveHere(node, k, depth);
          return false;
        }
        if node.kids[i].node.Leaf? {
          RemoveHere(node, k, depth);
          if node.kids[i].node.key != k {
            return false;
          }
          DropLeaf(trail, node, i);
          return true;
        }
        RemoveStep(trail, node, path, k);
        trail := trail + [Crumb(node, i)];
        path := KidPath(node, path, i);
        depth := depth + |node.prefix| + 1;
        node := node.kids[i].node;
      }
    }

    /** get_current_memory_use: the bytes of all entries, 19 and its value each, and of the inner nodes. */
    method CurrentMemoryUse() returns (bytes: int)
      requires Valid()
      ensures bytes == 19 * |Contents(root)| + ValueBytes(Contents(root))
                       + 48 * inodeCounts.i4 + 160 * inodeCounts.i16 + 656 * inodeCounts.i48 + 2064 * inodeCounts.i256
    {
      hide Contents, Wf, CountsOk, Conserved;
      MemoryIs(root, Statistics());
      bytes := memoryUse;
    }

    /** get_node_count for leaves. */
    method LeafCount() returns (n: int)
      requires Valid()
      ensures n == |Contents(root)|
    {
      hide Contents, Wf, CountsOk, Conserved;
      LeavesAre(root, Statistics());
      n := leafCount;
    }

    /** Frees every node; the counts of what ever grew, shrank and split stay. */
    method Clear()
      requires Valid()
      modifies this
      ensures Valid() && root == None && Contents(root) == map[]
      ensures
        Statistics() == Stats(0, ZERO, 0, old(growing), old(shrinking), old(prefixSplits))
    {
      CanRestart(root, Statistics(), clearedGrowing, clearedShrinking);
      hide StatsOk, Older;
      root := None;
      leafCount, memoryUse := 0, 0;
      inodeCounts := ZERO;
      clearedGrowing, clearedShrinking := growing, shrinking;
      StartsAfresh(Statistics(), growing, shrinking);
    }
  }

  lemma NoSplit(k: Key)
    ensures !SplitsPrefix(Contents(None).Keys, k)
  {
  }

  lemma InPlacePossible()
    ensures Possible(AddInPlace)
  {
  }

  lemma CanRestart(root: Option<Node>, s: Stats, sinceG: Counters, sinceS: Counters)
    requires StatsOk(root, s, sinceG, sinceS)
    ensures Older(s.shrinking, s.growing) && s.splits <= s.growing.i4
  {
    CountBounds(root, s, sinceG, sinceS, I4);
    CountBounds(root, s, sinceG, sinceS, I16);
    CountBounds(root, s, sinceG, sinceS, I48);
    CountBounds(root, s, sinceG, sinceS, I256);
  }

  lemma RootLeaf(n: Node, s: Stats, sinceG: Counters, sinceS: Counters)
    requires n.Leaf? && StatsOk(Some(n), s, sinceG, sinceS)
    ensures StatsOk(None, s.FreeLeaf(n.val), sinceG, sinceS)
    ensures Contents(Some(n)) == map[n.key := n.val] && Contents(None) == map[]
  {
    forall w ensures TotalOf(None, w) == TotalOf(Some(n), w) + Delta(RemoveInPlace, n.val, w) {
    }
    AccountCounts(Some(n), None, s, RemoveInPlace, n.val);
    AccountConserves(s, RemoveInPlace, n.val, sinceG, sinceS);
    OneItem(n.key, n.val);
  }

  lemma RemoveOutcome(n: Node, k: Key, s: Stats, sinceG: Counters, sinceS: Counters)
    requires Wf(n, []) && n.Inode? && StatsOk(Some(n), s, sinceG, sinceS)
    ensures var n', c, m := ArtTree.Remove(n, k, 0), RemoveChange(n, k, 0), Contents(Some(n));
      && Wf(n', []) && StatsOk(Some(n'), Account(s, c, if k in m then m[k] else []), sinceG, sinceS)
      && (c.Unchanged? <==> k !in m) && (c.Unchanged? ==> n' == n)
      && Contents(Some(n')) == m - {k} && Lookup(n, k, 0) == Entry(m, k)
  {
    RemoveWf(n, [], k);
    ContentsOfRemove(n, k);
    RemoveKeepsStats(n, k, s, sinceG, sinceS);
    RemoveTotal(n, [], k, Leaves);
    hide StatsOk, Account, Contents;
    UnremovedSame(n, k, 0);
  }

  lemma {:induction false} UnremovedSame(n: Node, k: Key, d: nat)
    ensures RemoveChange(n, k, d).Unchanged? ==> ArtTree.Remove(n, k, d) == n
    decreases n
  {
    hide Common, Find;
    if n.Inode? && HasChild(n, k, d) {
      assert n.kids[ChildIndex(n, k, d) := Edge(n.kids[ChildIndex(n, k, d)].byte, n.kids[ChildIndex(n, k, d)].node)] == n.kids;
      UnremovedSame(n.kids[ChildIndex(n, k, d)].node, k, d + |n.prefix| + 1);
    }
  }

  /** What remove makes of the node it stops at. */
  lemma RemoveHere(n: Node, k: Key, d: nat)
    requires n.Inode? && (HasChild(n, k, d) ==> n.kids[ChildIndex(n, k, d)].node.Leaf?)
    ensures
      ArtTree.Remove(n, k, d) ==
        if HasChild(n, k, d) && n.kids[ChildIndex(n, k, d)].node.key == k then DropKid(n, ChildIndex(n, k, d)) else n
    ensures
      RemoveChange(n, k, d) ==
        if HasChild(n, k, d) && n.kids[ChildIndex(n, k, d)].node.key == k then
          if |n.kids| == MinSize(n.ty) then ShrinkFrom(n.ty) else RemoveInPlace
        else Unchanged
    ensures HasChild(n, k, d) && n.kids[ChildIndex(n, k, d)].node.key == k ==>
      Lookup(n, k, d) == Some(n.kids[ChildIndex(n, k, d)].node.val)
  {
  }

  lemma InsertOutcome(n: Node, k: Key, v: Value, s: Stats, sinceG: Counters, sinceS: Counters)
    requires Wf(n, []) && StatsOk(Some(n), s, sinceG, sinceS)
    ensures var n', c := ArtTree.Insert(n, k, v, 0), InsertChange(n, k, 0);
      && Wf(n', []) && StatsOk(Some(n'), Account(s, c, v), sinceG, sinceS)
      && (c.Unchanged? <==> k in Contents(Some(n))) && (c.Unchanged? ==> n' == n)
      && Contents(Some(n')) == if k in Contents(Some(n)) then Contents(Some(n)) else Contents(Some(n))[k := v]
  {
    InsertWf(n, [], k, v);
    ContentsOfInsert(n, k, v);
    InsertKeepsStats(n, k, v, s, sinceG, sinceS);
    InsertTotal(n, [], k, v, Leaves);
    hide StatsOk, Account, Contents;
    UnchangedSame(n, k, v, 0);
  }

  lemma {:induction false} UnchangedSame(n: Node, k: Key, v: Value, d: nat)
    ensures InsertChange(n, k, d).Unchanged? ==> ArtTree.Insert(n, k, v, d) == n
    decreases n
  {
    hide InsertChange, ArtTree.Insert, PrefixMatches, Find, NextByte;
    if n.Leaf? {
      InsertLeaf(n, k, v, d);
      InsertChangeOfLeaf(n, k, d);
    } else {
      InsertUnfolds(n, k, v, d);
      InsertChangeUnfolds(n, k, d);
      if HasChild(n, k, d) {
        var i := ChildIndex(n, k, d);
        assert n.kids[i := Edge(n.kids[i].byte, n.kids[i].node)] == n.kids;
        UnchangedSame(n.kids[i].node, k, v, d + |n.prefix| + 1);
      }
    }
  }

  lemma FirstLeaf(k: Key, v: Value, s: Stats, sinceG: Counters, sinceS: Counters)
    requires StatsOk(None, s, sinceG, sinceS)
    ensures StatsOk(Some(Leaf(k, v)), Account(s, AddInPlace, v), sinceG, sinceS)
    ensures Contents(None) == map[] && Contents(Some(Leaf(k, v))) == map[k := v] && Wf(Leaf(k, v), [])
  {
    forall w ensures TotalOf(Some(Leaf(k, v)), w) == TotalOf(None, w) + Delta(AddInPlace, v, w) {
    }
    AccountCounts(None, Some(Leaf(k, v)), s, AddInPlace, v);
    AccountConserves(s, AddInPlace, v, sinceG, sinceS);
    OneItem(k, v);
  }

  lemma OneItem(k: Key, v: Value)
    ensures MapOf([Item(k, v)]) == map[k := v]
  {
    var s := [Item(k, v)];
    assert s[..|s| - 1] == [];
    assert MapOf(s) == MapOf([])[k := v];
  }

  /** What insert makes of the node it stops at. */
  lemma InsertHere(n: Node, k: Key, v: Value, d: nat)
    requires n.Leaf? || !HasChild(n, k, d)
    ensures
      ArtTree.Insert(n, k, v, d) ==
        if n.Leaf? then if n.key == k then n else SplitLeaf(n, k, v, d)
        else if !PrefixMatches(n, k, d) then SplitPrefix(n, k, v, d)
        else AddKid(n, Edge(NextByte(n, k, d), Leaf(k, v)))
    ensures
      InsertChange(n, k, d) ==
        if n.Leaf? then if n.key == k then Unchanged else ForkLeaf
        else if !PrefixMatches(n, k, d) then ForkPrefix
        else if |n.kids| == Capacity(n.ty) then GrowTo(Larger(n.ty))
        else AddInPlace
  {
  }

  /** Following the child changes neither what the tree is nor what it will be. */
  lemma InsertStep(trail: seq<Crumb>, n: Node, path: seq<Byte>, k: Key, v: Value)
    requires Wf(n, path) && n.Inode? && path <= k && HasChild(n, k, |path|)
    ensures var i := ChildIndex(n, k, |path|);
      var kid, p, t := n.kids[i].node, KidPath(n, path, i), trail + [Crumb(n, i)];
      && Wf(kid, p) && p <= k && |path| < |p| == |path| + |n.prefix| + 1 <= KEY_BYTES
      && InsertChange(kid, k, |p|) == InsertChange(n, k, |path|)
      && Plug(t, kid) == Plug(trail, n)
      && Plug(t, ArtTree.Insert(kid, k, v, |p|)) == Plug(trail, ArtTree.Insert(n, k, v, |path|))
  {
    hide Plug, Wf, ArtTree.Insert, InsertChange, Lookup, PrefixMatches, Find, KidPath, SetKid, AddKid, SplitPrefix;
    var i := ChildIndex(n, k, |path|);
    Descend(n, path, k);
    InsertUnfolds(n, k, v, |path|);
    PlugSame(trail, n, i);
    PlugDeeper(trail, n, i, ArtTree.Insert(n.kids[i].node, k, v, |path| + |n.prefix| + 1));
  }

  lemma RemoveStep(trail: seq<Crumb>, n: Node, path: seq<Byte>, k: Key)
    requires Wf(n, path) && n.Inode? && path <= k && HasChild(n, k, |path|)
    requires n.kids[ChildIndex(n, k, |path|)].node.Inode?
    ensures var i := ChildIndex(n, k, |path|);
      var kid, p, t := n.kids[i].node, KidPath(n, path, i), trail + [Crumb(n, i)];
      && Wf(kid, p) && p <= k && |path| < |p| == |path| + |n.prefix| + 1 <= KEY_BYTES
      && Lookup(kid, k, |p|) == Lookup(n, k, |path|)
      && RemoveChange(kid, k, |p|) == RemoveChange(n, k, |path|)
      && Plug(t, kid) == Plug(trail, n)
      && Plug(t, ArtTree.Remove(kid, k, |p|)) == Plug(trail, ArtTree.Remove(n, k, |path|))
  {
    hide Plug, Wf, ArtTree.Remove, RemoveChange, Lookup, PrefixMatches, Find, KidPath, SetKid, DropKid;
    var i := ChildIndex(n, k, |path|);
    Descend(n, path, k);
    RemoveUnfolds(n, k, |path|);
    PlugSame(trail, n, i);
    PlugDeeper(trail, n, i, ArtTree.Remove(n.kids[i].node, k, |path| + |n.prefix| + 1));
  }

  /** One step down: the child is well formed, and what is asked of the node is asked of the child. */
  lemma Descend(n: Node, path: seq<Byte>, k: Key)
    requires Wf(n, path) && n.Inode? && path <= k && HasChild(n, k, |path|)
    ensures var i := ChildIndex(n, k, |path|);
      && Wf(n.kids[i].node, KidPath(n, path, i)) && KidPath(n, path, i) <= k
      && |path| < |KidPath(n, path, i)| == |path| + |n.prefix| + 1 <= KEY_BYTES
      && Lookup(n, k, |path|) == Lookup(n.kids[i].node, k, |KidPath(n, path, i)|)
      && InsertChange(n, k, |path|) == InsertChange(n.kids[i].node, k, |KidPath(n, path, i)|)
      && (n.kids[i].node.Inode? ==>
            RemoveChange(n, k, |path|) == RemoveChange(n.kids[i].node, k, |KidPath(n, path, i)|))
  {
    var i := ChildIndex(n, k, |path|);
    assert i < |n.kids|;
    WfKid(n, path, i);
    NotVia(n, path, k);
    Via(n, path, k, i);
    hide Wf, Contents, KidPath;
  }
}

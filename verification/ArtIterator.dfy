/** The stack iterator of art.hpp over the sorted entries of a tree. */
module ArtIterator {
  import opened ArtKey
  import opened ArtTree
  import opened ArtUpdate
  import opened ArtOrder
  import opened ArtPath
  import opened ArtSeek
  import opened ArtScan

  class Iterator {
    const root: Option<Node>
    var stack: seq<Frame>

    /** Empty (at the end), or a path from the root with a leaf on top. */
    ghost predicate Valid()
      reads this
    {
      && (root.Some? ==> Wf(root.value, []))
      && (stack != [] ==>
            && root.Some? && Path(root.value, stack[..|stack| - 1])
            && stack[|stack| - 1].node == Below(root.value, stack[..|stack| - 1]) && stack[|stack| - 1].node.Leaf?)
    }

    ghost function Entries(): seq<Item> {
      if root.None? then [] else Flat(root.value)
    }

    /** The place of the current entry in the sorted sequence of all entries. */
    ghost function Position(): (p: nat)
      requires Valid() && stack != []
      reads this
      ensures p == |Before(stack[..|stack| - 1])| && p < |Entries()|
      ensures |Entries()| == p + 1 + |After(stack[..|stack| - 1])|
    {
      LeafPlace(root.value, stack[..|stack| - 1])
    }

    constructor (root: Option<Node>)
      requires root.Some? ==> Wf(root.value, [])
      ensures Valid() && this.root == root && stack == []
    {
      this.root := root;
      stack := [];
    }

    /** Down the first children, from a node below the path on the stack. */
    method LeftMostTraversal(start: Node)
      requires root.Some? && Wf(root.value, []) && Path(root.value, stack) && start == Below(root.value, stack)
      modifies this
      ensures Valid() && stack != [] && Position() == |old(Before(stack))|
    {
      hide Before, After, Path, Below, Flat, FlatKids, Wf;
      var node := start;
      while node.Inode?
        invariant Path(root.value, stack) && node == Below(root.value, stack)
        invariant Before(stack) == old(Before(stack))
        decreases node
      {
        FirstPush(root.value, stack);
        stack := stack + [Frame(node, 0)];
        node := node.kids[0].node;
      }
      ghost var path := stack;
      stack := stack + [Frame(node, 0)];
      assert stack[..|stack| - 1] == path;
    }

    method RightMostTraversal(start: Node)
      requires root.Some? && Wf(root.value, []) && Path(root.value, stack) && start == Below(root.value, stack)
      modifies this
      ensures Valid() && stack != [] && Position() + 1 == |Entries()| - |old(After(stack))|
    {
      hide Before, After, Path, Below, Flat, FlatKids, Wf;
      var node := start;
      while node.Inode?
        invariant Path(root.value, stack) && node == Below(root.value, stack)
        invariant After(stack) == old(After(stack))
        decreases node
      {
        LastPush(root.value, stack);
        var last := |node.kids| - 1;
        stack := stack + [Frame(node, last)];
        node := node.kids[last].node;
      }
      ghost var path := stack;
      stack := stack + [Frame(node, 0)];
      assert stack[..|stack| - 1] == path;
    }

    method First()
      requires Valid()
      modifies this
      ensures Valid() && (stack == [] <==> Entries() == []) && (stack != [] ==> Position() == 0)
    {
      stack := [];
      if root.Some? {
        FlatIncreasing(root.value, []);
        LeftMostTraversal(root.value);
      }
    }

    method Last()
      requires Valid()
      modifies this
      ensures Valid() && (stack == [] <==> Entries() == []) && (stack != [] ==> Position() + 1 == |Entries()|)
    {
      stack := [];
      if root.Some? {
        FlatIncreasing(root.value, []);
        RightMostTraversal(root.value);
      }
    }

    /** The next entry in order, or the end after the last one. */
    method Next()
      requires Valid() && stack != []
      modifies this
      ensures Valid()
      ensures stack != [] <==> old(Position()) + 1 < |Entries()|
      ensures stack != [] ==> Position() == old(Position()) + 1
    {
      hide Before, After, Path, Below, Flat, FlatKids, Wf;
      ghost var p, total := Position(), |Entries()|;
      stack := stack[..|stack| - 1];                 // the leaf
      while stack != []
        invariant Path(root.value, stack)
        invariant |After(stack)| == total - p - 1
        decreases |stack|
      {
        var top := stack[|stack| - 1];
        Popped(root.value, stack);
        if top.index + 1 == |top.node.kids| {
          PoppedSame(root.value, stack);
          stack := stack[..|stack| - 1];
        } else {
          NextFrame(root.value, stack);
          stack := stack[..|stack| - 1] + [Frame(top.node, top.index + 1)];
          Around(root.value, stack);
          LeftMostTraversal(top.node.kids[top.index + 1].node);
          return;
        }
      }
      Bare(root.value);
    }

    method Prior()
      requires Valid() && stack != []
      modifies this
      ensures Valid()
      ensures stack != [] <==> old(Position()) > 0
      ensures stack != [] ==> Position() == old(Position()) - 1
    {
      hide Before, After, Path, Below, Flat, FlatKids, Wf;
      ghost var p := Position();
      stack := stack[..|stack| - 1];
      while stack != []
        invariant Path(root.value, stack)
        invariant |Before(stack)| == p
        decreases |stack|
      {
        var top := stack[|stack| - 1];
        Popped(root.value, stack);
        if top.index == 0 {
          PoppedSame(root.value, stack);
          stack := stack[..|stack| - 1];
        } else {
          PriorFrame(root.value, stack);
          stack := stack[..|stack| - 1] + [Frame(top.node, top.index - 1)];
          Around(root.value, stack);
          RightMostTraversal(top.node.kids[top.index - 1].node);
          return;
        }
      }
      Bare(root.value);
    }

    /** get_key and get_val. */
    method Current() returns (item: Item)
      requires Valid() && stack != []
      ensures item == Entries()[Position()]
    {
      var leaf := stack[|stack| - 1].node;
      LeafBelow(root.value, stack[..|stack| - 1]);
      return Item(leaf.key, leaf.val);
    }

    /** The forward loops of scan, scan_from and scan_range: entries from where the iterator stands up to the end or to
        the first at or beyond `to`; `stop` is the place reached. */
    method VisitForward(to: Option<Key>) returns (visited: seq<Item>, ghost stop: nat)
      requires Valid()
      modifies this
      ensures Valid()
      ensures
        var p := if old(stack) == [] then |Entries()| else old(Position());
        && p <= stop <= |Entries()| && visited == Entries()[p..stop]
        && (forall i :: p <= i < stop ==> Passes(Entries()[i].key, true, to))
        && (stop < |Entries()| ==> !Passes(Entries()[stop].key, true, to))
    {
      hide Valid, Position, Entries, Path, Below, Before, After, Flat, Wf, Passes;
      visited := [];
      ghost var all := Entries();
      ghost var p := if stack == [] then |all| else Position();
      stop := p;
      while stack != []
        invariant Valid()
        invariant p <= stop <= |all| && visited == all[p..stop]
        invariant if stack == [] then stop == |all| else stop < |all| && Position() == stop
        invariant forall i :: p <= i < stop ==> Passes(all[i].key, true, to)
        decreases |all| - stop
      {
        var item := Current();
        if !Passes(item.key, true, to) { return; }
        visited := visited + [item];
        stop := stop + 1;
        Next();
      }
    }

    /** The reverse loops: entries from where the iterator stands down to the first or to one at or beyond `to`. */
    method VisitReverse(to: Option<Key>) returns (visited: seq<Item>, ghost stop: nat)
      requires Valid()
      modifies this
      ensures Valid()
      ensures
        var p := if old(stack) == [] then 0 else old(Position()) + 1;
        && stop <= p <= |Entries()| && visited == Reversed(Entries()[stop..p])
        && (forall i :: stop <= i < p ==> Passes(Entries()[i].key, false, to))
        && (stop > 0 ==> !Passes(Entries()[stop - 1].key, false, to))
    {
      hide Valid, Position, Entries, Path, Below, Before, After, Flat, Wf, Passes, Reversed;
      visited := [];
      ghost var all := Entries();
      ghost var p := if stack == [] then 0 else Position() + 1;
      stop := p;
      while stack != []
        invariant Valid()
        invariant stop <= p <= |all| && visited == Reversed(all[stop..p])
        invariant if stack == [] then stop == 0 else stop > 0 && Position() == stop - 1
        invariant forall i :: stop <= i < p ==> Passes(all[i].key, false, to)
        decreases stop
      {
        var item := Current();
        if !Passes(item.key, false, to) { return; }
        ReversedMore(all[stop..p], item);
        assert [item] + all[stop..p] == all[stop - 1..p];
        visited := visited + [item];
        stop := stop - 1;
        Prior();
      }
    }

    /** scan: all entries, in increasing or in decreasing order. */
    method Scan(fwd: bool) returns (visited: seq<Item>)
      requires Valid()
      modifies this
      ensures Valid() && visited == if fwd then Entries() else Reversed(Entries())
    {
      hide Valid, Position, Entries, Path, Below, Before, After, Flat, Wf;
      ghost var stop;
      if fwd {
        First();
        visited, stop := VisitForward(None);
      } else {
        Last();
        visited, stop := VisitReverse(None);
      }
      assert Entries()[0..|Entries()|] == Entries();
    }

    /** Where the iterator stands in the sorted sequence; None is the end. */
    ghost function Place(): (at: Option<nat>)
      requires Valid()
      reads this
      ensures at.Some? ==> at.value < |Entries()|
    {
      if stack == [] then None else Some(Position())
    }

    /** The code reaches its unwind loop with an ancestor on the stack that has a sibling in the direction of travel
        exactly when `Stranded`; then, and only then, it lands in the wrong place. */
    method Seek(k: Key, fwd: bool) returns (found: bool)
      requires Valid()
      modifies this
      ensures Valid()
      ensures found <==> root.Some? && Lookup(root.value, k, 0).Some?
      ensures found ==> stack != [] && Entries()[Position()].key == k
      ensures LandsRight(Entries(), k, fwd, Place()) <==> !(root.Some? && Stranded(root.value, k, 0, fwd, false))
      ensures root.Some? && Stranded(root.value, k, 0, fwd, false) ==>
        && (stack != [] <==> Strays(root.value, k, 0, fwd, false, false))
        && (stack != [] ==> WrongSide(Entries()[Position()].key, k, fwd))
    {
      hide Strays, SiblingAbove, WrongSide, LandsRight, Wf, Flat, Find, Common, Approaching, Lookup, Stranded, HasSibling, Path, Below;
      stack := [];
      found := false;
      if root.None? {
        NothingToFind(k, fwd);
        return;
      }
      Departs(root.value, k, fwd);
      var node, depth := root.value, 0;
      ghost var path: seq<Byte> := [];
      while true
        invariant root.Some? && !found
        invariant Approaching(root.value, stack, node, path, k) && depth == |path|
        invariant Lookup(root.value, k, 0) == Lookup(node, k, depth)
        invariant Stranded(root.value, k, 0, fwd, false) == Stranded(node, k, depth, fwd, HasSibling(stack, fwd))
        invariant Strays(root.value, k, 0, fwd, false, false) ==
                    Strays(node, k, depth, fwd, SiblingAbove(stack, fwd), HasSibling(stack, fwd))
        decreases node
      {
        if node.Leaf? {
          Stops(node, k, depth, fwd, HasSibling(stack, fwd));
          found := StopAtLeaf(node, path, k, fwd);
          return;
        }
        var shared := Common(node.prefix, Rest(k, depth));
        if shared < |node.prefix| {
          Stops(node, k, depth, fwd, HasSibling(stack, fwd));
          StopAtPrefix(node, path, depth, shared, k, fwd);
          return;
        }
        var i := Find(node.kids, KeyByte(k, depth + |node.prefix|));
        if i == |node.kids| {
          Stops(node, k, depth, fwd, HasSibling(stack, fwd));
          StopAtGap(node, path, depth, k, fwd);
          return;
        }
        Approach(root.value, stack, node, path, k);
        StrandedBelow(node, k, depth, fwd, stack);
        StraysBelow(node, k, depth, fwd, stack);
        path := KidPath(node, path, i);
        stack := stack + [Frame(node, i)];
        depth := depth + |node.prefix| + 1;
        node := node.kids[i].node;
      }
    }

    /** At a leaf: take it when it is the key or lies in the direction of travel, else step to the next or prior one. */
    method StopAtLeaf(node: Node, ghost path: seq<Byte>, k: Key, fwd: bool) returns (found: bool)
      requires root.Some? && Approaching(root.value, stack, node, path, k) && node.Leaf?
      modifies this
      ensures Valid() && (found <==> node.key == k)
      ensures found ==> stack != [] && Entries()[Position()].key == k
      ensures LandsRight(Entries(), k, fwd, Place())
    {
      hide LandsRight, Before, After, Path, Below, Flat, FlatKids, Wf, AllLess, AllMore, Boundary;
      ghost var s, root := stack, root.value;
      LeafEnd(root, s, node, path, k);
      LeafBelow(root, s);
      stack := stack + [Frame(node, 0)];
      assert stack[..|stack| - 1] == s;
      found := node.key == k;
      if found {
        ExactLands(Before(s), Item(node.key, node.val), After(s), Flat(root), k, fwd);
        return;
      }
      if fwd && Less(node.key, k) {
        Next();
      } else if !fwd && !Less(node.key, k) {
        Prior();
      }
      BoundaryDecides(Entries(), k, |Before(s)| + if Less(node.key, k) then 1 else 0, fwd, Place());
    }

    /** At an inner node whose prefix leaves the key: all its entries are on one side. */
    method StopAtPrefix(node: Node, ghost path: seq<Byte>, depth: nat, shared: nat, k: Key, fwd: bool)
      requires root.Some? && Approaching(root.value, stack, node, path, k) && node.Inode? && depth == |path|
      requires !PrefixMatches(node, k, depth) && shared == Common(node.prefix, Rest(k, depth))
      modifies this
      ensures Valid() && LandsRight(Entries(), k, fwd, Place())
    {
      hide LandsRight, Before, After, Path, Below, Flat, FlatKids, Wf, AllLess, AllMore, Boundary, Common, Rest;
      ghost var s, root := stack, root.value;
      PrefixEnd(root, s, node, path, k);
      var smaller := KeyByte(k, depth + shared) < node.prefix[shared];
      if smaller {
        LeftMostTraversal(node);
        if !fwd { Prior(); }
      } else {
        RightMostTraversal(node);
        if fwd { Next(); }
      }
      BoundaryDecides(Entries(), k, |Before(s)| + if smaller then 0 else |Flat(node)|, fwd, Place());
    }

    /** At an inner node without a child for the key byte: the child beyond it, or, past the last one, the unwind. */
    method StopAtGap(node: Node, ghost path: seq<Byte>, depth: nat, k: Key, fwd: bool)
      requires root.Some? && Approaching(root.value, stack, node, path, k) && node.Inode? && depth == |path|
      requires PrefixMatches(node, k, depth) && !HasChild(node, k, depth)
      modifies this
      ensures Valid()
      ensures LandsRight(Entries(), k, fwd, Place()) <==> !Stranded(node, k, depth, fwd, HasSibling(old(stack), fwd))
      ensures Stranded(node, k, depth, fwd, HasSibling(old(stack), fwd)) ==>
        && (stack != [] <==> Strays(node, k, depth, fwd, SiblingAbove(old(stack), fwd), HasSibling(old(stack), fwd)))
        && (stack != [] ==> WrongSide(Entries()[Position()].key, k, fwd))
    {
      hide WrongSide, SiblingAbove, LandsRight, Before, After, Path, Below, Flat, FlatKids, Wf, AllLess, AllMore, Boundary, Rank, HasSibling;
      ghost var s, root := stack, root.value;
      GapEnd(root, s, node, path, k);
      AboveCounts(s, fwd);
      SiblingsHaveEntries(root, s);
      var next := Rank(node.kids, KeyByte(k, depth + |node.prefix|));
      if fwd && next < |node.kids| {
        PathPush(root, s, next);
        stack := stack + [Frame(node, next)];
        LeftMostTraversal(node.kids[next].node);
      } else if !fwd && next > 0 {
        PathPush(root, s, next - 1);
        stack := stack + [Frame(node, next - 1)];
        RightMostTraversal(node.kids[next - 1].node);
      } else {
        Unwind(fwd);
        if stack != [] {
          BoundarySide(Entries(), k, |Before(s)| + |FlatKids(node.kids[..next])|, Position());
          SideOf(Entries()[Position()].key, k, fwd);
        }
      }
      BoundaryDecides(Entries(), k, |Before(s)| + |FlatKids(node.kids[..next])|, fwd, Place());
    }

    /** scan_from visits exactly the entries from the key on, unless its seek is stranded; then it never does. */
    method ScanFrom(from: Key, fwd: bool) returns (visited: seq<Item>)
      requires Valid()
      modifies this
      ensures Valid()
      ensures IsFrom(visited, Entries(), from, fwd) <==> !(root.Some? && Stranded(root.value, from, 0, fwd, false))
    {
      hide Valid, Position, LandsRight, Stranded, IsFrom, Path, Below, Before, After, Flat, Wf;
      var found := Seek(from, fwd);
      EntriesIncreasing();
      ghost var stop, at := 0, Place();
      if fwd {
        visited, stop := VisitForward(None);
      } else {
        visited, stop := VisitReverse(None);
      }
      VisitedFrom(visited, Entries(), from, fwd, at);
    }

    /** scan_range visits exactly the entries between the keys, the second excluded, unless its seek is stranded; then
        only when there are none, and the search does not stray to an entry. */
    method ScanRange(from: Key, to: Key) returns (visited: seq<Item>)
      requires Valid()
      modifies this
      ensures Valid()
      ensures IsRange(visited, Entries(), from, to) <==>
        || from == to || root.None? || !Stranded(root.value, from, 0, Less(from, to), false)
        || (!Strays(root.value, from, 0, Less(from, to), false, false) && NoneInRange(Entries(), from, to))
    {
      hide Valid, Position, Entries, LandsRight, Stranded, Strays, WrongSide, IsRange, NoneInRange, Path, Below, Before, After,
        Flat, Wf, Reversed, Passes, Less, Increasing;
      EntriesIncreasing();
      if from == to {
        visited := [];
        EmptyRange(Entries(), from);
        return;
      }
      var fwd := Less(from, to);
      var found := Seek(from, fwd);
      ghost var stop, at := 0, Place();
      if fwd {
        visited, stop := VisitForward(Some(to));
      } else {
        visited, stop := VisitReverse(Some(to));
      }
      if LandsRight(Entries(), from, fwd, at) {
        VisitedRange(visited, Entries(), from, to, at, stop);
      } else if at.Some? {
        StrayRange(visited, Entries(), from, to, at.value, stop);
      } else {
        NothingVisited(Entries(), from, to);
      }
    }

    lemma EntriesIncreasing()
      requires Valid()
      ensures Increasing(Entries())
    {
      if root.Some? { FlatIncreasing(root.value, []); }
    }

    static lemma SideOf(key: Key, k: Key, fwd: bool)
      ensures (fwd ==> (Less(key, k) <==> WrongSide(key, k, fwd))) && (!fwd ==> (Less(k, key) <==> WrongSide(key, k, fwd)))
    {
    }

    static lemma NothingToFind(k: Key, fwd: bool)
      ensures LandsRight([], k, fwd, None)
    {
    }

    /** Pops the parent unexamined, then looks for an ancestor with a sibling and descends the child already taken. */
    method Unwind(fwd: bool)
      requires root.Some? && Wf(root.value, []) && Path(root.value, stack)
      modifies this
      ensures Valid()
      ensures stack != [] <==> SiblingAbove(old(stack), fwd)
      ensures stack != [] ==>
        if fwd then Position() <= |old(Before(stack))| else Position() + 1 + |old(After(stack))| >= |Entries()|
    {
      hide Before, After, Path, Below, Flat, FlatKids, Wf;
      ghost var before, after := |Before(stack)|, |After(stack)|;
      if stack != [] {
        Popped(root.value, stack);
        stack := stack[..|stack| - 1];
      }
      while stack != []
        invariant Path(root.value, stack)
        invariant |Before(stack)| <= before && |After(stack)| <= after
        invariant SiblingAbove(old(stack), fwd) <==> HasSibling(stack, fwd)
        decreases |stack|
      {
        var top := stack[|stack| - 1];
        Popped(root.value, stack);
        if fwd && top.index + 1 < |top.node.kids| {
          LeftMostTraversal(top.node.kids[top.index].node);
          return;
        }
        if !fwd && top.index > 0 {
          RightMostTraversal(top.node.kids[top.index].node);
          return;
        }
        stack := stack[..|stack| - 1];
      }
    }
  }
}

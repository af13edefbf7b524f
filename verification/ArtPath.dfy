/** Paths from the root of a tree, as the iterator of art.hpp keeps them on its stack, and the entries to
    either side of them. */
module ArtPath {
  import opened ArtKey
  import opened ArtTree
  import opened ArtUpdate
  import opened ArtOrder

  /** An inner node on the path and the child taken there; the leaf at the top of a stack takes no child. */
  datatype Frame = Frame(node: Node, index: nat)

  // ---- what a stack stands for ---------------------------------------------------------------------

  /** The inner-node part of a stack: a path from `root` to a child, which is `Below`. */
  ghost predicate Path(root: Node, s: seq<Frame>) {
    s != [] ==>
      && Path(root, s[..|s| - 1])
      && s[|s| - 1].node == Below(root, s[..|s| - 1])
      && s[|s| - 1].node.Inode? && s[|s| - 1].index < |s[|s| - 1].node.kids|
  }

  function Below(root: Node, s: seq<Frame>): Node {
    if s == [] then root
    else
      var top := s[|s| - 1];
      if top.node.Inode? && top.index < |top.node.kids| then top.node.kids[top.index].node else root
  }

  /** The entries to the left of a path, and those to the right of it. */
  function Before(s: seq<Frame>): seq<Item> {
    if s == [] then []
    else
      var top := s[|s| - 1];
      Before(s[..|s| - 1])
      + (if top.node.Inode? && top.index < |top.node.kids| then FlatKids(top.node.kids[..top.index]) else [])
  }

  function After(s: seq<Frame>): seq<Item> {
    if s == [] then []
    else
      var top := s[|s| - 1];
      (if top.node.Inode? && top.index < |top.node.kids| then FlatKids(top.node.kids[top.index + 1..]) else [])
      + After(s[..|s| - 1])
  }

  lemma Regroup<T>(a: seq<T>, l: seq<T>, m: seq<T>, r: seq<T>, b: seq<T>)
    ensures a + (l + m + r) + b == (a + l) + m + (r + b)
  {
  }

  lemma TopFrame(root: Node, s: seq<Frame>)
    requires Path(root, s) && s != []
    ensures var top, init := s[|s| - 1], s[..|s| - 1];
      && Path(root, init) && top.node == Below(root, init) && top.node.Inode? && top.index < |top.node.kids|
      && Below(root, s) == top.node.kids[top.index].node && Flat(top.node) == FlatKids(top.node.kids)
      && After(s) == FlatKids(top.node.kids[top.index + 1..]) + After(init)
      && Before(s) == Before(init) + FlatKids(top.node.kids[..top.index])
  {
    hide FlatKids;
  }

  /** Every entry is left of the path, below it, or right of it, in this order. */
  lemma {:induction false} Around(root: Node, s: seq<Frame>)
    requires Path(root, s)
    ensures Flat(root) == Before(s) + Flat(Below(root, s)) + After(s)
  {
    if s != [] {
      hide Flat, FlatKids, Path, Below, Before, After;
      TopFrame(root, s);
      var init, top := s[..|s| - 1], s[|s| - 1];
      Around(root, init);
      FlatKidsSplit(top.node.kids, top.index);
      Regroup(Before(init), FlatKids(top.node.kids[..top.index]), Flat(Below(root, s)),
              FlatKids(top.node.kids[top.index + 1..]), After(init));
    }
  }

  lemma RestSplit(kids: seq<Edge>, i: nat)
    requires i < |kids|
    ensures FlatKids(kids[i..]) == Flat(kids[i].node) + FlatKids(kids[i + 1..])
  {
    var rest := kids[i..];
    FlatKidsSplit(rest, 0);
    assert rest[0] == kids[i] && rest[..0] == [] && rest[1..] == kids[i + 1..];
    assert FlatKids(rest[..0]) == [];
    hide FlatKids, Flat;
  }

  lemma InitSplit(kids: seq<Edge>, i: nat)
    requires i < |kids|
    ensures FlatKids(kids[..i + 1]) == FlatKids(kids[..i]) + Flat(kids[i].node)
  {
    assert kids[..i + 1][..i] == kids[..i];
  }

  lemma PathPush(root: Node, s: seq<Frame>, i: nat)
    requires Path(root, s) && Below(root, s).Inode? && i < |Below(root, s).kids|
    ensures var t := s + [Frame(Below(root, s), i)];
      && Path(root, t) && Below(root, t) == Below(root, s).kids[i].node
      && Before(t) == Before(s) + FlatKids(Below(root, s).kids[..i])
      && After(t) == FlatKids(Below(root, s).kids[i + 1..]) + After(s)
  {
    hide FlatKids, Flat;
    var n := Below(root, s);
    var t := s + [Frame(n, i)];
    assert t[..|t| - 1] == s && t[|t| - 1] == Frame(n, i);
  }

  lemma {:induction false} PathWf(root: Node, s: seq<Frame>) returns (path: seq<Byte>)
    requires Path(root, s) && Wf(root, [])
    ensures Wf(Below(root, s), path)
  {
    if s == [] {
      path := [];
    } else {
      var top := s[|s| - 1];
      var p := PathWf(root, s[..|s| - 1]);
      WfKid(top.node, p, top.index);
      path := KidPath(top.node, p, top.index);
    }
  }

  lemma {:induction false} FlatKidsConcat(a: seq<Edge>, b: seq<Edge>)
    ensures FlatKids(a + b) == FlatKids(a) + FlatKids(b)
    decreases |b|
  {
    if b == [] {
      assert a + b == a;
    } else {
      FlatKidsConcat(a, b[..|b| - 1]);
      assert (a + b)[..|a + b| - 1] == a + b[..|b| - 1];
    }
  }

  lemma KidsCut(n: Node, r: nat)
    requires n.Inode? && r <= |n.kids|
    ensures Flat(n) == FlatKids(n.kids[..r]) + FlatKids(n.kids[r..])
    ensures FlatKids(n.kids[..0]) == [] && FlatKids(n.kids[|n.kids|..]) == []
  {
    assert n.kids == n.kids[..r] + n.kids[r..];
    FlatKidsConcat(n.kids[..r], n.kids[r..]);
  }

  /** The first child has nothing to its left, the last nothing to its right. */
  lemma FirstPush(root: Node, s: seq<Frame>)
    requires Path(root, s) && Wf(root, []) && Below(root, s).Inode?
    ensures |Below(root, s).kids| > 0
    ensures var t := s + [Frame(Below(root, s), 0)];
      Path(root, t) && Below(root, t) == Below(root, s).kids[0].node && Before(t) == Before(s)
  {
    var p := PathWf(root, s);
    PathPush(root, s, 0);
    assert Below(root, s).kids[..0] == [];
  }

  lemma LastPush(root: Node, s: seq<Frame>)
    requires Path(root, s) && Wf(root, []) && Below(root, s).Inode?
    ensures |Below(root, s).kids| > 0
    ensures var last := |Below(root, s).kids| - 1; var t := s + [Frame(Below(root, s), last)];
      Path(root, t) && Below(root, t) == Below(root, s).kids[last].node && After(t) == After(s)
  {
    var p := PathWf(root, s);
    var kids := Below(root, s).kids;
    assert |kids| > 0;
    hide Wf, Path, Before, After, Flat, Below;
    PathPush(root, s, |kids| - 1);
    assert kids[|kids|..] == [];
    assert FlatKids(kids[|kids|..]) == [];
  }

  lemma LeafBelow(root: Node, s: seq<Frame>)
    requires Path(root, s) && Below(root, s).Leaf?
    ensures |Before(s)| + 1 + |After(s)| == |Flat(root)|
    ensures Flat(root)[|Before(s)|] == Item(Below(root, s).key, Below(root, s).val)
  {
    Around(root, s);
  }

  /** How many entries come before the leaf below the path. */
  ghost function LeafPlace(root: Node, s: seq<Frame>): (p: nat)
    requires Path(root, s) && Below(root, s).Leaf?
    ensures p == |Before(s)| && p + 1 + |After(s)| == |Flat(root)|
  {
    LeafBelow(root, s);
    |Before(s)|
  }

  lemma KidHasEntries(root: Node, s: seq<Frame>)
    requires Path(root, s) && Wf(root, [])
    ensures Flat(Below(root, s)) != []
  {
    var p := PathWf(root, s);
    FlatIncreasing(Below(root, s), p);
  }

  lemma Assoc<T>(a: seq<T>, b: seq<T>, c: seq<T>)
    ensures (a + b) + c == a + (b + c)
  {
  }

  /** Moving to the right sibling: what was right of the path is now below it or right of it. */
  lemma NextFrame(root: Node, s: seq<Frame>)
    requires Path(root, s) && s != [] && Wf(root, []) && s[|s| - 1].index + 1 < |s[|s| - 1].node.kids|
    ensures var top := s[|s| - 1]; var t := s[..|s| - 1] + [Frame(top.node, top.index + 1)];
      && Path(root, t) && Below(root, t) == top.node.kids[top.index + 1].node
      && After(s) == Flat(Below(root, t)) + After(t) && After(s) != []
  {
    hide FlatKids, Flat, Wf, After, Before, Path, Below;
    TopFrame(root, s);
    var top, init := s[|s| - 1], s[..|s| - 1];
    PathPush(root, init, top.index + 1);
    RestSplit(top.node.kids, top.index + 1);
    KidHasEntries(root, init + [Frame(top.node, top.index + 1)]);
    Assoc(Flat(top.node.kids[top.index + 1].node), FlatKids(top.node.kids[top.index + 2..]), After(init));
  }

  lemma PriorFrame(root: Node, s: seq<Frame>)
    requires Path(root, s) && s != [] && Wf(root, []) && 0 < s[|s| - 1].index
    ensures var top := s[|s| - 1]; var t := s[..|s| - 1] + [Frame(top.node, top.index - 1)];
      && Path(root, t) && Below(root, t) == top.node.kids[top.index - 1].node
      && Before(s) == Before(t) + Flat(Below(root, t)) && Before(s) != []
  {
    hide FlatKids, Flat, Wf, After, Before, Path, Below;
    TopFrame(root, s);
    var top, init := s[|s| - 1], s[..|s| - 1];
    PathPush(root, init, top.index - 1);
    InitSplit(top.node.kids, top.index - 1);
    KidHasEntries(root, init + [Frame(top.node, top.index - 1)]);
    Assoc(Before(init), FlatKids(top.node.kids[..top.index - 1]), Flat(top.node.kids[top.index - 1].node));
  }

  /** The frame's node has a sibling of the child taken in the direction of travel. */
  ghost predicate SiblingAt(f: Frame, fwd: bool) {
    f.node.Inode? && if fwd then f.index + 1 < |f.node.kids| else f.index > 0
  }

  ghost predicate HasSibling(s: seq<Frame>, fwd: bool) {
    s != [] && (SiblingAt(s[|s| - 1], fwd) || HasSibling(s[..|s| - 1], fwd))
  }

  // ---- ancestors -----------------------------------------------------------------------------------------

  /** Popping a frame leaves fewer entries on either side, and no sibling that was not there. */
  lemma Popped(root: Node, s: seq<Frame>)
    requires Path(root, s) && s != []
    ensures Path(root, s[..|s| - 1])
    ensures |Before(s[..|s| - 1])| <= |Before(s)| && |After(s[..|s| - 1])| <= |After(s)|
    ensures s[|s| - 1].node.Inode? && s[|s| - 1].index < |s[|s| - 1].node.kids|
    ensures Below(root, s) == s[|s| - 1].node.kids[s[|s| - 1].index].node
  {
    TopFrame(root, s);
  }

  /** Popping a frame whose child is the last, or the first, loses no entries on that side. */
  lemma PoppedSame(root: Node, s: seq<Frame>)
    requires Path(root, s) && s != []
    ensures s[|s| - 1].index + 1 == |s[|s| - 1].node.kids| ==> After(s[..|s| - 1]) == After(s)
    ensures s[|s| - 1].index == 0 ==> Before(s[..|s| - 1]) == Before(s)
  {
    TopFrame(root, s);
    hide Path, Below, Flat;
    var top := s[|s| - 1];
    if top.index + 1 == |top.node.kids| {
      assert top.node.kids[top.index + 1..] == [];
      assert FlatKids(top.node.kids[top.index + 1..]) == [];
    }
    if top.index == 0 {
      assert top.node.kids[..0] == [];
      assert FlatKids(top.node.kids[..0]) == [];
    }
  }

  lemma Bare(root: Node)
    ensures Path(root, []) && Below(root, []) == root && Before([]) == [] && After([]) == []
  {
  }

  /** A sibling is what puts entries on that side of the path. */
  lemma {:induction false} SiblingsHaveEntries(root: Node, s: seq<Frame>)
    requires Path(root, s) && Wf(root, [])
    ensures HasSibling(s, true) <==> After(s) != []
    ensures HasSibling(s, false) <==> Before(s) != []
  {
    if s != [] {
      var init, top := s[..|s| - 1], s[|s| - 1];
      SiblingsHaveEntries(root, init);
      TopFrame(root, s);
      if top.index + 1 < |top.node.kids| { NextFrame(root, s); }
      if top.index > 0 { PriorFrame(root, s); }
      KidsCut(top.node, 0);
    }
  }
}

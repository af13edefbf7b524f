/** Concurrent inserts give every inner node the smallest layout that has room for its children. */
module OlcCapacity {
  import opened ArtKey
  import opened OlcHeap
  import opened OlcCommit
  import opened OlcProtocol
  import opened OlcInvariant
  import opened OlcSteps
  import opened OlcSafety

  ghost predicate SmallestLayout(n: Node) {
    n.body.Inode? ==>
      var c := |n.body.kids|;
      && 2 <= c <= 256
      && n.body.capacity == if c <= 4 then 4 else if c <= 16 then 16 else if c <= 48 then 48 else 256
  }

  ghost predicate LayoutsFit(h: Heap) {
    forall x :: x in h && h[x].live ==> SmallestLayout(h[x])
  }

  lemma SameTreeFits(h: Heap, g: Heap)
    requires LayoutsFit(h) && SameTree(h, g)
    ensures LayoutsFit(g)
  {
    hide SmallestLayout;
    forall x | x in g && g[x].live ensures SmallestLayout(g[x]) {
      assert SmallestLayout(h[x]);
      SameLayout(h[x], g[x]);
    }
  }

  lemma SameLayout(m: Node, n: Node)
    requires SmallestLayout(m) && n.body == m.body
    ensures SmallestLayout(n)
  {
  }

  lemma OneMoreKid(kids: map<Byte, Id>, b: Byte, l: Id)
    requires b !in kids
    ensures |kids[b := l]| == |kids| + 1 <= 256
  {
    FewKids(kids, b);
    assert kids[b := l].Keys == kids.Keys + {b};
    assert |kids[b := l]| == |kids[b := l].Keys| && |kids| == |kids.Keys|;
  }

  lemma AddFits(h: Heap, x: Id, b: Byte, l: Id, k: Key, v: Value)
    requires LayoutsFit(h) && CanAdd(h, x, b, l, k)
    ensures LayoutsFit(Add(h, x, b, l, k, v))
  {
    var g := Add(h, x, b, l, k, v);
    OneMoreKid(h[x].body.kids, b, l);
    assert SmallestLayout(h[x]) && SmallestLayout(g[x]) && SmallestLayout(g[l]);
    hide SmallestLayout;
    forall y | y in g && g[y].live ensures SmallestLayout(g[y]) {
      if y != x && y != l { assert g[y] == h[y]; }
    }
  }

  lemma PutKidSize(n: Node, b: Byte, x: Id)
    requires !n.body.Leaf? && b in n.body.kids
    ensures n.body.Inode? && SmallestLayout(n) ==> SmallestLayout(PutKid(n, b, x))
  {
    assert n.body.kids[b := x].Keys == n.body.kids.Keys;
    assert |n.body.kids[b := x]| == |n.body.kids[b := x].Keys| && |n.body.kids| == |n.body.kids.Keys|;
  }

  lemma SplitFits(h: Heap, p: Id, c: Byte, x: Id, m: nat, n: Id, b: Byte, l: Id, k: Key, v: Value)
    requires LayoutsFit(h) && CanSplit(h, p, c, x, m, n, b, l, k)
    ensures LayoutsFit(Split(h, p, c, x, m, n, b, l, k, v))
  {
    var g := Split(h, p, c, x, m, n, b, l, k, v);
    assert SmallestLayout(h[x]) && SmallestLayout(h[p]);
    PutKidSize(h[p], c, n);
    TwoKids(Tail(h[x])[m], x, b, l);
    assert SmallestLayout(Fork(h[x], m, x, b, l)) && SmallestLayout(Lowered(h[x], m));
    forall y | y in g && g[y].live ensures SmallestLayout(g[y]) {
      SplitAt(h, p, c, x, m, n, b, l, k, v, y);
    }
  }

  lemma TwoKids(a: Byte, x: Id, b: Byte, l: Id)
    requires a != b
    ensures |map[a := x, b := l]| == 2
  {
    assert map[a := x, b := l].Keys == {a, b};
    assert |map[a := x, b := l]| == |map[a := x, b := l].Keys|;
  }

  /** A full node's children and one more fill the next larger layout beyond the capacity of the full one. */
  lemma GrowFits(h: Heap, p: Id, c: Byte, x: Id, n: Id, b: Byte, l: Id, k: Key, v: Value)
    requires LayoutsFit(h) && CanMove(h, p, c, x, n) && Fresh(h, l) && l != n
    requires b !in h[x].body.kids && |h[x].body.kids| == h[x].body.capacity
    ensures LayoutsFit(GrowInto(h, p, c, x, n, b, l, k, v))
  {
    var f := Move(h, p, c, x, n);
    var g := GrowInto(h, p, c, x, n, b, l, k, v);
    assert SmallestLayout(h[x]) && SmallestLayout(h[p]);
    PutKidSize(h[p], c, n);
    OneMoreKid(h[x].body.kids, b, l);
    MoveAt(h, p, c, x, n, n);
    assert SmallestLayout(g[n]) && SmallestLayout(g[l]);
    hide SmallestLayout;
    forall y | y in g && g[y].live ensures SmallestLayout(g[y]) {
      MoveAt(h, p, c, x, n, y);
      if y != n && y != l { assert g[y] == f[y]; }
    }
  }

  predicate Writes(step: Step) {
    step.PlantLeaf? || step.AddLeaf? || step.SplitNode? || step.GrowNode?
  }

  lemma QuietKeepsTree(s: State, step: Step)
    requires Enabled(s, step) && !Writes(step)
    ensures SameTree(s.heap, Next(s, step).heap)
  {
    hide Fresh, Decide, KeyByte, Replay, Add, Split, GrowInto, Plant, SharedLength;
  }

  lemma PlantFits(s: State, step: Step)
    requires LayoutsFit(s.heap) && Enabled(s, step) && step.PlantLeaf?
    ensures LayoutsFit(Next(s, step).heap)
  {
    var g := Next(s, step).heap;
    forall x | x in g && g[x].live ensures SmallestLayout(g[x]) {
      if x != ROOT && x != step.l { assert g[x] == s.heap[x]; }
    }
  }

  lemma AddLeafFits(s: State, step: Step)
    requires Inv(s) && LayoutsFit(s.heap) && Enabled(s, step) && step.AddLeaf?
    ensures LayoutsFit(Next(s, step).heap)
  {
    hide Inv, Facts, TreeInv, Decide, LayoutsFit, Add;
    MyFacts(s, step.t);
    StoredTree(s);
    var pc, h, k := s.threads[step.t], s.heap, s.threads[step.t].call.op.key;
    NodeOwnedFacts(h, s.log, step.t, pc);
    AddIsDue(h, pc.c.node, k, pc.c.depth, step.l);
    AddFits(h, pc.c.node, Branching(pc.seen, k, pc.c.depth), step.l, k, pc.call.op.val);
  }

  lemma SplitNodeFits(s: State, step: Step)
    requires Inv(s) && LayoutsFit(s.heap) && Enabled(s, step) && step.SplitNode?
    ensures LayoutsFit(Next(s, step).heap)
  {
    hide Inv, Facts, TreeInv, Agree, Legal, Replay, Decide, LayoutsFit, Split, CanSplit, SharedLength, KeyByte, Tail;
    MyFacts(s, step.t);
    StoredTree(s);
    var pc, h, k := s.threads[step.t], s.heap, s.threads[step.t].call.op.key;
    SplitChecks(h, s.where, s.log, step.t, pc, step.n, step.l);
    var m := SharedLength(h[pc.c.node], k);
    SplitFits(h, pc.c.parent, pc.c.slot, pc.c.node, m, step.n, KeyByte(k, pc.c.depth + m), step.l, k, pc.call.op.val);
  }

  lemma GrowNodeFits(s: State, step: Step)
    requires Inv(s) && LayoutsFit(s.heap) && Enabled(s, step) && step.GrowNode?
    ensures LayoutsFit(Next(s, step).heap)
  {
    hide Inv, Facts, TreeInv, Agree, Legal, Replay, Decide, LayoutsFit, GrowInto;
    MyFacts(s, step.t);
    StoredTree(s);
    var pc, h, k := s.threads[step.t], s.heap, s.threads[step.t].call.op.key;
    GrowingKnows(h, s.log, step.t, pc);
    GrowIsDue(h, pc.c, k, step.n);
    GrowFits(h, pc.c.parent, pc.c.slot, pc.c.node, step.n, Branching(pc.seen, k, pc.c.depth), step.l, k, pc.call.op.val);
  }

  lemma StepKeepsLayouts(s: State, step: Step)
    requires Inv(s) && LayoutsFit(s.heap) && Enabled(s, step)
    ensures LayoutsFit(Next(s, step).heap)
  {
    hide Inv, LayoutsFit, Enabled, Next;
    if step.PlantLeaf? {
      PlantFits(s, step);
    } else if step.AddLeaf? {
      AddLeafFits(s, step);
    } else if step.SplitNode? {
      SplitNodeFits(s, step);
    } else if step.GrowNode? {
      GrowNodeFits(s, step);
    } else {
      QuietKeepsTree(s, step);
      SameTreeFits(s.heap, Next(s, step).heap);
    }
  }

  /** In every reachable state each live inner node has the least of the four capacities that holds its children. */
  lemma {:induction false} CapacityFits(states: seq<State>, steps: seq<Step>, i: nat)
    requires IsRun(states, steps) && i < |states|
    ensures LayoutsFit(states[i].heap)
  {
    hide Inv, Enabled, Next, LayoutsFit;
    if i == 0 {
      NoInnerNode(states[0]);
    } else {
      CapacityFits(states, steps, i - 1);
      RunInv(states, steps, i - 1);
      StepKeepsLayouts(states[i - 1], steps[i - 1]);
    }
  }

  lemma NoInnerNode(s: State)
    requires Initial(s)
    ensures LayoutsFit(s.heap)
  {
  }
}

/** What every thread of OlcProtocol may rely on, and why the steps of other threads cannot take it away. */
module OlcInvariant {
  import opened ArtKey
  import opened OlcHeap
  import opened OlcCommit
  import opened OlcProtocol

  // ---- knowledge conditional on a lock word --------------------------------------------------

  /** The expected lock word is not from the future, so it cannot come true later. */
  ghost predicate Past(h: Heap, x: Id, expected: Lock) {
    x in h && expected.Free? && (h[x].lock.Obsolete? || expected.version <= h[x].lock.version)
  }

  ghost predicate Owned(h: Heap, t: Tid, x: Id, held: Lock) {
    x in h && held.Locked? && held.owner == t && h[x].lock == held
  }

  /** While the parent's word is the one seen, its slot still leads to the node by the right path. */
  ghost predicate ParentFact(h: Heap, c: Chain, k: Key) {
    && c.parent in h && c.node in h && c.depth <= KEY_BYTES
    && (h[c.parent].lock == c.seen ==> Link(h, c.parent, c.slot, c.node) && ChildPath(h[c.parent], c.slot) == k[..c.depth])
  }

  ghost predicate NodeFact(h: Heap, x: Id, expected: Lock, k: Key, d: nat) {
    x in h && (h[x].lock == expected ==> At(h, x, k, d))
  }

  ghost predicate CopyFact(h: Heap, x: Id, expected: Lock, seen: Body) {
    x in h && !seen.RootPointer? && (h[x].lock == expected ==> h[x].body == seen)
  }

  ghost predicate OutcomeOk(t: Tid, call: Call, log: seq<Event>, out: Outcome) {
    call.from <= out.at < |log| && log[out.at] == Event(t, call.op, out.result)
  }

  ghost predicate Facts(h: Heap, log: seq<Event>, t: Tid, pc: Pc) {
    match pc
    case Idle => true
    case Start(call) => call.from <= |log|
    case RootLocked(call, rl) => call.from <= |log| && Past(h, ROOT, rl)
    case RootLoaded(call, rl, top) =>
      call.from <= |log| && Past(h, ROOT, rl) && (h[ROOT].lock == rl ==> h[ROOT].body == RootPointer(top))
    case RootHeld(call, rl) =>
      call.from <= |log| && call.op.Insert? && Owned(h, t, ROOT, rl) && h[ROOT].body == RootPointer(map[])
    case Descend(call, c) =>
      call.from <= |log| && Past(h, c.parent, c.seen) && ParentFact(h, c, call.op.key)
    case NodeLocked(call, c, nl) =>
      call.from <= |log| && Past(h, c.parent, c.seen) && ParentFact(h, c, call.op.key) && Past(h, c.node, nl)
    case ParentReleased(call, c, nl) =>
      call.from <= |log| && call.op.Get? && Past(h, c.node, nl) && NodeFact(h, c.node, nl, call.op.key, c.depth)
    case Copied(call, c, nl, seen) =>
      && call.from <= |log| && call.op.Insert? && Past(h, c.parent, c.seen) && ParentFact(h, c, call.op.key)
      && Past(h, c.node, nl) && CopyFact(h, c.node, nl, seen)
    case Ready(call, c, nl, seen) =>
      && call.from <= |log| && Past(h, c.node, nl) && NodeFact(h, c.node, nl, call.op.key, c.depth)
      && CopyFact(h, c.node, nl, seen)
      && (call.op.Insert? ==> BranchOf(pc).Same? || BranchOf(pc).Child?)
    case ParentHeld(call, c, nl, seen) =>
      && call.from <= |log| && call.op.Insert? && Owned(h, t, c.parent, c.seen) && ParentFact(h, c, call.op.key)
      && Past(h, c.node, nl) && CopyFact(h, c.node, nl, seen)
      && !BranchOf(pc).Same? && !BranchOf(pc).Child? && !BranchOf(pc).AddLeaf?
    case BothHeld(call, c, nl, seen) =>
      && call.from <= |log| && call.op.Insert? && Owned(h, t, c.parent, c.seen) && ParentFact(h, c, call.op.key)
      && Owned(h, t, c.node, nl) && CopyFact(h, c.node, nl, seen) && c.parent != c.node
      && !BranchOf(pc).Same? && !BranchOf(pc).Child? && !BranchOf(pc).AddLeaf?
    case NodeHeld(call, c, nl, seen) =>
      && call.from <= |log| && call.op.Insert? && Past(h, c.parent, c.seen) && ParentFact(h, c, call.op.key)
      && Owned(h, t, c.node, nl) && CopyFact(h, c.node, nl, seen) && BranchOf(pc).AddLeaf?
    case NodeOwned(call, c, nl, seen) =>
      && call.from <= |log| && call.op.Insert? && NodeFact(h, c.node, nl, call.op.key, c.depth)
      && Owned(h, t, c.node, nl) && CopyFact(h, c.node, nl, seen) && BranchOf(pc).AddLeaf?
    case Growing(call, c, seen) =>
      && call.from <= |log| && call.op.Insert? && Owned(h, t, c.parent, c.seen) && ParentFact(h, c, call.op.key)
      && CopyFact(h, c.node, Obsolete(t), seen) && h[c.node].lock == Obsolete(t) && c.parent != c.node
      && BranchOf(pc).Grow?
    case Releasing(call, held, outcome) =>
      && call.from <= |log|
      && 1 <= |held| <= 2
      && (forall i :: 0 <= i < |held| ==> held[i] in h && h[held[i]].lock.Locked? && h[held[i]].lock.owner == t)
      && (|held| == 2 ==> held[0] != held[1])
      && (outcome.Some? ==> OutcomeOk(t, call, log, outcome.value))
    case Done(call, out) => OutcomeOk(t, call, log, out)
  }

  // ---- what a step of thread `t` may do to a node ----------------------------------------------

  ghost predicate Mine(l: Lock, t: Tid) {
    !l.Free? && l.owner == t
  }

  ghost predicate NodeFrame(n: Node, m: Node, t: Tid) {
    || m == n
    || (n.lock.Free? && m == n.(lock := Locked(n.lock.version, t)))
    || (Mine(n.lock, t) && Mine(m.lock, t) && (m.lock == n.lock || m.lock.Obsolete?))
    || (n.lock.Locked? && n.lock.owner == t && m.lock == Free(n.lock.version + 1))
  }

  /** Nodes stay allocated, and only the holder of a node's lock writes to it. */
  ghost predicate Frame(h: Heap, g: Heap, t: Tid) {
    forall x :: x in h ==> x in g && NodeFrame(h[x], g[x], t)
  }

  lemma PastFrame(h: Heap, g: Heap, t: Tid, x: Id, expected: Lock)
    requires Past(h, x, expected) && Frame(h, g, t)
    ensures Past(g, x, expected)
    ensures g[x].lock == expected ==> g[x] == h[x]
  {
    assert NodeFrame(h[x], g[x], t);
  }

  lemma OwnedFrame(h: Heap, g: Heap, t: Tid, u: Tid, x: Id)
    requires x in h && Mine(h[x].lock, u) && Frame(h, g, t) && t != u
    ensures x in g && g[x] == h[x]
  {
    assert NodeFrame(h[x], g[x], t);
  }

  lemma ParentFrame(h: Heap, g: Heap, t: Tid, c: Chain, k: Key)
    requires ParentFact(h, c, k) && Frame(h, g, t)
    requires c.parent in g && (g[c.parent].lock == c.seen ==> g[c.parent] == h[c.parent])
    ensures ParentFact(g, c, k)
  {
    assert NodeFrame(h[c.node], g[c.node], t);
  }

  /** A thread keeps what it knows through every step of every other thread. */
  lemma FactsFrame(h: Heap, g: Heap, log: seq<Event>, log': seq<Event>, t: Tid, u: Tid, pc: Pc)
    requires Facts(h, log, u, pc) && Frame(h, g, t) && log <= log' && t != u
    ensures Facts(g, log', u, pc)
  {
    hide Frame;
    match pc
    case Idle => case Start(_) => case Done(_, _) =>
    case RootLocked(_, rl) => PastFrame(h, g, t, ROOT, rl);
    case RootLoaded(_, rl, _) => PastFrame(h, g, t, ROOT, rl);
    case RootHeld(_, rl) => OwnedFrame(h, g, t, u, ROOT);
    case Descend(call, c) =>
      PastFrame(h, g, t, c.parent, c.seen);
      ParentFrame(h, g, t, c, call.op.key);
    case NodeLocked(call, c, nl) =>
      PastFrame(h, g, t, c.parent, c.seen);
      ParentFrame(h, g, t, c, call.op.key);
      PastFrame(h, g, t, c.node, nl);
    case ParentReleased(call, c, nl) => PastFrame(h, g, t, c.node, nl);
    case Copied(call, c, nl, _) =>
      PastFrame(h, g, t, c.parent, c.seen);
      ParentFrame(h, g, t, c, call.op.key);
      PastFrame(h, g, t, c.node, nl);
    case Ready(call, c, nl, _) => PastFrame(h, g, t, c.node, nl);
    case ParentHeld(call, c, nl, _) =>
      OwnedFrame(h, g, t, u, c.parent);
      ParentFrame(h, g, t, c, call.op.key);
      PastFrame(h, g, t, c.node, nl);
    case BothHeld(call, c, nl, _) =>
      OwnedFrame(h, g, t, u, c.parent);
      ParentFrame(h, g, t, c, call.op.key);
      OwnedFrame(h, g, t, u, c.node);
    case NodeHeld(call, c, nl, _) =>
      PastFrame(h, g, t, c.parent, c.seen);
      ParentFrame(h, g, t, c, call.op.key);
      OwnedFrame(h, g, t, u, c.node);
    case NodeOwned(call, c, nl, _) => OwnedFrame(h, g, t, u, c.node);
    case Growing(call, c, _) =>
      OwnedFrame(h, g, t, u, c.parent);
      ParentFrame(h, g, t, c, call.op.key);
      OwnedFrame(h, g, t, u, c.node);
    case Releasing(_, held, _) =>
      OwnedFrame(h, g, t, u, held[0]);
      if |held| == 2 { OwnedFrame(h, g, t, u, held[1]); }
  }

  // ---- the invariant --------------------------------------------------------------------------

  /** The tree is well formed and stores exactly what the linearized history has put into the map. */
  ghost predicate Stored(h: Heap, w: map<Key, Id>, log: seq<Event>) {
    TreeInv(h) && Agree(h, w, Replay(log)) && Legal(log)
  }

  ghost predicate Inv(s: State) {
    Stored(s.heap, s.where, s.log) && forall t :: t in s.threads ==> Facts(s.heap, s.log, t, s.threads[t])
  }

  /** What each step has to establish; the frame does the rest. */
  ghost predicate GoodStep(s: State, s': State, t: Tid) {
    && t in s.threads && s'.threads.Keys == s.threads.Keys
    && (forall u :: u in s.threads && u != t ==> s'.threads[u] == s.threads[u])
    && s.log <= s'.log && Frame(s.heap, s'.heap, t)
    && Stored(s'.heap, s'.where, s'.log) && Facts(s'.heap, s'.log, t, s'.threads[t])
  }

  lemma GoodStepKeepsInv(s: State, s': State, t: Tid)
    requires Inv(s) && GoodStep(s, s', t)
    ensures Inv(s')
  {
    hide Stored, Facts, Frame;
    forall u | u in s'.threads ensures Facts(s'.heap, s'.log, u, s'.threads[u]) {
      if u != t { FactsFrame(s.heap, s'.heap, s.log, s'.log, t, u, s.threads[u]); }
    }
  }

  // ---- steps that leave the tree alone ----------------------------------------------------------

  lemma Legalize(log: seq<Event>, e: Event)
    requires Legal(log) && e.result == Answer(Replay(log), e.op)
    ensures Legal(log + [e]) && Replay(log + [e]) == Apply(Replay(log), e.op)
  {
    var l := log + [e];
    assert l[..|log|] == log;
    forall i | 0 <= i < |l| ensures l[i].result == Answer(Replay(l[..i]), l[i].op) {
      if i < |log| { assert l[..i] == log[..i]; }
    }
  }

  /** Only the thread's own position changes. */
  lemma QuietStep(s: State, t: Tid, pc: Pc)
    requires Stored(s.heap, s.where, s.log) && t in s.threads && Facts(s.heap, s.log, t, pc)
    ensures GoodStep(s, s.Put(t, pc), t)
  {
    hide Stored, Facts;
  }

  /** A read-only operation, or an insert of a key that is there, takes effect. */
  lemma ReadStep(s: State, t: Tid, call: Call, result: Result)
    requires Stored(s.heap, s.where, s.log) && t in s.threads && call.from <= |s.log|
    requires result == Answer(Replay(s.log), call.op) && result != Inserted
    ensures GoodStep(s, s.Finish(t, call, result), t)
  {
    hide TreeInv, Agree, Legal, Answer, Replay;
    Legalize(s.log, Event(t, call.op, result));
    assert Apply(Replay(s.log), call.op) == Replay(s.log) by { ReadOnly(Replay(s.log), call.op); }
  }

  lemma ReadOnly(m: map<Key, Value>, op: Op)
    requires Answer(m, op) != Inserted
    ensures Apply(m, op) == m
  {
  }

  lemma TreeFromParts(g: Heap)
    requires RootOk(g) && TopOk(g) && NodesOk(g) && KidsOk(g) && NestOk(g)
    ensures TreeInv(g)
  {
    hide RootOk, TopOk, NodesOk, KidsOk, NestOk;
  }

  /** `g` is `h` but for one lock word. */
  ghost predicate SameTree(h: Heap, g: Heap) {
    && g.Keys == h.Keys
    && forall x :: x in h ==> g[x].body == h[x].body && g[x].path == h[x].path && g[x].live == h[x].live
  }

  lemma SameKids(h: Heap, g: Heap, x: Id, b: Byte)
    requires SameTree(h, g) && x in h && !h[x].body.Leaf? && b in h[x].body.kids && KidOk(h, x, b)
    ensures KidOk(g, x, b)
  {
  }

  lemma SameRoot(h: Heap, g: Heap)
    requires TreeInv(h) && SameTree(h, g)
    ensures RootOk(g) && TopOk(g)
  {
    LiveRoot(h);
    hide TreeInv;
    forall y | y in g && y != ROOT && g[y].live ensures 0 in g[ROOT].body.kids {
      LiveTop(h, y);
    }
  }

  /** Lock words are no part of the tree. */
  lemma SameTreeKeepsInv(h: Heap, g: Heap)
    requires TreeInv(h) && SameTree(h, g)
    ensures TreeInv(g)
  {
    hide TreeInv;
    SameRoot(h, g);
    forall y, z | y in g && z in g && y != z && y != ROOT && z != ROOT && g[y].live && g[z].live
      ensures Nested(g[y], g[z])
    {
      PairNested(h, y, z);
    }
    forall y | y in g && g[y].live ensures NodeOk(g[y]) {
      LiveNode(h, y);
    }
    forall y, d | y in g && g[y].live && !g[y].body.Leaf? && d in g[y].body.kids ensures KidOk(g, y, d) {
      LiveKid(h, y, d);
      SameKids(h, g, y, d);
    }
    hide Nested, NodeOk, KidOk, RootOk, SameTree;
    TreeFromParts(g);
  }

  lemma SameTreeAgrees(h: Heap, g: Heap, w: map<Key, Id>, m: map<Key, Value>)
    requires Agree(h, w, m) && SameTree(h, g)
    ensures Agree(g, w, m)
  {
  }

  lemma RelockFrame(h: Heap, x: Id, lock: Lock, t: Tid)
    requires x in h && NodeFrame(h[x], h[x].(lock := lock), t)
    ensures SameTree(h, h[x := h[x].(lock := lock)]) && Frame(h, h[x := h[x].(lock := lock)], t)
  {
  }

  lemma LockStep(s: State, t: Tid, x: Id, lock: Lock, pc: Pc)
    requires Stored(s.heap, s.where, s.log) && t in s.threads && x in s.heap
    requires NodeFrame(s.heap[x], s.heap[x].(lock := lock), t)
    requires Facts(s.Relock(x, lock).heap, s.log, t, pc)
    ensures GoodStep(s, s.Relock(x, lock).Put(t, pc), t)
  {
    hide TreeInv, Legal, Facts, Agree, Frame, SameTree, NodeFrame;
    RelockFrame(s.heap, x, lock, t);
    SameTreeKeepsInv(s.heap, s.Relock(x, lock).heap);
    SameTreeAgrees(s.heap, s.Relock(x, lock).heap, s.where, Replay(s.log));
  }
}

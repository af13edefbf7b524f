/** Every step of OlcProtocol keeps the invariant, and no step follows a wild pointer. */
module OlcSteps {
  import opened ArtKey
  import opened OlcHeap
  import opened OlcCommit
  import opened OlcProtocol
  import opened OlcInvariant

  /** The link the parent showed leads to the right place. */
  lemma ParentLeads(h: Heap, c: Chain, k: Key)
    requires TreeInv(h) && ParentFact(h, c, k) && h[c.parent].lock == c.seen
    ensures At(h, c.node, k, c.depth) && c.parent != c.node
  {
    hide TreeInv;
    LiveKid(h, c.parent, c.slot);
    LiveNode(h, c.node);
  }

  lemma MyFacts(s: State, t: Tid)
    requires Inv(s) && t in s.threads
    ensures Stored(s.heap, s.where, s.log) && Facts(s.heap, s.log, t, s.threads[t])
  {
    hide Stored, Facts;
  }

  lemma StoredTree(s: State)
    requires Stored(s.heap, s.where, s.log)
    ensures TreeInv(s.heap) && Agree(s.heap, s.where, Replay(s.log)) && Legal(s.log)
  {
    hide TreeInv, Agree, Legal;
  }

  lemma RestartFacts(h: Heap, log: seq<Event>, t: Tid, pc: Pc)
    requires Facts(h, log, t, pc) && !pc.Idle?
    ensures Facts(h, log, t, Start(pc.call))
  {
  }

  lemma RootIsThere(s: State)
    requires Stored(s.heap, s.where, s.log)
    ensures RootOk(s.heap)
  {
    hide Agree, Legal;
    LiveRoot(s.heap);
  }

  // ---- at the root ---------------------------------------------------------------------------

  lemma InvokeGood(s: State, step: Step)
    requires Inv(s) && Enabled(s, step) && step.Invoke?
    ensures GoodStep(s, Next(s, step), step.t)
  {
    hide GoodStep;
    MyFacts(s, step.t);
    hide Inv, Stored;
    QuietStep(s, step.t, Start(Call(step.op, |s.log|)));
  }

  lemma Stutter(s: State, t: Tid)
    requires Stored(s.heap, s.where, s.log) && t in s.threads && Facts(s.heap, s.log, t, s.threads[t])
    ensures GoodStep(s, s, t)
  {
    hide Stored, Facts;
  }

  lemma LockRootGood(s: State, step: Step)
    requires Inv(s) && Enabled(s, step) && step.LockRoot?
    ensures GoodStep(s, Next(s, step), step.t)
  {
    hide GoodStep;
    MyFacts(s, step.t);
    hide Inv, Stored;
    var pc, l := s.threads[step.t], s.heap[ROOT].lock;
    if l.Free? {
      QuietStep(s, step.t, RootLocked(pc.call, l));
    } else {
      Stutter(s, step.t);
    }
  }

  lemma LoadRootGood(s: State, step: Step)
    requires Inv(s) && Enabled(s, step) && step.LoadRoot?
    ensures GoodStep(s, Next(s, step), step.t)
  {
    hide GoodStep;
    MyFacts(s, step.t);
    hide Inv, Stored;
    var pc := s.threads[step.t];
    QuietStep(s, step.t, RootLoaded(pc.call, pc.rl, s.heap[ROOT].body.kids));
  }

  lemma CheckRootGood(s: State, step: Step)
    requires Inv(s) && Enabled(s, step) && step.CheckRoot?
    ensures GoodStep(s, Next(s, step), step.t)
  {
    hide GoodStep;
    MyFacts(s, step.t);
    hide Inv;
    var pc, t := s.threads[step.t], step.t;
    if s.heap[ROOT].lock != pc.rl {
      hide Stored;
      QuietStep(s, t, Start(pc.call));
    } else if 0 in pc.top {
      RootIsThere(s);
      TopNode(s.heap, pc.call.op.key);
      hide Stored;
      QuietStep(s, t, Descend(pc.call, Chain(ROOT, 0, pc.rl, pc.top[0], 0)));
    } else {
      EmptyTree(s.heap, s.where, Replay(s.log));
      hide Stored;
      ReadStep(s, t, pc.call, NotFound);
    }
  }

  lemma UpgradeRootGood(s: State, step: Step)
    requires Inv(s) && Enabled(s, step) && step.UpgradeRoot?
    ensures GoodStep(s, Next(s, step), step.t)
  {
    hide GoodStep;
    MyFacts(s, step.t);
    RootIsThere(s);
    hide Inv, Stored;
    var pc, t := s.threads[step.t], step.t;
    if s.heap[ROOT].lock != pc.rl {
      QuietStep(s, t, Start(pc.call));
    } else {
      var mine := Locked(pc.rl.version, t);
      assert pc.top.Keys <= {0};
      assert pc.top == map[];
      LockStep(s, t, ROOT, mine, RootHeld(pc.call, mine));
    }
  }

  // ---- on the way down -------------------------------------------------------------------------

  lemma LockNodeGood(s: State, step: Step)
    requires Inv(s) && Enabled(s, step) && step.LockNode?
    ensures GoodStep(s, Next(s, step), step.t)
  {
    hide GoodStep;
    MyFacts(s, step.t);
    hide Inv, Stored, ParentFact;
    var pc, t := s.threads[step.t], step.t;
    var l := s.heap[pc.c.node].lock;
    if l.Free? {
      QuietStep(s, t, NodeLocked(pc.call, pc.c, l));
    } else if l.Obsolete? {
      QuietStep(s, t, Start(pc.call));
    } else {
      Stutter(s, t);
    }
  }

  lemma ReleaseParentGood(s: State, step: Step)
    requires Inv(s) && Enabled(s, step) && step.ReleaseParent?
    ensures GoodStep(s, Next(s, step), step.t)
  {
    hide GoodStep, Inv, Stored, TreeInv, Agree, Legal, Decide;
    MyFacts(s, step.t);
    var pc, t := s.threads[step.t], step.t;
    if s.heap[pc.c.parent].lock != pc.c.seen {
      QuietStep(s, t, Start(pc.call));
    } else {
      StoredTree(s);
      ParentLeads(s.heap, pc.c, pc.call.op.key);
      QuietStep(s, t, if pc.NodeLocked? then ParentReleased(pc.call, pc.c, pc.nl) else Ready(pc.call, pc.c, pc.nl, pc.seen));
    }
  }

  lemma CopyNodeGood(s: State, step: Step)
    requires Inv(s) && Enabled(s, step) && step.CopyNode?
    ensures GoodStep(s, Next(s, step), step.t)
  {
    hide GoodStep;
    MyFacts(s, step.t);
    hide Inv, Stored, ParentFact;
    var pc, t := s.threads[step.t], step.t;
    QuietStep(s, t, if pc.ParentReleased? then Ready(pc.call, pc.c, pc.nl, step.copy) else Copied(pc.call, pc.c, pc.nl, step.copy));
  }

  lemma ReadyFacts(h: Heap, log: seq<Event>, t: Tid, pc: Pc)
    requires pc.Ready? && Facts(h, log, t, pc) && h[pc.c.node].lock == pc.nl
    ensures At(h, pc.c.node, pc.call.op.key, pc.c.depth) && h[pc.c.node].body == pc.seen && pc.call.from <= |log|
    ensures pc.call.op.Insert? ==> BranchOf(pc).Same? || BranchOf(pc).Child?
  {
    hide Decide;
  }

  /** The answer a validated copy gives, when it is not a child to follow. */
  function CopyAnswer(pc: Pc): Result
    requires HasCopy(pc)
  {
    if BranchOf(pc).Same? then
      if pc.call.op.Get? && pc.seen.Leaf? then Found(pc.seen.val) else AlreadyThere
    else NotFound
  }

  lemma CopyAnswers(h: Heap, w: map<Key, Id>, log: seq<Event>, t: Tid, pc: Pc)
    requires TreeInv(h) && Agree(h, w, Replay(log)) && pc.Ready? && Facts(h, log, t, pc) && h[pc.c.node].lock == pc.nl
    requires HasCopy(pc) && !BranchOf(pc).Child?
    ensures CopyAnswer(pc) == Answer(Replay(log), pc.call.op) && CopyAnswer(pc) != Inserted && pc.call.from <= |log|
  {
    ReadyFacts(h, log, t, pc);
    hide Facts, TreeInv;
    if BranchOf(pc).Same? {
      Present(h, w, Replay(log), pc.c.node, pc.call.op.key, pc.c.depth);
    } else {
      Absent(h, w, Replay(log), pc.c.node, pc.call.op.key, pc.c.depth);
    }
  }

  lemma ValidateGood(s: State, step: Step)
    requires Inv(s) && Enabled(s, step) && step.Validate?
    ensures GoodStep(s, Next(s, step), step.t)
  {
    hide GoodStep, Inv, Stored, Facts, Decide;
    MyFacts(s, step.t);
    var pc, t := s.threads[step.t], step.t;
    var k, d := pc.call.op.key, pc.c.depth;
    StoredTree(s);
    hide TreeInv, Agree, Legal, Replay;
    if s.heap[pc.c.node].lock != pc.nl {
      RestartFacts(s.heap, s.log, t, pc);
      QuietStep(s, t, Start(pc.call));
    } else if BranchOf(pc).Child? {
      FollowFacts(s.heap, s.log, t, pc);
      QuietStep(s, t, Descend(pc.call, Chain(pc.c.node, Branching(pc.seen, k, d), pc.nl, BranchOf(pc).id, d + |pc.seen.prefix| + 1)));
    } else {
      CopyAnswers(s.heap, s.where, s.log, t, pc);
      assert Next(s, step) == s.Finish(t, pc.call, CopyAnswer(pc));
      ReadStep(s, t, pc.call, CopyAnswer(pc));
    }
  }

  lemma FollowFacts(h: Heap, log: seq<Event>, t: Tid, pc: Pc)
    requires pc.Ready? && Facts(h, log, t, pc) && TreeInv(h) && h[pc.c.node].lock == pc.nl && BranchOf(pc).Child?
    ensures pc.seen.Inode?
    ensures
      Facts(h, log, t, Descend(pc.call,
        Chain(pc.c.node, Branching(pc.seen, pc.call.op.key, pc.c.depth), pc.nl, BranchOf(pc).id,
              pc.c.depth + |pc.seen.prefix| + 1)))
  {
    hide TreeInv;
    Follow(h, pc.c.node, pc.call.op.key, pc.c.depth);
    hide Decide;
  }

  // ---- taking and releasing write locks ------------------------------------------------------------

  function Relocked(h: Heap, x: Id, lock: Lock): Heap
    requires x in h
  {
    h[x := h[x].(lock := lock)]
  }

  lemma ParentHeldFacts(h: Heap, log: seq<Event>, t: Tid, pc: Pc)
    requires pc.Copied? && Facts(h, log, t, pc) && TreeInv(h) && h[pc.c.parent].lock == pc.c.seen
    requires !BranchOf(pc).Same? && !BranchOf(pc).Child? && !BranchOf(pc).AddLeaf?
    ensures var mine := Locked(pc.c.seen.version, t);
      Facts(Relocked(h, pc.c.parent, mine), log, t, ParentHeld(pc.call, pc.c.(seen := mine), pc.nl, pc.seen))
  {
    hide TreeInv, Decide;
    ParentLeads(h, pc.c, pc.call.op.key);
  }

  lemma UpgradeParentGood(s: State, step: Step)
    requires Inv(s) && Enabled(s, step) && step.UpgradeParent?
    ensures GoodStep(s, Next(s, step), step.t)
  {
    hide GoodStep, Decide, Facts, Stored, Inv;
    MyFacts(s, step.t);
    var pc, t := s.threads[step.t], step.t;
    if s.heap[pc.c.parent].lock != pc.c.seen {
      RestartFacts(s.heap, s.log, t, pc);
      QuietStep(s, t, Start(pc.call));
    } else {
      var mine := Locked(pc.c.seen.version, t);
      assert Next(s, step) == s.Relock(pc.c.parent, mine).Put(t, ParentHeld(pc.call, pc.c.(seen := mine), pc.nl, pc.seen));
      hide Next, Due, Safe;
      StoredTree(s);
      ParentHeldFacts(s.heap, s.log, t, pc);
      LockStep(s, t, pc.c.parent, mine, ParentHeld(pc.call, pc.c.(seen := mine), pc.nl, pc.seen));
    }
  }

  lemma NodeHeldFacts(h: Heap, log: seq<Event>, t: Tid, pc: Pc)
    requires (pc.ParentHeld? || (pc.Copied? && HasCopy(pc) && BranchOf(pc).AddLeaf?)) && Facts(h, log, t, pc)
    requires h[pc.c.node].lock == pc.nl
    ensures var mine := Locked(pc.nl.version, t);
      Facts(Relocked(h, pc.c.node, mine), log, t,
            if pc.ParentHeld? then BothHeld(pc.call, pc.c, mine, pc.seen) else NodeHeld(pc.call, pc.c, mine, pc.seen))
  {
    hide Decide;
  }

  lemma UpgradeNodeGood(s: State, step: Step)
    requires Inv(s) && Enabled(s, step) && step.UpgradeNode?
    ensures GoodStep(s, Next(s, step), step.t)
  {
    hide GoodStep, Decide, Stored, Inv;
    MyFacts(s, step.t);
    var pc, t := s.threads[step.t], step.t;
    if s.heap[pc.c.node].lock != pc.nl {
      QuietStep(s, t, if pc.ParentHeld? then Releasing(pc.call, [pc.c.parent], None) else Start(pc.call));
    } else {
      var mine := Locked(pc.nl.version, t);
      var pc' := if pc.ParentHeld? then BothHeld(pc.call, pc.c, mine, pc.seen) else NodeHeld(pc.call, pc.c, mine, pc.seen);
      assert Next(s, step) == s.Relock(pc.c.node, mine).Put(t, pc');
      hide Next, Safe, Facts;
      NodeHeldFacts(s.heap, s.log, t, pc);
      hide Due;
      LockStep(s, t, pc.c.node, mine, pc');
    }
  }

  lemma NodeOwnedNow(h: Heap, log: seq<Event>, t: Tid, pc: Pc)
    requires pc.NodeHeld? && Facts(h, log, t, pc) && TreeInv(h) && h[pc.c.parent].lock == pc.c.seen
    ensures Facts(h, log, t, NodeOwned(pc.call, pc.c, pc.nl, pc.seen))
  {
    hide TreeInv, Decide;
    ParentLeads(h, pc.c, pc.call.op.key);
  }

  lemma UnwindFacts(h: Heap, log: seq<Event>, t: Tid, pc: Pc)
    requires pc.NodeHeld? && Facts(h, log, t, pc)
    ensures Facts(h, log, t, Releasing(pc.call, [pc.c.node], None))
  {
    hide Decide, ParentFact, CopyFact, Past;
  }

  lemma CheckParentGood(s: State, step: Step)
    requires Inv(s) && Enabled(s, step) && step.CheckParent?
    ensures GoodStep(s, Next(s, step), step.t)
  {
    hide GoodStep, Decide, Stored, Inv, Facts, TreeInv, Agree, Legal;
    MyFacts(s, step.t);
    var pc, t := s.threads[step.t], step.t;
    if s.heap[pc.c.parent].lock != pc.c.seen {
      UnwindFacts(s.heap, s.log, t, pc);
      QuietStep(s, t, Releasing(pc.call, [pc.c.node], None));
    } else {
      StoredTree(s);
      NodeOwnedNow(s.heap, s.log, t, pc);
      QuietStep(s, t, NodeOwned(pc.call, pc.c, pc.nl, pc.seen));
    }
  }

  lemma GrowingFacts(h: Heap, log: seq<Event>, t: Tid, pc: Pc)
    requires pc.BothHeld? && Facts(h, log, t, pc) && BranchOf(pc).Grow?
    ensures Facts(Relocked(h, pc.c.node, Obsolete(t)), log, t, Growing(pc.call, pc.c, pc.seen))
    ensures Mine(h[pc.c.node].lock, t)
  {
    hide Decide;
  }

  lemma ObsoleteNodeGood(s: State, step: Step)
    requires Inv(s) && Enabled(s, step) && step.ObsoleteNode?
    ensures GoodStep(s, Next(s, step), step.t)
  {
    hide GoodStep, Decide, Stored, Inv, Facts;
    MyFacts(s, step.t);
    var pc, t := s.threads[step.t], step.t;
    assert Next(s, step) == s.Relock(pc.c.node, Obsolete(t)).Put(t, Growing(pc.call, pc.c, pc.seen));
    hide Next, Safe;
    GrowingFacts(s.heap, s.log, t, pc);
    LockStep(s, t, pc.c.node, Obsolete(t), Growing(pc.call, pc.c, pc.seen));
  }

  lemma UnlockGood(s: State, step: Step)
    requires Inv(s) && Enabled(s, step) && step.Unlock?
    ensures GoodStep(s, Next(s, step), step.t)
  {
    hide GoodStep;
    MyFacts(s, step.t);
    var pc, t := s.threads[step.t], step.t;
    hide Inv, Decide, Stored;
    var x := pc.held[0];
    LockStep(s, t, x, Free(s.heap[x].lock.version + 1),
             if |pc.held| > 1 then pc.(held := pc.held[1..])
             else if pc.outcome.Some? then Done(pc.call, pc.outcome.value)
             else Start(pc.call));
  }

  // ---- committed inserts ------------------------------------------------------------------------

  /** `g` is what the heap may become when the insert of `call` takes effect, with the locks `held` still taken. */
  ghost predicate Committable(h: Heap, log: seq<Event>, t: Tid, call: Call, g: Heap, l: Id, held: seq<Id>) {
    && call.op.Insert? && call.from <= |log| && call.op.key !in Replay(log)
    && TreeInv(g) && Frame(h, g, t) && OneMoreLeaf(h, g, l, call.op.key, call.op.val)
    && 1 <= |held| <= 2 && (|held| == 2 ==> held[0] != held[1])
    && (forall i :: 0 <= i < |held| ==> held[i] in g && g[held[i]].lock.Locked? && g[held[i]].lock.owner == t)
  }

  ghost predicate HeldBy(g: Heap, t: Tid, x: Id) {
    x in g && g[x].lock.Locked? && g[x].lock.owner == t
  }

  /** The tree with one more leaf, reached by writing only under locks of `t`. */
  ghost predicate Effect(h: Heap, g: Heap, t: Tid, l: Id, k: Key, v: Value) {
    TreeInv(g) && Frame(h, g, t) && OneMoreLeaf(h, g, l, k, v)
  }

  lemma OneHeld(h: Heap, log: seq<Event>, t: Tid, call: Call, g: Heap, l: Id, x: Id)
    requires call.op.Insert? && call.from <= |log| && call.op.key !in Replay(log)
    requires Effect(h, g, t, l, call.op.key, call.op.val) && HeldBy(g, t, x)
    ensures Committable(h, log, t, call, g, l, [x])
  {
    hide TreeInv, Frame, OneMoreLeaf, Replay;
  }

  lemma TwoHeld(h: Heap, log: seq<Event>, t: Tid, call: Call, g: Heap, l: Id, x: Id, p: Id)
    requires call.op.Insert? && call.from <= |log| && call.op.key !in Replay(log)
    requires Effect(h, g, t, l, call.op.key, call.op.val) && HeldBy(g, t, x) && HeldBy(g, t, p) && x != p
    ensures Committable(h, log, t, call, g, l, [x, p])
  {
    hide TreeInv, Frame, OneMoreLeaf, Replay;
  }

  /** An insert of an absent key takes effect with a write that adds its leaf and touches only locked nodes. */
  lemma CommitStep(s: State, t: Tid, call: Call, g: Heap, l: Id, held: seq<Id>)
    requires Stored(s.heap, s.where, s.log) && t in s.threads && Committable(s.heap, s.log, t, call, g, l, held)
    ensures GoodStep(s, s.Commit(t, call, g, l, held), t)
  {
    hide TreeInv, Frame, Legal, Agree, OneMoreLeaf, Facts;
    Legalize(s.log, Event(t, call.op, Inserted));
    AgreeWithOneMore(s.heap, g, s.where, Replay(s.log), l, call.op.key, call.op.val);
    ReleasingFacts(s.heap, s.log, t, call, g, l, held);
    hide Replay, Committable;
  }

  lemma ReleasingFacts(h: Heap, log: seq<Event>, t: Tid, call: Call, g: Heap, l: Id, held: seq<Id>)
    requires Committable(h, log, t, call, g, l, held)
    ensures
      Facts(g, log + [Event(t, call.op, Inserted)], t, Releasing(call, held, Some(Outcome(|log|, Inserted))))
  {
    hide TreeInv, Frame, OneMoreLeaf, Replay;
  }

  lemma PlantLeafGood(s: State, step: Step)
    requires Inv(s) && Enabled(s, step) && step.PlantLeaf?
    ensures GoodStep(s, Next(s, step), step.t)
  {
    hide GoodStep;
    MyFacts(s, step.t);
    hide Inv;
    var call, t := s.threads[step.t].call, step.t;
    var g := Plant(s.heap, step.l, call.op.key, call.op.val);
    PlantKeepsTree(s.heap, step.l, call.op.key, call.op.val);
    EmptyTree(s.heap, s.where, Replay(s.log));
    assert OneMoreLeaf(s.heap, g, step.l, call.op.key, call.op.val) && Frame(s.heap, g, t) by { hide Stored, TreeInv; }
    hide Stored, TreeInv;
    CommitStep(s, t, call, g, step.l, [ROOT]);
  }

  lemma AddOneMore(h: Heap, x: Id, b: Byte, l: Id, k: Key, v: Value, t: Tid)
    requires CanAdd(h, x, b, l, k) && Mine(h[x].lock, t)
    ensures OneMoreLeaf(h, Add(h, x, b, l, k, v), l, k, v) && Frame(h, Add(h, x, b, l, k, v), t)
  {
  }

  /** The facts of a thread about to add a leaf license the addition. */
  lemma AddIsDue(h: Heap, x: Id, k: Key, d: nat, l: Id)
    requires TreeInv(h) && At(h, x, k, d) && Fresh(h, l)
    requires !h[x].body.RootPointer? && Decide(h[x].body, k, d).AddLeaf?
    ensures h[x].body.Inode? && CanAdd(h, x, Branching(h[x].body, k, d), l, k)
  {
    hide TreeInv;
    LiveNode(h, x);
    var p, b := h[x].body.prefix, Branching(h[x].body, k, d);
    SharedBytes(p, h[x].path, k);
    assert ChildPath(h[x], b) == k[..d + |p| + 1];
    FewKids(h[x].body.kids, b);
  }

  /** A node of capacity 256 without a child for `b` has room for one. */
  lemma FewKids(kids: map<Byte, Id>, b: Byte)
    requires b !in kids
    ensures |kids| < 256
  {
    assert |kids| == |kids.Keys| && |kids.Keys + {b}| == |kids.Keys| + 1;
    BytesBound(kids.Keys + {b}, 256);
  }

  lemma {:induction false} BytesBound(s: set<Byte>, n: nat)
    requires forall b :: b in s ==> b < n
    ensures |s| <= n
  {
    if n == 0 {
      assert s == {};
    } else {
      BytesBound(s - {n - 1}, n - 1);
    }
  }

  lemma NodeOwnedFacts(h: Heap, log: seq<Event>, t: Tid, pc: Pc)
    requires pc.NodeOwned? && Facts(h, log, t, pc)
    ensures At(h, pc.c.node, pc.call.op.key, pc.c.depth) && h[pc.c.node].body == pc.seen && !pc.seen.RootPointer?
    ensures h[pc.c.node].lock.Locked? && h[pc.c.node].lock.owner == t
    ensures pc.call.op.Insert? && pc.call.from <= |log| && BranchOf(pc).AddLeaf?
  {
    hide Decide;
  }

  ghost predicate AddReady(h: Heap, log: seq<Event>, t: Tid, pc: Pc, l: Id)
    requires pc.NodeOwned?
  {
    && pc.c.node in h && h[pc.c.node].body.Inode? && h[pc.c.node].body == pc.seen && pc.call.op.Insert?
    && var b, k := Branching(pc.seen, pc.call.op.key, pc.c.depth), pc.call.op.key;
       Committable(h, log, t, pc.call, Add(h, pc.c.node, b, l, k, pc.call.op.val), l, [pc.c.node])
  }

  lemma AddCommits(h: Heap, w: map<Key, Id>, log: seq<Event>, t: Tid, pc: Pc, l: Id)
    requires TreeInv(h) && Agree(h, w, Replay(log)) && pc.NodeOwned? && Facts(h, log, t, pc) && Fresh(h, l)
    ensures AddReady(h, log, t, pc, l)
  {
    var k, v, d, x := pc.call.op.key, pc.call.op.val, pc.c.depth, pc.c.node;
    hide TreeInv, Agree, Facts, Decide, Replay;
    NodeOwnedFacts(h, log, t, pc);
    AddIsDue(h, x, k, d, l);
    Absent(h, w, Replay(log), x, k, d);
    var b := Branching(pc.seen, k, d);
    AddEffect(h, x, b, l, k, v, t);
    hide At, Effect, CanAdd, Add, Fresh, Branching, Committable;
    OneHeld(h, log, t, pc.call, Add(h, x, b, l, k, v), l, x);
  }

  lemma AddEffect(h: Heap, x: Id, b: Byte, l: Id, k: Key, v: Value, t: Tid)
    requires TreeInv(h) && CanAdd(h, x, b, l, k) && HeldBy(h, t, x)
    ensures var g := Add(h, x, b, l, k, v);
      Effect(h, g, t, l, k, v) && HeldBy(g, t, x)
  {
    hide TreeInv;
    AddKeepsTree(h, x, b, l, k, v);
    AddOneMore(h, x, b, l, k, v, t);
    hide OneMoreLeaf, Frame;
  }

  lemma AddLeafGood(s: State, step: Step)
    requires Inv(s) && Enabled(s, step) && step.AddLeaf?
    ensures GoodStep(s, Next(s, step), step.t)
  {
    hide GoodStep, Inv, Stored, Facts, Decide, Committable, Add;
    MyFacts(s, step.t);
    var pc, t, h := s.threads[step.t], step.t, s.heap;
    var k := pc.call.op.key;
    StoredTree(s);
    hide TreeInv, Agree, Legal, Replay;
    AddCommits(h, s.where, s.log, t, pc, step.l);
    CommitStep(s, t, pc.call, Add(h, pc.c.node, Branching(pc.seen, k, pc.c.depth), step.l, k, pc.call.op.val), step.l, [pc.c.node]);
  }

  lemma SplitOneMore(h: Heap, p: Id, c: Byte, x: Id, m: nat, n: Id, b: Byte, l: Id, k: Key, v: Value, t: Tid)
    requires CanSplit(h, p, c, x, m, n, b, l, k) && Mine(h[p].lock, t) && Mine(h[x].lock, t)
    ensures OneMoreLeaf(h, Split(h, p, c, x, m, n, b, l, k, v), l, k, v)
    ensures Frame(h, Split(h, p, c, x, m, n, b, l, k, v), t)
  {
    var g := Split(h, p, c, x, m, n, b, l, k, v);
    SplitAt(h, p, c, x, m, n, b, l, k, v, l);
    hide Split;
    forall y | y in h ensures y in g && NodeFrame(h[y], g[y], t) {
      SplitAt(h, p, c, x, m, n, b, l, k, v, y);
    }
    forall y | y in h && h[y].live && h[y].body.Leaf? ensures y in g && g[y].live && g[y].body == h[y].body {
      SplitAt(h, p, c, x, m, n, b, l, k, v, y);
    }
    forall y | y in g && y != l && g[y].live && g[y].body.Leaf? ensures y in h && h[y].live && h[y].body.Leaf? {
      SplitAt(h, p, c, x, m, n, b, l, k, v, y);
    }
  }

  lemma TailRoom(n: Node, k: Key, d: nat)
    requires NodeOk(n) && !n.body.RootPointer? && d <= KEY_BYTES && n.path == k[..d]
    requires Decide(n.body, k, d).LeafSplit? || Decide(n.body, k, d).PrefixSplit?
    ensures SharedLength(n, k) < |Tail(n)| <= KEY_BYTES - d
  {
    hide Common;
    if n.body.Leaf? {
      assert n.body.key == k[..d] + Tail(n) && k == k[..d] + k[d..];
    }
  }

  /** A leaf or prefix that disagrees with the key does so within the key, so there is room for a fork. */
  lemma SharedInside(n: Node, k: Key, d: nat)
    requires NodeOk(n) && !n.body.RootPointer? && d <= KEY_BYTES && n.path == k[..d]
    requires Decide(n.body, k, d).LeafSplit? || Decide(n.body, k, d).PrefixSplit?
    ensures var m := SharedLength(n, k);
      && m < |Tail(n)| && d + m < KEY_BYTES && Tail(n)[m] != k[d + m]
      && n.path + Tail(n)[..m] + [k[d + m]] <= k
  {
    hide Decide, Tail, Common, NodeOk;
    TailRoom(n, k, d);
    var m, t := SharedLength(n, k), Tail(n);
    assert k[d + m] == k[d..][m];
    assert t[..m] == k[d..][..m] == k[d..d + m];
    assert k[..d] + k[d..d + m] + [k[d + m]] == k[..d + m + 1];
  }

  lemma SplitIsDue(h: Heap, c: Chain, k: Key, n: Id, l: Id)
    requires TreeInv(h) && ParentFact(h, c, k) && h[c.parent].lock == c.seen
    requires Fresh(h, n) && Fresh(h, l) && n != l
    requires !h[c.node].body.RootPointer?
    requires Decide(h[c.node].body, k, c.depth).LeafSplit? || Decide(h[c.node].body, k, c.depth).PrefixSplit?
    ensures At(h, c.node, k, c.depth)
    ensures var m := SharedLength(h[c.node], k);
      m < |Tail(h[c.node])| && CanSplit(h, c.parent, c.slot, c.node, m, n, KeyByte(k, c.depth + m), l, k)
  {
    hide TreeInv;
    ParentLeads(h, c, k);
    LiveNode(h, c.node);
    SharedInside(h[c.node], k, c.depth);
    hide SharedLength, Decide, Tail, NodeOk;
  }

  ghost predicate SplitReady(h: Heap, log: seq<Event>, t: Tid, pc: Pc, n: Id, l: Id)
    requires pc.BothHeld?
  {
    && pc.call.op.Insert? && Link(h, pc.c.parent, pc.c.slot, pc.c.node) && pc.c.node in h
    && var k, m := pc.call.op.key, SharedLength(h[pc.c.node], pc.call.op.key);
       && m < |Tail(h[pc.c.node])|
       && Committable(h, log, t, pc.call,
            Split(h, pc.c.parent, pc.c.slot, pc.c.node, m, n, KeyByte(k, pc.c.depth + m), l, k, pc.call.op.val),
            l, [pc.c.node, pc.c.parent])
  }

  ghost predicate SplitChecked(h: Heap, log: seq<Event>, t: Tid, pc: Pc, n: Id, l: Id)
    requires pc.BothHeld?
  {
    var k, x := pc.call.op.key, pc.c.node;
    && pc.call.op.Insert? && pc.call.from <= |log| && k !in Replay(log)
    && HeldBy(h, t, x) && HeldBy(h, t, pc.c.parent) && x != pc.c.parent
    && var m := SharedLength(h[x], k);
       && m < |Tail(h[x])|
       && CanSplit(h, pc.c.parent, pc.c.slot, x, m, n, KeyByte(k, pc.c.depth + m), l, k)
  }

  lemma SplitChecks(h: Heap, w: map<Key, Id>, log: seq<Event>, t: Tid, pc: Pc, n: Id, l: Id)
    requires TreeInv(h) && Agree(h, w, Replay(log)) && pc.BothHeld? && Facts(h, log, t, pc)
    requires Fresh(h, n) && Fresh(h, l) && n != l && (BranchOf(pc).LeafSplit? || BranchOf(pc).PrefixSplit?)
    ensures SplitChecked(h, log, t, pc, n, l)
  {
    hide TreeInv, Agree, Decide, Replay, Facts, ParentFact;
    BothHeldFacts(h, log, t, pc);
    SplitIsDue(h, pc.c, pc.call.op.key, n, l);
    Absent(h, w, Replay(log), pc.c.node, pc.call.op.key, pc.c.depth);
    hide At, CanSplit, SharedLength, KeyByte, Tail;
  }

  lemma SplitCommits(h: Heap, w: map<Key, Id>, log: seq<Event>, t: Tid, pc: Pc, n: Id, l: Id)
    requires TreeInv(h) && pc.BothHeld? && SplitChecked(h, log, t, pc, n, l)
    ensures SplitReady(h, log, t, pc, n, l)
  {
    hide TreeInv, Replay, CanSplit, SharedLength, KeyByte, Tail, Split, Committable;
    var m := SharedLength(h[pc.c.node], pc.call.op.key);
    var b := KeyByte(pc.call.op.key, pc.c.depth + m);
    SplitCommitsAt(h, log, t, pc.call, pc.c.parent, pc.c.slot, pc.c.node, m, n, b, l);
  }

  lemma SplitCommitsAt(h: Heap, log: seq<Event>, t: Tid, call: Call, p: Id, c: Byte, x: Id, m: nat, n: Id, b: Byte, l: Id)
    requires TreeInv(h) && call.op.Insert? && call.from <= |log| && call.op.key !in Replay(log)
    requires CanSplit(h, p, c, x, m, n, b, l, call.op.key) && HeldBy(h, t, x) && HeldBy(h, t, p) && x != p
    ensures Link(h, p, c, x)
    ensures Committable(h, log, t, call, Split(h, p, c, x, m, n, b, l, call.op.key, call.op.val), l, [x, p])
  {
    hide TreeInv, Replay, HeldBy, Effect, Committable;
    SplitEffect(h, p, c, x, m, n, b, l, call.op.key, call.op.val, t);
    TwoHeld(h, log, t, call, Split(h, p, c, x, m, n, b, l, call.op.key, call.op.val), l, x, p);
  }

  lemma SplitEffect(h: Heap, p: Id, c: Byte, x: Id, m: nat, n: Id, b: Byte, l: Id, k: Key, v: Value, t: Tid)
    requires TreeInv(h) && CanSplit(h, p, c, x, m, n, b, l, k)
    requires HeldBy(h, t, x) && HeldBy(h, t, p)
    ensures Link(h, p, c, x)
    ensures var g := Split(h, p, c, x, m, n, b, l, k, v);
      Effect(h, g, t, l, k, v) && HeldBy(g, t, p) && HeldBy(g, t, x)
  {
    hide TreeInv;
    SplitKeepsTree(h, p, c, x, m, n, b, l, k, v);
    SplitOneMore(h, p, c, x, m, n, b, l, k, v, t);
    SplitAt(h, p, c, x, m, n, b, l, k, v, p);
    SplitAt(h, p, c, x, m, n, b, l, k, v, x);
    hide OneMoreLeaf, Frame, Split;
  }

  lemma BothHeldFacts(h: Heap, log: seq<Event>, t: Tid, pc: Pc)
    requires pc.BothHeld? && Facts(h, log, t, pc)
    ensures ParentFact(h, pc.c, pc.call.op.key) && h[pc.c.parent].lock == pc.c.seen && pc.c.parent != pc.c.node
    ensures h[pc.c.node].body == pc.seen && !pc.seen.RootPointer?
    ensures h[pc.c.node].lock.Locked? && h[pc.c.node].lock.owner == t
    ensures h[pc.c.parent].lock.Locked? && h[pc.c.parent].lock.owner == t
    ensures pc.call.op.Insert? && pc.call.from <= |log|
  {
    hide Decide;
  }

  lemma GrowingKnows(h: Heap, log: seq<Event>, t: Tid, pc: Pc)
    requires pc.Growing? && Facts(h, log, t, pc)
    ensures ParentFact(h, pc.c, pc.call.op.key) && h[pc.c.parent].lock == pc.c.seen && pc.c.parent != pc.c.node
    ensures h[pc.c.node].body == pc.seen && !pc.seen.RootPointer? && BranchOf(pc).Grow?
    ensures h[pc.c.node].lock == Obsolete(t)
    ensures h[pc.c.parent].lock.Locked? && h[pc.c.parent].lock.owner == t
    ensures pc.call.op.Insert? && pc.call.from <= |log|
  {
    hide Decide;
  }

  lemma SplitNodeGood(s: State, step: Step)
    requires Inv(s) && Enabled(s, step) && step.SplitNode?
    ensures GoodStep(s, Next(s, step), step.t)
  {
    hide GoodStep, Inv, Stored, Facts, Decide, Committable, Split, SharedLength, TreeInv, Agree, Legal, Replay, Link, Tail,
      KeyByte;
    MyFacts(s, step.t);
    var pc, t, h := s.threads[step.t], step.t, s.heap;
    var k, x, p := pc.call.op.key, pc.c.node, pc.c.parent;
    StoredTree(s);
    assert SplitReady(h, s.log, t, pc, step.n, step.l) by {
      hide SplitReady, SplitChecked;
      SplitChecks(h, s.where, s.log, t, pc, step.n, step.l);
      SplitCommits(h, s.where, s.log, t, pc, step.n, step.l);
    }
    var m := SharedLength(h[x], k);
    CommitStep(s, t, pc.call, Split(h, p, pc.c.slot, x, m, step.n, KeyByte(k, pc.c.depth + m), step.l, k, pc.call.op.val),
               step.l, [x, p]);
  }

  lemma GrowOneMore(h: Heap, p: Id, c: Byte, x: Id, n: Id, b: Byte, l: Id, k: Key, v: Value, t: Tid)
    requires CanMove(h, p, c, x, n) && Fresh(h, l) && l != n && Mine(h[p].lock, t) && Mine(h[x].lock, t)
    ensures OneMoreLeaf(h, GrowInto(h, p, c, x, n, b, l, k, v), l, k, v)
    ensures Frame(h, GrowInto(h, p, c, x, n, b, l, k, v), t)
  {
    var f := Move(h, p, c, x, n);
    var g := GrowInto(h, p, c, x, n, b, l, k, v);
    MoveAt(h, p, c, x, n, n);
    MoveAt(h, p, c, x, n, l);
    assert g == f[l := NewLeaf(ChildPath(f[n], b), k, v)][n := PutKid(f[n], b, l)];
    hide Move, GrowInto;
    forall y | y in h ensures y in g && NodeFrame(h[y], g[y], t) {
      MoveAt(h, p, c, x, n, y);
    }
    forall y | y in h && h[y].live && h[y].body.Leaf? ensures y in g && g[y].live && g[y].body == h[y].body {
      MoveAt(h, p, c, x, n, y);
    }
    forall y | y in g && y != l && g[y].live && g[y].body.Leaf? ensures y in h && h[y].live && h[y].body.Leaf? {
      MoveAt(h, p, c, x, n, y);
    }
  }

  lemma GrowIsDue(h: Heap, c: Chain, k: Key, n: Id)
    requires TreeInv(h) && ParentFact(h, c, k) && h[c.parent].lock == c.seen && Fresh(h, n)
    requires !h[c.node].body.RootPointer? && Decide(h[c.node].body, k, c.depth).Grow?
    ensures h[c.node].body.Inode? && CanMove(h, c.parent, c.slot, c.node, n)
    ensures var b := Branching(h[c.node].body, k, c.depth);
      && b !in h[c.node].body.kids && ChildPath(h[c.node], b) <= k
      && |h[c.node].body.kids| == h[c.node].body.capacity
  {
    hide TreeInv;
    ParentLeads(h, c, k);
    LiveNode(h, c.node);
    var x := h[c.node];
    SharedBytes(x.body.prefix, x.path, k);
    assert ChildPath(x, Branching(x.body, k, c.depth)) == k[..c.depth + |x.body.prefix| + 1];
  }

  ghost predicate GrowReady(h: Heap, log: seq<Event>, t: Tid, pc: Pc, n: Id, l: Id)
    requires pc.Growing?
  {
    && pc.call.op.Insert? && Link(h, pc.c.parent, pc.c.slot, pc.c.node) && pc.c.node in h
    && h[pc.c.node].body.Inode? && pc.seen == h[pc.c.node].body && pc.c.parent != pc.c.node
    && n != pc.c.parent && n != pc.c.node
    && var k, b := pc.call.op.key, Branching(pc.seen, pc.call.op.key, pc.c.depth);
       Committable(h, log, t, pc.call,
         GrowInto(h, pc.c.parent, pc.c.slot, pc.c.node, n, b, l, k, pc.call.op.val), l, [pc.c.parent])
  }

  lemma GrowCommits(h: Heap, w: map<Key, Id>, log: seq<Event>, t: Tid, pc: Pc, n: Id, l: Id)
    requires TreeInv(h) && Agree(h, w, Replay(log)) && pc.Growing? && Facts(h, log, t, pc)
    requires Fresh(h, n) && Fresh(h, l) && n != l
    ensures GrowReady(h, log, t, pc, n, l)
  {
    var k, v, d, x, p := pc.call.op.key, pc.call.op.val, pc.c.depth, pc.c.node, pc.c.parent;
    hide TreeInv, Agree, Replay, Facts, ParentFact, Decide;
    GrowingKnows(h, log, t, pc);
    ParentLeads(h, pc.c, k);
    GrowIsDue(h, pc.c, k, n);
    Absent(h, w, Replay(log), x, k, d);
    var b := Branching(pc.seen, k, d);
    hide At, Branching;
    GrowEffect(h, p, pc.c.slot, x, n, b, l, k, v, t);
    hide Effect, GrowInto, Committable;
    OneHeld(h, log, t, pc.call, GrowInto(h, p, pc.c.slot, x, n, b, l, k, v), l, p);
  }

  lemma GrowEffect(h: Heap, p: Id, c: Byte, x: Id, n: Id, b: Byte, l: Id, k: Key, v: Value, t: Tid)
    requires TreeInv(h) && CanMove(h, p, c, x, n) && Fresh(h, l) && l != n
    requires b !in h[x].body.kids && ChildPath(h[x], b) <= k && |h[x].body.kids| == h[x].body.capacity
    requires h[x].lock == Obsolete(t) && HeldBy(h, t, p)
    ensures Link(h, p, c, x)
    ensures var g := GrowInto(h, p, c, x, n, b, l, k, v);
      Effect(h, g, t, l, k, v) && HeldBy(g, t, p)
  {
    hide TreeInv;
    GrowKeepsTree(h, p, c, x, n, b, l, k, v);
    GrowOneMore(h, p, c, x, n, b, l, k, v, t);
    MoveAt(h, p, c, x, n, p);
    hide OneMoreLeaf, Frame, Move;
  }

  lemma GrowNodeGood(s: State, step: Step)
    requires Inv(s) && Enabled(s, step) && step.GrowNode?
    ensures GoodStep(s, Next(s, step), step.t)
  {
    hide GoodStep, Inv, Stored, Facts, Decide, Committable, GrowInto;
    MyFacts(s, step.t);
    var pc, t, h := s.threads[step.t], step.t, s.heap;
    var k := pc.call.op.key;
    StoredTree(s);
    hide TreeInv, Agree, Legal, Replay;
    GrowCommits(h, s.where, s.log, t, pc, step.n, step.l);
    CommitStep(s, t, pc.call,
               GrowInto(h, pc.c.parent, pc.c.slot, pc.c.node, step.n, Branching(pc.seen, k, pc.c.depth), step.l, k, pc.call.op.val),
               step.l, [pc.c.parent]);
  }

  // ---- every step ---------------------------------------------------------------------------------

  lemma StepKeepsInv(s: State, step: Step)
    requires Inv(s) && Enabled(s, step)
    ensures Inv(Next(s, step)) && s.log <= Next(s, step).log
  {
    hide Inv, Due, Safe;
    assert GoodStep(s, Next(s, step), step.t) by {
      hide Next, GoodStep;
      match step
      case Invoke(_, _) => InvokeGood(s, step);
      case LockRoot(_) => LockRootGood(s, step);
      case LoadRoot(_) => LoadRootGood(s, step);
      case CheckRoot(_) => CheckRootGood(s, step);
      case UpgradeRoot(_) => UpgradeRootGood(s, step);
      case PlantLeaf(_, _) => PlantLeafGood(s, step);
      case LockNode(_) => LockNodeGood(s, step);
      case ReleaseParent(_) => ReleaseParentGood(s, step);
      case CopyNode(_, _) => CopyNodeGood(s, step);
      case Validate(_) => ValidateGood(s, step);
      case UpgradeParent(_) => UpgradeParentGood(s, step);
      case UpgradeNode(_) => UpgradeNodeGood(s, step);
      case CheckParent(_) => CheckParentGood(s, step);
      case AddLeaf(_, _) => AddLeafGood(s, step);
      case SplitNode(_, _, _) => SplitNodeGood(s, step);
      case ObsoleteNode(_) => ObsoleteNodeGood(s, step);
      case GrowNode(_, _, _) => GrowNodeGood(s, step);
      case Unlock(_) => UnlockGood(s, step);
    }
    hide Next;
    GoodStepKeepsInv(s, Next(s, step), step.t);
  }

  lemma InitialInv(s: State)
    requires Initial(s)
    ensures Inv(s)
  {
  }
}

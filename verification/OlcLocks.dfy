/** No lock is ever forgotten: every locked node is held by the thread that locked it, and an obsolete node is still linked
    only while its replacement is on the way. */
module OlcLocks {
  import opened ArtKey
  import opened OlcHeap
  import opened OlcCommit
  import opened OlcProtocol
  import opened OlcInvariant
  import opened OlcSteps
  import opened OlcSafety

  /** The nodes whose locks a thread at `pc` holds. */
  ghost function HeldAt(pc: Pc): set<Id> {
    match pc
    case RootHeld(_, _) => {ROOT}
    case ParentHeld(_, c, _, _) => {c.parent}
    case BothHeld(_, c, _, _) => {c.parent, c.node}
    case NodeHeld(_, c, _, _) => {c.node}
    case NodeOwned(_, c, _, _) => {c.node}
    case Growing(_, c, _) => {c.parent}
    case Releasing(_, held, _) => set x | x in held
    case _ => {}
  }

  ghost predicate Accounted(n: Node, x: Id, threads: map<Tid, Pc>) {
    && (n.lock.Locked? ==> n.lock.owner in threads && x in HeldAt(threads[n.lock.owner]))
    && (n.lock.Obsolete? && n.live ==>
          n.lock.owner in threads && threads[n.lock.owner].Growing? && threads[n.lock.owner].c.node == x)
  }

  ghost predicate NoLeaks(s: State) {
    forall x :: x in s.heap ==> Accounted(s.heap[x], x, s.threads)
  }

  /** A thread that held nothing, and changed nothing but its own position. */
  lemma ReadersLeakNothing(s: State, step: Step)
    requires NoLeaks(s) && Enabled(s, step)
    requires step.Invoke? || step.LockRoot? || step.LoadRoot? || step.CheckRoot? || step.LockNode? || step.ReleaseParent?
             || step.CopyNode? || step.Validate?
    ensures NoLeaks(Next(s, step))
  {
    hide Replay, Decide, Fresh, KeyByte;
    var s' := Next(s, step);
    forall x | x in s'.heap ensures Accounted(s'.heap[x], x, s'.threads) {
      assert Accounted(s.heap[x], x, s.threads);
    }
  }

  lemma UpgradesLeakNothing(s: State, step: Step)
    requires NoLeaks(s) && Enabled(s, step) && (step.UpgradeRoot? || step.UpgradeParent? || step.ObsoleteNode?)
    ensures NoLeaks(Next(s, step))
  {
    hide Replay, Decide, Fresh, KeyByte;
    var s' := Next(s, step);
    forall x | x in s'.heap ensures Accounted(s'.heap[x], x, s'.threads) {
      assert Accounted(s.heap[x], x, s.threads);
    }
  }

  lemma NodeLocksLeakNothing(s: State, step: Step)
    requires NoLeaks(s) && Enabled(s, step) && (step.UpgradeNode? || step.CheckParent?)
    ensures NoLeaks(Next(s, step))
  {
    hide Replay, Decide, Fresh, KeyByte;
    var s' := Next(s, step);
    forall x | x in s'.heap ensures Accounted(s'.heap[x], x, s'.threads) {
      assert Accounted(s.heap[x], x, s.threads);
    }
  }

  lemma UnlockLeaksNothing(s: State, step: Step)
    requires Inv(s) && NoLeaks(s) && Enabled(s, step) && step.Unlock?
    ensures NoLeaks(Next(s, step))
  {
    hide Inv, Stored, Replay, Decide, Fresh, KeyByte;
    MyFacts(s, step.t);
    var s' := Next(s, step);
    forall x | x in s'.heap ensures Accounted(s'.heap[x], x, s'.threads) {
      assert Accounted(s.heap[x], x, s.threads);
    }
  }

  lemma PlantLeaksNothing(s: State, step: Step)
    requires NoLeaks(s) && Enabled(s, step) && (step.PlantLeaf? || step.AddLeaf?)
    ensures NoLeaks(Next(s, step))
  {
    hide Replay, Decide, KeyByte;
    var s' := Next(s, step);
    forall x | x in s'.heap ensures Accounted(s'.heap[x], x, s'.threads) {
      if x in s.heap { assert Accounted(s.heap[x], x, s.threads); }
    }
  }

  lemma SplitLeaksNothing(s: State, step: Step)
    requires NoLeaks(s) && Enabled(s, step) && step.SplitNode?
    ensures NoLeaks(Next(s, step))
  {
    hide Replay, Decide, KeyByte, SharedLength, Tail;
    var s' := Next(s, step);
    forall x | x in s'.heap ensures Accounted(s'.heap[x], x, s'.threads) {
      if x in s.heap { assert Accounted(s.heap[x], x, s.threads); }
    }
  }

  lemma GrowLeaksNothing(s: State, step: Step)
    requires NoLeaks(s) && Enabled(s, step) && step.GrowNode?
    ensures NoLeaks(Next(s, step))
  {
    hide Replay, Decide, KeyByte;
    var s' := Next(s, step);
    forall x | x in s'.heap ensures Accounted(s'.heap[x], x, s'.threads) {
      if x in s.heap { assert Accounted(s.heap[x], x, s.threads); }
    }
  }

  lemma StepLeaksNothing(s: State, step: Step)
    requires Inv(s) && NoLeaks(s) && Enabled(s, step)
    ensures NoLeaks(Next(s, step))
  {
    hide Inv, NoLeaks, Next, Enabled;
    if step.Unlock? {
      UnlockLeaksNothing(s, step);
    } else if step.PlantLeaf? || step.AddLeaf? {
      PlantLeaksNothing(s, step);
    } else if step.SplitNode? {
      SplitLeaksNothing(s, step);
    } else if step.GrowNode? {
      GrowLeaksNothing(s, step);
    } else if step.UpgradeNode? || step.CheckParent? {
      NodeLocksLeakNothing(s, step);
    } else if step.UpgradeRoot? || step.UpgradeParent? || step.ObsoleteNode? {
      UpgradesLeakNothing(s, step);
    } else {
      ReadersLeakNothing(s, step);
    }
  }

  lemma {:induction false} LocksAreHeld(states: seq<State>, steps: seq<Step>, i: nat)
    requires IsRun(states, steps) && i < |states|
    ensures NoLeaks(states[i])
  {
    hide Inv, Enabled, Next;
    if i > 0 {
      LocksAreHeld(states, steps, i - 1);
      RunInv(states, steps, i - 1);
      hide NoLeaks;
      StepLeaksNothing(states[i - 1], steps[i - 1]);
    }
  }

  /** When no thread is in the middle of a write, every node of the tree is free. */
  lemma AllFree(states: seq<State>, steps: seq<Step>, i: nat, x: Id)
    requires IsRun(states, steps) && i < |states| && x in states[i].heap && states[i].heap[x].live
    requires forall u :: u in states[i].threads ==> HeldAt(states[i].threads[u]) == {}
    ensures states[i].heap[x].lock.Free?
  {
    hide IsRun;
    LocksAreHeld(states, steps, i);
    assert Accounted(states[i].heap[x], x, states[i].threads);
  }
}

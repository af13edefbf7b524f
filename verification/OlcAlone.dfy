/** A call is never stuck, and one that runs while no other thread is in the middle of a write returns without a single
    restart, within a fixed number of steps, with the map's answer. */
module OlcAlone {
  import opened ArtKey
  import opened OlcHeap
  import opened OlcCommit
  import opened OlcProtocol
  import opened OlcInvariant
  import opened OlcSteps
  import opened OlcSafety
  import opened OlcLocks

  // ---- never stuck -------------------------------------------------------------------------

  lemma {:induction false} FreshId(h: Heap, n: nat, used: set<Id>) returns (x: Id)
    requires used == (set y | y in h && y < n)
    ensures x !in h && x >= n
    decreases |h.Keys - used|
  {
    if n !in h {
      x := n;
    } else {
      var more := set y | y in h && y < n + 1;
      assert h.Keys - more < h.Keys - used by { assert n in h.Keys - used && n !in h.Keys - more; }
      SmallerSet(h.Keys - more, h.Keys - used);
      x := FreshId(h, n + 1, more);
    }
  }

  lemma SmallerSet(a: set<Id>, b: set<Id>)
    requires a < b
    ensures |a| < |b|
  {
    var x :| x in b && x !in a;
    assert a <= b - {x};
    SubsetSize(a, b - {x});
  }

  lemma SubsetSize(a: set<Id>, b: set<Id>)
    requires a <= b
    ensures |a| <= |b|
  {
    if a != {} {
      var x :| x in a;
      SubsetSize(a - {x}, b - {x});
    }
  }

  lemma TwoFreshIds(h: Heap) returns (n: Id, l: Id)
    ensures Fresh(h, n) && Fresh(h, l) && n != l
  {
    n := FreshId(h, 1, set y | y in h && y < 1);
    l := FreshId(h, n + 1, set y | y in h && y < n + 1);
  }

  // ---- no thread takes the root pointer for a node -----------------------------------------------

  ghost predicate HasChain(pc: Pc) {
    || pc.Descend? || pc.NodeLocked? || pc.ParentReleased? || pc.Copied? || pc.Ready? || pc.ParentHeld? || pc.BothHeld?
    || pc.NodeHeld? || pc.NodeOwned? || pc.Growing?
  }

  ghost predicate Grounded(pc: Pc) {
    HasChain(pc) ==> pc.c.node != ROOT
  }

  ghost predicate AllGrounded(s: State) {
    forall t :: t in s.threads ==> Grounded(s.threads[t])
  }

  lemma DescentGrounded(s: State, t: Tid)
    requires Inv(s) && t in s.threads && s.threads[t].Descend?
    requires s.threads[t].c.parent in s.heap && s.heap[s.threads[t].c.parent].lock == s.threads[t].c.seen
    ensures Grounded(s.threads[t])
  {
    hide Inv, Stored, TreeInv;
    MyFacts(s, t);
    StoredTree(s);
    ParentLeads(s.heap, s.threads[t].c, s.threads[t].call.op.key);
  }

  /** A thread steps down only from a node it has just found unchanged. */
  lemma StepsDown(s: State, step: Step)
    requires Enabled(s, step) && (step.CheckRoot? || step.Validate?)
    ensures var s', t := Next(s, step), step.t;
      && t in s'.threads
      && (HasChain(s'.threads[t]) && s'.threads[t] != s.threads[t] ==>
            s'.threads[t].Descend? && s'.threads[t].c.parent in s'.heap
            && s'.heap[s'.threads[t].c.parent].lock == s'.threads[t].c.seen)
  {
    hide Decide, KeyByte, Replay;
  }

  lemma WritersStayGrounded(s: State, step: Step)
    requires Enabled(s, step) && IsLockStep(step)
    ensures var s', t := Next(s, step), step.t;
      && t in s'.threads && (Grounded(s.threads[t]) ==> Grounded(s'.threads[t]))
  {
    hide Fresh, Decide, KeyByte, Replay, Add, Split, GrowInto, Plant, SharedLength;
  }

  lemma ReadersStayGrounded(s: State, step: Step)
    requires Enabled(s, step) && !IsLockStep(step) && !step.CheckRoot? && !step.Validate?
    ensures var s', t := Next(s, step), step.t;
      && t in s'.threads && (Grounded(s.threads[t]) ==> Grounded(s'.threads[t]))
  {
    hide Fresh, Decide, KeyByte, Replay, Add, Split, GrowInto, Plant, SharedLength;
  }

  lemma StepKeepsGrounded(s: State, step: Step)
    requires Inv(s) && AllGrounded(s) && Enabled(s, step)
    ensures AllGrounded(Next(s, step))
  {
    hide Inv, Enabled, Next, Grounded, HasChain;
    var s' := Next(s, step);
    StepKeepsInv(s, step);
    OneThreadMoves(s, step);
    if step.CheckRoot? || step.Validate? {
      StepsDown(s, step);
      if HasChain(s'.threads[step.t]) && s'.threads[step.t] != s.threads[step.t] { DescentGrounded(s', step.t); }
      assert Grounded(s'.threads[step.t]) by {
        if !HasChain(s'.threads[step.t]) { NoChain(s'.threads[step.t]); }
      }
    } else if IsLockStep(step) {
      WritersStayGrounded(s, step);
    } else {
      ReadersStayGrounded(s, step);
    }
  }

  lemma NoChain(pc: Pc)
    requires !HasChain(pc)
    ensures Grounded(pc)
  {
  }

  lemma OneThreadMoves(s: State, step: Step)
    requires Enabled(s, step)
    ensures step.t in s.threads && Next(s, step).threads.Keys == s.threads.Keys
    ensures forall u :: u in s.threads && u != step.t ==> Next(s, step).threads[u] == s.threads[u]
  {
    hide Fresh, Decide, KeyByte, Replay, Add, Split, GrowInto, Plant, SharedLength;
  }

  lemma {:induction false} RunGrounded(states: seq<State>, steps: seq<Step>, i: nat)
    requires IsRun(states, steps) && i < |states|
    ensures AllGrounded(states[i])
  {
    hide Inv, Enabled, Next;
    if i > 0 {
      RunGrounded(states, steps, i - 1);
      RunInv(states, steps, i - 1);
      hide AllGrounded;
      StepKeepsGrounded(states[i - 1], steps[i - 1]);
    }
  }

  // ---- never stuck -----------------------------------------------------------------------------

  ghost predicate InCall(pc: Pc) {
    !pc.Idle? && !pc.Done?
  }

  /** What a copy may be: the node as it is, or anything when a writer interferes. */
  function SomeCopy(h: Heap, x: Id): Body {
    if x in h && !h[x].body.RootPointer? then h[x].body else Inode(4, [], map[])
  }

  /** The step a thread in a call is at; `n` and `l` are for the nodes it may have to create. */
  function OwnStep(s: State, t: Tid, n: Id, l: Id): Step
    requires t in s.threads
  {
    var pc := s.threads[t];
    match pc
    case RootLocked(_, _) => LoadRoot(t)
    case RootLoaded(call, _, top) => if 0 in top || call.op.Get? then CheckRoot(t) else UpgradeRoot(t)
    case RootHeld(_, _) => PlantLeaf(t, l)
    case Descend(_, _) => LockNode(t)
    case NodeLocked(call, c, _) => if call.op.Get? then ReleaseParent(t) else CopyNode(t, SomeCopy(s.heap, c.node))
    case ParentReleased(_, c, _) => CopyNode(t, SomeCopy(s.heap, c.node))
    case Copied(_, _, _, seen) =>
      if !HasCopy(pc) || BranchOf(pc).Same? || BranchOf(pc).Child? then ReleaseParent(t)
      else if BranchOf(pc).AddLeaf? then UpgradeNode(t)
      else UpgradeParent(t)
    case Ready(_, _, _, _) => Validate(t)
    case ParentHeld(_, _, _, _) => UpgradeNode(t)
    case BothHeld(_, _, _, _) => if HasCopy(pc) && BranchOf(pc).Grow? then ObsoleteNode(t) else SplitNode(t, n, l)
    case NodeHeld(_, _, _, _) => CheckParent(t)
    case NodeOwned(_, _, _, _) => Step.AddLeaf(t, l)
    case Growing(_, _, _) => GrowNode(t, n, l)
    case Releasing(_, _, _) => Unlock(t)
    case _ => LockRoot(t)
  }

  lemma OwnStepDue(s: State, t: Tid, n: Id, l: Id)
    requires Inv(s) && t in s.threads && InCall(s.threads[t]) && Grounded(s.threads[t])
    requires Fresh(s.heap, n) && Fresh(s.heap, l) && n != l
    ensures Due(s, OwnStep(s, t, n, l))
  {
    hide Inv, Stored, Decide, Fresh;
    MyFacts(s, t);
    RootIsThere(s);
  }

  /** In every reachable state every thread that is in a call can take a step of it. */
  lemma NeverStuck(states: seq<State>, steps: seq<Step>, i: nat, t: Tid) returns (step: Step)
    requires IsRun(states, steps) && i < |states| && t in states[i].threads && InCall(states[i].threads[t])
    ensures step.t == t && !step.Invoke? && Enabled(states[i], step)
  {
    hide IsRun, Inv, Due, Safe;
    RunInv(states, steps, i);
    RunGrounded(states, steps, i);
    var n, l := TwoFreshIds(states[i].heap);
    step := OwnStep(states[i], t, n, l);
    OwnStepDue(states[i], t, n, l);
    NoWildPointers(states, steps, i, step);
  }

  // ---- alone -------------------------------------------------------------------------------------

  ghost predicate TreeFree(h: Heap) {
    forall x :: x in h && h[x].live ==> h[x].lock.Free?
  }

  /** Every lock word a thread at `pc` goes by is still current, and where it holds none, every node of the tree is free. */
  ghost predicate Current(h: Heap, pc: Pc) {
    match pc
    case Idle => false
    case Start(_) => TreeFree(h)
    case RootLocked(_, rl) => TreeFree(h) && ROOT in h && h[ROOT].lock == rl
    case RootLoaded(_, rl, _) => TreeFree(h) && ROOT in h && h[ROOT].lock == rl
    case RootHeld(_, _) => true
    case Descend(_, c) => TreeFree(h) && c.parent in h && h[c.parent].lock == c.seen
    case NodeLocked(_, c, nl) =>
      TreeFree(h) && c.parent in h && h[c.parent].lock == c.seen && c.node in h && h[c.node].lock == nl
    case ParentReleased(_, c, nl) => TreeFree(h) && c.node in h && h[c.node].lock == nl
    case Copied(_, c, nl, _) =>
      TreeFree(h) && c.parent in h && h[c.parent].lock == c.seen && c.node in h && h[c.node].lock == nl
    case Ready(_, c, nl, _) => TreeFree(h) && c.node in h && h[c.node].lock == nl
    case ParentHeld(_, c, nl, _) => c.node in h && h[c.node].lock == nl
    case BothHeld(_, _, _, _) => true
    case NodeHeld(_, c, _, _) => c.parent in h && h[c.parent].lock == c.seen
    case NodeOwned(_, _, _, _) => true
    case Growing(_, _, _) => true
    case Releasing(_, _, outcome) => outcome.Some?
    case Done(_, _) => true
  }

  /** How many levels are left below depth `d`. */
  function Levels(d: nat): nat {
    if d <= KEY_BYTES then KEY_BYTES - d else 0
  }

  /** How many steps at most a call that is not disturbed still has to take. */
  function StepsLeft(pc: Pc): nat {
    match pc
    case Idle => 0
    case Start(_) => 42
    case RootLocked(_, _) => 41
    case RootLoaded(_, _, _) => 40
    case RootHeld(_, _) => 2
    case Descend(_, c) => 4 * Levels(c.depth) + 7
    case NodeLocked(_, c, _) => 4 * Levels(c.depth) + 6
    case ParentReleased(_, c, _) => 4 * Levels(c.depth) + 5
    case Copied(_, c, _, _) => 4 * Levels(c.depth) + 5
    case Ready(_, c, _, _) => 4 * Levels(c.depth) + 4
    case ParentHeld(_, _, _, _) => 4
    case BothHeld(_, _, _, _) => 3
    case NodeHeld(_, _, _, _) => 3
    case NodeOwned(_, _, _, _) => 2
    case Growing(_, _, _) => 2
    case Releasing(_, held, _) => |held|
    case Done(_, _) => 0
  }

  /** The operation has taken effect. */
  ghost predicate HasOutcome(pc: Pc) {
    pc.Done? || (pc.Releasing? && pc.outcome.Some?)
  }

  ghost function OutcomeOf(pc: Pc): Outcome
    requires HasOutcome(pc)
  {
    if pc.Done? then pc.out else pc.outcome.value
  }

  /** One undisturbed step: nearer to the end, of the same call, which takes effect at most once. */
  ghost predicate Advanced(s: State, s': State, t: Tid) {
    && t in s.threads && t in s'.threads
    && var pc, pc' := s.threads[t], s'.threads[t];
    && Current(s'.heap, pc') && StepsLeft(pc') < StepsLeft(pc) && CallOf(pc') == CallOf(pc)
    && (HasOutcome(pc) ==> HasOutcome(pc') && OutcomeOf(pc') == OutcomeOf(pc) && s'.log == s.log)
    && (!HasOutcome(pc') ==> s'.log == s.log)
    && (!HasOutcome(pc) && HasOutcome(pc') ==>
          s'.log == s.log + [Event(t, pc'.call.op, OutcomeOf(pc').result)] && OutcomeOf(pc').at == |s.log|)
  }

  lemma RootAdvances(s: State, step: Step)
    requires Inv(s) && Enabled(s, step) && Current(s.heap, s.threads[step.t])
    requires step.LockRoot? || step.LoadRoot? || step.CheckRoot? || step.UpgradeRoot? || step.PlantLeaf?
    ensures Advanced(s, Next(s, step), step.t)
  {
    hide Inv, Stored, Decide, Fresh, KeyByte, Replay;
    MyFacts(s, step.t);
    RootIsThere(s);
  }

  lemma LockNodeAdvances(s: State, step: Step)
    requires Inv(s) && Enabled(s, step) && Current(s.heap, s.threads[step.t]) && step.LockNode?
    ensures Advanced(s, Next(s, step), step.t)
  {
    hide Inv, Stored, TreeInv, Decide, Fresh, KeyByte, Replay;
    MyFacts(s, step.t);
    StoredTree(s);
    var pc := s.threads[step.t];
    ParentLeads(s.heap, pc.c, pc.call.op.key);
  }

  lemma ReadAdvances(s: State, step: Step)
    requires Inv(s) && Enabled(s, step) && Current(s.heap, s.threads[step.t]) && (step.ReleaseParent? || step.CopyNode?)
    ensures Advanced(s, Next(s, step), step.t)
  {
    hide Inv, Stored, Decide, Fresh, KeyByte, Replay;
    MyFacts(s, step.t);
  }

  lemma ValidateAdvances(s: State, step: Step)
    requires Inv(s) && Enabled(s, step) && Current(s.heap, s.threads[step.t]) && step.Validate?
    ensures Advanced(s, Next(s, step), step.t)
  {
    hide Inv, Stored, Facts, TreeInv, Agree, Legal, Decide, Fresh, KeyByte, Replay;
    MyFacts(s, step.t);
    StoredTree(s);
    var pc := s.threads[step.t];
    ReadyFacts(s.heap, s.log, step.t, pc);
    if BranchOf(pc).Child? {
      FollowFacts(s.heap, s.log, step.t, pc);
      DepthFits(s.heap, s.log, step.t, Next(s, step).threads[step.t]);
    }
  }

  lemma DepthFits(h: Heap, log: seq<Event>, t: Tid, pc: Pc)
    requires pc.Descend? && Facts(h, log, t, pc)
    ensures pc.c.depth <= KEY_BYTES
  {
  }

  lemma UpgradeParentAdvances(s: State, step: Step)
    requires Inv(s) && Enabled(s, step) && Current(s.heap, s.threads[step.t]) && (step.UpgradeParent? || step.ObsoleteNode?)
    ensures Advanced(s, Next(s, step), step.t)
  {
    hide Inv, Stored, TreeInv, Agree, Legal, Decide, Fresh, KeyByte, Replay;
    MyFacts(s, step.t);
    StoredTree(s);
    var pc := s.threads[step.t];
    if pc.Copied? { ParentLeads(s.heap, pc.c, pc.call.op.key); }
  }

  lemma UpgradeNodeAdvances(s: State, step: Step)
    requires Inv(s) && Enabled(s, step) && Current(s.heap, s.threads[step.t]) && (step.UpgradeNode? || step.CheckParent?)
    ensures Advanced(s, Next(s, step), step.t)
  {
    hide Inv, Stored, TreeInv, Agree, Legal, Decide, Fresh, KeyByte, Replay;
    MyFacts(s, step.t);
    StoredTree(s);
    var pc := s.threads[step.t];
    if pc.Copied? { ParentLeads(s.heap, pc.c, pc.call.op.key); }
  }

  lemma WriteAdvances(s: State, step: Step)
    requires Inv(s) && Enabled(s, step) && Current(s.heap, s.threads[step.t])
    requires step.AddLeaf? || step.SplitNode? || step.GrowNode? || step.Unlock?
    ensures Advanced(s, Next(s, step), step.t)
  {
    hide Inv, Stored, Decide, Fresh, KeyByte, Replay, Add, Split, GrowInto, SharedLength;
    MyFacts(s, step.t);
  }

  lemma StepAdvances(s: State, step: Step)
    requires Inv(s) && Enabled(s, step) && Current(s.heap, s.threads[step.t]) && !step.Invoke?
    ensures Advanced(s, Next(s, step), step.t)
  {
    hide Inv, Enabled, Next, Current, Advanced;
    if step.LockNode? {
      LockNodeAdvances(s, step);
    } else if step.ReleaseParent? || step.CopyNode? {
      ReadAdvances(s, step);
    } else if step.Validate? {
      ValidateAdvances(s, step);
    } else if step.UpgradeParent? || step.ObsoleteNode? {
      UpgradeParentAdvances(s, step);
    } else if step.UpgradeNode? || step.CheckParent? {
      UpgradeNodeAdvances(s, step);
    } else if step.AddLeaf? || step.SplitNode? || step.GrowNode? || step.Unlock? {
      WriteAdvances(s, step);
    } else {
      RootAdvances(s, step);
    }
  }

  /** The history so far: that of the start, and once the call has taken effect its own entry. */
  ghost predicate Logged(log: seq<Event>, log': seq<Event>, t: Tid, pc: Pc) {
    if HasOutcome(pc) then log' == log + [Event(t, pc.call.op, OutcomeOf(pc).result)] && OutcomeOf(pc).at == |log|
    else log' == log
  }

  lemma LogsOn(log: seq<Event>, s: State, s': State, t: Tid)
    requires Advanced(s, s', t) && Logged(log, s.log, t, s.threads[t]) && !s.threads[t].Idle?
    ensures Logged(log, s'.log, t, s'.threads[t])
  {
    hide Current, StepsLeft;
  }

  /** From `i` up to `j` only thread `t` takes steps, of the call it is about to start over or for the first time. */
  ghost predicate RunsAlone(states: seq<State>, steps: seq<Step>, t: Tid, i: nat, j: nat) {
    && i <= j < |states| && |states| == |steps| + 1 && t in states[i].threads && states[i].threads[t].Start?
    && (forall u :: u in states[i].threads ==> HeldAt(states[i].threads[u]) == {})
    && (forall k :: i <= k < j ==> steps[k].t == t && !steps[k].Invoke?)
  }

  lemma StartsCurrent(states: seq<State>, steps: seq<Step>, t: Tid, i: nat)
    requires IsRun(states, steps) && RunsAlone(states, steps, t, i, i)
    ensures Current(states[i].heap, states[i].threads[t])
  {
    forall x | x in states[i].heap && states[i].heap[x].live ensures states[i].heap[x].lock.Free? {
      AllFree(states, steps, i, x);
    }
  }

  lemma {:induction false} KeepsOn(states: seq<State>, steps: seq<Step>, t: Tid, i: nat, j: nat)
    requires IsRun(states, steps) && RunsAlone(states, steps, t, i, j)
    ensures t in states[j].threads && Current(states[j].heap, states[j].threads[t])
    ensures StepsLeft(states[j].threads[t]) + (j - i) <= 42
    ensures CallOf(states[j].threads[t]) == CallOf(states[i].threads[t])
    ensures Logged(states[i].log, states[j].log, t, states[j].threads[t])
    decreases j
  {
    hide Inv, Enabled, Next, Current, HeldAt;
    if i == j {
      StartsCurrent(states, steps, t, i);
    } else {
      KeepsOn(states, steps, t, i, j - 1);
      RunInv(states, steps, j - 1);
      StepAdvances(states[j - 1], steps[j - 1]);
      InCallCurrent(states[j - 1], t);
      LogsOn(states[i].log, states[j - 1], states[j], t);
    }
  }

  lemma InCallCurrent(s: State, t: Tid)
    requires t in s.threads && Current(s.heap, s.threads[t])
    ensures !s.threads[t].Idle?
  {
  }

  /** A call that runs while nobody else is in the middle of a write never starts over, takes at most 42 steps, and when it
      returns has taken effect with the answer that the map at its start gives. Until then it can always go on. */
  lemma ReturnsAlone(states: seq<State>, steps: seq<Step>, t: Tid, i: nat, j: nat)
    requires IsRun(states, steps) && RunsAlone(states, steps, t, i, j)
    ensures j <= i + 42 && t in states[j].threads
    ensures i < j ==> !states[j].threads[t].Start?
    ensures j == i + 42 ==> states[j].threads[t].Done?
    ensures states[j].threads[t].Done? ==>
      && states[j].threads[t].out.result == Answer(Replay(states[i].log), states[i].threads[t].call.op)
      && states[j].log == states[i].log + [Event(t, states[i].threads[t].call.op, states[j].threads[t].out.result)]
    ensures !states[j].threads[t].Done? ==>
      exists step: Step :: step.t == t && !step.Invoke? && Enabled(states[j], step)
  {
    hide IsRun, HeldAt, Enabled, Current, Inv, Answer, Replay;
    KeepsOn(states, steps, t, i, j);
    InCallCurrent(states[j], t);
    if states[j].threads[t].Done? {
      hide RunsAlone;
      Linearizable(states, steps, j, t);
      var log := states[i].log;
      assert states[j].log[..|log|] == log;
    } else {
      var step := NeverStuck(states, steps, j, t);
      RunInv(states, steps, j);
      StepAdvances(states[j], step);
    }
  }
}

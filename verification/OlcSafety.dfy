/** The main results about concurrent get and insert: every run is linearizable, and the tree itself is
    the map at every instant. */
module OlcSafety {
  import opened ArtKey
  import opened OlcHeap
  import opened OlcCommit
  import opened OlcProtocol
  import opened OlcInvariant
  import opened OlcSteps

  lemma {:induction false} RunInv(states: seq<State>, steps: seq<Step>, i: nat)
    requires IsRun(states, steps) && i < |states|
    ensures Inv(states[i])
  {
    hide Inv, Enabled, Next;
    if i == 0 {
      InitialInv(states[0]);
    } else {
      RunInv(states, steps, i - 1);
      StepKeepsInv(states[i - 1], steps[i - 1]);
    }
  }

  lemma {:induction false} LogGrows(states: seq<State>, steps: seq<Step>, i: nat, j: nat)
    requires IsRun(states, steps) && i <= j < |states|
    ensures states[i].log <= states[j].log
    decreases j - i
  {
    hide Inv, Enabled, Next;
    if i < j {
      LogGrows(states, steps, i, j - 1);
      RunInv(states, steps, j - 1);
      StepKeepsInv(states[j - 1], steps[j - 1]);
    }
  }

  // ---- linearizability -----------------------------------------------------------------------

  /** The history is that of a sequential map, and every finished call has its own entry in it, made after the call
      began, with the result the call returned. */
  lemma Linearizable(states: seq<State>, steps: seq<Step>, i: nat, t: Tid)
    requires IsRun(states, steps) && i < |states|
    requires t in states[i].threads && states[i].threads[t].Done?
    ensures Legal(states[i].log)
    ensures var pc := states[i].threads[t];
      && pc.call.from <= pc.out.at < |states[i].log|
      && states[i].log[pc.out.at] == Event(t, pc.call.op, pc.out.result)
      && pc.out.result == Answer(Replay(states[i].log[..pc.out.at]), pc.call.op)
  {
    RunInv(states, steps, i);
    MyFacts(states[i], t);
    StoredTree(states[i]);
    hide TreeInv, Agree, Replay, Answer, Inv;
  }

  /** The call a thread is in, or has last finished. */
  function CallOf(pc: Pc): Option<Call> {
    if pc.Idle? then None else Some(pc.call)
  }

  /** The steps that take or release write locks, or write under them. */
  predicate IsLockStep(step: Step) {
    || step.UpgradeRoot? || step.PlantLeaf? || step.UpgradeParent? || step.UpgradeNode? || step.CheckParent?
    || step.AddLeaf? || step.SplitNode? || step.ObsoleteNode? || step.GrowNode? || step.Unlock?
  }

  ghost predicate CallKept(s: State, s': State, u: Tid)
    requires u in s.threads
  {
    u in s'.threads && CallOf(s'.threads[u]) == CallOf(s.threads[u])
  }

  lemma LockStepKeepsCall(s: State, step: Step, u: Tid)
    requires Enabled(s, step) && u in s.threads && IsLockStep(step)
    ensures CallKept(s, Next(s, step), u)
  {
    hide Fresh, Safe, Decide, Add, Split, GrowInto, Plant, SharedLength, KeyByte, Replay;
  }

  lemma ReadStepKeepsCall(s: State, step: Step, u: Tid)
    requires Enabled(s, step) && u in s.threads && !IsLockStep(step) && !(step.Invoke? && step.t == u)
    ensures CallKept(s, Next(s, step), u)
  {
    hide Fresh, Safe, Decide, KeyByte, Replay;
  }

  lemma StepKeepsCall(s: State, step: Step, u: Tid)
    requires Enabled(s, step) && u in s.threads && !(step.Invoke? && step.t == u)
    ensures CallKept(s, Next(s, step), u)
  {
    hide CallKept, Next, Enabled;
    if IsLockStep(step) {
      LockStepKeepsCall(s, step, u);
    } else {
      ReadStepKeepsCall(s, step, u);
    }
  }

  /** The call thread `u` is in (or has just finished) at state `k` was invoked at step `j`. */
  ghost predicate InvokedAt(steps: seq<Step>, u: Tid, j: nat, k: nat) {
    && j < k <= |steps| && steps[j].Invoke? && steps[j].t == u
    && forall i :: j < i < k ==> !(steps[i].Invoke? && steps[i].t == u)
  }

  lemma {:induction false} CallBegan(states: seq<State>, steps: seq<Step>, u: Tid, j: nat, k: nat)
    requires IsRun(states, steps) && InvokedAt(steps, u, j, k)
    ensures u in states[k].threads && CallOf(states[k].threads[u]) == Some(Call(steps[j].op, |states[j].log|))
    decreases k
  {
    if k > j + 1 {
      assert InvokedAt(steps, u, j, k - 1);
      CallBegan(states, steps, u, j, k - 1);
      hide Next, Enabled;
      StepKeepsCall(states[k - 1], steps[k - 1], u);
    } else {
      assert states[j + 1] == Next(states[j], steps[j]);
    }
  }

  /** The history respects real time: a call that finished before another was invoked comes before it. */
  lemma RealTimeOrder(states: seq<State>, steps: seq<Step>, t: Tid, i: nat, u: Tid, j: nat, k: nat)
    requires IsRun(states, steps) && i <= j && InvokedAt(steps, u, j, k)
    requires t in states[i].threads && states[i].threads[t].Done?
    requires u in states[k].threads && states[k].threads[u].Done?
    ensures states[i].threads[t].out.at < states[k].threads[u].out.at
    ensures states[k].threads[u].call.op == steps[j].op
  {
    CallBegan(states, steps, u, j, k);
    LogGrows(states, steps, i, j);
    hide IsRun;
    assert IsRun(states, steps);
    Linearizable(states, steps, i, t);
    Linearizable(states, steps, k, u);
    hide Legal, Answer, Replay;
  }

  /** The result recorded for the call, from the instant the operation takes effect. */
  function OutcomeOf(pc: Pc): Option<Outcome> {
    if pc.Done? then Some(pc.out) else if pc.Releasing? then pc.outcome else None
  }

  /** The history records nothing else: a step either leaves history and result alone (the next call starts without a
      result), or gives its thread's call, which had none, the result it records. */
  ghost predicate OneEvent(s: State, s': State, t: Tid)
    requires t in s.threads && t in s'.threads
  {
    var pc, pc' := s.threads[t], s'.threads[t];
    || (s'.log == s.log && (OutcomeOf(pc') == OutcomeOf(pc) || (pc.Done? && pc'.Start?)))
    || (&& !pc.Idle? && OutcomeOf(pc) == None && OutcomeOf(pc').Some? && OutcomeOf(pc').value.at == |s.log|
        && s'.log == s.log + [Event(t, pc.call.op, OutcomeOf(pc').value.result)])
  }

  lemma LockStepOneEvent(s: State, step: Step)
    requires Enabled(s, step) && IsLockStep(step)
    ensures step.t in Next(s, step).threads && OneEvent(s, Next(s, step), step.t)
  {
    hide Fresh, Safe, Add, Split, GrowInto, Plant, Decide, SharedLength, KeyByte;
  }

  lemma ReadStepOneEvent(s: State, step: Step)
    requires Enabled(s, step) && !IsLockStep(step)
    ensures step.t in Next(s, step).threads && OneEvent(s, Next(s, step), step.t)
  {
    hide Fresh, Safe, Decide, KeyByte;
  }

  lemma OneEventPerCall(s: State, step: Step)
    requires Enabled(s, step)
    ensures step.t in Next(s, step).threads && OneEvent(s, Next(s, step), step.t)
  {
    hide OneEvent, Next, Safe;
    if IsLockStep(step) {
      LockStepOneEvent(s, step);
    } else {
      ReadStepOneEvent(s, step);
    }
  }

  // ---- the tree is the map -------------------------------------------------------------------

  /** At every instant, whatever calls are in flight, a search of the tree answers as the history does. */
  lemma TreeIsMap(states: seq<State>, steps: seq<Step>, i: nat, k: Key)
    requires IsRun(states, steps) && i < |states|
    ensures Search(states[i].heap, k) == Entry(Replay(states[i].log), k)
  {
    RunInv(states, steps, i);
    hide Facts;
    StoredTree(states[i]);
    hide Inv, Legal, Replay, Search, Entry;
    SearchIsMap(states[i].heap, states[i].where, Replay(states[i].log), k);
  }

  lemma {:induction false} ReplayKeeps(log: seq<Event>, log': seq<Event>, k: Key)
    requires log <= log' && k in Replay(log)
    ensures k in Replay(log') && Replay(log')[k] == Replay(log)[k]
    decreases |log'|
  {
    if log != log' {
      ReplayKeeps(log, log'[..|log'| - 1], k);
    } else {
      assert log == log';
    }
  }

  /** An inserted key is never lost or overwritten: from the instant its insert takes effect, every later tree holds it. */
  lemma NeverLost(states: seq<State>, steps: seq<Step>, i: nat, j: nat, k: Key)
    requires IsRun(states, steps) && i <= j < |states| && k in Replay(states[i].log)
    ensures Search(states[j].heap, k) == Some(Replay(states[i].log)[k])
  {
    LogGrows(states, steps, i, j);
    hide IsRun;
    ReplayKeeps(states[i].log, states[j].log, k);
    TreeIsMap(states, steps, j, k);
    hide Search, Replay;
  }

  // ---- memory safety -------------------------------------------------------------------------

  lemma DueRootSafe(s: State, step: Step)
    requires Inv(s) && Due(s, step)
    requires step.Invoke? || step.LockRoot? || step.LoadRoot? || step.CheckRoot? || step.UpgradeRoot? || step.PlantLeaf?
    ensures Safe(s, step)
  {
    MyFacts(s, step.t);
    RootIsThere(s);
    hide Inv, Stored;
  }

  lemma DueNodeSafe(s: State, step: Step)
    requires Inv(s) && Due(s, step)
    requires step.LockNode? || step.ReleaseParent? || step.CopyNode? || step.Validate? || step.UpgradeParent?
             || step.UpgradeNode? || step.CheckParent? || step.ObsoleteNode? || step.Unlock?
    ensures Safe(s, step)
  {
    MyFacts(s, step.t);
    hide Inv, Stored, Decide;
  }

  lemma DueWriteSafe(s: State, step: Step)
    requires Inv(s) && Due(s, step) && (step.AddLeaf? || step.SplitNode? || step.GrowNode?)
    ensures Safe(s, step)
  {
    MyFacts(s, step.t);
    StoredTree(s);
    hide Inv, Stored, Facts, TreeInv, Agree, Legal, Committable, Decide, Split, GrowInto, Add, SharedLength, Tail;
    var pc := s.threads[step.t];
    match step
    case AddLeaf(_, l) => AddCommits(s.heap, s.where, s.log, step.t, pc, l);
    case SplitNode(_, n, l) =>
      SplitChecks(s.heap, s.where, s.log, step.t, pc, n, l);
      hide SplitReady;
    case GrowNode(_, n, l) => GrowCommits(s.heap, s.where, s.log, step.t, pc, n, l);
    case _ =>
  }

  /** No thread ever follows a pointer that does not lead to a node of the expected kind, and no thread is ever stuck
      for want of one: whenever its program counter allows a step, the step is safe. */
  lemma NoWildPointers(states: seq<State>, steps: seq<Step>, i: nat, step: Step)
    requires IsRun(states, steps) && i < |states| && Due(states[i], step)
    ensures Safe(states[i], step)
  {
    RunInv(states, steps, i);
    hide Inv, Due, Safe;
    match step
    case AddLeaf(_, _) => DueWriteSafe(states[i], step);
    case SplitNode(_, _, _) => DueWriteSafe(states[i], step);
    case GrowNode(_, _, _) => DueWriteSafe(states[i], step);
    case Invoke(_, _) => DueRootSafe(states[i], step);
    case LockRoot(_) => DueRootSafe(states[i], step);
    case LoadRoot(_) => DueRootSafe(states[i], step);
    case CheckRoot(_) => DueRootSafe(states[i], step);
    case UpgradeRoot(_) => DueRootSafe(states[i], step);
    case PlantLeaf(_, _) => DueRootSafe(states[i], step);
    case _ => DueNodeSafe(states[i], step);
  }
}

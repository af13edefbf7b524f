/** A call that the other threads leave undisturbed returns within a fixed number of atomic operations. */
module QsbrAlone {
  import opened QsbrProtocol
  import opened QsbrInvariant
  import opened QsbrSteps
  import opened QsbrSafety
  import opened QsbrCalls
  import opened QsbrProgress

  /** In the middle of a call, and not waiting for an epoch change of some other thread to end. */
  ghost predicate Busy(s: State, t: Tid) {
    && t in s.threads && !s.threads[t].pc.Out? && !s.threads[t].pc.Idle?
    && (s.threads[t].pc.RegSpin? ==> s.threads[t].pc.oldEpoch != s.epoch)
  }

  /** Operations of the orphan handling still to come. */
  function StagesLeft(stage: Stage): nat {
    match stage
    case TakePrevious => 5
    case TakeCurrent(_) => 4
    case FreeTaken(_, _) => 3
    case Publish(_) => 2
    case Append(_) => 1
    case _ => 0
  }

  /** Operations of the call still to come; one more where a compare-and-swap is bound to fail. */
  function StepsLeft(s: State, t: Tid): nat
    requires t in s.threads
  {
    var w := s.StateWord();
    match s.threads[t].pc
    case Out => 0
    case RegLoaded(v) => if v == w then 2 else 3
    case RegSpin(start) => if start == s.epoch then 0 else 1
    case Idle => 0
    case RetLoaded(_, _, _) => 1
    case QLoaded(_, _) => 10
    case QReady(_, _) => 9
    case Changing(stage, _, _, _) => if stage == CasReady(w) then 2 else 3 + StagesLeft(stage)
    case Changed(_, _) => 1
    case Leaving(stage, _, _) => 5 + StagesLeft(stage)
    case LeaveReady(v, _, prepared) => if v == w then 4 else if prepared then 5 else 11
    case Left(_, _, _) => 3
    case OrphanPrevious => 2
    case OrphanCurrent => 1
  }

  lemma EntersNearer(s: State, t: Tid)
    requires Inv(s) && Busy(s, t) && Enabled(s, OwnStep(s, t))
    requires s.threads[t].pc.RegLoaded? || s.threads[t].pc.RegSpin? || s.threads[t].pc.RetLoaded?
    ensures var s' := Next(s, OwnStep(s, t)); t in s'.threads && StepsLeft(s', t) < StepsLeft(s, t)
  {
    hide Data, Counts, Exclusive, ExecutePreviousPlace, AdvanceSeenPlace;
    ThreadOk(s, t);
    if s.threads[t].pc.RegSpin? { SameIsEqual(s.epoch, s.threads[t].pc.oldEpoch); }
  }

  lemma QuiesceNearer(s: State, t: Tid)
    requires Busy(s, t) && Enabled(s, OwnStep(s, t))
    requires s.threads[t].pc.QLoaded? || s.threads[t].pc.QReady? || s.threads[t].pc.Changed?
    ensures var s' := Next(s, OwnStep(s, t)); t in s'.threads && StepsLeft(s', t) < StepsLeft(s, t)
  {
    hide ExecutePreviousPlace, AdvanceSeenPlace, Same;
  }

  lemma HandlesNearer(s: State, t: Tid)
    requires Busy(s, t) && Enabled(s, OwnStep(s, t)) && IsHandling(s.threads[t].pc)
    ensures var s' := Next(s, OwnStep(s, t)); t in s'.threads && StepsLeft(s', t) < StepsLeft(s, t)
  {
    hide Move, Advances;
  }

  lemma UncountsNearer(s: State, t: Tid)
    requires Busy(s, t) && Enabled(s, OwnStep(s, t)) && s.threads[t].pc.LeaveReady?
    ensures var s' := Next(s, OwnStep(s, t)); t in s'.threads && StepsLeft(s', t) < StepsLeft(s, t)
  {
    hide Advances, RemovesFromPrevious, EpochValue, NextLeaveCas;
    if OwnStep(s, t) == LeaveCas(t) { CasKeeps(s, t); }
  }

  lemma LeavesNearer(s: State, t: Tid)
    requires Busy(s, t) && Enabled(s, OwnStep(s, t)) && s.threads[t].pc.Left?
    ensures var s' := Next(s, OwnStep(s, t)); t in s'.threads && StepsLeft(s', t) < StepsLeft(s, t)
  {
    hide ExecutePreviousPlace, AdvanceSeenPlace, ExecutePrevious, AdvanceSeen;
  }

  lemma HandsOverNearer(s: State, t: Tid)
    requires Busy(s, t) && Enabled(s, OwnStep(s, t))
    requires s.threads[t].pc.OrphanPrevious? || s.threads[t].pc.OrphanCurrent?
    ensures var s' := Next(s, OwnStep(s, t)); t in s'.threads && StepsLeft(s', t) < StepsLeft(s, t)
  {
    hide Move, EpochValue;
  }

  /** Every operation brings its thread nearer to the end of its call. */
  lemma StepsNearer(s: State, t: Tid)
    requires Inv(s) && Busy(s, t) && Enabled(s, OwnStep(s, t))
    ensures var s' := Next(s, OwnStep(s, t)); t in s'.threads && StepsLeft(s', t) < StepsLeft(s, t)
  {
    hide Inv, Enabled, Next, StepsLeft;
    var pc := s.threads[t].pc;
    if pc.RegLoaded? || pc.RegSpin? || pc.RetLoaded? {
      EntersNearer(s, t);
    } else if pc.QLoaded? || pc.QReady? || pc.Changed? {
      QuiesceNearer(s, t);
    } else if IsHandling(pc) {
      HandlesNearer(s, t);
    } else if pc.LeaveReady? {
      UncountsNearer(s, t);
    } else if pc.Left? {
      LeavesNearer(s, t);
    } else {
      HandsOverNearer(s, t);
    }
  }

  /** From `i` up to `j` thread `t` goes on with its call, and no other thread takes a step. */
  ghost predicate GoesOn(states: seq<State>, steps: seq<Step>, t: Tid, i: nat, j: nat) {
    && i <= j < |states| && |states| == |steps| + 1 && t in states[i].threads
    && forall k :: i <= k < j ==> Busy(states[k], t) && steps[k] == OwnStep(states[k], t)
  }

  lemma {:induction false} ComesNearer(states: seq<State>, steps: seq<Step>, t: Tid, i: nat, j: nat)
    requires IsRun(states, steps) && GoesOn(states, steps, t, i, j)
    ensures t in states[j].threads && StepsLeft(states[j], t) + (j - i) <= StepsLeft(states[i], t)
    decreases j
  {
    hide Inv, Enabled, Next, OwnStep, StepsLeft, Busy;
    if i < j {
      ComesNearer(states, steps, t, i, j - 1);
      StepOfRun(states, steps, j - 1);
      StepsNearer(states[j - 1], t);
    }
  }

  /** Left to itself, any call returns within eleven operations, whatever state the others have left things in; only a
      newcomer that finds an epoch change going on has to wait for it. Until then it can always go on. */
  lemma ReturnsAlone(states: seq<State>, steps: seq<Step>, t: Tid, i: nat, j: nat)
    requires IsRun(states, steps) && GoesOn(states, steps, t, i, j)
    ensures j - i <= 11 && t in states[j].threads
    ensures j - i == 11 ==> !Busy(states[j], t)
    ensures Busy(states[j], t) ==> Enabled(states[j], OwnStep(states[j], t))
  {
    hide IsRun, Inv, Enabled, Next, OwnStep;
    ComesNearer(states, steps, t, i, j);
    if Busy(states[j], t) {
      NeverStuck(states, steps, j, t);
      RunInv(states, steps, j);
      StepsNearer(states[j], t);
    }
  }
}

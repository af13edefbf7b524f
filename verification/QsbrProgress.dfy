/** No thread is ever stuck in a call, and what each atomic operation of a call decides, in terms of who is registered and
    who still owes a quiescent state. */
module QsbrProgress {
  import opened QsbrProtocol
  import opened QsbrInvariant
  import opened QsbrSteps
  import opened QsbrSafety
  import opened QsbrCalls

  /** The step a thread inside a call takes next; after a failed compare-and-swap, the load again. */
  function OwnStep(s: State, t: Tid): Step
    requires t in s.threads
  {
    match s.threads[t].pc
    case Out => RegLoad(t)
    case RegLoaded(w) => if w == s.StateWord() then RegCas(t) else RegLoad(t)
    case RegSpin(_) => RegSpinLoad(t)
    case Idle => QLoad(t)
    case RetLoaded(_, _, _) => RetFinish(t)
    case QLoaded(_, _) => QLocal(t)
    case QReady(_, _) => QFetchSub(t)
    case Changing(stage, _, _, _) =>
      if stage == CasReady(s.StateWord()) then ChangeCas(t)
      else if stage.Rotated? || stage.CasReady? then ChangeLoad(t)
      else HandleOrphans(t)
    case Changed(_, _) => ChangeFinish(t)
    case Leaving(_, _, _) => HandleOrphans(t)
    case LeaveReady(w, _, _) => if w == s.StateWord() then LeaveCas(t) else LeaveLoad(t)
    case Left(_, _, _) => LeaveFinish(t)
    case OrphanPrevious => PushPrevious(t)
    case OrphanCurrent => PushCurrent(t)
  }

  /** The stages a leaver passes through end with its handling of orphans. */
  ghost predicate LeavingStages(s: State) {
    forall t :: t in s.threads ==> GoodStage(s.threads[t].pc)
  }

  ghost predicate GoodStage(pc: Pc) {
    pc.Leaving? ==> !pc.stage.Rotated? && !pc.stage.CasReady?
  }

  /** A step changes only the thread that takes it. */
  ghost predicate OwnThreadOnly(s: State, s': State, t: Tid) {
    && OnlyThread(s, s', t) && (GoodStage(s.threads[t].pc) ==> GoodStage(s'.threads[t].pc))
  }

  lemma OwnThreadEnters(s: State, step: Step)
    requires Enabled(s, step)
    requires step.Acquire? || step.Release? || step.Unlink? || step.RegLoad? || step.RegCas? || step.RegSpinLoad?
             || step.RetLoad? || step.QLoad? || step.ChangeLoad? || step.ChangeCas?
    ensures OwnThreadOnly(s, Next(s, step), step.t)
  {
    hide Same;
  }

  lemma OwnThreadLists(s: State, step: Step)
    requires Enabled(s, step)
    requires step.RetFinish? || step.QLocal? || step.QFetchSub? || step.ChangeFinish? || step.LeaveFinish?
    ensures OwnThreadOnly(s, Next(s, step), step.t)
  {
    hide ExecutePreviousPlace, AdvanceSeenPlace, Same, ExecutePrevious, AdvanceSeen;
  }

  lemma OwnThreadLeaves(s: State, step: Step)
    requires Enabled(s, step)
    requires step.HandleOrphans? || step.LeaveLoad? || step.LeaveCas? || step.PushPrevious? || step.PushCurrent?
    ensures OwnThreadOnly(s, Next(s, step), step.t)
  {
    hide Move, Advances, RemovesFromPrevious;
  }

  lemma OnlyOwnThread(s: State, step: Step)
    requires Enabled(s, step)
    ensures OwnThreadOnly(s, Next(s, step), step.t)
  {
    hide Enabled, Next, OwnThreadOnly;
    if step.RetFinish? || step.QLocal? || step.QFetchSub? || step.ChangeFinish? || step.LeaveFinish? {
      OwnThreadLists(s, step);
    } else if step.HandleOrphans? || step.LeaveLoad? || step.LeaveCas? || step.PushPrevious? || step.PushCurrent? {
      OwnThreadLeaves(s, step);
    } else {
      OwnThreadEnters(s, step);
    }
  }

  lemma StepKeepsStages(s: State, step: Step)
    requires LeavingStages(s) && Enabled(s, step)
    ensures LeavingStages(Next(s, step))
  {
    hide Enabled, Next, GoodStage;
    var s' := Next(s, step);
    OnlyOwnThread(s, step);
    forall t | t in s'.threads ensures GoodStage(s'.threads[t].pc) {
      assert GoodStage(s.threads[t].pc);
    }
  }

  lemma {:induction false} RunStages(states: seq<State>, steps: seq<Step>, i: nat)
    requires IsRun(states, steps) && i < |states|
    ensures LeavingStages(states[i])
  {
    if i > 0 {
      RunStages(states, steps, i - 1);
      hide Next, Enabled, LeavingStages;
      StepKeepsStages(states[i - 1], steps[i - 1]);
    }
  }

  /** In every reachable state, every thread in the middle of a call can take its next step. */
  lemma NeverStuck(states: seq<State>, steps: seq<Step>, i: nat, t: Tid)
    requires IsRun(states, steps) && i < |states|
    requires t in states[i].threads && !states[i].threads[t].pc.Out? && !states[i].threads[t].pc.Idle?
    ensures Enabled(states[i], OwnStep(states[i], t))
  {
    hide IsRun, Threads, Data, Inv;
    var s := states[i];
    RunInv(states, steps, i);
    RunStages(states, steps, i);
    CountersNeverUnderflow(states, steps, i, t);
  }

  /** Every call can begin: to register at any time, the others while registered; quiescent() and unregister_thread once the
      thread holds nothing, and a deallocation for every unlinked pointer not submitted before. */
  lemma CallsBegin(s: State, t: Tid, p: Ptr)
    requires t in s.threads
    ensures s.threads[t].pc.Out? ==> Enabled(s, RegLoad(t)) && Next(s, RegLoad(t)) == s.Put(t, s.threads[t].(pc := RegLoaded(s.StateWord())))
    ensures s.threads[t].pc.Idle? && s.threads[t].hold == {} ==> Enabled(s, QLoad(t)) && Enabled(s, LeaveLoad(t))
    ensures s.threads[t].pc.Idle? && p in s.unlinked && p !in s.place && p !in s.threads[t].hold ==> Enabled(s, RetLoad(t, p))
    ensures s.threads[t].pc.Idle? && p !in s.unlinked ==> Enabled(s, Unlink(t, p)) && Enabled(s, Acquire(t, p))
    ensures s.threads[t].pc.Idle? && p in s.threads[t].hold ==> Enabled(s, Release(t, p))
  {
  }

  /** What readers do with pointers: a history the rest of the state does not depend on. */
  lemma ReadersOnly(s: State, step: Step)
    requires Enabled(s, step) && (step.Acquire? || step.Release? || step.Unlink?)
    ensures var s', t, p := Next(s, step), step.t, step.p;
      && t in s'.threads
      && (step.Acquire? ==> s'.threads[t].hold == s.threads[t].hold + {p} && s'.unlinked == s.unlinked)
      && (step.Release? ==> s'.threads[t].hold == s.threads[t].hold - {p} && s'.unlinked == s.unlinked)
      && (step.Unlink? ==> s'.unlinked.Keys == s.unlinked.Keys + {p} && s'.unlinked[p] == s.epoch && s'.threads == s.threads)
      && s'.place == s.place && s'.requested == s.requested && s'.StateWord() == s.StateWord() && s'.epoch == s.epoch
  {
    hide Same;
  }

  // ---- what each operation decides -----------------------------------------------------------------------

  ghost predicate SomeoneChanges(s: State) {
    exists u :: u in s.threads && s.threads[u].pc.Changing?
  }

  /** register_thread: the newcomer takes part at once, owing a quiescent state, unless an epoch change is going on; then it
      waits until the epoch is over. */
  ghost predicate TookPart(s: State, s': State, t: Tid) {
    && t in s'.threads && t in RegisteredThreads(s') && s'.epoch == s.epoch
    && var th := s'.threads[t];
       if SomeoneChanges(s) then th.pc == RegSpin(s.epoch) && t !in OwingThreads(s')
       else th.pc == Idle && th.quiescentEpoch == th.seenEpoch == s.epoch && t in OwingThreads(s')
  }

  lemma RegistersAtOnce(s: State, t: Tid)
    requires Inv(s) && Enabled(s, RegCas(t))
    ensures TookPart(s, Next(s, RegCas(t)), t)
  {
    hide Data, Counts, Threads;
    ChangeOrNone(s);
  }

  lemma ChangeOrNone(s: State)
    requires Exclusive(s)
    ensures SomeoneChanges(s) <==> s.inPrevious == 0 && s.count > 0
  {
  }

  /** The newcomer waits exactly as long as the epoch it came in lasts. */
  ghost predicate Spun(s: State, s': State, t: Tid) {
    && t in s.threads && t in s'.threads && s.threads[t].pc.RegSpin?
    && if s.epoch == s.threads[t].pc.oldEpoch then s' == s
       else
         && s'.threads[t].pc == Idle && s'.threads[t].quiescentEpoch == s'.threads[t].seenEpoch == s.epoch
         && s'.threads[t].quiescentStates == 0 && s'.(threads := s.threads) == s
  }

  lemma SpinsUntilOver(s: State, t: Tid)
    requires Inv(s) && Enabled(s, RegSpinLoad(t))
    ensures Spun(s, Next(s, RegSpinLoad(t)), t)
  {
    hide Data, Counts, Exclusive, Same;
    ThreadOk(s, t);
    SameIsEqual(s.epoch, s.threads[t].pc.oldEpoch);
  }

  /** remove_thread_from_previous_epoch: the last thread that owes starts the epoch change, all others are done; whether
      orphans may be freed at once is decided by who is registered at this instant. */
  ghost predicate PaidDebt(s: State, s': State, t: Tid) {
    && t in s.threads && t in s'.threads && s.threads[t].pc.QReady?
    && |OwingThreads(s')| == |OwingThreads(s)| - 1 && t !in OwingThreads(s') && s'.epoch == s.epoch && s'.place == s.place
    && var th := s.threads[t];
       s'.threads[t] ==
         if OwingThreads(s) == {t} then th.(pc := Changing(TakePrevious, th.pc.seen, th.pc.single, Alone(s)))
         else th.(pc := Idle, quiescentStates := 1)
  }

  lemma LastPaysAndChanges(s: State, t: Tid)
    requires Inv(s) && Enabled(s, QFetchSub(t))
    ensures PaidDebt(s, Next(s, QFetchSub(t)), t)
  {
    hide Inv, RegisteredThreads, OwingThreads;
    ControlOf(s);
    QFetchSubStep(s, t);
    ControlOf(Next(s, QFetchSub(t)));
    ThreadOk(s, t);
    OwnDebt(s, t);
    AloneIsSingle(s);
    if s.inPrevious == 1 { OnlyOwing(s, t); }
    OneOwes(s, t);
    Paid(Next(s, QFetchSub(t)), t);
  }

  lemma OneOwes(s: State, t: Tid)
    requires Counts(s)
    ensures OwingThreads(s) == {t} ==> s.inPrevious == 1
  {
    hide OwingThreads, RegisteredThreads;
    if OwingThreads(s) == {t} { assert |{t}| == 1; }
  }

  lemma ControlOf(s: State)
    requires Inv(s)
    ensures Control(s) && Counts(s) && Threads(s)
  {
  }

  lemma Paid(s: State, t: Tid)
    requires t in s.threads
    requires s.threads[t].pc.Changing? || (s.threads[t].pc.Idle? && s.threads[t].quiescentStates > 0 && s.threads[t].quiescentEpoch == s.epoch)
    ensures t !in OwingThreads(s)
  {
  }

  /** unregister_thread's load: orphans are handled first exactly when the leaver is the last that owes, once. */
  ghost predicate LoadedToLeave(s: State, s': State, t: Tid) {
    && t in s.threads && t in s'.threads
    && var prepared := s.threads[t].pc.LeaveReady? && s.threads[t].pc.prepared;
       s'.threads[t].pc ==
         if OwingThreads(s) == {t} && !prepared then Leaving(TakePrevious, s.StateWord(), s.epoch)
         else LeaveReady(s.StateWord(), s.epoch, prepared)
  }

  lemma LastLeaverPrepares(s: State, t: Tid)
    requires Inv(s) && Enabled(s, LeaveLoad(t))
    ensures LoadedToLeave(s, Next(s, LeaveLoad(t)), t)
  {
    hide Data, Exclusive, Counts, Advances;
    ThreadOk(s, t);
    hide Threads;
    AdvanceIsLast(s, t);
  }

  lemma AdvanceIsLast(s: State, t: Tid)
    requires Counts(s) && t in s.threads && (s.threads[t].pc == Idle || s.threads[t].pc.LeaveReady?)
    requires ThreadEpochs(s.threads[t], s.epoch)
    ensures Advances(s.StateWord(), s.threads[t]) <==> OwingThreads(s) == {t}
  {
    AdvancingOwes(s, t);
    if t in OwingThreads(s) && s.inPrevious == 1 { OnlyOwing(s, t); }
    OneOwes(s, t);
  }

  /** unregister_thread's compare-and-swap: one thread less, and a debt less if it had one; during an epoch change the
      leaver goes straight on to orphan its requests. */
  ghost predicate Uncounted(s: State, s': State, t: Tid) {
    && t in s.threads && t in s'.threads
    && RegisteredThreads(s') == RegisteredThreads(s) - {t}
    && s'.epoch == s.epoch + (if OwingThreads(s) == {t} then 1 else 0) && s'.place == s.place
    && (OwingThreads(s) != {t} ==> OwingThreads(s') == OwingThreads(s) - {t})
    && s'.threads[t] ==
         s.threads[t].(pc := if SomeoneChanges(s) then OrphanPrevious else Left(s.epoch, Alone(s), OwingThreads(s) == {t}))
  }

  lemma LeavesTheCount(s: State, t: Tid)
    requires Inv(s) && Enabled(s, LeaveCas(t))
    ensures Uncounted(s, Next(s, LeaveCas(t)), t)
  {
    hide Inv, Advances, RegisteredThreads, OwingThreads, SomeoneChanges, Enabled, Next, OnlyThread, Alone, SingleThreadMode;
    CasFacts(s, t);
    CasKeeps(s, t);
    ThreadGone(s, Next(s, LeaveCas(t)), t);
  }

  lemma CasFacts(s: State, t: Tid)
    requires Inv(s) && Enabled(s, LeaveCas(t))
    ensures t in s.threads && s.threads[t].pc.LeaveReady? && s.threads[t].pc.word == s.StateWord()
    ensures s.threads[t].pc.seen == s.epoch && s.count > 0
    ensures Advances(s.StateWord(), s.threads[t]) <==> OwingThreads(s) == {t}
    ensures s.inPrevious == 0 ==> OwingThreads(s) != {t}
    ensures SomeoneChanges(s) <==> s.inPrevious == 0
    ensures SingleThreadMode(s.StateWord()) <==> Alone(s)
  {
    hide Data, Exclusive, Counts, RegisteredThreads, OwingThreads;
    ThreadOk(s, t);
    hide Threads;
    CasEpoch(s, t);
    AloneIsSingle(s);
    ChangeOrNone(s);
  }

  lemma CasKeeps(s: State, t: Tid)
    requires Enabled(s, LeaveCas(t))
    ensures var s', th := Next(s, LeaveCas(t)), s.threads[t];
      && OnlyThread(s, s', t) && s'.place == s.place
      && s'.epoch == s.epoch + (if s.inPrevious > 0 && Advances(s.StateWord(), th) then 1 else 0)
      && s'.threads[t] ==
           th.(pc := if s.inPrevious == 0 then OrphanPrevious
                     else Left(th.pc.seen, SingleThreadMode(s.StateWord()), Advances(s.StateWord(), th)))
  {
  }

  lemma ThreadGone(s: State, s': State, t: Tid)
    requires OnlyThread(s, s', t) && IsRegistered(s.threads[t].pc) && !IsRegistered(s'.threads[t].pc)
    ensures RegisteredThreads(s') == RegisteredThreads(s) - {t}
    ensures s'.epoch == s.epoch ==> OwingThreads(s') == OwingThreads(s) - {t}
  {
    hide IsRegistered, Owes;
    if s'.epoch == s.epoch {
      forall u ensures u in OwingThreads(s') <==> u in OwingThreads(s) - {t} {
      }
    }
  }

  /** The rest of quiescent() in the thread that changed the epoch: its lists move on once more. */
  ghost predicate FinishedChange(s: State, s': State, t: Tid) {
    && t in s.threads && t in s'.threads && s.threads[t].pc.Changed?
    && MovedOn(s, s', t, s.threads[t].pc.single, s.threads[t].pc.seen + 1, {})
    && s'.threads[t].pc == Idle && s'.threads[t].quiescentEpoch == s'.threads[t].seenEpoch == s.threads[t].pc.seen + 1
    && s'.threads[t].quiescentStates == s.threads[t].quiescentStates
    && s'.epoch == s.epoch && s'.orphanPrevious == s.orphanPrevious && s'.orphanCurrent == s.orphanCurrent
  }

  lemma FinishesChange(s: State, t: Tid)
    requires Inv(s) && Enabled(s, ChangeFinish(t))
    ensures FinishedChange(s, Next(s, ChangeFinish(t)), t)
  {
    hide Inv;
    InvParts(s, t);
  }

  /** The change of epoch: everyone registered now owes. */
  ghost predicate Turned(s: State, s': State, t: Tid) {
    && t in s.threads && t in s'.threads && s.threads[t].pc.Changing?
    && s'.epoch == s.epoch + 1 && OwingThreads(s') == RegisteredThreads(s') == RegisteredThreads(s)
    && s'.threads[t] == s.threads[t].(pc := Changed(s.threads[t].pc.seen, s.threads[t].pc.single)) && s'.place == s.place
  }

  lemma EpochTurns(s: State, t: Tid)
    requires Inv(s) && Enabled(s, ChangeCas(t))
    ensures Turned(s, Next(s, ChangeCas(t)), t)
  {
    hide Inv, OwingThreads, RegisteredThreads;
    ControlOf(s);
    ChangeCasStep(s, t);
    ControlOf(Next(s, ChangeCas(t)));
    SameRegistered(s, Next(s, ChangeCas(t)), t);
    AllOwe(Next(s, ChangeCas(t)));
  }

  lemma SameRegistered(s: State, s': State, t: Tid)
    requires OnlyThread(s, s', t) && IsRegistered(s'.threads[t].pc) == IsRegistered(s.threads[t].pc)
    ensures RegisteredThreads(s') == RegisteredThreads(s)
  {
    hide IsRegistered;
  }

  lemma AllOwe(s: State)
    requires Counts(s) && s.inPrevious == s.count
    ensures OwingThreads(s) == RegisteredThreads(s)
  {
    assert OwingThreads(s) <= RegisteredThreads(s);
    SameCardinality(OwingThreads(s), RegisteredThreads(s));
  }

  lemma SameCardinality(a: set<Tid>, b: set<Tid>)
    requires a <= b && |a| == |b|
    ensures a == b
  {
    assert |b - a| == 0;
    assert b == a + (b - a);
  }

  /** orphan_pending_requests: everything the leaver still has is handed over, one list at a time. */
  ghost predicate HandedOver(s: State, s': State, t: Tid) {
    && t in s.threads && t in s'.threads
    && var th := s.threads[t];
       if th.pc == OrphanPrevious then
         && s'.threads[t] == th.(pc := OrphanCurrent, previous := {})
         && s'.orphanPrevious == s.orphanPrevious + th.previous && s'.orphanCurrent == s.orphanCurrent
         && (forall p :: p in th.previous ==> p in s'.place && s'.place[p] == OrphanedPrevious)
       else
         && s'.threads[t] == th.(pc := Out, current := {})
         && s'.orphanCurrent == s.orphanCurrent + th.current && s'.orphanPrevious == s.orphanPrevious
         && (forall p :: p in th.current ==> p in s'.place && s'.place[p] == OrphanedCurrent)
  }

  lemma HandsOver(s: State, step: Step)
    requires Inv(s) && Enabled(s, step) && (step.PushPrevious? || step.PushCurrent?)
    ensures HandedOver(s, Next(s, step), step.t)
  {
    hide Inv;
    InvParts(s, step.t);
  }
}

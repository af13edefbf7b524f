/** What becomes of every orphaned request while a thread handles the orphans, whatever the other threads do meanwhile. */
module QsbrHandling {
  import opened QsbrProtocol
  import opened QsbrInvariant
  import opened QsbrSteps
  import opened QsbrSafety
  import opened QsbrCalls
  import opened QsbrProgress

  ghost predicate IsOrphaned(w: Place) {
    w == OrphanedPrevious || w == OrphanedCurrent
  }

  /** A request only the handler `t` may move. */
  ghost predicate ForHandler(w: Place, t: Tid) {
    IsOrphaned(w) || w == HandPrevious(t) || w == HandCurrent(t) || w == Freed(Orphan)
  }

  /** The single-thread mode the handler goes by. */
  ghost predicate HandlerAlone(pc: Pc)
    requires IsHandling(pc)
  {
    if pc.Changing? then pc.orphanSingle else SingleThreadMode(pc.word)
  }

  /** Where a request first placed at `first` is when its handler has come as far as `pc`. */
  ghost function ByNow(pc: Pc, t: Tid, first: Place, alone: bool): Place {
    if IsHandling(pc) && pc.stage.TakePrevious? then first
    else if first == OrphanedPrevious then
      if IsHandling(pc) && (pc.stage.TakeCurrent? || pc.stage.FreeTaken?) then HandPrevious(t) else Freed(Orphan)
    else if IsHandling(pc) && pc.stage.TakeCurrent? then first
    else if IsHandling(pc) && (pc.stage.FreeTaken? || pc.stage.Publish? || pc.stage.Append?) then HandCurrent(t)
    else if alone then Freed(Orphan) else OrphanedPrevious
  }

  /** The handler is as far with `p` as its program counter tells. */
  ghost predicate OnItsWay(s: State, t: Tid, p: Ptr, first: Place, alone: bool) {
    && t in s.threads && p in s.place && s.place[p] == ByNow(s.threads[t].pc, t, first, alone)
    && (IsHandling(s.threads[t].pc) ==>
          HandlerAlone(s.threads[t].pc) == alone && (s.threads[t].pc.stage.Append? ==> !alone))
  }

  lemma OtherListsKeepOrphans(s: State, step: Step, t: Tid, p: Ptr)
    requires Enabled(s, step) && step.t != t && p in s.place && ForHandler(s.place[p], t)
    requires step.QLocal? || step.ChangeFinish? || step.LeaveFinish? || step.PushPrevious? || step.PushCurrent?
    ensures p in Next(s, step).place && Next(s, step).place[p] == s.place[p]
  {
    hide Same;
  }

  lemma OtherCallKeepsOrphans(s: State, step: Step, t: Tid, p: Ptr)
    requires Places(s) && Enabled(s, step) && step.t != t && p in s.place && ForHandler(s.place[p], t)
    requires step.RetFinish?
    ensures p in Next(s, step).place && Next(s, step).place[p] == s.place[p]
  {
    hide Places, Same;
    InCallPlace(s, step.t);
  }

  lemma OtherLoadsKeepOrphans(s: State, step: Step, p: Ptr)
    requires Enabled(s, step) && p in s.place
    requires !step.QLocal? && !step.ChangeFinish? && !step.LeaveFinish? && !step.PushPrevious? && !step.PushCurrent?
    requires !step.RetFinish? && !step.HandleOrphans?
    ensures p in Next(s, step).place && Next(s, step).place[p] == s.place[p]
  {
    hide Advances, RemovesFromPrevious, Same;
  }

  lemma OthersKeepOrphans(s: State, step: Step, t: Tid, p: Ptr)
    requires Inv(s) && Enabled(s, step) && step.t != t && t in s.threads && IsHandling(s.threads[t].pc)
    requires p in s.place && ForHandler(s.place[p], t)
    ensures p in Next(s, step).place && Next(s, step).place[p] == s.place[p]
    ensures t in Next(s, step).threads && Next(s, step).threads[t] == s.threads[t]
  {
    hide Counts, Threads, Requests, Places, Holds, Next, ForHandler, LeftAlone;
    OthersLeaveAlone(s, step, t);
    WaitedThread(s, Next(s, step), t);
    if step.QLocal? || step.ChangeFinish? || step.LeaveFinish? || step.PushPrevious? || step.PushCurrent? {
      OtherListsKeepOrphans(s, step, t, p);
    } else if step.RetFinish? {
      OtherCallKeepsOrphans(s, step, t, p);
    } else {
      OtherLoadsKeepOrphans(s, step, p);
    }
  }

  /** One atomic operation of the handler brings every orphan on. */
  lemma HandlerBringsOn(s: State, t: Tid, p: Ptr, first: Place, alone: bool)
    requires OnItsWay(s, t, p, first, alone) && IsOrphaned(first) && Enabled(s, HandleOrphans(t))
    ensures OnItsWay(Next(s, HandleOrphans(t)), t, p, first, alone)
  {
  }

  lemma HandlerStepsOn(s: State, step: Step, t: Tid, p: Ptr, first: Place, alone: bool)
    requires OnItsWay(s, t, p, first, alone) && IsOrphaned(first) && IsHandling(s.threads[t].pc)
    requires Enabled(s, step) && step.t == t
    ensures OnItsWay(Next(s, step), t, p, first, alone)
  {
    hide Advances, RemovesFromPrevious, Same, Handle;
    if step.HandleOrphans? { HandlerBringsOn(s, t, p, first, alone); }
  }

  lemma StepBringsOn(s: State, step: Step, t: Tid, p: Ptr, first: Place, alone: bool)
    requires Inv(s) && OnItsWay(s, t, p, first, alone) && IsOrphaned(first) && IsHandling(s.threads[t].pc)
    requires Enabled(s, step)
    ensures OnItsWay(Next(s, step), t, p, first, alone)
  {
    hide Inv, Enabled, Next;
    if step.t == t {
      HandlerStepsOn(s, step, t, p, first, alone);
    } else {
      OthersKeepOrphans(s, step, t, p);
    }
  }

  /** Thread `t` handles orphans in every state from `i` on, up to but not necessarily in `m`. */
  ghost predicate HandlesUntil(states: seq<State>, t: Tid, i: nat, m: nat) {
    && i <= m < |states|
    && forall k :: i <= k < m ==> t in states[k].threads && IsHandling(states[k].threads[t].pc)
  }

  lemma {:induction false} Handling(states: seq<State>, steps: seq<Step>, t: Tid, i: nat, m: nat, p: Ptr)
    requires IsRun(states, steps) && HandlesUntil(states, t, i, m)
    requires t in states[i].threads && IsHandling(states[i].threads[t].pc) && states[i].threads[t].pc.stage.TakePrevious?
    requires p in states[i].place && IsOrphaned(states[i].place[p])
    ensures OnItsWay(states[m], t, p, states[i].place[p], HandlerAlone(states[i].threads[t].pc))
    decreases m
  {
    hide Inv, OnItsWay, Next, Enabled, ByNow;
    if i == m {
      StartsOut(states[i], t, p);
    } else {
      Handling(states, steps, t, i, m - 1, p);
      StepOfRun(states, steps, m - 1);
      StepBringsOn(states[m - 1], steps[m - 1], t, p, states[i].place[p], HandlerAlone(states[i].threads[t].pc));
    }
  }

  lemma StartsOut(s: State, t: Tid, p: Ptr)
    requires t in s.threads && IsHandling(s.threads[t].pc) && s.threads[t].pc.stage.TakePrevious? && p in s.place
    ensures OnItsWay(s, t, p, s.place[p], HandlerAlone(s.threads[t].pc))
  {
  }

  /** Where the orphan `p` of state `s` has to be once it is handled: those orphaned in the previous interval are freed, the
      current ones become the previous ones, or are freed too if one thread at most was registered when that was decided. */
  ghost function HandledTo(s: State, p: Ptr): Place
    requires p in s.place
  {
    if s.place[p] == OrphanedPrevious || Alone(s) then Freed(Orphan) else OrphanedPrevious
  }

  /** quiescent(), as the last thread that owes: by the time it changes the epoch, every request that was orphaned when it
      paid its debt has been handled, and no later change of epoch can come in between. */
  lemma ChangeHandlesOrphans(states: seq<State>, steps: seq<Step>, t: Tid, i: nat, j: nat, p: Ptr)
    requires IsRun(states, steps) && i < j < |steps| && steps[i] == QFetchSub(t) && steps[j] == ChangeCas(t)
    requires forall k :: i < k < j ==> steps[k] != ChangeCas(t)
    requires OwingThreads(states[i]) == {t}
    requires p in states[i].place && IsOrphaned(states[i].place[p])
    ensures p in states[j + 1].place && states[j + 1].place[p] == HandledTo(states[i], p)
    ensures states[j + 1].epoch == states[i].epoch + 1
  {
    hide Inv, IsRun, OwingThreads, RegisteredThreads, Next, OnItsWay;
    StepOfRun(states, steps, i);
    LastPaysAndChanges(states[i], t);
    ChangesUntil(states, steps, t, i + 1, j);
    Handling(states, steps, t, i + 1, j, p);
    StepOfRun(states, steps, j);
    EpochTurns(states[j], t);
    assert HandlerAlone(states[i + 1].threads[t].pc) == Alone(states[i]);
    assert states[i + 1].place == states[i].place;
    WayEnds(states[j], t, p, states[i].place[p], Alone(states[i]));
    assert states[j + 1].place == states[j].place;
  }

  lemma WayEnds(s: State, t: Tid, p: Ptr, first: Place, alone: bool)
    requires OnItsWay(s, t, p, first, alone) && IsOrphaned(first)
    requires IsHandling(s.threads[t].pc) ==> s.threads[t].pc.stage.CasReady?
    ensures p in s.place && s.place[p] == if first == OrphanedPrevious || alone then Freed(Orphan) else OrphanedPrevious
  {
  }

  /** A thread that changes the epoch keeps at it until its compare-and-swap; the epoch stands still meanwhile. */
  lemma {:induction false} ChangesUntil(states: seq<State>, steps: seq<Step>, t: Tid, i: nat, j: nat)
    requires IsRun(states, steps) && i <= j < |states|
    requires t in states[i].threads && states[i].threads[t].pc.Changing?
    requires forall k :: i <= k < j ==> steps[k] != ChangeCas(t)
    ensures HandlesUntil(states, t, i, j)
    ensures t in states[j].threads && states[j].threads[t].pc.Changing? && states[j].epoch == states[i].epoch
    decreases j
  {
    hide Inv, Next, Enabled;
    if i < j {
      ChangesUntil(states, steps, t, i, j - 1);
      StepOfRun(states, steps, j - 1);
      StaysChanging(states[j - 1], steps[j - 1], t);
    }
  }

  lemma StaysChanging(s: State, step: Step, t: Tid)
    requires Inv(s) && Enabled(s, step) && Inv(Next(s, step)) && t in s.threads && s.threads[t].pc.Changing? && step != ChangeCas(t)
    ensures t in Next(s, step).threads && Next(s, step).threads[t].pc.Changing? && Next(s, step).epoch == s.epoch
  {
    hide Inv;
    if step.t == t {
      OwnChanging(s, step);
    } else {
      OthersLeaveAlone(s, step, t);
      WaitedThread(s, Next(s, step), t);
    }
    ChangerSeen(s, t);
    ChangerSeen(Next(s, step), t);
  }

  lemma OwnChanging(s: State, step: Step)
    requires Enabled(s, step) && s.threads[step.t].pc.Changing? && !step.ChangeCas?
    ensures var s', t := Next(s, step), step.t;
      t in s'.threads && s'.threads[t].pc.Changing? && s'.threads[t].pc.seen == s.threads[t].pc.seen
  {
    hide Handle;
  }

  lemma ChangerSeen(s: State, t: Tid)
    requires Inv(s) && t in s.threads && s.threads[t].pc.Changing?
    ensures s.epoch == s.threads[t].pc.seen
  {
    hide Data, Counts, Exclusive;
    ThreadOk(s, t);
  }

  /** unregister_thread, as the last thread that owes: from its load to the end of its handling. */
  lemma LeaverHandlesOrphans(states: seq<State>, steps: seq<Step>, t: Tid, i: nat, m: nat, p: Ptr)
    requires IsRun(states, steps) && i < |steps| && steps[i] == LeaveLoad(t) && OwingThreads(states[i]) == {t}
    requires states[i].threads[t].pc == Idle && HandlesUntil(states, t, i + 1, m)
    requires t in states[m].threads && !IsHandling(states[m].threads[t].pc)
    requires p in states[i].place && IsOrphaned(states[i].place[p])
    ensures p in states[m].place && states[m].place[p] == HandledTo(states[i], p)
  {
    hide Inv, IsRun, OwingThreads, RegisteredThreads, Next, OnItsWay;
    StepOfRun(states, steps, i);
    LastLeaverPrepares(states[i], t);
    InvParts(states[i], t);
    AloneIsSingle(states[i]);
    LoadKeepsPlaces(states[i], t);
    Handling(states, steps, t, i + 1, m, p);
    WayEnds(states[m], t, p, states[i].place[p], Alone(states[i]));
  }

  lemma LoadKeepsPlaces(s: State, t: Tid)
    requires Enabled(s, LeaveLoad(t))
    ensures Next(s, LeaveLoad(t)).place == s.place
  {
  }
}

/** What one call of the reclamation interface does, from its first atomic operation to its last, whatever the other
    threads do in between. */
module QsbrCalls {
  import opened QsbrProtocol
  import opened QsbrInvariant
  import opened QsbrSteps
  import opened QsbrSafety

  // ---- other threads keep out of a thread's lists -----------------------------------------------------

  ghost predicate Mine(s: State, t: Tid, p: Ptr) {
    p in s.place && OwnedBy(s.place[p], t)
  }

  /** Thread `t` and the places of its requests are as they were. */
  ghost predicate LeftAlone(s: State, s': State, t: Tid) {
    && t in s.threads && t in s'.threads && s'.threads[t] == s.threads[t]
    && (forall p :: Mine(s, t, p) ==> p in s'.place && s'.place[p] == s.place[p])
    && (forall p :: Mine(s', t, p) ==> Mine(s, t, p))
    && s.epoch <= s'.epoch
  }

  lemma LoadsLeaveAlone(s: State, step: Step, t: Tid)
    requires Enabled(s, step) && step.t != t && t in s.threads
    requires !step.RetFinish? && !step.QLocal? && !step.ChangeFinish? && !step.LeaveFinish?
    requires !step.HandleOrphans? && !step.PushPrevious? && !step.PushCurrent?
    ensures LeftAlone(s, Next(s, step), t)
  {
    hide Advances, RemovesFromPrevious;
  }

  lemma RetFinishLeavesAlone(s: State, step: Step, t: Tid)
    requires Places(s) && Enabled(s, step) && step.t != t && t in s.threads && step.RetFinish?
    ensures LeftAlone(s, Next(s, step), t)
  {
    hide Places, Same;
    InCallPlace(s, step.t);
  }

  lemma ListsLeaveAlone(s: State, step: Step, t: Tid)
    requires Enabled(s, step) && step.t != t && t in s.threads
    requires step.QLocal? || step.ChangeFinish? || step.LeaveFinish?
    ensures LeftAlone(s, Next(s, step), t)
  {
    hide Same;
  }

  lemma MovesLeaveAlone(s: State, step: Step, t: Tid)
    requires Enabled(s, step) && step.t != t && t in s.threads
    requires step.HandleOrphans? || step.PushPrevious? || step.PushCurrent?
    ensures LeftAlone(s, Next(s, step), t)
  {
  }

  lemma OthersLeaveAlone(s: State, step: Step, t: Tid)
    requires Inv(s) && Enabled(s, step) && step.t != t && t in s.threads
    ensures LeftAlone(s, Next(s, step), t)
  {
    hide Control, Requests, Places, Holds, Enabled, Next, LeftAlone;
    if step.RetFinish? {
      RetFinishLeavesAlone(s, step, t);
    } else if step.QLocal? || step.ChangeFinish? || step.LeaveFinish? {
      ListsLeaveAlone(s, step, t);
    } else if step.HandleOrphans? || step.PushPrevious? || step.PushCurrent? {
      MovesLeaveAlone(s, step, t);
    } else {
      LoadsLeaveAlone(s, step, t);
    }
  }

  /** Thread `t` takes step `i`, and then none before step `j`. */
  ghost predicate NextOwnStep(steps: seq<Step>, t: Tid, i: nat, j: nat) {
    && i < j < |steps| && steps[i].t == t && steps[j].t == t
    && forall m :: i < m < j ==> steps[m].t != t
  }

  lemma {:induction false} Waits(states: seq<State>, steps: seq<Step>, t: Tid, i: nat, j: nat)
    requires IsRun(states, steps) && i <= j < |states| && t in states[i].threads
    requires forall m :: i <= m < j ==> steps[m].t != t
    ensures LeftAlone(states[i], states[j], t)
    decreases j - i
  {
    hide Inv, Enabled, Next;
    if i < j {
      Waits(states, steps, t, i, j - 1);
      RunInv(states, steps, j - 1);
      OthersLeaveAlone(states[j - 1], steps[j - 1], t);
    }
  }

  // ---- what a thread does with its own lists ------------------------------------------------------------

  /** One thread registered, or none. */
  ghost predicate Alone(s: State) {
    |RegisteredThreads(s)| < 2
  }

  /** The previous requests are freed; the current ones wait one more epoch, or are freed too when the thread is alone. */
  ghost predicate MovedOn(s: State, s': State, t: Tid, alone: bool, e: nat, newCurrent: set<Ptr>)
    requires t in s.threads && t in s'.threads
  {
    var th, th' := s.threads[t], s'.threads[t];
    && th'.seenEpoch == e && th'.current == newCurrent
    && th'.previous == (if alone then {} else th.current)
    && (forall p :: p in th.previous ==> p in s'.place && s'.place[p] == Freed(Own(e, alone)))
    && (forall p :: p in th.current ==> p in s'.place && s'.place[p] == if alone then Freed(Own(e, alone)) else PrevOf(t))
  }

  /** The lists stay, but for what is new in the current one. */
  ghost predicate Stayed(s: State, s': State, t: Tid, e: nat, newCurrent: set<Ptr>)
    requires t in s.threads && t in s'.threads
  {
    var th, th' := s.threads[t], s'.threads[t];
    && th'.seenEpoch == th.seenEpoch == e && th'.previous == th.previous && th'.current == th.current + newCurrent
    && (forall p :: p in th.previous ==> p in s'.place && s'.place[p] == PrevOf(t))
    && (forall p :: p in th.current ==> p in s'.place && s'.place[p] == CurOf(t))
  }

  /** Nothing to do in an epoch already seen; else the lists move on. */
  ghost predicate Caught(s: State, s': State, t: Tid, alone: bool, e: nat, newCurrent: set<Ptr>)
    requires t in s.threads && t in s'.threads
  {
    if e == s.threads[t].seenEpoch then Stayed(s, s', t, e, newCurrent) else MovedOn(s, s', t, alone, e, newCurrent)
  }

  ghost predicate OwnListsPlaced(s: State, t: Tid) {
    && t in s.threads
    && (forall p :: p in s.threads[t].previous ==> p in s.place && s.place[p] == PrevOf(t))
    && (forall p :: p in s.threads[t].current ==> p in s.place && s.place[p] == CurOf(t))
  }

  lemma ListsPlaced(s: State, t: Tid)
    requires Places(s) && t in s.threads
    ensures OwnListsPlaced(s, t)
    ensures s.threads[t].pc.RetLoaded? ==> s.threads[t].pc.ptr in s.place && s.place[s.threads[t].pc.ptr] == InCall(t)
  {
    hide ThreadPlaces;
    OwnLists(s, t);
    hide Places;
    var th := s.threads[t];
    forall p | p in th.previous ensures p in s.place && s.place[p] == PrevOf(t) { assert p in PlacedAt(s.place, PrevOf(t)); }
    forall p | p in th.current ensures p in s.place && s.place[p] == CurOf(t) { assert p in PlacedAt(s.place, CurOf(t)); }
    if th.pc.RetLoaded? { InCallPlaced(s.place, t, th); }
  }

  lemma InCallPlaced(place: map<Ptr, Place>, t: Tid, th: Thread)
    requires ThreadPlaces(place, t, th) && th.pc.RetLoaded?
    ensures th.pc.ptr in place && place[th.pc.ptr] == InCall(t)
  {
    assert th.pc.ptr in PlacedAt(place, InCall(t));
  }

  lemma SameIsEqual(e: nat, f: nat)
    requires f <= e <= f + 1
    ensures Same(e, f) <==> e == f
    ensures Same(f, e) <==> e == f
  {
  }

  /** The second half of on_next_epoch_deallocate, from what the first half loaded. */
  lemma RetFinishEffect(s: State, t: Tid)
    requires OwnListsPlaced(s, t) && Enabled(s, RetFinish(t))
    requires var th := s.threads[t]; th.seenEpoch <= th.pc.seen <= th.seenEpoch + 1
    requires var th := s.threads[t]; th.pc.ptr in s.place && s.place[th.pc.ptr] == InCall(t)
    ensures var s', RetLoaded(p, e, single) := Next(s, RetFinish(t)), s.threads[t].pc;
      && s'.threads[t].pc == Idle && s'.place[p] == (if single then Freed(AtOnce) else CurOf(t))
      && Caught(s, s', t, single, e, if single then {} else {p})
  {
    hide Same;
    SameIsEqual(s.threads[t].pc.seen, s.threads[t].seenEpoch);
  }

  /** quiescent() up to its fetch_sub: the lists catch up, and the thread goes on to pay its debt if it has one. */
  lemma QLocalEffect(s: State, t: Tid)
    requires OwnListsPlaced(s, t) && Enabled(s, QLocal(t))
    requires var th := s.threads[t]; th.quiescentEpoch <= th.seenEpoch <= th.pc.seen <= th.quiescentEpoch + 1
    ensures var s', th, QLoaded(e, single) := Next(s, QLocal(t)), s.threads[t], s.threads[t].pc;
      && Caught(s, s', t, single, e, {}) && s'.threads[t].quiescentEpoch == e
      && if th.quiescentEpoch != e || th.quiescentStates == 0
         then s'.threads[t].pc == QReady(e, single) && s'.threads[t].quiescentStates == 0
         else s'.threads[t].pc == Idle && s'.threads[t].quiescentStates == th.quiescentStates + 1
  {
    hide Same;
    var th := s.threads[t];
    SameIsEqual(th.pc.seen, th.seenEpoch);
    SameIsEqual(th.pc.seen, th.quiescentEpoch);
  }

  /** After leaving: one step on in an epoch not yet seen, and one more if the leaver has advanced the epoch. */
  lemma LeaveFinishEffect(s: State, t: Tid)
    requires OwnListsPlaced(s, t) && Enabled(s, LeaveFinish(t))
    requires var th := s.threads[t]; th.seenEpoch <= th.pc.seen <= th.seenEpoch + 1
    ensures var s', th, Left(e, single, advanced) := Next(s, LeaveFinish(t)), s.threads[t], s.threads[t].pc;
      && s'.threads[t].pc == OrphanPrevious
      && (if !advanced then Caught(s, s', t, single, e, {})
          else if e == th.seenEpoch then MovedOn(s, s', t, single, e + 1, {})
          else
            && s'.threads[t].previous == s'.threads[t].current == {}
            && (forall p :: p in th.previous ==> p in s'.place && s'.place[p] == Freed(Own(e, single)))
            && (forall p :: p in th.current ==>
                  p in s'.place && s'.place[p] == Freed(Own(if single then e else e + 1, single))))
  {
    hide Same;
    SameIsEqual(s.threads[t].pc.seen, s.threads[t].seenEpoch);
  }

  // ---- the calls, whatever the others do meanwhile ---------------------------------------------------------

  lemma AloneIsSingle(s: State)
    requires Counts(s)
    ensures SingleThreadMode(s.StateWord()) <==> Alone(s)
  {
  }

  lemma StillPlaced(s: State, s': State, t: Tid)
    requires OwnListsPlaced(s, t) && LeftAlone(s, s', t)
    ensures OwnListsPlaced(s', t)
  {
    forall p | p in s.threads[t].previous ensures p in s'.place && s'.place[p] == PrevOf(t) { assert Mine(s, t, p); }
    forall p | p in s.threads[t].current ensures p in s'.place && s'.place[p] == CurOf(t) { assert Mine(s, t, p); }
  }

  /** on_next_epoch_deallocate: the request is freed before the call returns if fewer than two threads were registered
      when it began, and otherwise waits in the caller's current list; older requests move on with the epoch. */
  lemma Deallocated(states: seq<State>, steps: seq<Step>, t: Tid, p: Ptr, i: nat, j: nat)
    requires IsRun(states, steps) && NextOwnStep(steps, t, i, j)
    requires steps[i] == RetLoad(t, p) && steps[j] == RetFinish(t)
    ensures t in states[i].threads && t in states[j + 1].threads && p in states[j + 1].place
    ensures states[j + 1].place[p] == if |RegisteredThreads(states[i])| < 2 then Freed(AtOnce) else CurOf(t)
    ensures |RegisteredThreads(states[i])| >= 2 ==> p in states[j + 1].threads[t].current
    ensures Caught(states[i], states[j + 1], t, Alone(states[i]), states[i].epoch, if Alone(states[i]) then {} else {p})
  {
    hide Inv, IsRun, Caught, LeftAlone, RegisteredThreads;
    StepOfRun(states, steps, i);
    StepOfRun(states, steps, j);
    var s, s1, s2 := states[i], states[i + 1], states[j];
    InvParts(s, t);
    InvParts(s1, t);
    AloneIsSingle(s);
    Waits(states, steps, t, i + 1, j);
    WaitedCall(s1, s2, t);
    StillPlaced(s1, s2, t);
    RetFinishEffect(s2, t);
    FromThere(s, s2, states[j + 1], t, Alone(s), s.epoch, if Alone(s) then {} else {p});
    CurrentGets(s, states[j + 1], t, Alone(s), s.epoch, if Alone(s) then {} else {p});
  }

  lemma StepOfRun(states: seq<State>, steps: seq<Step>, i: nat)
    requires IsRun(states, steps) && i < |steps|
    ensures |states| == |steps| + 1
    ensures Enabled(states[i], steps[i]) && states[i + 1] == Next(states[i], steps[i])
    ensures Inv(states[i]) && Inv(states[i + 1])
  {
    hide Inv, Enabled, Next;
    RunInv(states, steps, i);
    RunInv(states, steps, i + 1);
  }

  lemma InvParts(s: State, t: Tid)
    requires Inv(s) && t in s.threads
    ensures Counts(s) && ThreadEpochs(s.threads[t], s.epoch) && OwnListsPlaced(s, t)
    ensures s.threads[t].pc.RetLoaded? ==> s.threads[t].pc.ptr in s.place && s.place[s.threads[t].pc.ptr] == InCall(t)
  {
    hide Counts, Requests, Holds, Places, Exclusive, OwnListsPlaced;
    ThreadOk(s, t);
    ListsPlaced(s, t);
  }

  lemma WaitedCall(s: State, s': State, t: Tid)
    requires LeftAlone(s, s', t) && s.threads[t].pc.RetLoaded?
    requires s.threads[t].pc.ptr in s.place && s.place[s.threads[t].pc.ptr] == InCall(t)
    ensures t in s'.threads && s'.threads[t] == s.threads[t]
    ensures s.threads[t].pc.ptr in s'.place && s'.place[s.threads[t].pc.ptr] == InCall(t)
  {
    assert Mine(s, t, s.threads[t].pc.ptr);
  }

  /** Only lists and epoch of the thread matter where the lists start from. */
  lemma FromThere(s: State, s2: State, s': State, t: Tid, alone: bool, e: nat, newCurrent: set<Ptr>)
    requires t in s.threads && t in s2.threads && t in s'.threads && Caught(s2, s', t, alone, e, newCurrent)
    requires s2.threads[t].previous == s.threads[t].previous && s2.threads[t].current == s.threads[t].current
    requires s2.threads[t].seenEpoch == s.threads[t].seenEpoch
    ensures Caught(s, s', t, alone, e, newCurrent)
  {
  }

  lemma CurrentGets(s: State, s': State, t: Tid, alone: bool, e: nat, newCurrent: set<Ptr>)
    requires t in s.threads && t in s'.threads && Caught(s, s', t, alone, e, newCurrent)
    ensures newCurrent <= s'.threads[t].current
  {
  }

  lemma WaitedThread(s: State, s': State, t: Tid)
    requires LeftAlone(s, s', t)
    ensures t in s'.threads && s'.threads[t] == s.threads[t]
  {
  }

  /** quiescent(): by its load the call decides whether the thread is alone, and what is freed and what waits; then the
      thread pays its debt for the epoch it loaded, or only counts. */
  lemma QuiescentLists(states: seq<State>, steps: seq<Step>, t: Tid, i: nat, j: nat)
    requires IsRun(states, steps) && NextOwnStep(steps, t, i, j) && steps[i] == QLoad(t) && steps[j] == QLocal(t)
    ensures t in states[i].threads && t in states[j + 1].threads
    ensures Caught(states[i], states[j + 1], t, Alone(states[i]), states[i].epoch, {})
    ensures var th, th' := states[i].threads[t], states[j + 1].threads[t];
      && th'.quiescentEpoch == states[i].epoch
      && if Owes(th, states[i].epoch) then th'.pc == QReady(states[i].epoch, Alone(states[i]))
         else th'.pc == Idle && th'.quiescentStates == th.quiescentStates + 1
  {
    hide Inv, IsRun, Caught, LeftAlone, RegisteredThreads;
    StepOfRun(states, steps, i);
    StepOfRun(states, steps, j);
    var s, s1, s2 := states[i], states[i + 1], states[j];
    InvParts(s, t);
    InvParts(s1, t);
    AloneIsSingle(s);
    Waits(states, steps, t, i + 1, j);
    WaitedThread(s1, s2, t);
    StillPlaced(s1, s2, t);
    QLocalEffect(s2, t);
    FromThere(s, s2, states[j + 1], t, Alone(s), s.epoch, {});
  }

  /** The leaver's own lists once its compare-and-swap has taken it out of the count: they catch up with the epoch it
      left, and with the next one if it advanced the epoch. */
  ghost predicate LeftWith(s: State, s': State, t: Tid, advanced: bool)
    requires t in s.threads && t in s'.threads
  {
    if !advanced then Caught(s, s', t, Alone(s), s.epoch, {})
    else if s.epoch == s.threads[t].seenEpoch then MovedOn(s, s', t, Alone(s), s.epoch + 1, {})
    else
      && s'.threads[t].previous == s'.threads[t].current == {}
      && (forall p :: p in s.threads[t].previous ==> p in s'.place && s'.place[p] == Freed(Own(s.epoch, Alone(s))))
      && (forall p :: p in s.threads[t].current ==>
            p in s'.place && s'.place[p] == Freed(Own(if Alone(s) then s.epoch else s.epoch + 1, Alone(s))))
  }

  /** unregister_thread, outside an epoch change: it advances the epoch exactly as the last thread that owes. */
  lemma Departed(states: seq<State>, steps: seq<Step>, t: Tid, i: nat, j: nat)
    requires IsRun(states, steps) && NextOwnStep(steps, t, i, j) && steps[i] == LeaveCas(t) && steps[j] == LeaveFinish(t)
    ensures t in states[i].threads && t in states[j + 1].threads
    ensures states[i + 1].epoch == states[i].epoch + if OwingThreads(states[i]) == {t} then 1 else 0
    ensures LeftWith(states[i], states[j + 1], t, OwingThreads(states[i]) == {t})
  {
    hide Inv, IsRun, Caught, MovedOn, LeftAlone, RegisteredThreads, OwingThreads, Advances;
    StepOfRun(states, steps, i);
    StepOfRun(states, steps, j);
    var s, s1, s2 := states[i], states[i + 1], states[j];
    InvParts(s, t);
    InvParts(s1, t);
    AloneIsSingle(s);
    CasEpoch(s, t);
    Waits(states, steps, t, i + 1, j);
    WaitedThread(s1, s2, t);
    StillPlaced(s1, s2, t);
    LeaveFinishEffect(s2, t);
    LeftFrom(s, s2, states[j + 1], t, OwingThreads(s) == {t});
  }

  lemma CasEpoch(s: State, t: Tid)
    requires Counts(s) && Enabled(s, LeaveCas(t)) && ThreadEpochs(s.threads[t], s.epoch)
    ensures s.threads[t].pc.seen == s.epoch
    ensures Advances(s.StateWord(), s.threads[t]) <==> OwingThreads(s) == {t}
  {
    var th := s.threads[t];
    SameIsEqual(s.epoch, th.pc.seen);
    SameIsEqual(s.epoch, th.quiescentEpoch);
    if t in OwingThreads(s) && s.inPrevious == 1 { OnlyOwing(s, t); }
    if OwingThreads(s) == {t} { assert |{t}| == 1; }
  }

  lemma LeftFrom(s: State, s2: State, s': State, t: Tid, advanced: bool)
    requires t in s.threads && t in s2.threads && t in s'.threads
    requires s2.threads[t].previous == s.threads[t].previous && s2.threads[t].current == s.threads[t].current
    requires s2.threads[t].seenEpoch == s.threads[t].seenEpoch
    requires var th := s.threads[t];
      if !advanced then Caught(s2, s', t, Alone(s), s.epoch, {})
      else if s.epoch == th.seenEpoch then MovedOn(s2, s', t, Alone(s), s.epoch + 1, {})
      else
        && s'.threads[t].previous == s'.threads[t].current == {}
        && (forall p :: p in th.previous ==> p in s'.place && s'.place[p] == Freed(Own(s.epoch, Alone(s))))
        && (forall p :: p in th.current ==>
              p in s'.place && s'.place[p] == Freed(Own(if Alone(s) then s.epoch else s.epoch + 1, Alone(s))))
    ensures LeftWith(s, s', t, advanced)
  {
    hide RegisteredThreads;
  }
}

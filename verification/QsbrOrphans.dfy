/** Orphaned requests: safe in every run in which no registration lands inside the window of an
    advancing unregister_thread, that is between the load that decides to advance and the
    compare-and-swap that does. */
module QsbrOrphans {
  import opened QsbrProtocol
  import opened QsbrInvariant
  import opened QsbrSteps
  import opened QsbrSafety

  /** unregister_thread has touched, or is about to touch, the orphan lists before its CAS. */
  ghost predicate InWindow(pc: Pc) {
    pc.Leaving? || (pc.LeaveReady? && pc.prepared)
  }

  ghost predicate Calm(s: State, step: Step) {
    step.RegCas? ==> forall t :: t in s.threads ==> !InWindow(s.threads[t].pc)
  }

  ghost predicate IsCalmRun(states: seq<State>, steps: seq<Step>) {
    && IsRun(states, steps)
    && forall i :: 0 <= i < |steps| ==> Calm(states[i], steps[i])
  }

  /** The current-interval orphans have already been moved on for the coming epoch. */
  ghost predicate Past(pc: Pc) {
    (pc.Changing? && (pc.stage.Rotated? || pc.stage.CasReady?)) || (pc.LeaveReady? && pc.prepared)
  }

  ghost predicate Windows(s: State) {
    forall t :: t in s.threads && InWindow(s.threads[t].pc) ==> s.inPrevious == 1 && t in OwingThreads(s)
  }

  /** Previous-interval orphans are a full epoch old, unless they have just been rotated in. */
  ghost predicate Aged(s: State) {
    (forall p :: p in s.orphanPrevious ==> Older(s, p)) || SomePast(s)
  }

  ghost predicate SomePast(s: State) {
    exists t :: t in s.threads && Past(s.threads[t].pc)
  }

  ghost predicate Older(s: State, p: Ptr) {
    p in s.requested && s.requested[p] < s.epoch
  }

  ghost predicate HandsAged(s: State) {
    forall t, p :: t in s.threads && p in TakenPrevious(s.threads[t].pc) ==> Older(s, p)
  }

  /** While orphans are handled in single-thread mode, newcomers only spin. */
  ghost predicate Solo(s: State) {
    forall t, u :: t in s.threads && u in s.threads && t != u && HandlesSingly(s.threads[t].pc) ==>
      !Joined(s.threads[u].pc, s.epoch)
  }

  ghost predicate HandlesSingly(pc: Pc) {
    IsHandling(pc) && HandlerSingle(pc)
  }

  ghost predicate OrphansUnheld(s: State) {
    forall u, p :: u in s.threads && p in s.place && s.place[p] == Freed(Orphan) ==> p !in s.threads[u].hold
  }

  ghost predicate OrphanInv(s: State) {
    Windows(s) && Aged(s) && HandsAged(s) && Solo(s) && OrphansUnheld(s)
  }

  // ---- who else can be there -------------------------------------------------------------

  lemma OneWindow(s: State, t: Tid, u: Tid)
    requires Counts(s) && Windows(s)
    requires t in s.threads && InWindow(s.threads[t].pc) && u in OwingThreads(s)
    ensures u == t
  {
    OnlyOwing(s, t);
  }

  lemma WindowCounter(s: State, t: Tid)
    requires Windows(s) && t in s.threads && InWindow(s.threads[t].pc)
    ensures s.inPrevious == 1
  {
  }

  lemma ChangingCounter(s: State, t: Tid)
    requires Exclusive(s) && t in s.threads && s.threads[t].pc.Changing?
    ensures s.inPrevious == 0
  {
  }

  /** A handler about to take the lists is not preceded by one that rotated them in this epoch. */
  lemma NobodyPast(s: State, t: Tid)
    requires Counts(s) && Threads(s) && Exclusive(s) && Windows(s)
    requires t in s.threads && IsHandling(s.threads[t].pc) && !Past(s.threads[t].pc)
    ensures !SomePast(s)
  {
    hide Counts, Threads, Windows;
    forall u | u in s.threads && Past(s.threads[u].pc) ensures false {
      if s.threads[u].pc.LeaveReady? {
        WindowCounter(s, u);
        if s.threads[t].pc.Leaving? {
          LeavingOwes(s, t);
          OneWindow(s, u, t);
        } else {
          ChangingCounter(s, t);
        }
      }
    }
  }

  /** Nobody but the handler may owe, so nothing older than the current epoch is held. */
  lemma OldUnheld(s: State, t: Tid, u: Tid, p: Ptr)
    requires Counts(s) && Threads(s) && Exclusive(s) && Requests(s) && Holds(s) && Windows(s)
    requires t in s.threads && IsHandling(s.threads[t].pc)
    requires u in s.threads && Older(s, p)
    ensures p !in s.threads[u].hold
  {
    hide Counts, Threads, Exclusive, Windows;
    assert HoldOk(s, u, p);
    ThreadOk(s, u);
    ThreadOk(s, t);
    if p in s.threads[u].hold {
      assert u in OwingThreads(s);
      if s.threads[t].pc.Changing? {
        ChangingCounter(s, t);
        NoDebtAtZero(s, u);
      } else {
        OneWindow(s, t, u);
      }
    }
  }

  /** In single-thread mode nothing at all is held while orphans are handled. */
  lemma SoloUnheld(s: State, t: Tid, u: Tid)
    requires Threads(s) && Solo(s)
    requires t in s.threads && IsHandling(s.threads[t].pc) && HandlerSingle(s.threads[t].pc)
    requires u in s.threads
    ensures s.threads[u].hold == {}
  {
    hide Threads;
    ThreadOk(s, u);
    ThreadOk(s, t);
  }

  // ---- frames ----------------------------------------------------------------------------

  /** Registered, and not spinning until epoch `e` is over. */
  ghost predicate Joined(pc: Pc, e: nat) {
    IsRegistered(pc) && pc != RegSpin(e)
  }

  /** Thread `t` keeps its part in any epoch change, and the lists only lose or keep pointers. */
  ghost predicate KeepsRole(s: State, s': State, t: Tid) {
    && OnlyThread(s, s', t) && s'.epoch == s.epoch
    && InWindow(s'.threads[t].pc) == InWindow(s.threads[t].pc)
    && Past(s'.threads[t].pc) == Past(s.threads[t].pc)
    && TakenPrevious(s'.threads[t].pc) == TakenPrevious(s.threads[t].pc)
    && (IsHandling(s'.threads[t].pc) ==> IsHandling(s.threads[t].pc) && HandlerSingle(s'.threads[t].pc) == HandlerSingle(s.threads[t].pc))
    && (Joined(s'.threads[t].pc, s.epoch) ==> Joined(s.threads[t].pc, s.epoch))
    && s'.orphanPrevious == s.orphanPrevious
    && (forall p :: p in s.requested ==> p in s'.requested && s'.requested[p] == s.requested[p])
  }

  lemma RoleFrame(s: State, s': State, t: Tid)
    requires OrphanInv(s) && KeepsRole(s, s', t)
    requires Windows(s') && OrphansUnheld(s')
    ensures OrphanInv(s')
  {
    if SomePast(s) {
      var w :| w in s.threads && Past(s.threads[w].pc);
      assert s'.threads[w].pc == s.threads[w].pc || w == t;
      assert w in s'.threads && Past(s'.threads[w].pc);
    } else {
      forall p | p in s'.orphanPrevious ensures Older(s', p) {
        assert Older(s, p);
      }
    }
    forall u, p | u in s'.threads && p in TakenPrevious(s'.threads[u].pc) ensures Older(s', p) {
      assert p in TakenPrevious(s.threads[u].pc);
      assert Older(s, p);
    }
  }

  /** Freed orphans cannot come back into anyone's hands. */
  lemma UnheldFrame(s: State, s': State, t: Tid)
    requires OrphansUnheld(s) && OnlyThread(s, s', t)
    requires forall p :: p in s'.place && s'.place[p] == Freed(Orphan) ==> p in s.place && s.place[p] == Freed(Orphan)
    requires forall p :: p in s'.threads[t].hold && p in s.place ==> p in s.threads[t].hold
    ensures OrphansUnheld(s')
  {
  }

  lemma WindowsFrame(s: State, s': State, t: Tid)
    requires Windows(s) && OnlyThread(s, s', t)
    requires s'.epoch == s.epoch && s'.inPrevious == s.inPrevious
    requires InWindow(s'.threads[t].pc) ==> InWindow(s.threads[t].pc)
    requires InWindow(s'.threads[t].pc) ==> Owes(s'.threads[t], s.epoch)
    ensures Windows(s')
  {
    forall u | u in s'.threads && InWindow(s'.threads[u].pc) ensures s'.inPrevious == 1 && u in OwingThreads(s') {
      assert u in OwingThreads(s);
    }
  }

  // ---- steps -----------------------------------------------------------------------------

  /** Steps that leave the word, the epoch and the orphan lists alone. */
  ghost predicate Local(step: Step) {
    step.Acquire? || step.Release? || step.Unlink? || step.RegLoad? || step.RegSpinLoad?
    || step.RetLoad? || step.RetFinish? || step.QLoad? || step.QLocal? || step.ChangeFinish? || step.LeaveFinish?
    || step.PushCurrent?
  }

  /** What the frame lemmas need of a step of thread `t`. */
  ghost predicate LocalEffect(s: State, s': State, t: Tid) {
    KeepsRole(s, s', t) && s'.inPrevious == s.inPrevious && !InWindow(s'.threads[t].pc)
  }

  lemma LocalRoleLoads(s: State, step: Step)
    requires Enabled(s, step) && ThreadEpochs(s.threads[step.t], s.epoch)
    requires step.Acquire? || step.Release? || step.Unlink? || step.RegLoad? || step.RegSpinLoad? || step.QLoad?
    ensures LocalEffect(s, Next(s, step), step.t)
  {
  }

  lemma LocalRoleRetire(s: State, step: Step)
    requires Enabled(s, step)
    requires step.RetLoad? || step.RetFinish?
    requires step.RetLoad? ==> step.p !in s.requested
    ensures LocalEffect(s, Next(s, step), step.t)
  {
  }

  lemma LocalRoleStay(s: State, step: Step)
    requires Enabled(s, step)
    requires step.QLocal? || step.ChangeFinish?
    ensures LocalEffect(s, Next(s, step), step.t)
  {
    hide ExecutePreviousPlace, Same;
  }

  lemma LocalRoleLeave(s: State, step: Step)
    requires Enabled(s, step)
    requires step.LeaveFinish? || step.PushCurrent?
    ensures LocalEffect(s, Next(s, step), step.t)
  {
    hide ExecutePreviousPlace, Same, Move;
  }

  /** What UnheldFrame needs of a step. */
  ghost predicate FreesNoOrphan(s: State, s': State, t: Tid) {
    && OnlyThread(s, s', t)
    && (forall p :: p in s'.place && s'.place[p] == Freed(Orphan) ==> p in s.place && s.place[p] == Freed(Orphan))
    && (forall p :: p in s'.threads[t].hold && p in s.place ==> p in s.threads[t].hold)
  }

  lemma LocalUnheldLoads(s: State, step: Step)
    requires Enabled(s, step) && s.place.Keys <= s.unlinked.Keys
    requires step.Acquire? || step.Release? || step.Unlink? || step.RegLoad? || step.RegSpinLoad? || step.QLoad?
    ensures FreesNoOrphan(s, Next(s, step), step.t)
  {
  }

  lemma LocalUnheldRetire(s: State, step: Step)
    requires Enabled(s, step)
    requires step.RetLoad? || step.RetFinish?
    ensures FreesNoOrphan(s, Next(s, step), step.t)
  {
  }

  lemma LocalUnheldFinish(s: State, step: Step)
    requires Enabled(s, step)
    requires step.QLocal? || step.ChangeFinish? || step.LeaveFinish? || step.PushCurrent?
    ensures FreesNoOrphan(s, Next(s, step), step.t)
  {
    hide Same;
    if step.QLocal? || step.ChangeFinish? {
    } else {
    }
  }

  lemma LocalUnheld(s: State, step: Step)
    requires Enabled(s, step) && Local(step) && OrphansUnheld(s)
    requires s.place.Keys <= s.unlinked.Keys
    ensures OrphansUnheld(Next(s, step))
  {
    hide Enabled, Next, OrphansUnheld;
    if step.RetLoad? || step.RetFinish? {
      LocalUnheldRetire(s, step);
    } else if step.QLocal? || step.ChangeFinish? || step.LeaveFinish? || step.PushCurrent? {
      LocalUnheldFinish(s, step);
    } else {
      LocalUnheldLoads(s, step);
    }
    UnheldFrame(s, Next(s, step), step.t);
  }

  lemma PlacedUnlinked(s: State)
    requires Requests(s)
    ensures s.place.Keys == s.requested.Keys <= s.unlinked.Keys
  {
  }

  lemma LocalStep(s: State, step: Step)
    requires Inv(s) && OrphanInv(s) && Enabled(s, step) && Local(step)
    ensures OrphanInv(Next(s, step))
  {
    hide Counts, Threads, Exclusive, Requests, Places, Holds, Windows, Aged, HandsAged, Solo, OrphansUnheld, Next;
    PlacedUnlinked(s);
    KnownThread(s, step);
    hide Enabled;
    RetLoadFresh(s, step);
    ThreadOk(s, step.t);
    if step.RetLoad? || step.RetFinish? {
      LocalRoleRetire(s, step);
    } else if step.QLocal? || step.ChangeFinish? {
      LocalRoleStay(s, step);
    } else if step.LeaveFinish? || step.PushCurrent? {
      LocalRoleLeave(s, step);
    } else {
      LocalRoleLoads(s, step);
    }
    LocalUnheld(s, step);
    hide Inv, Control, Data;
    WindowsFrame(s, Next(s, step), step.t);
    RoleFrame(s, Next(s, step), step.t);
  }

  lemma KnownThread(s: State, step: Step)
    requires Enabled(s, step)
    ensures step.t in s.threads
  {
  }

  lemma RetLoadFresh(s: State, step: Step)
    requires Enabled(s, step) && s.place.Keys == s.requested.Keys
    ensures step.RetLoad? ==> step.p !in s.requested
  {
  }

  lemma PushPreviousOrphans(s: State, t: Tid)
    requires Inv(s) && OrphanInv(s) && Enabled(s, PushPrevious(t))
    ensures OrphanInv(Next(s, PushPrevious(t)))
  {
    hide Counts, Threads, Exclusive, Requests, Places, Holds, Windows, HandsAged, Solo, OrphansUnheld;
    var s' := Next(s, PushPrevious(t));
    var s1 := s'.(orphanPrevious := s.orphanPrevious);
    ThreadOk(s, t);
    OwnLists(s, t);
    PreviousOlder(s, t);
    PushUnheld(s, t);
    WindowsFrame(s, s1, t);
    RoleFrame(s, s1, t);
    GrownOrphans(s1, s', s.threads[t].previous);
  }

  lemma PreviousOlder(s: State, t: Tid)
    requires Requests(s) && Threads(s) && Places(s) && t in s.threads
    ensures forall p :: p in s.threads[t].previous ==> Older(s, p)
  {
    hide Threads;
    ThreadOk(s, t);
    OwnLists(s, t);
    forall p | p in s.threads[t].previous ensures Older(s, p) {
      assert p in PlacedAt(s.place, PrevOf(t));
      assert p in s.requested;
      assert RequestOk(s.place[p], s.requested[p], s.threads);
    }
  }

  lemma PushUnheld(s: State, t: Tid)
    requires OrphansUnheld(s) && Enabled(s, PushPrevious(t))
    ensures OrphansUnheld(Next(s, PushPrevious(t)).(orphanPrevious := s.orphanPrevious))
  {
    UnheldFrame(s, Next(s, PushPrevious(t)).(orphanPrevious := s.orphanPrevious), t);
  }

  lemma GrownOrphans(s: State, s': State, more: set<Ptr>)
    requires OrphanInv(s) && s' == s.(orphanPrevious := s.orphanPrevious + more)
    requires forall p :: p in more ==> Older(s, p)
    ensures OrphanInv(s')
  {
    assert OwingThreads(s') == OwingThreads(s);
    if SomePast(s) {
      assert SomePast(s');
    } else {
      forall p | p in s'.orphanPrevious ensures Older(s', p) {
        assert Older(s, p);
      }
    }
    forall u, p | u in s'.threads && p in TakenPrevious(s'.threads[u].pc) ensures Older(s', p) {
      assert p in TakenPrevious(s.threads[u].pc);
      assert Older(s, p);
    }
  }

  lemma UnchangedRequests(s: State, s': State, t: Tid)
    requires OrphansUnheld(s) && OnlyThread(s, s', t)
    requires s'.place == s.place && s'.threads[t].hold == s.threads[t].hold
    ensures OrphansUnheld(s')
  {
  }

  /** A registration outside every window: it spins, or nobody is handling orphans. */
  lemma RegCasOrphans(s: State, t: Tid)
    requires Inv(s) && OrphanInv(s) && Enabled(s, RegCas(t)) && Calm(s, RegCas(t))
    ensures OrphanInv(Next(s, RegCas(t)))
  {
    hide Counts, Threads, Exclusive, Requests, Places, Holds, Aged, HandsAged, Solo, OrphansUnheld;
    var s' := Next(s, RegCas(t));
    UnchangedRequests(s, s', t);
    if s'.threads[t].pc.RegSpin? {
      RoleFrame(s, s', t);
    } else {
      NobodyHandles(s);
      hide Windows;
      QuietRegistration(s, s', t);
    }
  }

  lemma NobodyHandles(s: State)
    requires Exclusive(s) && (s.inPrevious > 0 || s.count == 0)
    ensures forall u :: u in s.threads ==> !s.threads[u].pc.Changing?
  {
  }

  lemma QuietRegistration(s: State, s': State, t: Tid)
    requires OrphanInv(s) && OnlyThread(s, s', t)
    requires forall u :: u in s.threads ==> !InWindow(s.threads[u].pc) && !s.threads[u].pc.Changing?
    requires s'.threads[t].pc == Idle && s'.epoch == s.epoch && s'.orphanPrevious == s.orphanPrevious
    requires s'.requested == s.requested && OrphansUnheld(s')
    ensures OrphanInv(s')
  {
    assert !SomePast(s);
    forall p | p in s'.orphanPrevious ensures Older(s', p) {
      assert Older(s, p);
    }
    forall u | u in s'.threads ensures !IsHandling(s'.threads[u].pc) {
    }
  }

  /** The last fetch_sub of an epoch opens the handling; no one else may be at it. */
  lemma QFetchSubOrphans(s: State, t: Tid)
    requires Inv(s) && OrphanInv(s) && Enabled(s, QFetchSub(t))
    ensures OrphanInv(Next(s, QFetchSub(t)))
  {
    hide Counts, Threads, Exclusive, Requests, Places, Holds, Aged, HandsAged, Solo, OrphansUnheld;
    var s' := Next(s, QFetchSub(t));
    OwnDebt(s, t);
    forall u | u in s.threads ensures !InWindow(s.threads[u].pc) {
      if InWindow(s.threads[u].pc) {
        OneWindow(s, u, t);
      }
    }
    hide Windows;
    UnchangedRequests(s, s', t);
    if s.inPrevious > 1 {
      RoleFrame(s, s', t);
    } else {
      OnlyJoined(s, t);
      OpenedHandling(s, s', t);
    }
  }

  lemma OnlyJoined(s: State, t: Tid)
    requires Counts(s) && t in s.threads && IsRegistered(s.threads[t].pc)
    ensures s.count < 2 ==> forall u :: u in s.threads && u != t ==> !IsRegistered(s.threads[u].pc)
  {
    if s.count < 2 {
      RegisteredMember(s, t);
      OnlyRegistered(s, t);
      forall u | u in s.threads && u != t ensures !IsRegistered(s.threads[u].pc) {
        assert u !in RegisteredThreads(s);
      }
    }
  }

  /** Thread `t` starts handling orphans. */
  lemma OpenedHandling(s: State, s': State, t: Tid)
    requires Counts(s) && Threads(s) && Exclusive(s) && s.inPrevious == 1 && t in OwingThreads(s)
    requires OrphanInv(s) && OnlyThread(s, s', t) && !InWindow(s.threads[t].pc) && !IsHandling(s.threads[t].pc)
    requires IsHandling(s'.threads[t].pc) && s'.threads[t].pc.stage.TakePrevious?
    requires s'.epoch == s.epoch && s'.orphanPrevious == s.orphanPrevious && s'.requested == s.requested
    requires s.count < 2 ==> forall u :: u in s.threads && u != t ==> !IsRegistered(s.threads[u].pc)
    requires HandlerSingle(s'.threads[t].pc) ==> s.count < 2
    requires Windows(s') && OrphansUnheld(s')
    ensures OrphanInv(s')
  {
    hide Counts, Threads;
    LastOwing(s, t);
    forall u | u in s.threads && Past(s.threads[u].pc) ensures false {
      if s.threads[u].pc.LeaveReady? {
        OneWindow(s, u, t);
      }
    }
    assert !SomePast(s);
    forall p | p in s'.orphanPrevious ensures Older(s', p) {
      assert Older(s, p);
    }
    assert forall u :: u in s'.threads ==> TakenPrevious(s'.threads[u].pc) == {};
  }

  lemma LeaveLoadOrphans(s: State, t: Tid)
    requires Inv(s) && OrphanInv(s) && Enabled(s, LeaveLoad(t))
    ensures OrphanInv(Next(s, LeaveLoad(t)))
  {
    hide Counts, Threads, Exclusive, Requests, Places, Holds, Aged, HandsAged, Solo, OrphansUnheld, Windows;
    var s' := Next(s, LeaveLoad(t));
    ThreadOk(s, t);
    AdvancingOwes(s, t);
    UnchangedRequests(s, s', t);
    if s'.threads[t].pc.Leaving? {
      OpenedWindow(s, s', t);
      OnlyJoined(s, t);
      OpenedHandling(s, s', t);
    } else {
      OwingMember(s, t);
      if InWindow(s.threads[t].pc) {
        WindowOwes(s, t);
      }
      WindowsFrame(s, s', t);
      RoleFrame(s, s', t);
    }
  }

  lemma OwingMember(s: State, t: Tid)
    requires t in OwingThreads(s)  || t in s.threads
    ensures t in OwingThreads(s) ==> Owes(s.threads[t], s.epoch)
  {
  }

  lemma WindowOwes(s: State, t: Tid)
    requires Windows(s) && t in s.threads && InWindow(s.threads[t].pc)
    ensures t in OwingThreads(s)
  {
  }

  lemma OpenedWindow(s: State, s': State, t: Tid)
    requires Windows(s) && OnlyThread(s, s', t) && s.inPrevious == 1 && t in OwingThreads(s)
    requires s'.epoch == s.epoch && s'.inPrevious == s.inPrevious
    requires IsRegistered(s'.threads[t].pc) && Owes(s'.threads[t], s.epoch)
    ensures Windows(s')
  {
    forall u | u in s'.threads && InWindow(s'.threads[u].pc) ensures u in OwingThreads(s') {
      assert u in OwingThreads(s);
    }
  }

  lemma ChangeLoadOrphans(s: State, t: Tid)
    requires Inv(s) && OrphanInv(s) && Enabled(s, ChangeLoad(t))
    ensures OrphanInv(Next(s, ChangeLoad(t)))
  {
    hide Inv, Aged, HandsAged, Solo, OrphansUnheld, Windows;
    var s' := Next(s, ChangeLoad(t));
    UnchangedRequests(s, s', t);
    WindowsFrame(s, s', t);
    RoleFrame(s, s', t);
  }

  /** The epoch moves on: everything rotated in is old again. */
  lemma TickOrphans(s: State, s': State, t: Tid)
    requires Requests(s) && OrphansUnheld(s) && Tick(s, s', t)
    requires NobodyElseHandles(s, t) && !IsHandling(s'.threads[t].pc)
    requires s.orphanPrevious <= s.requested.Keys
    requires forall u :: u in s'.threads ==> !InWindow(s'.threads[u].pc)
    ensures OrphanInv(s')
  {
    forall p | p in s'.orphanPrevious ensures Older(s', p) {
    }
    forall u | u in s'.threads ensures !IsHandling(s'.threads[u].pc) {
    }
  }

  lemma OrphansRequested(s: State)
    requires Requests(s) && Places(s)
    ensures s.orphanPrevious <= s.requested.Keys
  {
    forall p | p in s.orphanPrevious ensures p in s.requested {
      assert p in PlacedAt(s.place, OrphanedPrevious);
    }
  }

  lemma ChangeCasOrphans(s: State, t: Tid)
    requires Inv(s) && OrphanInv(s) && Enabled(s, ChangeCas(t))
    ensures OrphanInv(Next(s, ChangeCas(t)))
  {
    hide Counts, Threads, Exclusive, Requests, Places, Holds, Aged, HandsAged, Solo, OrphansUnheld, Windows;
    var s' := Next(s, ChangeCas(t));
    ThreadOk(s, t);
    ChangerAlone(s, t);
    OrphansRequested(s);
    forall u | u in s'.threads ensures !InWindow(s'.threads[u].pc) {
      if u != t && InWindow(s.threads[u].pc) {
        WindowCounter(s, u);
      }
    }
    TickOrphans(s, s', t);
  }

  lemma LeaveCasTick(s: State, t: Tid)
    requires Inv(s) && OrphanInv(s) && Enabled(s, LeaveCas(t)) && Advances(s.StateWord(), s.threads[t])
    ensures OrphanInv(Next(s, LeaveCas(t)))
  {
    hide Counts, Threads, Exclusive, Requests, Places, Holds, Aged, HandsAged, Solo, OrphansUnheld, Windows;
    var s' := Next(s, LeaveCas(t));
    ThreadOk(s, t);
    AdvancingOwes(s, t);
    LastOwing(s, t);
    OrphansRequested(s);
    forall u | u in s'.threads ensures !InWindow(s'.threads[u].pc) {
      if u != t && InWindow(s.threads[u].pc) {
        OneWindow(s, u, t);
      }
    }
    TickOrphans(s, s', t);
  }

  /** A non-advancing departure: nobody has prepared an epoch change for it. */
  lemma LeaveCasQuiet(s: State, t: Tid)
    requires Inv(s) && OrphanInv(s) && Enabled(s, LeaveCas(t)) && !Advances(s.StateWord(), s.threads[t])
    ensures OrphanInv(Next(s, LeaveCas(t)))
  {
    hide Counts, Threads, Exclusive, Requests, Places, Holds, Aged, HandsAged, Solo, OrphansUnheld, Windows;
    var s', th := Next(s, LeaveCas(t)), s.threads[t];
    ThreadOk(s, t);
    AdvancingOwes(s, t);
    if th.pc.prepared {
      WindowOwes(s, t);
      WindowCounter(s, t);
    }
    if RemovesFromPrevious(s.StateWord(), th) && s.inPrevious > 0 {
      forall u | u in s.threads ensures !InWindow(s.threads[u].pc) {
        if InWindow(s.threads[u].pc) {
          OneWindow(s, u, t);
        }
      }
      NoWindows(s, s', t);
    } else {
      WindowsFrame(s, s', t);
    }
    UnchangedRequests(s, s', t);
    RoleFrame(s, s', t);
  }

  lemma NoWindows(s: State, s': State, t: Tid)
    requires OnlyThread(s, s', t) && !InWindow(s'.threads[t].pc)
    requires forall u :: u in s.threads ==> !InWindow(s.threads[u].pc)
    ensures Windows(s')
  {
  }

  lemma LeaveCasOrphans(s: State, t: Tid)
    requires Inv(s) && OrphanInv(s) && Enabled(s, LeaveCas(t))
    ensures OrphanInv(Next(s, LeaveCas(t)))
  {
    hide Inv, OrphanInv, Next;
    if Advances(s.StateWord(), s.threads[t]) {
      LeaveCasTick(s, t);
    } else {
      LeaveCasQuiet(s, t);
    }
  }

  /** What one handling operation frees, nobody holds. */
  lemma HandleUnheld(s: State, t: Tid)
    requires Inv(s) && OrphanInv(s) && Enabled(s, HandleOrphans(t))
    ensures OrphansUnheld(Next(s, HandleOrphans(t)))
  {
    hide Counts, Threads, Exclusive, Requests, Holds, Aged, Solo, Windows, PlacedAt;
    var s', th := Next(s, HandleOrphans(t)), s.threads[t];
    assert ThreadPlaces(s.place, t, th);
    hide Places, ThreadPlaces, OrphanInv, Inv;
    forall u, p | u in s'.threads && p in s'.place && s'.place[p] == Freed(Orphan) ensures p !in s'.threads[u].hold {
      if s.place[p] == HandPrevious(t) {
        InPlace(s.place, HandPrevious(t), p);
        assert p in TakenPrevious(th.pc);
        OldUnheld(s, t, u, p);
      } else if s.place[p] == HandCurrent(t) {
        SoloUnheld(s, t, u);
      } else {
        assert s.place[p] == Freed(Orphan);
      }
    }
  }

  lemma InPlace(place: map<Ptr, Place>, w: Place, p: Ptr)
    requires p in place && place[p] == w
    ensures p in PlacedAt(place, w)
  {
  }

  lemma HandleAged(s: State, t: Tid)
    requires Inv(s) && OrphanInv(s) && Enabled(s, HandleOrphans(t))
    ensures var s' := Next(s, HandleOrphans(t)); Aged(s') && HandsAged(s')
  {
    hide Inv, Data, Counts, Threads, Exclusive, Solo, Windows, Places, Move, OrphansUnheld;
    var s', th := Next(s, HandleOrphans(t)), s.threads[t];
    if th.pc.stage.TakePrevious? {
      assert !SomePast(s) by {
        HandlerNotPast(s, t);
      }
    } else if Past(s'.threads[t].pc) {
      assert SomePast(s');
    } else if SomePast(s) {
      var w :| w in s.threads && Past(s.threads[w].pc);
      assert Past(s'.threads[w].pc);
    } else {
      forall p | p in s'.orphanPrevious ensures Older(s', p) {
        assert Older(s, p);
      }
    }
    forall u, p | u in s'.threads && p in TakenPrevious(s'.threads[u].pc) ensures Older(s', p) {
      if u != t || !th.pc.stage.TakePrevious? {
        assert p in TakenPrevious(s.threads[u].pc);
      }
      assert Older(s, p);
    }
  }

  lemma HandlerNotPast(s: State, t: Tid)
    requires Inv(s) && Windows(s) && t in s.threads && IsHandling(s.threads[t].pc) && !Past(s.threads[t].pc)
    ensures !SomePast(s)
  {
    hide Data, Counts, Threads, Exclusive, Windows, SomePast;
    NobodyPast(s, t);
  }

  lemma HandleSolo(s: State, t: Tid)
    requires Solo(s) && Enabled(s, HandleOrphans(t))
    ensures Solo(Next(s, HandleOrphans(t)))
  {
    hide Move;
    var s' := Next(s, HandleOrphans(t));
    assert HandlesSingly(s'.threads[t].pc) ==> HandlesSingly(s.threads[t].pc);
    assert Joined(s'.threads[t].pc, s.epoch) ==> Joined(s.threads[t].pc, s.epoch);
  }

  lemma HandleWindows(s: State, t: Tid)
    requires Windows(s) && Enabled(s, HandleOrphans(t))
    ensures Windows(Next(s, HandleOrphans(t)))
  {
    hide Windows, Move;
    var s' := Next(s, HandleOrphans(t));
    if s.threads[t].pc.Leaving? {
      WindowOwes(s, t);
    }
    WindowsFrame(s, s', t);
  }

  lemma HandleOrphansOrphans(s: State, t: Tid)
    requires Inv(s) && OrphanInv(s) && Enabled(s, HandleOrphans(t))
    ensures OrphanInv(Next(s, HandleOrphans(t)))
  {
    hide Inv, Windows, Aged, HandsAged, Solo, OrphansUnheld, Next;
    HandleUnheld(s, t);
    HandleAged(s, t);
    HandleSolo(s, t);
    HandleWindows(s, t);
  }

  lemma StepKeepsOrphanInv(s: State, step: Step)
    requires Inv(s) && OrphanInv(s) && Enabled(s, step) && Calm(s, step)
    ensures OrphanInv(Next(s, step))
  {
    hide Inv, OrphanInv, Next, Enabled, Calm;
    var t := step.t;
    match step
    case RegCas(_) => RegCasOrphans(s, t);
    case QFetchSub(_) => QFetchSubOrphans(s, t);
    case HandleOrphans(_) => HandleOrphansOrphans(s, t);
    case ChangeLoad(_) => ChangeLoadOrphans(s, t);
    case ChangeCas(_) => ChangeCasOrphans(s, t);
    case LeaveLoad(_) => LeaveLoadOrphans(s, t);
    case LeaveCas(_) => LeaveCasOrphans(s, t);
    case PushPrevious(_) => PushPreviousOrphans(s, t);
    case _ => LocalStep(s, step);
  }

  lemma {:induction false} CalmRunInv(states: seq<State>, steps: seq<Step>, i: nat)
    requires IsCalmRun(states, steps) && i < |states|
    ensures Inv(states[i]) && OrphanInv(states[i])
  {
    hide Inv, OrphanInv, Next, Enabled, Calm;
    if i == 0 {
      InitialInv(states[0]);
      InitialOrphans(states[0]);
    } else {
      CalmRunInv(states, steps, i - 1);
      StepKeepsInv(states[i - 1], steps[i - 1]);
      StepKeepsOrphanInv(states[i - 1], steps[i - 1]);
    }
  }

  lemma InitialOrphans(s: State)
    requires Initial(s)
    ensures OrphanInv(s)
  {
  }

  /** No thread ever holds a freed pointer, whoever freed it. */
  lemma OrphanSafety(states: seq<State>, steps: seq<Step>, i: nat, p: Ptr, u: Tid)
    requires IsCalmRun(states, steps) && i < |states|
    requires u in states[i].threads && p in states[i].place && states[i].place[p].Freed?
    ensures p !in states[i].threads[u].hold
  {
    hide Inv, Windows, Aged, HandsAged, Solo, IsRun;
    CalmRunInv(states, steps, i);
    if !states[i].place[p].how.Orphan? {
      GracePeriod(states, steps, i, p, u);
    }
  }
}

/** Every step of the protocol keeps the invariant: one group of lemmas per step. */
module QsbrSteps {
  import opened QsbrProtocol
  import opened QsbrInvariant

  // ---- moving requests between places ----------------------------------------------------

  lemma MovedAt(place: map<Ptr, Place>, from: Place, to: Place, w: Place)
    requires from != to
    ensures PlacedAt(Move(place, from, to), w) ==
            if w == from then {} else if w == to then PlacedAt(place, from) + PlacedAt(place, to) else PlacedAt(place, w)
  {
  }

  /** Moving between two places leaves a thread that uses neither alone. */
  lemma MovedThread(place: map<Ptr, Place>, from: Place, to: Place, u: Tid, th: Thread)
    requires from != to && ThreadPlaces(place, u, th)
    requires !OfThread(from, u) && !OfThread(to, u)
    ensures ThreadPlaces(Move(place, from, to), u, th)
  {
    MovedAt(place, from, to, PrevOf(u));
    MovedAt(place, from, to, CurOf(u));
    MovedAt(place, from, to, HandPrevious(u));
    MovedAt(place, from, to, HandCurrent(u));
    MovedAt(place, from, to, InCall(u));
  }

  ghost predicate OfThread(w: Place, u: Tid) {
    w == PrevOf(u) || w == CurOf(u) || w == HandPrevious(u) || w == HandCurrent(u) || w == InCall(u)
  }

  /** Places a pointer may be held in by anyone. */
  ghost predicate Shared(w: Place) {
    w.OrphanedPrevious? || w.OrphanedCurrent? || w.HandPrevious? || w.HandCurrent? || w == Freed(Orphan)
  }

  /** Handing requests over to shared places. */
  lemma MoveHolds(s: State, s': State, t: Tid, from: Place, to: Place)
    requires Holds(s) && OnlyThread(s, s', t) && s'.epoch == s.epoch && s'.unlinked == s.unlinked
    requires s'.place == Move(s.place, from, to) && Shared(to)
    requires s'.threads[t].hold == s.threads[t].hold == {}
    requires SinglePc(s'.threads[t].pc) ==> SinglePc(s.threads[t].pc)
    ensures Holds(s')
  {
    forall u, p | u in s'.threads ensures HoldOk(s', u, p) {
      assert HoldOk(s, u, p);
    }
  }

  lemma MoveRequests(s: State, s': State, t: Tid, from: Place, to: Place)
    requires Requests(s) && OnlyThread(s, s', t) && s'.epoch == s.epoch && s'.unlinked == s.unlinked
    requires s'.requested == s.requested && s'.place == Move(s.place, from, to)
    requires Shared(to) && (to.HandPrevious? || to.HandCurrent? ==> to.t == t)
    requires s'.threads[t].seenEpoch == s.threads[t].seenEpoch
    requires !s.threads[t].pc.RetLoaded?
    ensures Requests(s')
  {
    forall p | p in s'.requested ensures RequestOk(s'.place[p], s'.requested[p], s'.threads) {
      assert RequestOk(s.place[p], s.requested[p], s.threads);
    }
  }

  lemma MovePlaces(s: State, s': State, t: Tid, from: Place, to: Place)
    requires Places(s) && OnlyThread(s, s', t)
    requires s'.place == Move(s.place, from, to) && from != to
    requires forall u :: u in s.threads && u != t ==> !OfThread(from, u) && !OfThread(to, u)
    requires ThreadPlaces(s'.place, t, s'.threads[t])
    requires s'.orphanPrevious == PlacedAt(s'.place, OrphanedPrevious)
    requires s'.orphanCurrent == PlacedAt(s'.place, OrphanedCurrent)
    ensures Places(s')
  {
    forall u | u in s'.threads && u != t ensures ThreadPlaces(s'.place, u, s'.threads[u]) {
      MovedThread(s.place, from, to, u, s.threads[u]);
    }
  }

  // ---- clients ---------------------------------------------------------------------------

  lemma AcquireStep(s: State, t: Tid, p: Ptr)
    requires Inv(s) && Enabled(s, Acquire(t, p))
    ensures Inv(Next(s, Acquire(t, p)))
  {
    hide Requests, Places, Holds, Counts, Exclusive, Threads;
    var s' := Next(s, Acquire(t, p));
    ThreadOk(s, t);
    ControlFrame(s, s', t);
    HoldChange(s, s', t);
  }

  lemma ReleaseStep(s: State, t: Tid, p: Ptr)
    requires Inv(s) && Enabled(s, Release(t, p))
    ensures Inv(Next(s, Release(t, p)))
  {
    hide Requests, Places, Holds, Counts, Exclusive, Threads;
    var s' := Next(s, Release(t, p));
    ThreadOk(s, t);
    ControlFrame(s, s', t);
    HoldChange(s, s', t);
  }

  /** Only linked objects can be picked up. */
  lemma HoldChange(s: State, s': State, t: Tid)
    requires Data(s) && OnlyThread(s, s', t) && SameData(s, s')
    requires s'.threads[t] == s.threads[t].(hold := s'.threads[t].hold)
    requires s.threads[t].pc == Idle
    requires forall p :: p in s'.threads[t].hold && p in s.unlinked ==> p in s.threads[t].hold
    ensures Data(s')
  {
    hide Requests, Places, Holds;
    HoldHolds(s, s', t);
    HoldPlaces(s, s', t);
    HoldRequests(s, s', t);
  }

  lemma HoldHolds(s: State, s': State, t: Tid)
    requires Holds(s) && OnlyThread(s, s', t) && SameData(s, s')
    requires s'.threads[t] == s.threads[t].(hold := s'.threads[t].hold)
    requires forall p :: p in s'.threads[t].hold && p in s.unlinked ==> p in s.threads[t].hold
    ensures Holds(s')
  {
    forall u, p | u in s'.threads ensures HoldOk(s', u, p) {
      assert HoldOk(s, u, p);
    }
  }

  lemma HoldPlaces(s: State, s': State, t: Tid)
    requires Places(s) && OnlyThread(s, s', t) && SameData(s, s')
    requires s'.threads[t] == s.threads[t].(hold := s'.threads[t].hold)
    ensures Places(s')
  {
    assert ThreadPlaces(s.place, t, s.threads[t]);
  }

  lemma HoldRequests(s: State, s': State, t: Tid)
    requires Requests(s) && OnlyThread(s, s', t) && SameData(s, s')
    requires s'.threads[t] == s.threads[t].(hold := s'.threads[t].hold)
    ensures Requests(s')
  {
    forall p | p in s.requested ensures RequestOk(s.place[p], s.requested[p], s'.threads) {
      assert RequestOk(s.place[p], s.requested[p], s.threads);
    }
  }

  ghost function Unlinked(s: State, p: Ptr): State {
    s.(unlinked := s.unlinked[p := s.epoch])
  }

  lemma UnlinkHolds(s: State, p: Ptr)
    requires Requests(s) && Holds(s) && p !in s.unlinked
    ensures Holds(Unlinked(s, p))
  {
    var s' := Unlinked(s, p);
    forall u, q | u in s'.threads ensures HoldOk(s', u, q) {
      assert HoldOk(s, u, q);
    }
  }

  lemma UnlinkRequests(s: State, p: Ptr)
    requires Requests(s) && p !in s.unlinked
    ensures Requests(Unlinked(s, p))
  {
  }

  lemma UnlinkStep(s: State, t: Tid, p: Ptr)
    requires Inv(s) && Enabled(s, Unlink(t, p))
    ensures Inv(Next(s, Unlink(t, p)))
  {
    hide Requests, Holds, Counts, Exclusive, Threads;
    ThreadOk(s, t);
    ControlFrame(s, Unlinked(s, p), t);
    UnlinkRequests(s, p);
    UnlinkHolds(s, p);
  }

  // ---- registration ----------------------------------------------------------------------

  lemma RegLoadStep(s: State, t: Tid)
    requires Inv(s) && Enabled(s, RegLoad(t))
    ensures Inv(Next(s, RegLoad(t)))
  {
    hide Requests, Places, Holds, Counts, Exclusive, Threads;
    var s' := Next(s, RegLoad(t));
    ThreadOk(s, t);
    ControlFrame(s, s', t);
    Quiet(s, s', t);
  }

  lemma RegSpinStep(s: State, t: Tid)
    requires Inv(s) && Enabled(s, RegSpinLoad(t))
    ensures Inv(Next(s, RegSpinLoad(t)))
  {
    hide Requests, Places, Holds, Counts, Exclusive, Threads;
    var s' := Next(s, RegSpinLoad(t));
    ThreadOk(s, t);
    if s' != s {
      ControlFrame(s, s', t);
      Quiet(s, s', t);
    }
  }

  lemma OneMoreRegistered(s: State, s': State, t: Tid)
    requires OnlyThread(s, s', t)
    requires !IsRegistered(s.threads[t].pc) && IsRegistered(s'.threads[t].pc)
    ensures |RegisteredThreads(s')| == |RegisteredThreads(s)| + 1
  {
    hide IsRegistered;
    assert RegisteredThreads(s') == RegisteredThreads(s) + {t};
  }

  lemma OneMoreOwing(s: State, s': State, t: Tid)
    requires OnlyThread(s, s', t) && s'.epoch == s.epoch
    requires !IsRegistered(s.threads[t].pc) && IsRegistered(s'.threads[t].pc)
    ensures |OwingThreads(s')| == |OwingThreads(s)| + if Owes(s'.threads[t], s.epoch) then 1 else 0
  {
    hide IsRegistered, Owes;
    if Owes(s'.threads[t], s.epoch) {
      assert OwingThreads(s') == OwingThreads(s) + {t};
    } else {
      assert OwingThreads(s') == OwingThreads(s);
    }
  }

  /** One more thread in the word, owing a quiescent state or not. */
  lemma CountedIn(s: State, s': State, t: Tid)
    requires Counts(s) && OnlyThread(s, s', t) && s'.epoch == s.epoch
    requires !IsRegistered(s.threads[t].pc) && IsRegistered(s'.threads[t].pc)
    requires s'.count == s.count + 1
    requires s'.inPrevious == s.inPrevious + if Owes(s'.threads[t], s.epoch) then 1 else 0
    ensures Counts(s')
  {
    hide IsRegistered, Owes, RegisteredThreads, OwingThreads, OnlyThread;
    OneMoreRegistered(s, s', t);
    OneMoreOwing(s, s', t);
  }

  lemma RegCasCounts(s: State, t: Tid)
    requires Counts(s) && Enabled(s, RegCas(t))
    ensures Counts(NextRegCas(s, t, s.threads[t]))
  {
    hide Counts;
    CountedIn(s, NextRegCas(s, t, s.threads[t]), t);
  }

  lemma RegCasStep(s: State, t: Tid)
    requires Inv(s) && Enabled(s, RegCas(t))
    ensures Inv(Next(s, RegCas(t)))
  {
    hide Requests, Places, Holds, Counts, Exclusive, Threads;
    var s' := Next(s, RegCas(t));
    ThreadOk(s, t);
    RegCasCounts(s, t);
    ThreadsFrame(s, s', t);
    ExclusiveFrame(s, s', t);
    Quiet(s, s', t);
  }

  // ---- on_next_epoch_deallocate ----------------------------------------------------------

  lemma RetLoadThreadPlaces(place: map<Ptr, Place>, t: Tid, p: Ptr, e: nat, single: bool, u: Tid, th: Thread)
    requires ThreadPlaces(place, u, th) && p !in place
    requires u == t ==> th.pc == Idle
    ensures ThreadPlaces(place[p := InCall(t)], u, if u == t then th.(pc := RetLoaded(p, e, single)) else th)
  {
    var place' := place[p := InCall(t)];
    assert forall w: Place :: w != InCall(t) ==> PlacedAt(place', w) == PlacedAt(place, w);
    assert PlacedAt(place', InCall(t)) == PlacedAt(place, InCall(t)) + {p};
  }

  lemma RetLoadPlaces(s: State, t: Tid, p: Ptr)
    requires Places(s) && Enabled(s, RetLoad(t, p))
    ensures Places(Next(s, RetLoad(t, p)))
  {
    hide ThreadPlaces;
    var s' := Next(s, RetLoad(t, p));
    forall u | u in s'.threads ensures ThreadPlaces(s'.place, u, s'.threads[u]) {
      RetLoadThreadPlaces(s.place, t, p, s.epoch, SingleThreadMode(s.StateWord()), u, s.threads[u]);
    }
    assert PlacedAt(s'.place, OrphanedPrevious) == PlacedAt(s.place, OrphanedPrevious);
    assert PlacedAt(s'.place, OrphanedCurrent) == PlacedAt(s.place, OrphanedCurrent);
  }

  /** In single-thread mode nobody else can point anywhere. */
  lemma AloneHolds(s: State, t: Tid, u: Tid)
    requires Counts(s) && Threads(s) && s.count < 2
    requires t in s.threads && IsRegistered(s.threads[t].pc) && u in s.threads && u != t
    ensures s.threads[u].hold == {}
  {
    OnlyRegistered(s, t);
    assert u !in RegisteredThreads(s);
    ThreadOk(s, u);
  }

  lemma RetLoadHolds(s: State, t: Tid, p: Ptr)
    requires Counts(s) && Threads(s) && Requests(s) && Holds(s) && Enabled(s, RetLoad(t, p))
    ensures Holds(Next(s, RetLoad(t, p)))
  {
    hide Counts, Threads;
    var s' := Next(s, RetLoad(t, p));
    forall u, q | u in s'.threads ensures HoldOk(s', u, q) {
      assert HoldOk(s, u, q);
      if s.count < 2 && u != t {
        AloneHolds(s, t, u);
      }
    }
  }

  lemma RetLoadRequests(s: State, t: Tid, p: Ptr)
    requires Requests(s) && Enabled(s, RetLoad(t, p))
    ensures Requests(Next(s, RetLoad(t, p)))
  {
    var s' := Next(s, RetLoad(t, p));
    forall q | q in s'.requested ensures q in s'.place && RequestOk(s'.place[q], s'.requested[q], s'.threads) {
      if q != p {
        assert RequestOk(s.place[q], s.requested[q], s.threads);
      }
    }
  }

  lemma RetLoadStep(s: State, t: Tid, p: Ptr)
    requires Inv(s) && Enabled(s, RetLoad(t, p))
    ensures Inv(Next(s, RetLoad(t, p)))
  {
    hide Requests, Places, Holds, Counts, Exclusive, Threads;
    var s' := Next(s, RetLoad(t, p));
    ThreadOk(s, t);
    ControlFrame(s, s', t);
    RetLoadPlaces(s, t, p);
    RetLoadHolds(s, t, p);
    RetLoadRequests(s, t, p);
  }

  /** The end of the call: the request leaves the caller's hand for its list, or is freed at once. */
  ghost function Settled(s: State, t: Tid, keep: bool): State
    requires t in s.threads && s.threads[t].pc.RetLoaded?
  {
    var th := s.threads[t];
    s.Put(t, th.(pc := Idle, current := if keep then th.current + {th.pc.ptr} else th.current))
     .(place := s.place[th.pc.ptr := if keep then CurOf(t) else Freed(AtOnce)])
  }

  lemma SettleThreadPlaces(place: map<Ptr, Place>, t: Tid, th: Thread, keep: bool, u: Tid, thu: Thread)
    requires th.pc.RetLoaded? && ThreadPlaces(place, t, th) && ThreadPlaces(place, u, thu)
    requires u == t ==> thu == th
    ensures var p := th.pc.ptr;
            var place' := place[p := if keep then CurOf(t) else Freed(AtOnce)];
            && (u != t ==> ThreadPlaces(place', u, thu))
            && ThreadPlaces(place', t, th.(pc := Idle, current := if keep then th.current + {p} else th.current))
            && PlacedAt(place', OrphanedPrevious) == PlacedAt(place, OrphanedPrevious)
            && PlacedAt(place', OrphanedCurrent) == PlacedAt(place, OrphanedCurrent)
  {
    var p := th.pc.ptr;
    var to := if keep then CurOf(t) else Freed(AtOnce);
    var place' := place[p := to];
    assert p in PlacedAt(place, InCall(t));
    assert forall w: Place :: w != InCall(t) && w != to ==> PlacedAt(place', w) == PlacedAt(place, w);
    assert forall q :: q in PlacedAt(place', InCall(t)) ==> q in PlacedAt(place, InCall(t)) && q != p;
    assert PlacedAt(place', InCall(t)) == {};
    assert PlacedAt(place', to) == PlacedAt(place, to) + {p};
  }

  lemma SettlePlaces(s: State, t: Tid, keep: bool)
    requires Places(s) && t in s.threads && s.threads[t].pc.RetLoaded?
    ensures Places(Settled(s, t, keep))
  {
    hide ThreadPlaces, PlacedAt;
    var s' := Settled(s, t, keep);
    forall u | u in s'.threads ensures ThreadPlaces(s'.place, u, s'.threads[u]) {
      SettleThreadPlaces(s.place, t, s.threads[t], keep, u, s.threads[u]);
    }
    SettleThreadPlaces(s.place, t, s.threads[t], keep, t, s.threads[t]);
  }

  lemma SettleRequests(s: State, t: Tid, keep: bool)
    requires Requests(s) && t in s.threads && s.threads[t].pc.RetLoaded?
    requires PlacedAt(s.place, InCall(t)) == {s.threads[t].pc.ptr}
    requires keep ==> s.threads[t].pc.seen == s.threads[t].seenEpoch
    ensures Requests(Settled(s, t, keep))
  {
    var s', p := Settled(s, t, keep), s.threads[t].pc.ptr;
    assert p in PlacedAt(s.place, InCall(t));
    assert RequestOk(s.place[p], s.requested[p], s.threads);
    forall q | q in s'.requested ensures q in s'.place && RequestOk(s'.place[q], s'.requested[q], s'.threads) {
      assert RequestOk(s.place[q], s.requested[q], s.threads);
      if s.place[q] == InCall(t) {
        assert q in PlacedAt(s.place, InCall(t));
      }
    }
  }

  lemma SettleHolds(s: State, t: Tid, keep: bool)
    requires Holds(s) && t in s.threads && s.threads[t].pc.RetLoaded?
    requires PlacedAt(s.place, InCall(t)) == {s.threads[t].pc.ptr}
    requires !keep ==> s.threads[t].pc.single
    ensures Holds(Settled(s, t, keep))
  {
    var s', p := Settled(s, t, keep), s.threads[t].pc.ptr;
    assert p in PlacedAt(s.place, InCall(t));
    forall u, q | u in s'.threads ensures HoldOk(s', u, q) {
      assert HoldOk(s, u, q);
    }
  }

  lemma SettleData(s: State, t: Tid, keep: bool)
    requires Data(s) && t in s.threads && s.threads[t].pc.RetLoaded?
    requires keep ==> s.threads[t].pc.seen == s.threads[t].seenEpoch
    requires !keep ==> s.threads[t].pc.single
    ensures Data(Settled(s, t, keep))
  {
    assert PlacedAt(s.place, InCall(t)) == {s.threads[t].pc.ptr} by {
      assert ThreadPlaces(s.place, t, s.threads[t]);
    }
    hide Places, Requests, Holds;
    SettlePlaces(s, t, keep);
    SettleRequests(s, t, keep);
    SettleHolds(s, t, keep);
  }

  lemma RetFinishData(s: State, t: Tid)
    requires Inv(s) && Enabled(s, RetFinish(t))
    ensures Data(Next(s, RetFinish(t)))
  {
    hide Counts, Threads, Exclusive, Requests, Places, Holds;
    var s', th := Next(s, RetFinish(t)), s.threads[t];
    var RetLoaded(p, e, single) := th.pc;
    ThreadOk(s, t);
    if Same(e, th.seenEpoch) {
      SettleData(s, t, !single);
      assert s' == Settled(s, t, !single);
    } else {
      Execute(s, t, single, e);
      var s1 := Executed(s, t, single, e);
      SettleData(s1, t, !single);
      assert {} + {p} == {p};
      assert s'.threads[t] == Settled(s1, t, !single).threads[t];
      assert s'.threads == Settled(s1, t, !single).threads;
    }
  }

  lemma RetFinishStep(s: State, t: Tid)
    requires Inv(s) && Enabled(s, RetFinish(t))
    ensures Inv(Next(s, RetFinish(t)))
  {
    hide Data, Counts, Exclusive, Threads, ExecutePreviousPlace;
    var s' := Next(s, RetFinish(t));
    ThreadOk(s, t);
    ControlFrame(s, s', t);
    RetFinishData(s, t);
  }

  // ---- quiescent -------------------------------------------------------------------------

  lemma QLoadStep(s: State, t: Tid)
    requires Inv(s) && Enabled(s, QLoad(t))
    ensures Inv(Next(s, QLoad(t)))
  {
    hide Requests, Places, Holds, Counts, Exclusive, Threads;
    var s' := Next(s, QLoad(t));
    ThreadOk(s, t);
    ControlFrame(s, s', t);
    if s.count < 2 {
      AloneUnheld(s, t);
    }
    Quiet(s, s', t);
  }

  lemma QLocalStep(s: State, t: Tid)
    requires Inv(s) && Enabled(s, QLocal(t))
    ensures Inv(Next(s, QLocal(t)))
  {
    hide Requests, Places, Holds, Counts, Exclusive, Threads;
    var s', th := Next(s, QLocal(t)), s.threads[t];
    var QLoaded(e, single) := th.pc;
    ThreadOk(s, t);
    ControlFrame(s, s', t);
    if Same(e, th.seenEpoch) {
      Quiet(s, s', t);
    } else {
      Execute(s, t, single, e);
      Quiet(Executed(s, t, single, e), s', t);
    }
  }

  lemma QFetchSubCounts(s: State, t: Tid)
    requires Counts(s) && t in s.threads && ThreadEpochs(s.threads[t], s.epoch) && Enabled(s, QFetchSub(t))
    ensures Counts(NextQFetchSub(s, t, s.threads[t]))
  {
    var s' := NextQFetchSub(s, t, s.threads[t]);
    assert RegisteredThreads(s') == RegisteredThreads(s);
    assert OwingThreads(s') == OwingThreads(s) - {t};
  }

  lemma LeavingOwes(s: State, t: Tid)
    requires Threads(s) && t in s.threads && s.threads[t].pc.Leaving?
    ensures t in OwingThreads(s)
  {
    ThreadOk(s, t);
  }

  lemma OwnDebt(s: State, t: Tid)
    requires Threads(s) && t in s.threads && s.threads[t].pc.QReady?
    ensures t in OwingThreads(s)
  {
    ThreadOk(s, t);
  }

  /** The thread that takes the counter to zero becomes the only orphan handler. */
  lemma LastOwing(s: State, t: Tid)
    requires Counts(s) && Threads(s) && Exclusive(s) && s.inPrevious == 1
    requires t in OwingThreads(s) && !IsHandling(s.threads[t].pc)
    ensures forall u :: u in s.threads ==> !IsHandling(s.threads[u].pc)
  {
    hide Threads, Counts;
    OnlyOwing(s, t);
    forall u | u in s.threads ensures !IsHandling(s.threads[u].pc) {
      if s.threads[u].pc.Leaving? {
        LeavingOwes(s, u);
      }
    }
  }

  lemma RegisteredCounted(s: State, t: Tid)
    requires Counts(s) && t in s.threads && IsRegistered(s.threads[t].pc)
    ensures s.count > 0
  {
    assert t in RegisteredThreads(s);
  }

  lemma QFetchSubExclusive(s: State, t: Tid)
    requires Counts(s) && Threads(s) && Exclusive(s) && Enabled(s, QFetchSub(t))
    ensures Exclusive(NextQFetchSub(s, t, s.threads[t]))
  {
    hide Counts, Threads;
    var s' := NextQFetchSub(s, t, s.threads[t]);
    RegisteredCounted(s, t);
    if s.inPrevious == 1 {
      OwnDebt(s, t);
      LastOwing(s, t);
      assert s'.threads[t].pc.Changing?;
    }
  }

  lemma QFetchSubStep(s: State, t: Tid)
    requires Inv(s) && Enabled(s, QFetchSub(t))
    ensures Inv(Next(s, QFetchSub(t)))
  {
    hide Requests, Places, Holds, Counts, Exclusive, Threads;
    var s' := Next(s, QFetchSub(t));
    ThreadOk(s, t);
    QFetchSubCounts(s, t);
    ThreadsFrame(s, s', t);
    QFetchSubExclusive(s, t);
    Quiet(s, s', t);
  }

  // ---- orphan handling -------------------------------------------------------------------

  /** Where the requests of one orphan-handling operation come from and go to. */
  ghost function HandleFrom(stage: Stage, t: Tid): Place
    requires !stage.Rotated? && !stage.CasReady?
  {
    match stage
    case TakePrevious => OrphanedPrevious
    case TakeCurrent(_) => OrphanedCurrent
    case FreeTaken(_, _) => HandPrevious(t)
    case Publish(_) => HandCurrent(t)
    case Append(_) => HandCurrent(t)
  }

  ghost function HandleTo(stage: Stage, t: Tid, single: bool): Place
    requires !stage.Rotated? && !stage.CasReady?
  {
    match stage
    case TakePrevious => HandPrevious(t)
    case TakeCurrent(_) => HandCurrent(t)
    case FreeTaken(_, _) => Freed(Orphan)
    case Publish(_) => if single then Freed(Orphan) else OrphanedPrevious
    case Append(_) => OrphanedPrevious
  }

  ghost function HandlerSingle(pc: Pc): bool
    requires IsHandling(pc)
  {
    if pc.Changing? then pc.orphanSingle else SingleThreadMode(pc.word)
  }

  lemma HandleThreadPlaces(s: State, t: Tid, th: Thread, stage: Stage, single: bool)
    requires ThreadPlaces(s.place, t, th) && IsHandling(th.pc) && th.pc.stage == stage
    requires s.orphanPrevious == PlacedAt(s.place, OrphanedPrevious)
    requires s.orphanCurrent == PlacedAt(s.place, OrphanedCurrent)
    requires !stage.Rotated? && !stage.CasReady?
    ensures var h := Handle(s, t, stage, single);
            && ThreadPlaces(h.place, t, th.(pc := th.pc.(stage := h.stage)))
            && h.orphanPrevious == PlacedAt(h.place, OrphanedPrevious)
            && h.orphanCurrent == PlacedAt(h.place, OrphanedCurrent)
  {
    hide PlacedAt, Move;
    var h := Handle(s, t, stage, single);
    if !(stage.Publish? && !single && s.orphanPrevious != {}) {
      var from, to := HandleFrom(stage, t), HandleTo(stage, t, single);
      assert h.place == Move(s.place, from, to);
      MovedAt(s.place, from, to, PrevOf(t));
      MovedAt(s.place, from, to, CurOf(t));
      MovedAt(s.place, from, to, InCall(t));
      MovedAt(s.place, from, to, HandPrevious(t));
      MovedAt(s.place, from, to, HandCurrent(t));
      MovedAt(s.place, from, to, OrphanedPrevious);
      MovedAt(s.place, from, to, OrphanedCurrent);
    }
  }

  ghost predicate AppendOnly(s: State, stage: Stage, single: bool) {
    stage.Publish? && !single && s.orphanPrevious != {}
  }

  /** Handing the taken lists on leaves every other thread's lists alone. */
  lemma HandlePlaces(s: State, t: Tid)
    requires Places(s) && Enabled(s, HandleOrphans(t))
    ensures Places(Next(s, HandleOrphans(t)))
  {
    hide PlacedAt, Move, ThreadPlaces;
    var s', th := Next(s, HandleOrphans(t)), s.threads[t];
    var stage, single := th.pc.stage, HandlerSingle(th.pc);
    HandleThreadPlaces(s, t, th, stage, single);
    HandledThread(s'.place, t, th, Handle(s, t, stage, single).stage);
    if !AppendOnly(s, stage, single) {
      MovePlaces(s, s', t, HandleFrom(stage, t), HandleTo(stage, t, single));
    } else {
      forall u | u in s'.threads ensures ThreadPlaces(s'.place, u, s'.threads[u]) {
      }
    }
  }

  /** unregister_thread's handler lets go of the stage when it is done. */
  lemma HandledThread(place: map<Ptr, Place>, t: Tid, th: Thread, stage: Stage)
    requires IsHandling(th.pc) && ThreadPlaces(place, t, th.(pc := th.pc.(stage := stage)))
    ensures th.pc.Leaving? && stage.Rotated? ==>
              ThreadPlaces(place, t, th.(pc := LeaveReady(th.pc.word, th.pc.seen, true)))
  {
  }

  lemma HandleData(s: State, t: Tid)
    requires Data(s) && Threads(s) && Enabled(s, HandleOrphans(t))
    ensures Data(Next(s, HandleOrphans(t)))
  {
    hide Places, Requests, Holds, PlacedAt, Move, Threads;
    ThreadOk(s, t);
    var s', th := Next(s, HandleOrphans(t)), s.threads[t];
    var stage, single := th.pc.stage, HandlerSingle(th.pc);
    HandlePlaces(s, t);
    if AppendOnly(s, stage, single) {
      AppendRequests(s, s', t);
    } else {
      var from, to := HandleFrom(stage, t), HandleTo(stage, t, single);
      MoveRequests(s, s', t, from, to);
      MoveHolds(s, s', t, from, to);
    }
  }

  lemma AppendRequests(s: State, s': State, t: Tid)
    requires Requests(s) && Holds(s) && OnlyThread(s, s', t) && SameData(s, s')
    requires s'.threads[t].hold == s.threads[t].hold == {} && s'.threads[t].seenEpoch == s.threads[t].seenEpoch
    requires !s.threads[t].pc.RetLoaded?
    requires SinglePc(s'.threads[t].pc) ==> SinglePc(s.threads[t].pc)
    ensures Requests(s') && Holds(s')
  {
    forall p | p in s'.requested ensures RequestOk(s'.place[p], s'.requested[p], s'.threads) {
      assert RequestOk(s.place[p], s.requested[p], s.threads);
    }
    forall u, p | u in s'.threads ensures HoldOk(s', u, p) {
      assert HoldOk(s, u, p);
    }
  }

  lemma HandleStep(s: State, t: Tid)
    requires Inv(s) && Enabled(s, HandleOrphans(t))
    ensures Inv(Next(s, HandleOrphans(t)))
  {
    hide Requests, Places, Holds, Counts, Exclusive, Threads, Move;
    ThreadOk(s, t);
    ControlFrame(s, Next(s, HandleOrphans(t)), t);
    HandleData(s, t);
  }

  // ---- change_epoch ----------------------------------------------------------------------

  lemma ChangeLoadStep(s: State, t: Tid)
    requires Inv(s) && Enabled(s, ChangeLoad(t))
    ensures Inv(Next(s, ChangeLoad(t)))
  {
    hide Requests, Places, Holds, Counts, Exclusive, Threads;
    var s' := Next(s, ChangeLoad(t));
    ThreadOk(s, t);
    ControlFrame(s, s', t);
    Quiet(s, s', t);
  }

  /** Only thread `t` changes, and the epoch moves on by one. */
  ghost predicate Tick(s: State, s': State, t: Tid) {
    && OnlyThread(s, s', t) && s'.epoch == s.epoch + 1
    && s'.orphanPrevious == s.orphanPrevious && s'.orphanCurrent == s.orphanCurrent
    && s'.unlinked == s.unlinked && s'.requested == s.requested && s'.place == s.place
    && SameLists(s.threads[t], s'.threads[t]) && s.threads[t].hold == {}
    && s'.threads[t].seenEpoch == s.threads[t].seenEpoch
  }

  ghost predicate NobodyElseOwes(s: State, t: Tid) {
    forall u :: u in s.threads && u != t && IsRegistered(s.threads[u].pc) ==> !Owes(s.threads[u], s.epoch)
  }

  ghost predicate NobodyElseHandles(s: State, t: Tid) {
    forall u :: u in s.threads && u != t ==> !IsHandling(s.threads[u].pc)
  }

  /** At the tick every pointer still held was unlinked in the epoch that ends. */
  lemma TickHolds(s: State, s': State, t: Tid)
    requires Threads(s) && Holds(s) && Tick(s, s', t) && NobodyElseOwes(s, t)
    requires SinglePc(s'.threads[t].pc) && !SinglePc(s.threads[t].pc) ==> ListsUnheld(s, t)
    ensures Holds(s')
  {
    hide Threads;
    forall u, p | u in s'.threads ensures HoldOk(s', u, p) {
      ThreadOk(s, u);
      assert HoldOk(s, u, p);
    }
  }

  lemma TickRequests(s: State, s': State, t: Tid)
    requires Requests(s) && Tick(s, s', t)
    ensures Requests(s')
  {
    forall p | p in s.requested ensures RequestOk(s'.place[p], s'.requested[p], s'.threads) {
      assert RequestOk(s.place[p], s.requested[p], s.threads);
    }
  }

  lemma TickPlaces(s: State, s': State, t: Tid)
    requires Places(s) && Tick(s, s', t)
    ensures Places(s')
  {
    assert ThreadPlaces(s.place, t, s.threads[t]);
  }

  lemma TickThreads(s: State, s': State, t: Tid)
    requires Threads(s) && Tick(s, s', t) && NobodyElseOwes(s, t) && NobodyElseHandles(s, t)
    requires ThreadEpochs(s'.threads[t], s'.epoch)
    ensures Threads(s')
  {
    forall u | u in s'.threads && u != t ensures ThreadEpochs(s'.threads[u], s'.epoch) {
      ThreadOk(s, u);
    }
  }

  /** After the tick everyone owes again. */
  lemma TickCounts(s: State, s': State, t: Tid)
    requires Counts(s) && Threads(s) && Tick(s, s', t)
    requires NobodyElseOwes(s, t) && NobodyElseHandles(s, t)
    requires t in RegisteredThreads(s)
    requires IsRegistered(s'.threads[t].pc) ==> Owes(s'.threads[t], s'.epoch)
    requires s'.count == s'.inPrevious == if IsRegistered(s'.threads[t].pc) then s.count else s.count - 1
    ensures Counts(s')
  {
    hide Threads;
    forall u | u in s.threads && u != t && IsRegistered(s.threads[u].pc) ensures Owes(s'.threads[u], s'.epoch) {
      ThreadOk(s, u);
    }
    assert RegisteredThreads(s') == if IsRegistered(s'.threads[t].pc) then RegisteredThreads(s) else RegisteredThreads(s) - {t};
    assert OwingThreads(s') == RegisteredThreads(s');
  }

  lemma TickData(s: State, s': State, t: Tid)
    requires Threads(s) && Data(s) && Tick(s, s', t) && NobodyElseOwes(s, t)
    requires SinglePc(s'.threads[t].pc) && !SinglePc(s.threads[t].pc) ==> ListsUnheld(s, t)
    ensures Data(s')
  {
    hide Threads, Requests, Places, Holds;
    TickHolds(s, s', t);
    TickRequests(s, s', t);
    TickPlaces(s, s', t);
  }

  lemma ZeroOwing(s: State, t: Tid)
    requires Counts(s) && s.inPrevious == 0
    ensures NobodyElseOwes(s, t)
  {
    forall u | u in s.threads && IsRegistered(s.threads[u].pc) ensures !Owes(s.threads[u], s.epoch) {
      assert u !in OwingThreads(s);
    }
  }

  lemma TickExclusive(s: State, s': State, t: Tid)
    requires Tick(s, s', t) && NobodyElseHandles(s, t) && !IsHandling(s'.threads[t].pc)
    requires s'.inPrevious == s'.count
    ensures Exclusive(s')
  {
    forall u | u in s'.threads ensures !IsHandling(s'.threads[u].pc) {
    }
  }

  lemma ChangerAlone(s: State, t: Tid)
    requires Exclusive(s) && t in s.threads && s.threads[t].pc.Changing?
    ensures s.inPrevious == 0 && NobodyElseHandles(s, t)
  {
  }

  lemma ChangeCasStep(s: State, t: Tid)
    requires Inv(s) && Enabled(s, ChangeCas(t))
    ensures Inv(Next(s, ChangeCas(t)))
  {
    hide Requests, Places, Holds, Counts, Exclusive, Threads;
    var s' := Next(s, ChangeCas(t));
    ChangerAlone(s, t);
    ThreadOk(s, t);
    ZeroOwing(s, t);
    RegisteredMember(s, t);
    TickCounts(s, s', t);
    TickThreads(s, s', t);
    TickExclusive(s, s', t);
    TickData(s, s', t);
  }

  lemma RegisteredMember(s: State, t: Tid)
    requires t in s.threads && IsRegistered(s.threads[t].pc)
    ensures t in RegisteredThreads(s)
  {
  }

  lemma ChangeFinishStep(s: State, t: Tid)
    requires Inv(s) && Enabled(s, ChangeFinish(t))
    ensures Inv(Next(s, ChangeFinish(t)))
  {
    hide Data, Counts, Exclusive, Threads, ExecutePreviousPlace;
    var s', th := Next(s, ChangeFinish(t)), s.threads[t];
    var Changed(e, single) := th.pc;
    ThreadOk(s, t);
    ControlFrame(s, s', t);
    Execute(s, t, single, e + 1);
    Quiet(Executed(s, t, single, e + 1), s', t);
  }

  // ---- unregister_thread -----------------------------------------------------------------

  lemma AdvancingOwes(s: State, t: Tid)
    requires t in s.threads && (s.threads[t].pc == Idle || s.threads[t].pc.LeaveReady?)
    requires ThreadEpochs(s.threads[t], s.epoch)
    ensures RemovesFromPrevious(s.StateWord(), s.threads[t]) <==> t in OwingThreads(s)
  {
  }

  lemma LeaveLoadExclusive(s: State, t: Tid)
    requires Counts(s) && Threads(s) && Exclusive(s) && Enabled(s, LeaveLoad(t))
    ensures Exclusive(Next(s, LeaveLoad(t)))
  {
    hide Counts, Threads;
    var s' := Next(s, LeaveLoad(t));
    ThreadOk(s, t);
    AdvancingOwes(s, t);
    if s'.threads[t].pc.Leaving? {
      LastOwing(s, t);
    } else {
      ExclusiveFrame(s, s', t);
    }
  }

  lemma LeaveLoadStep(s: State, t: Tid)
    requires Inv(s) && Enabled(s, LeaveLoad(t))
    ensures Inv(Next(s, LeaveLoad(t)))
  {
    hide Requests, Places, Holds, Counts, Exclusive, Threads;
    var s' := Next(s, LeaveLoad(t));
    ThreadOk(s, t);
    SameCounts(s, s', t);
    ThreadsFrame(s, s', t);
    LeaveLoadExclusive(s, t);
    Quiet(s, s', t);
  }

  lemma LeaveCounts(s: State, s': State, t: Tid)
    requires Counts(s) && OnlyThread(s, s', t) && s'.epoch == s.epoch
    requires IsRegistered(s.threads[t].pc) && !IsRegistered(s'.threads[t].pc)
    requires s'.count == s.count - 1
    requires s'.inPrevious == if t in OwingThreads(s) then s.inPrevious - 1 else s.inPrevious
    ensures Counts(s')
  {
    assert RegisteredThreads(s') == RegisteredThreads(s) - {t};
    assert OwingThreads(s') == OwingThreads(s) - {t};
  }

  /** Two registered threads count for two. */
  lemma TwoRegistered(s: State, t: Tid, u: Tid)
    requires Counts(s) && t in s.threads && u in s.threads && t != u
    requires IsRegistered(s.threads[t].pc) && IsRegistered(s.threads[u].pc)
    ensures s.count >= 2
  {
    if s.count < 2 {
      RegisteredMember(s, t);
      OnlyRegistered(s, t);
      RegisteredMember(s, u);
    }
  }

  lemma ChangingExists(s: State) returns (c: Tid)
    requires Exclusive(s) && s.inPrevious == 0 && s.count > 0
    ensures c in s.threads && s.threads[c].pc.Changing?
  {
    c :| c in s.threads && s.threads[c].pc.Changing?;
  }

  lemma LeaveKeepsExclusive(s: State, t: Tid)
    requires Counts(s) && Exclusive(s) && Enabled(s, LeaveCas(t))
    requires !Advances(s.StateWord(), s.threads[t])
    ensures Exclusive(NextLeaveCas(s, t, s.threads[t]))
  {
    hide Counts, Exclusive;
    var s' := NextLeaveCas(s, t, s.threads[t]);
    if s.inPrevious == 0 {
      var c := ChangingExists(s);
      TwoRegistered(s, t, c);
    }
    ExclusiveFrame(s, s', t);
  }

  lemma LeaveTick(s: State, t: Tid)
    requires Inv(s) && Enabled(s, LeaveCas(t)) && Advances(s.StateWord(), s.threads[t])
    ensures Inv(Next(s, LeaveCas(t)))
  {
    hide Requests, Places, Holds, Counts, Exclusive, Threads;
    var s' := Next(s, LeaveCas(t));
    ThreadOk(s, t);
    if s.count < 2 {
      AloneUnheld(s, t);
    }
    AdvancingOwes(s, t);
    OnlyOwing(s, t);
    LastOwing(s, t);
    SoleDebt(s, t);
    RegisteredMember(s, t);
    hide RegisteredThreads, OwingThreads;
    TickCounts(s, s', t);
    TickThreads(s, s', t);
    TickExclusive(s, s', t);
    TickData(s, s', t);
  }

  lemma LeaveQuietlyControl(s: State, t: Tid)
    requires Control(s) && Enabled(s, LeaveCas(t)) && !Advances(s.StateWord(), s.threads[t])
    ensures Control(Next(s, LeaveCas(t)))
  {
    hide Counts, Exclusive, Threads;
    var s' := Next(s, LeaveCas(t));
    ThreadOk(s, t);
    AdvancingOwes(s, t);
    NoDebtAtZero(s, t);
    hide RegisteredThreads, OwingThreads;
    LeaveCounts(s, s', t);
    ThreadsFrame(s, s', t);
    LeaveKeepsExclusive(s, t);
  }

  lemma LeaveQuietlyData(s: State, t: Tid)
    requires Data(s) && Enabled(s, LeaveCas(t)) && !Advances(s.StateWord(), s.threads[t])
    requires s.threads[t].hold == {}
    requires s.count < 2 ==> ListsUnheld(s, t)
    ensures Data(Next(s, LeaveCas(t)))
  {
    hide Data, Owes, ListsUnheld, RemovesFromPrevious;
    Quiet(s, Next(s, LeaveCas(t)), t);
  }

  lemma LeaveQuietly(s: State, t: Tid)
    requires Inv(s) && Enabled(s, LeaveCas(t)) && !Advances(s.StateWord(), s.threads[t])
    ensures Inv(Next(s, LeaveCas(t)))
  {
    hide Requests, Places, Holds, Counts, Exclusive, Threads, Next, Advances;
    ThreadOk(s, t);
    if s.count < 2 {
      AloneUnheld(s, t);
    }
    LeaveQuietlyControl(s, t);
    LeaveQuietlyData(s, t);
  }

  lemma NoDebtAtZero(s: State, t: Tid)
    requires Counts(s)
    ensures s.inPrevious == 0 ==> t !in OwingThreads(s)
  {
  }

  lemma LeaveCasStep(s: State, t: Tid)
    requires Inv(s) && Enabled(s, LeaveCas(t))
    ensures Inv(Next(s, LeaveCas(t)))
  {
    hide Inv, Next;
    if Advances(s.StateWord(), s.threads[t]) {
      LeaveTick(s, t);
    } else {
      LeaveQuietly(s, t);
    }
  }

  lemma SoleDebt(s: State, t: Tid)
    requires OwingThreads(s) == {t}
    ensures NobodyElseOwes(s, t)
  {
    forall u | u in s.threads && u != t && IsRegistered(s.threads[u].pc) ensures !Owes(s.threads[u], s.epoch) {
      assert u !in OwingThreads(s);
    }
  }

  /** advance_last_seen_epoch at the end of unregister_thread. */
  ghost function CaughtUp(s: State, t: Tid): State
    requires t in s.threads && s.threads[t].pc.Left?
  {
    var Left(e, single, _) := s.threads[t].pc;
    if Same(e, s.threads[t].seenEpoch) then s else Executed(s, t, single, e)
  }

  lemma CaughtUpData(s: State, t: Tid)
    requires Data(s) && Threads(s) && t in s.threads && s.threads[t].pc.Left?
    ensures Data(CaughtUp(s, t)) && t in CaughtUp(s, t).threads && CaughtUp(s, t).epoch == s.epoch
    ensures var th, th1 := s.threads[t], CaughtUp(s, t).threads[t];
            th1.pc == th.pc && th1.seenEpoch == th.pc.seen && th1.hold == th.hold == {}
  {
    hide Data, Requests, Places, Holds;
    ThreadOk(s, t);
    var Left(e, single, _) := s.threads[t].pc;
    if !Same(e, s.threads[t].seenEpoch) { Execute(s, t, single, e); }
  }

  lemma TurnsOrphan(s: State, t: Tid)
    requires Data(s) && t in s.threads && s.threads[t].pc.Left? && s.threads[t].hold == {}
    ensures Data(s.Put(t, s.threads[t].(pc := OrphanPrevious)))
  {
    hide Data, Requests, Places, Holds;
    Quiet(s, s.Put(t, s.threads[t].(pc := OrphanPrevious)), t);
  }

  /** Both generations of the leaver's own requests moved as far as the code moves them. */
  ghost function ListsMoved(s: State, t: Tid): State
    requires t in s.threads && s.threads[t].pc.Left?
  {
    var Left(e, single, advanced) := s.threads[t].pc;
    if advanced then Executed(CaughtUp(s, t), t, single, e + 1) else CaughtUp(s, t)
  }

  lemma LeaveFinishIs(s: State, t: Tid)
    requires Enabled(s, LeaveFinish(t))
    ensures var s2 := ListsMoved(s, t);
            Next(s, LeaveFinish(t)) == s2.Put(t, s2.threads[t].(pc := OrphanPrevious))
  {
    hide ExecutePreviousPlace, Same;
    var s1, s2 := CaughtUp(s, t), ListsMoved(s, t);
    if s.threads[t].pc.advanced {
      assert s2.threads == s1.threads[t := s2.threads[t]];
    }
    assert s1.threads == s.threads[t := s1.threads[t]];
  }

  lemma LeaveFinishData(s: State, t: Tid)
    requires Data(s) && Threads(s) && Enabled(s, LeaveFinish(t))
    ensures Data(Next(s, LeaveFinish(t)))
  {
    hide Data, Threads, ExecutePreviousPlace, Next, CaughtUp, State.Put;
    LeaveFinishIs(s, t);
    LeftInTime(s, t);
    CaughtUpData(s, t);
    if s.threads[t].pc.advanced {
      Execute(CaughtUp(s, t), t, s.threads[t].pc.single, s.threads[t].pc.seen + 1);
    }
    MovedKeepsPc(s, t);
    TurnsOrphan(ListsMoved(s, t), t);
  }

  lemma MovedKeepsPc(s: State, t: Tid)
    requires t in s.threads && s.threads[t].pc.Left?
    ensures t in ListsMoved(s, t).threads
    ensures ListsMoved(s, t).threads[t].pc == s.threads[t].pc && ListsMoved(s, t).threads[t].hold == s.threads[t].hold
  {
  }

  lemma LeftInTime(s: State, t: Tid)
    requires Threads(s) && t in s.threads && s.threads[t].pc.Left?
    ensures s.threads[t].pc.seen + (if s.threads[t].pc.advanced then 1 else 0) <= s.epoch
  {
    ThreadOk(s, t);
  }

  lemma LeaveFinishStep(s: State, t: Tid)
    requires Inv(s) && Enabled(s, LeaveFinish(t))
    ensures Inv(Next(s, LeaveFinish(t)))
  {
    hide Data, Counts, Exclusive, Threads;
    ThreadOk(s, t);
    ControlFrame(s, Next(s, LeaveFinish(t)), t);
    LeaveFinishData(s, t);
  }

  /** Pushing a list moves it to the orphans. */
  lemma PushThreadPlaces(place: map<Ptr, Place>, t: Tid, th: Thread)
    requires ThreadPlaces(place, t, th) && th.pc in {OrphanPrevious, OrphanCurrent}
    ensures th.pc == OrphanPrevious ==>
              ThreadPlaces(Move(place, PrevOf(t), OrphanedPrevious), t, th.(pc := OrphanCurrent, previous := {}))
    ensures th.pc == OrphanCurrent ==>
              ThreadPlaces(Move(place, CurOf(t), OrphanedCurrent), t, th.(pc := Out, current := {}))
  {
    hide PlacedAt, Move;
    var from, to := if th.pc == OrphanPrevious then PrevOf(t) else CurOf(t),
                    if th.pc == OrphanPrevious then OrphanedPrevious else OrphanedCurrent;
    MovedAt(place, from, to, PrevOf(t));
    MovedAt(place, from, to, CurOf(t));
    MovedAt(place, from, to, InCall(t));
    MovedAt(place, from, to, HandPrevious(t));
    MovedAt(place, from, to, HandCurrent(t));
  }

  lemma OwnLists(s: State, t: Tid)
    requires Places(s) && t in s.threads
    ensures ThreadPlaces(s.place, t, s.threads[t])
    ensures s.threads[t].previous == PlacedAt(s.place, PrevOf(t)) && s.threads[t].current == PlacedAt(s.place, CurOf(t))
  {
  }

  lemma PushControl(s: State, step: Step)
    requires Control(s) && Enabled(s, step) && (step.PushPrevious? || step.PushCurrent?)
    ensures Control(Next(s, step)) && s.threads[step.t].hold == {}
  {
    hide Control, Move;
    ControlThread(s, step.t);
    ControlFrame(s, Next(s, step), step.t);
  }

  lemma ControlThread(s: State, t: Tid)
    requires Control(s) && t in s.threads
    ensures ThreadEpochs(s.threads[t], s.epoch)
  {
    ThreadOk(s, t);
  }

  lemma PushPreviousStep(s: State, t: Tid)
    requires Inv(s) && Enabled(s, PushPrevious(t))
    ensures Inv(Next(s, PushPrevious(t)))
  {
    hide Control, Requests, Holds, Move, ThreadPlaces, PlacedAt;
    var s', th := Next(s, PushPrevious(t)), s.threads[t];
    PushControl(s, PushPrevious(t));
    OwnLists(s, t);
    PushThreadPlaces(s.place, t, th);
    MovedAt(s.place, PrevOf(t), OrphanedPrevious, OrphanedPrevious);
    MovedAt(s.place, PrevOf(t), OrphanedPrevious, OrphanedCurrent);
    MovePlaces(s, s', t, PrevOf(t), OrphanedPrevious);
    MoveRequests(s, s', t, PrevOf(t), OrphanedPrevious);
    MoveHolds(s, s', t, PrevOf(t), OrphanedPrevious);
  }

  lemma PushCurrentStep(s: State, t: Tid)
    requires Inv(s) && Enabled(s, PushCurrent(t))
    ensures Inv(Next(s, PushCurrent(t)))
  {
    hide Control, Requests, Holds, Move, ThreadPlaces, PlacedAt;
    var s', th := Next(s, PushCurrent(t)), s.threads[t];
    PushControl(s, PushCurrent(t));
    OwnLists(s, t);
    PushThreadPlaces(s.place, t, th);
    MovedAt(s.place, CurOf(t), OrphanedCurrent, OrphanedPrevious);
    MovedAt(s.place, CurOf(t), OrphanedCurrent, OrphanedCurrent);
    MovePlaces(s, s', t, CurOf(t), OrphanedCurrent);
    MoveRequests(s, s', t, CurOf(t), OrphanedCurrent);
    MoveHolds(s, s', t, CurOf(t), OrphanedCurrent);
  }

  /** The invariant survives every step. */
  lemma StepKeepsInv(s: State, step: Step)
    requires Inv(s) && Enabled(s, step)
    ensures Inv(Next(s, step))
  {
    hide Inv, Next, Enabled;
    var t := step.t;
    match step
    case Acquire(_, p) => AcquireStep(s, t, p);
    case Release(_, p) => ReleaseStep(s, t, p);
    case Unlink(_, p) => UnlinkStep(s, t, p);
    case RegLoad(_) => RegLoadStep(s, t);
    case RegCas(_) => RegCasStep(s, t);
    case RegSpinLoad(_) => RegSpinStep(s, t);
    case RetLoad(_, p) => RetLoadStep(s, t, p);
    case RetFinish(_) => RetFinishStep(s, t);
    case QLoad(_) => QLoadStep(s, t);
    case QLocal(_) => QLocalStep(s, t);
    case QFetchSub(_) => QFetchSubStep(s, t);
    case HandleOrphans(_) => HandleStep(s, t);
    case ChangeLoad(_) => ChangeLoadStep(s, t);
    case ChangeCas(_) => ChangeCasStep(s, t);
    case ChangeFinish(_) => ChangeFinishStep(s, t);
    case LeaveLoad(_) => LeaveLoadStep(s, t);
    case LeaveCas(_) => LeaveCasStep(s, t);
    case LeaveFinish(_) => LeaveFinishStep(s, t);
    case PushPrevious(_) => PushPreviousStep(s, t);
    case PushCurrent(_) => PushCurrentStep(s, t);
  }

  lemma InitialInv(s: State)
    requires Initial(s)
    ensures Inv(s)
  {
    assert RegisteredThreads(s) == {};
    assert OwingThreads(s) == {};
  }
}

/** What every step of the reclamation protocol keeps, in every interleaving. */
module QsbrInvariant {
  import opened QsbrProtocol

  /** Counted in the thread count of the state word. */
  ghost predicate IsRegistered(pc: Pc) {
    match pc
    case Out | RegLoaded(_) | Left(_, _, _) | OrphanPrevious | OrphanCurrent => false
    case _ => true
  }

  ghost predicate IsHandling(pc: Pc) {
    pc.Changing? || pc.Leaving?
  }

  /** The thread still has to pass a quiescent state before epoch `e` may end. */
  ghost predicate Owes(th: Thread, e: nat) {
    match th.pc
    case RegSpin(start) => start != e
    case Changing(_, _, _, _) => false
    case _ => th.quiescentEpoch != e || th.quiescentStates == 0
  }

  ghost function RegisteredThreads(s: State): set<Tid> {
    set t | t in s.threads && IsRegistered(s.threads[t].pc)
  }

  ghost function OwingThreads(s: State): set<Tid> {
    set t | t in s.threads && IsRegistered(s.threads[t].pc) && Owes(s.threads[t], s.epoch)
  }

  ghost predicate Counts(s: State) {
    s.count == |RegisteredThreads(s)| && s.inPrevious == |OwingThreads(s)|
  }

  /** A registered thread's epochs lag the global one by at most one. */
  ghost predicate Lag(th: Thread, e: nat) {
    th.quiescentEpoch <= th.seenEpoch <= e <= th.quiescentEpoch + 1
  }

  ghost predicate ThreadEpochs(th: Thread, epoch: nat) {
    && th.seenEpoch <= epoch
    && (!th.pc.Idle? && !th.pc.RetLoaded? ==> th.hold == {})
    && match th.pc
       case Out => th.previous == th.current == {}
       case RegLoaded(_) => th.previous == th.current == {}
       case RegSpin(start) => start <= epoch <= start + 1 && th.previous == th.current == {}
       case Idle => Lag(th, epoch)
       case RetLoaded(_, e, _) => Lag(th, epoch) && th.seenEpoch <= e <= epoch
       case QLoaded(e, _) =>
         Lag(th, epoch) && th.seenEpoch <= e <= epoch
         && (th.quiescentEpoch != e || th.quiescentStates == 0 ==> e == epoch)
       case QReady(e, _) => th.quiescentEpoch == th.seenEpoch == e == epoch && th.quiescentStates == 0
       case Changing(_, e, _, _) => th.quiescentEpoch == th.seenEpoch == e == epoch && th.quiescentStates == 0
       case Changed(e, _) => th.quiescentEpoch == th.seenEpoch == e && epoch == e + 1 && th.quiescentStates == 0
       case Leaving(_, w, e) =>
         Lag(th, epoch) && e == epoch && w.epoch == EpochValue(e) && Advances(w, th)
       case LeaveReady(w, e, _) => Lag(th, epoch) && th.seenEpoch <= e <= epoch && w.epoch == EpochValue(e)
       case Left(e, _, advanced) =>
         th.seenEpoch <= e <= th.seenEpoch + 1 && e + (if advanced then 1 else 0) <= epoch
       case OrphanPrevious => true
       case OrphanCurrent => th.previous == {}
  }

  ghost predicate Threads(s: State) {
    forall t :: t in s.threads ==> ThreadEpochs(s.threads[t], s.epoch)
  }

  /** At most one thread handles orphans, and the word shows zero exactly during a change. */
  ghost predicate Exclusive(s: State) {
    && (forall t, u :: t in s.threads && u in s.threads && IsHandling(s.threads[t].pc) && IsHandling(s.threads[u].pc) ==> t == u)
    && (forall t :: t in s.threads && s.threads[t].pc.Changing? ==> s.inPrevious == 0 && s.count > 0)
    && (s.inPrevious == 0 && s.count > 0 ==> exists t :: t in s.threads && s.threads[t].pc.Changing?)
  }

  /** The age of a request, by where it is; a thread's own are freed two epochs on, or one when single. */
  ghost predicate RequestOk(place: Place, requested: nat, threads: map<Tid, Thread>) {
    match place
    case InCall(t) => t in threads && threads[t].pc.RetLoaded? && requested == threads[t].pc.seen
    case PrevOf(t) => t in threads && requested + 1 == threads[t].seenEpoch
    case CurOf(t) => t in threads && requested == threads[t].seenEpoch
    case HandPrevious(t) => t in threads
    case HandCurrent(t) => t in threads
    case Freed(how) => how.Own? ==> how.epoch == requested + 2 || (how.single && how.epoch == requested + 1)
    case _ => true
  }

  ghost predicate Requests(s: State) {
    && s.place.Keys == s.requested.Keys
    && (forall p :: p in s.unlinked ==> s.unlinked[p] <= s.epoch)
    && (forall p :: p in s.requested ==> p in s.unlinked && s.unlinked[p] <= s.requested[p] <= s.epoch)
    && (forall p :: p in s.requested ==> p in s.place && RequestOk(s.place[p], s.requested[p], s.threads))
  }

  ghost function TakenPrevious(pc: Pc): set<Ptr> {
    if !IsHandling(pc) then {} else
    match pc.stage
    case TakeCurrent(hp) => hp
    case FreeTaken(hp, _) => hp
    case _ => {}
  }

  ghost function TakenCurrent(pc: Pc): set<Ptr> {
    if !IsHandling(pc) then {} else
    match pc.stage
    case FreeTaken(_, hc) => hc
    case Publish(hc) => hc
    case Append(hc) => hc
    case _ => {}
  }

  ghost function PlacedAt(place: map<Ptr, Place>, where_: Place): set<Ptr> {
    set p | p in place && place[p] == where_
  }

  /** The code's lists hold exactly the requests the history variable places there. */
  ghost predicate ThreadPlaces(place: map<Ptr, Place>, t: Tid, th: Thread) {
    && th.previous == PlacedAt(place, PrevOf(t))
    && th.current == PlacedAt(place, CurOf(t))
    && TakenPrevious(th.pc) == PlacedAt(place, HandPrevious(t))
    && TakenCurrent(th.pc) == PlacedAt(place, HandCurrent(t))
    && (if th.pc.RetLoaded? then {th.pc.ptr} else {}) == PlacedAt(place, InCall(t))
  }

  ghost predicate Places(s: State) {
    && (forall t :: t in s.threads ==> ThreadPlaces(s.place, t, s.threads[t]))
    && s.orphanPrevious == PlacedAt(s.place, OrphanedPrevious)
    && s.orphanCurrent == PlacedAt(s.place, OrphanedCurrent)
  }

  /** Nobody is in single-thread mode on a list some other thread may still point into. */
  ghost predicate SinglePc(pc: Pc) {
    match pc
    case RetLoaded(_, _, single) => single
    case QLoaded(_, single) => single
    case QReady(_, single) => single
    case Changing(_, _, single, _) => single
    case Changed(_, single) => single
    case Left(_, single, _) => single
    case _ => false
  }

  ghost predicate OwnedBy(place: Place, t: Tid) {
    place == PrevOf(t) || place == CurOf(t) || place == InCall(t)
  }

  /** The holder `t` of a pointer is not its retirer, and no retirer in single-thread mode has holders. */
  ghost predicate HolderOk(place: Place, t: Tid, threads: map<Tid, Thread>) {
    match place
    case InCall(o) => o != t && (o in threads ==> !SinglePc(threads[o].pc))
    case PrevOf(o) => o != t && (o in threads ==> !SinglePc(threads[o].pc))
    case CurOf(o) => o != t && (o in threads ==> !SinglePc(threads[o].pc))
    case Freed(how) => how.Orphan?
    case _ => true
  }

  /** What a thread may hold of the pointer `p`, given where its request is. */
  ghost predicate HoldOk(s: State, t: Tid, p: Ptr)
    requires t in s.threads
  {
    p in s.threads[t].hold && p in s.unlinked ==>
      && s.epoch <= s.unlinked[p] + 1
      && (s.epoch == s.unlinked[p] + 1 ==> Owes(s.threads[t], s.epoch))
      && (p in s.place ==> HolderOk(s.place[p], t, s.threads))
  }

  ghost predicate Holds(s: State) {
    forall t, p :: t in s.threads ==> HoldOk(s, t, p)
  }

  /** Counters, program counters and epochs. */
  ghost predicate Control(s: State) {
    Counts(s) && Threads(s) && Exclusive(s)
  }

  /** Requests, the lists they are in, and who may still point to them. */
  ghost predicate Data(s: State) {
    Requests(s) && Places(s) && Holds(s)
  }

  ghost predicate Inv(s: State) {
    Control(s) && Data(s)
  }

  // ---- sets of threads -------------------------------------------------------------------

  lemma SingletonOf<T>(a: set<T>, x: T)
    requires |a| == 1 && x in a
    ensures a == {x}
  {
    assert |a - {x}| == 0;
    assert a == {x} + (a - {x});
  }

  /** With one owing thread left, it is the only one. */
  lemma OnlyOwing(s: State, t: Tid)
    requires Counts(s) && s.inPrevious == 1
    requires t in OwingThreads(s)
    ensures OwingThreads(s) == {t}
  {
    SingletonOf(OwingThreads(s), t);
  }

  /** In single-thread mode a registered thread is alone. */
  lemma OnlyRegistered(s: State, t: Tid)
    requires Counts(s) && s.count < 2
    requires t in RegisteredThreads(s)
    ensures RegisteredThreads(s) == {t}
  {
    SingletonOf(RegisteredThreads(s), t);
  }

  // ---- frames ----------------------------------------------------------------------------

  ghost predicate OnlyThread(s: State, s': State, t: Tid) {
    && t in s.threads && s'.threads.Keys == s.threads.Keys
    && forall u :: u in s.threads && u != t ==> s'.threads[u] == s.threads[u]
  }

  /** A step that keeps thread `t`'s registration and debt keeps the counters right. */
  lemma SameCounts(s: State, s': State, t: Tid)
    requires Counts(s) && OnlyThread(s, s', t)
    requires IsRegistered(s'.threads[t].pc) == IsRegistered(s.threads[t].pc)
    requires IsRegistered(s.threads[t].pc) ==> Owes(s'.threads[t], s.epoch) == Owes(s.threads[t], s.epoch)
    requires s'.epoch == s.epoch && s'.count == s.count && s'.inPrevious == s.inPrevious
    ensures Counts(s')
  {
    assert RegisteredThreads(s') == RegisteredThreads(s);
    assert OwingThreads(s') == OwingThreads(s);
  }

  lemma ThreadsFrame(s: State, s': State, t: Tid)
    requires Threads(s) && OnlyThread(s, s', t) && s'.epoch == s.epoch
    requires ThreadEpochs(s'.threads[t], s.epoch)
    ensures Threads(s')
  {
  }

  lemma ExclusiveFrame(s: State, s': State, t: Tid)
    requires Exclusive(s) && OnlyThread(s, s', t)
    requires s'.threads[t].pc.Changing? == s.threads[t].pc.Changing?
    requires IsHandling(s'.threads[t].pc) ==> IsHandling(s.threads[t].pc)
    requires s'.inPrevious == 0 && s'.count > 0 <==> s.inPrevious == 0 && s.count > 0
    ensures Exclusive(s')
  {
    if s'.inPrevious == 0 && s'.count > 0 {
      var c :| c in s.threads && s.threads[c].pc.Changing?;
      assert s'.threads[c].pc.Changing?;
    }
  }

  lemma ThreadOk(s: State, t: Tid)
    requires Threads(s) && t in s.threads
    ensures ThreadEpochs(s.threads[t], s.epoch)
  {
  }

  /** A step that keeps the state word and thread `t`'s standing in it. */
  lemma ControlFrame(s: State, s': State, t: Tid)
    requires Control(s) && OnlyThread(s, s', t)
    requires s'.epoch == s.epoch && s'.count == s.count && s'.inPrevious == s.inPrevious
    requires IsRegistered(s'.threads[t].pc) == IsRegistered(s.threads[t].pc)
    requires IsRegistered(s.threads[t].pc) ==> Owes(s'.threads[t], s.epoch) == Owes(s.threads[t], s.epoch)
    requires s'.threads[t].pc.Changing? == s.threads[t].pc.Changing?
    requires IsHandling(s'.threads[t].pc) ==> IsHandling(s.threads[t].pc)
    requires ThreadEpochs(s'.threads[t], s.epoch)
    ensures Control(s')
  {
    hide Counts, Threads, Exclusive;
    SameCounts(s, s', t);
    ThreadsFrame(s, s', t);
    ExclusiveFrame(s, s', t);
  }

  /** The request side of the state is untouched. */
  ghost predicate SameData(s: State, s': State) {
    && s'.epoch == s.epoch && s'.orphanPrevious == s.orphanPrevious && s'.orphanCurrent == s.orphanCurrent
    && s'.unlinked == s.unlinked && s'.requested == s.requested && s'.place == s.place
  }

  ghost predicate NoLists(th: Thread) {
    th.previous == th.current == {}
  }

  /** Thread `t` moves on without touching its lists. */
  ghost predicate SameLists(th: Thread, th': Thread) {
    && th'.previous == th.previous && th'.current == th.current && th'.hold == th.hold
    && TakenPrevious(th'.pc) == TakenPrevious(th.pc) && TakenCurrent(th'.pc) == TakenCurrent(th.pc)
    && !th.pc.RetLoaded? && !th'.pc.RetLoaded?
    && (th'.seenEpoch == th.seenEpoch || NoLists(th))
  }

  ghost predicate Unheld(s: State, p: Ptr) {
    forall u :: u in s.threads ==> p !in s.threads[u].hold
  }

  ghost predicate ListsUnheld(s: State, t: Tid) {
    forall p :: p in s.place && OwnedBy(s.place[p], t) ==> Unheld(s, p)
  }

  lemma QuietPlaces(s: State, s': State, t: Tid)
    requires Places(s) && OnlyThread(s, s', t) && SameData(s, s')
    requires SameLists(s.threads[t], s'.threads[t])
    ensures Places(s')
  {
    assert ThreadPlaces(s.place, t, s.threads[t]);
  }

  lemma QuietRequests(s: State, s': State, t: Tid)
    requires Requests(s) && OnlyThread(s, s', t) && SameData(s, s')
    requires ThreadPlaces(s.place, t, s.threads[t])
    requires SameLists(s.threads[t], s'.threads[t])
    ensures Requests(s')
  {
    forall p | p in s.requested ensures RequestOk(s.place[p], s.requested[p], s'.threads) {
      assert RequestOk(s.place[p], s.requested[p], s.threads);
      assert s.place[p] == PrevOf(t) ==> p in PlacedAt(s.place, PrevOf(t));
      assert s.place[p] == CurOf(t) ==> p in PlacedAt(s.place, CurOf(t));
    }
  }

  lemma QuietHolds(s: State, s': State, t: Tid)
    requires Holds(s) && OnlyThread(s, s', t) && SameData(s, s')
    requires s'.threads[t].hold == s.threads[t].hold
    requires s.threads[t].hold != {} && Owes(s.threads[t], s.epoch) ==> Owes(s'.threads[t], s.epoch)
    requires SinglePc(s'.threads[t].pc) && !SinglePc(s.threads[t].pc) ==> ListsUnheld(s, t)
    ensures Holds(s')
  {
    forall u, p | u in s'.threads ensures HoldOk(s', u, p) {
      assert HoldOk(s, u, p);
    }
  }

  lemma Quiet(s: State, s': State, t: Tid)
    requires Data(s) && OnlyThread(s, s', t) && SameData(s, s')
    requires SameLists(s.threads[t], s'.threads[t])
    requires s.threads[t].hold != {} && Owes(s.threads[t], s.epoch) ==> Owes(s'.threads[t], s.epoch)
    requires SinglePc(s'.threads[t].pc) && !SinglePc(s.threads[t].pc) ==> ListsUnheld(s, t)
    ensures Data(s')
  {
    QuietPlaces(s, s', t);
    QuietRequests(s, s', t);
    QuietHolds(s, s', t);
  }

  lemma AloneUnheld(s: State, t: Tid)
    requires Counts(s) && Threads(s) && Requests(s) && Holds(s) && s.count < 2
    requires t in s.threads && IsRegistered(s.threads[t].pc)
    ensures ListsUnheld(s, t)
  {
    OnlyRegistered(s, t);
    forall p, u | p in s.place && OwnedBy(s.place[p], t) && u in s.threads ensures p !in s.threads[u].hold {
      if u == t {
        assert HoldOk(s, u, p);
        assert p in s.requested;
      } else {
        assert u !in RegisteredThreads(s);
        assert ThreadEpochs(s.threads[u], s.epoch);
      }
    }
  }

  ghost function Executed(s: State, t: Tid, single: bool, e: nat): State
    requires t in s.threads
  {
    s.Put(t, ExecutePrevious(s.threads[t], single, e, {})).(place := ExecutePreviousPlace(s.place, t, single, e))
  }

  lemma ExecutedAt(place: map<Ptr, Place>, t: Tid, single: bool, e: nat)
    ensures var place' := ExecutePreviousPlace(place, t, single, e);
            && (forall w: Place :: !w.Freed? && w != PrevOf(t) && w != CurOf(t) ==> PlacedAt(place', w) == PlacedAt(place, w))
            && PlacedAt(place', CurOf(t)) == {}
            && PlacedAt(place', PrevOf(t)) == if single then {} else PlacedAt(place, CurOf(t))
  {
  }

  lemma ExecuteThreadPlaces(place: map<Ptr, Place>, t: Tid, single: bool, e: nat, u: Tid, th: Thread)
    requires ThreadPlaces(place, u, th)
    ensures var place' := ExecutePreviousPlace(place, t, single, e);
            ThreadPlaces(place', u, if u == t then ExecutePrevious(th, single, e, {}) else th)
  {
    ExecutedAt(place, t, single, e);
  }

  lemma ExecutePlaces(s: State, t: Tid, single: bool, e: nat)
    requires Places(s) && t in s.threads
    ensures Places(Executed(s, t, single, e))
  {
    var s' := Executed(s, t, single, e);
    forall u | u in s.threads ensures ThreadPlaces(s'.place, u, s'.threads[u]) {
      ExecuteThreadPlaces(s.place, t, single, e, u, s.threads[u]);
    }
    ExecutedAt(s.place, t, single, e);
  }

  lemma ExecuteRequests(s: State, t: Tid, single: bool, e: nat)
    requires Requests(s) && t in s.threads
    requires e == s.threads[t].seenEpoch + 1
    ensures Requests(Executed(s, t, single, e))
  {
    var s' := Executed(s, t, single, e);
    forall p | p in s.requested ensures RequestOk(s'.place[p], s'.requested[p], s'.threads) {
      assert RequestOk(s.place[p], s.requested[p], s.threads);
    }
  }

  /** execute_previous_requests frees only pointers nobody may hold. */
  lemma ExecuteHolds(s: State, t: Tid, single: bool, e: nat)
    requires Requests(s) && Holds(s) && t in s.threads
    requires e == s.threads[t].seenEpoch + 1 && e <= s.epoch
    requires single ==> SinglePc(s.threads[t].pc)
    ensures Holds(Executed(s, t, single, e))
  {
    var s' := Executed(s, t, single, e);
    forall u, p | u in s'.threads ensures HoldOk(s', u, p) {
      assert HoldOk(s, u, p);
      if p in s.threads[u].hold && p in s.requested {
        assert RequestOk(s.place[p], s.requested[p], s.threads);
      }
    }
  }

  lemma Execute(s: State, t: Tid, single: bool, e: nat)
    requires Data(s) && t in s.threads
    requires e == s.threads[t].seenEpoch + 1 && e <= s.epoch
    requires single ==> SinglePc(s.threads[t].pc)
    ensures Data(Executed(s, t, single, e))
  {
    ExecutePlaces(s, t, single, e);
    ExecuteRequests(s, t, single, e);
    ExecuteHolds(s, t, single, e);
  }
}

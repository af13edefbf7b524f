/** The QSBR reclamation protocol of qsbr.cpp and qsbr.hpp as a state machine.

    Every atomic load, exchange, compare-and-swap and fetch_sub of the code is a step of
    its own; thread-local work between two atomic operations is one step. Any number of
    threads interleave freely.

    Epochs are kept unbounded, as a history variable: the code only ever sees them modulo
    four, so every comparison below goes through `Same`. */
module QsbrProtocol {

  type Tid = nat
  /** Identity of one allocation; a reused address is a new identity. */
  type Ptr = nat

  const MAX_EPOCHS := 4

  /** The two-bit value the code stores for an epoch. */
  function EpochValue(e: nat): nat {
    e % MAX_EPOCHS
  }

  /** Epoch equality as the code decides it. */
  predicate Same(e: nat, f: nat) {
    EpochValue(e) == EpochValue(f)
  }

  /** The three fields of the packed state word. */
  datatype Word = Word(epoch: nat, threads: nat, inPrevious: nat)

  /** Progress of the orphan handling that precedes an epoch change. */
  datatype Stage =
    | TakePrevious
    | TakeCurrent(takenPrevious: set<Ptr>)
    | FreeTaken(takenPrevious: set<Ptr>, takenCurrent: set<Ptr>)
    | Publish(takenCurrent: set<Ptr>)
    | Append(takenCurrent: set<Ptr>)
    | Rotated
    | CasReady(word: Word)

  datatype Pc =
    | Out                                                  // not registered, or paused
    | RegLoaded(word: Word)                                // register_thread, before its CAS
    | RegSpin(oldEpoch: nat)                               // counted in, waiting for the change
    | Idle                                                 // participating
    | RetLoaded(ptr: Ptr, seen: nat, single: bool)         // on_next_epoch_deallocate, state loaded
    | QLoaded(seen: nat, single: bool)                     // quiescent, state loaded
    | QReady(seen: nat, single: bool)                      // quiescent, before the fetch_sub
    | Changing(stage: Stage, seen: nat, single: bool, orphanSingle: bool)
    | Changed(seen: nat, single: bool)                     // epoch changed, own lists not yet moved
    | Leaving(stage: Stage, word: Word, seen: nat)         // unregister_thread, handling orphans
    | LeaveReady(word: Word, seen: nat, prepared: bool)    // unregister_thread, before its CAS
    | Left(seen: nat, single: bool, advanced: bool)        // CAS done, own lists not yet moved
    | OrphanPrevious                                       // pushing the previous-interval list
    | OrphanCurrent                                        // pushing the current-interval list

  /** `hold` is what the thread may still point to: a history variable, not code state. */
  datatype Thread = Thread(
    pc: Pc,
    quiescentStates: nat,
    quiescentEpoch: nat,    // last_seen_quiescent_state_epoch
    seenEpoch: nat,         // last_seen_epoch
    previous: set<Ptr>,
    current: set<Ptr>,
    hold: set<Ptr>)

  datatype How = AtOnce | Own(epoch: nat, single: bool) | Orphan

  /** Where a submitted request currently is: a history variable. */
  datatype Place =
    | InCall(t: Tid)
    | PrevOf(t: Tid)
    | CurOf(t: Tid)
    | OrphanedPrevious
    | OrphanedCurrent
    | HandPrevious(t: Tid)
    | HandCurrent(t: Tid)
    | Freed(how: How)

  datatype State = State(
    epoch: nat,
    count: nat,
    inPrevious: nat,
    orphanPrevious: set<Ptr>,
    orphanCurrent: set<Ptr>,
    threads: map<Tid, Thread>,
    unlinked: map<Ptr, nat>,   // epoch at which a pointer became unreachable
    requested: map<Ptr, nat>,  // epoch of its deallocation request
    place: map<Ptr, Place>)
  {
    function StateWord(): Word {
      Word(EpochValue(epoch), count, inPrevious)
    }

    function Put(t: Tid, th: Thread): State {
      this.(threads := threads[t := th])
    }
  }

  predicate SingleThreadMode(w: Word) {
    w.threads < 2
  }

  /** unregister_thread's remove_thread_from_old_epoch. */
  predicate RemovesFromPrevious(w: Word, th: Thread) {
    EpochValue(th.quiescentEpoch) != w.epoch || th.quiescentStates == 0
  }

  /** unregister_thread's advance_epoch. */
  predicate Advances(w: Word, th: Thread) {
    w.inPrevious > 0 && RemovesFromPrevious(w, th) && w.inPrevious == 1
  }

  // ---- own lists -------------------------------------------------------------------------

  /** execute_previous_requests: free the previous list, rotate or free the current one. */
  function ExecutePrevious(th: Thread, single: bool, e: nat, newCurrent: set<Ptr>): Thread {
    th.(seenEpoch := e, previous := if single then {} else th.current, current := newCurrent)
  }

  function ExecutePreviousPlace(place: map<Ptr, Place>, t: Tid, single: bool, e: nat): map<Ptr, Place> {
    map p | p in place ::
      if place[p] == PrevOf(t) then Freed(Own(e, single))
      else if place[p] == CurOf(t) then if single then Freed(Own(e, single)) else PrevOf(t)
      else place[p]
  }

  /** advance_last_seen_epoch. */
  function AdvanceSeen(th: Thread, single: bool, e: nat, newCurrent: set<Ptr>): Thread {
    if Same(e, th.seenEpoch) then th else ExecutePrevious(th, single, e, newCurrent)
  }

  function AdvanceSeenPlace(place: map<Ptr, Place>, t: Tid, th: Thread, single: bool, e: nat): map<Ptr, Place> {
    if Same(e, th.seenEpoch) then place else ExecutePreviousPlace(place, t, single, e)
  }

  function Move(place: map<Ptr, Place>, from: Place, to: Place): map<Ptr, Place> {
    map p | p in place :: if place[p] == from then to else place[p]
  }

  // ---- steps -----------------------------------------------------------------------------

  datatype Step =
    | Acquire(t: Tid, p: Ptr)     // take a pointer to a still linked object
    | Release(t: Tid, p: Ptr)
    | Unlink(t: Tid, p: Ptr)      // make an object unreachable for new readers
    | RegLoad(t: Tid)
    | RegCas(t: Tid)
    | RegSpinLoad(t: Tid)
    | RetLoad(t: Tid, p: Ptr)
    | RetFinish(t: Tid)
    | QLoad(t: Tid)
    | QLocal(t: Tid)
    | QFetchSub(t: Tid)
    | HandleOrphans(t: Tid)       // one atomic operation on the orphan lists
    | ChangeLoad(t: Tid)
    | ChangeCas(t: Tid)
    | ChangeFinish(t: Tid)
    | LeaveLoad(t: Tid)
    | LeaveCas(t: Tid)
    | LeaveFinish(t: Tid)
    | PushPrevious(t: Tid)
    | PushCurrent(t: Tid)

  /** When a step may be taken. A failed or spurious CAS is a repeated load. */
  predicate Enabled(s: State, step: Step) {
    step.t in s.threads &&
    var th := s.threads[step.t];
    match step
    case Acquire(_, p) => th.pc == Idle && p !in s.unlinked
    case Release(_, p) => th.pc == Idle && p in th.hold
    case Unlink(_, p) => th.pc == Idle && p !in s.unlinked
    case RegLoad(_) => th.pc == Out || th.pc.RegLoaded?
    case RegCas(_) => th.pc == RegLoaded(s.StateWord())
    case RegSpinLoad(_) => th.pc.RegSpin?
    // The caller has no further use for the pointer it submits.
    case RetLoad(_, p) => th.pc == Idle && p in s.unlinked && p !in s.place && p !in th.hold
    case RetFinish(_) => th.pc.RetLoaded?
    case QLoad(_) => th.pc == Idle && th.hold == {}
    case QLocal(_) => th.pc.QLoaded?
    case QFetchSub(_) => th.pc.QReady? && s.inPrevious > 0
    case HandleOrphans(_) =>
      (th.pc.Changing? || th.pc.Leaving?) && !th.pc.stage.Rotated? && !th.pc.stage.CasReady?
    case ChangeLoad(_) => th.pc.Changing? && (th.pc.stage.Rotated? || th.pc.stage.CasReady?)
    case ChangeCas(_) => th.pc.Changing? && th.pc.stage == CasReady(s.StateWord())
    case ChangeFinish(_) => th.pc.Changed?
    case LeaveLoad(_) => (th.pc == Idle && th.hold == {}) || th.pc.LeaveReady?
    case LeaveCas(_) => th.pc.LeaveReady? && th.pc.word == s.StateWord() && s.count > 0
    case LeaveFinish(_) => th.pc.Left?
    case PushPrevious(_) => th.pc == OrphanPrevious
    case PushCurrent(_) => th.pc == OrphanCurrent
  }

  function Next(s: State, step: Step): State
    requires Enabled(s, step)
  {
    var t, th := step.t, s.threads[step.t];
    match step
    case Acquire(_, p) => s.Put(t, th.(hold := th.hold + {p}))
    case Release(_, p) => s.Put(t, th.(hold := th.hold - {p}))
    case Unlink(_, p) => s.(unlinked := s.unlinked[p := s.epoch])
    case RegLoad(_) => s.Put(t, th.(pc := RegLoaded(s.StateWord())))
    case RegCas(_) => NextRegCas(s, t, th)
    case RegSpinLoad(_) =>
      if Same(s.epoch, th.pc.oldEpoch) then s else s.Put(t, Registered(th, s.epoch))
    case RetLoad(_, p) =>
      s.Put(t, th.(pc := RetLoaded(p, s.epoch, SingleThreadMode(s.StateWord()))))
       .(requested := s.requested[p := s.epoch], place := s.place[p := InCall(t)])
    case RetFinish(_) => NextRetFinish(s, t, th)
    case QLoad(_) => s.Put(t, th.(pc := QLoaded(s.epoch, SingleThreadMode(s.StateWord()))))
    case QLocal(_) => NextQLocal(s, t, th)
    case QFetchSub(_) => NextQFetchSub(s, t, th)
    case HandleOrphans(_) => NextHandleOrphans(s, t, th)
    case ChangeLoad(_) => s.Put(t, th.(pc := th.pc.(stage := CasReady(s.StateWord()))))
    case ChangeCas(_) =>
      // inc_epoch_reset_previous
      s.Put(t, th.(pc := Changed(th.pc.seen, th.pc.single)))
       .(epoch := s.epoch + 1, inPrevious := s.count)
    case ChangeFinish(_) => NextChangeFinish(s, t, th)
    case LeaveLoad(_) => NextLeaveLoad(s, t, th)
    case LeaveCas(_) => NextLeaveCas(s, t, th)
    case LeaveFinish(_) => NextLeaveFinish(s, t, th)
    case PushPrevious(_) =>
      s.Put(t, th.(pc := OrphanCurrent, previous := {}))
       .(orphanPrevious := s.orphanPrevious + th.previous,
         place := Move(s.place, PrevOf(t), OrphanedPrevious))
    case PushCurrent(_) =>
      s.Put(t, th.(pc := Out, current := {}))
       .(orphanCurrent := s.orphanCurrent + th.current,
         place := Move(s.place, CurOf(t), OrphanedCurrent))
  }

  /** What the constructor and qsbr_resume set after register_thread returned `e`. */
  function Registered(th: Thread, e: nat): Thread {
    th.(pc := Idle, quiescentStates := 0, quiescentEpoch := e, seenEpoch := e)
  }

  function NextRegCas(s: State, t: Tid, th: Thread): State {
    if s.inPrevious > 0 || s.count == 0 then
      s.Put(t, Registered(th, s.epoch)).(count := s.count + 1, inPrevious := s.inPrevious + 1)
    else
      s.Put(t, th.(pc := RegSpin(s.epoch))).(count := s.count + 1)
  }

  function NextRetFinish(s: State, t: Tid, th: Thread): State
    requires th.pc.RetLoaded?
  {
    var RetLoaded(p, e, single) := th.pc;
    if single then
      var place := AdvanceSeenPlace(s.place, t, th, single, e);
      s.Put(t, AdvanceSeen(th, single, e, {}).(pc := Idle)).(place := place[p := Freed(AtOnce)])
    else if !Same(th.seenEpoch, e) then
      var place := AdvanceSeenPlace(s.place, t, th, single, e);
      s.Put(t, AdvanceSeen(th, single, e, {p}).(pc := Idle)).(place := place[p := CurOf(t)])
    else
      s.Put(t, th.(pc := Idle, current := th.current + {p})).(place := s.place[p := CurOf(t)])
  }

  /** The thread-local part of quiescent() up to its fetch_sub. */
  function NextQLocal(s: State, t: Tid, th: Thread): State
    requires th.pc.QLoaded?
  {
    var QLoaded(e, single) := th.pc;
    var place := AdvanceSeenPlace(s.place, t, th, single, e);
    var th1 := AdvanceSeen(th, single, e, {});
    var th2 := if Same(e, th1.quiescentEpoch) then th1 else th1.(quiescentEpoch := e, quiescentStates := 0);
    var th3 := if th2.quiescentStates == 0 then th2.(pc := QReady(e, single))
               else th2.(pc := Idle, quiescentStates := th2.quiescentStates + 1);
    s.Put(t, th3).(place := place)
  }

  /** remove_thread_from_previous_epoch up to the decision whether to change the epoch. */
  function NextQFetchSub(s: State, t: Tid, th: Thread): State
    requires th.pc.QReady? && s.inPrevious > 0
  {
    var QReady(e, single) := th.pc;
    var th' := if s.inPrevious > 1 then th.(pc := Idle, quiescentStates := th.quiescentStates + 1)
               else th.(pc := Changing(TakePrevious, e, single, SingleThreadMode(s.StateWord())));
    s.Put(t, th').(inPrevious := s.inPrevious - 1)
  }

  datatype Handled = Handled(
    stage: Stage, orphanPrevious: set<Ptr>, orphanCurrent: set<Ptr>, place: map<Ptr, Place>)

  /** One atomic operation of epoch_change_barrier_and_handle_orphans. */
  function Handle(s: State, t: Tid, stage: Stage, single: bool): Handled
    requires !stage.Rotated? && !stage.CasReady?
  {
    var previous, current, place := s.orphanPrevious, s.orphanCurrent, s.place;
    match stage
    case TakePrevious =>
      Handled(TakeCurrent(previous), {}, current, Move(place, OrphanedPrevious, HandPrevious(t)))
    case TakeCurrent(hp) =>
      Handled(FreeTaken(hp, current), previous, {}, Move(place, OrphanedCurrent, HandCurrent(t)))
    case FreeTaken(hp, hc) =>
      Handled(Publish(hc), previous, current, Move(place, HandPrevious(t), Freed(Orphan)))
    case Publish(hc) =>
      if single then
        Handled(Rotated, previous, current, Move(place, HandCurrent(t), Freed(Orphan)))
      else if previous == {} then
        Handled(Rotated, hc, current, Move(place, HandCurrent(t), OrphanedPrevious))
      else
        Handled(Append(hc), previous, current, place)
    case Append(hc) =>
      Handled(Rotated, previous + hc, current, Move(place, HandCurrent(t), OrphanedPrevious))
  }

  function NextHandleOrphans(s: State, t: Tid, th: Thread): State
    requires th.pc.Changing? || th.pc.Leaving?
    requires !th.pc.stage.Rotated? && !th.pc.stage.CasReady?
  {
    var single := if th.pc.Changing? then th.pc.orphanSingle else SingleThreadMode(th.pc.word);
    var h := Handle(s, t, th.pc.stage, single);
    var pc := if th.pc.Leaving? && h.stage.Rotated? then LeaveReady(th.pc.word, th.pc.seen, true)
              else th.pc.(stage := h.stage);
    s.Put(t, th.(pc := pc))
     .(orphanPrevious := h.orphanPrevious, orphanCurrent := h.orphanCurrent, place := h.place)
  }

  /** The rest of quiescent() in the thread that changed the epoch. */
  function NextChangeFinish(s: State, t: Tid, th: Thread): State
    requires th.pc.Changed?
  {
    var Changed(e, single) := th.pc;
    s.Put(t, ExecutePrevious(th, single, e + 1, {}).(pc := Idle, quiescentEpoch := e + 1))
     .(place := ExecutePreviousPlace(s.place, t, single, e + 1))
  }

  /** unregister_thread: (re)load the word and decide whether orphans have to be handled. */
  function NextLeaveLoad(s: State, t: Tid, th: Thread): State {
    var prepared := th.pc.LeaveReady? && th.pc.prepared;
    var w := s.StateWord();
    s.Put(t, th.(pc := if Advances(w, th) && !prepared then Leaving(TakePrevious, w, s.epoch)
                       else LeaveReady(w, s.epoch, prepared)))
  }

  function NextLeaveCas(s: State, t: Tid, th: Thread): State
    requires th.pc.LeaveReady? && th.pc.word == s.StateWord() && s.count > 0
  {
    var LeaveReady(w, e, _) := th.pc;
    if w.inPrevious == 0 then
      s.Put(t, th.(pc := OrphanPrevious)).(count := s.count - 1)
    else if Advances(w, th) then
      // inc_epoch_dec_thread_count_reset_previous
      s.Put(t, th.(pc := Left(e, SingleThreadMode(w), true)))
       .(epoch := s.epoch + 1, count := s.count - 1, inPrevious := s.count - 1)
    else if RemovesFromPrevious(w, th) then
      s.Put(t, th.(pc := Left(e, SingleThreadMode(w), false)))
       .(count := s.count - 1, inPrevious := s.inPrevious - 1)
    else
      s.Put(t, th.(pc := Left(e, SingleThreadMode(w), false))).(count := s.count - 1)
  }

  function NextLeaveFinish(s: State, t: Tid, th: Thread): State
    requires th.pc.Left?
  {
    var Left(e, single, advanced) := th.pc;
    var place := AdvanceSeenPlace(s.place, t, th, single, e);
    var th1 := AdvanceSeen(th, single, e, {});
    if advanced then
      s.Put(t, ExecutePrevious(th1, single, e + 1, {}).(pc := OrphanPrevious))
       .(place := ExecutePreviousPlace(place, t, single, e + 1))
    else
      s.Put(t, th1.(pc := OrphanPrevious)).(place := place)
  }

  // ---- runs ------------------------------------------------------------------------------

  predicate Initial(s: State) {
    && s.epoch == s.count == s.inPrevious == 0
    && s.orphanPrevious == s.orphanCurrent == {}
    && s.unlinked == s.requested == map[] && s.place == map[]
    && forall t :: t in s.threads ==> s.threads[t] == Thread(Out, 0, 0, 0, {}, {}, {})
  }

  /** A run: the states visited, and the step taken from each but the last. */
  ghost predicate IsRun(states: seq<State>, steps: seq<Step>) {
    && |states| == |steps| + 1
    && Initial(states[0])
    && forall i :: 0 <= i < |steps| ==> Enabled(states[i], steps[i]) && states[i + 1] == Next(states[i], steps[i])
  }
}

/** Why the orphan theorem needs its condition: unregister_thread handles the orphan lists before the
    compare-and-swap that is to advance the epoch, and a registration in between defeats both the
    single-thread mode it decided on and the advance itself. Two concrete runs, each ending with an
    orphan freed under the eyes of a thread that holds it. */
module QsbrHazard {
  import opened QsbrProtocol
  import opened QsbrOrphans

  const LEAVER: Tid := 0
  const RETIRER: Tid := 1
  const READER: Tid := 2
  const OBJECT: Ptr := 7

  ghost predicate HeldAfterFree(s: State) {
    && READER in s.threads && OBJECT in s.threads[READER].hold
    && OBJECT in s.place && s.place[OBJECT] == Freed(Orphan)
  }

  ghost predicate EndsIn(states: seq<State>, steps: seq<Step>, s: State) {
    IsRun(states, steps) && states[|steps|] == s
  }

  lemma Do(states: seq<State>, steps: seq<Step>, s: State, step: Step) returns (states': seq<State>, steps': seq<Step>)
    requires EndsIn(states, steps, s) && Enabled(s, step)
    ensures EndsIn(states', steps', Next(s, step))
  {
    states', steps' := states + [Next(s, step)], steps + [step];
    forall i | 0 <= i < |steps'|
      ensures Enabled(states'[i], steps'[i]) && states'[i + 1] == Next(states'[i], steps'[i])
    {
      if i < |steps| {
        assert states'[i] == states[i] && states'[i + 1] == states[i + 1] && steps'[i] == steps[i];
      }
    }
  }

  function Fresh(pc: Pc): Thread {
    Thread(pc, 0, 0, 0, {}, {}, {})
  }

  const NOBODY: State :=
    State(0, 0, 0, {}, {}, map[LEAVER := Fresh(Out), RETIRER := Fresh(Out), READER := Fresh(Out)], map[], map[], map[])

  /** Registers thread `t` in epoch 0. */
  lemma Register(states: seq<State>, steps: seq<Step>, s: State, t: Tid)
    returns (states': seq<State>, steps': seq<Step>)
    requires EndsIn(states, steps, s) && s.epoch == 0 && (s.count == 0 || s.inPrevious > 0)
    requires t in s.threads && s.threads[t] == Fresh(Out)
    ensures EndsIn(states', steps',
              s.(count := s.count + 1, inPrevious := s.inPrevious + 1, threads := s.threads[t := Fresh(Idle)]))
  {
    hide IsRun;
    states', steps' := Do(states, steps, s, RegLoad(t));
    var s1 := Next(s, RegLoad(t));
    states', steps' := Do(states', steps', s1, RegCas(t));
    assert Next(s1, RegCas(t)) ==
           s.(count := s.count + 1, inPrevious := s.inPrevious + 1, threads := s.threads[t := Fresh(Idle)]);
  }

  /** The retirer unlinks and submits the object the reader holds. */
  lemma Retire(states: seq<State>, steps: seq<Step>, s: State)
    returns (states': seq<State>, steps': seq<Step>)
    requires EndsIn(states, steps, s) && s.epoch == 0 && s.count >= 2
    requires RETIRER in s.threads && s.threads[RETIRER] == Fresh(Idle)
    requires s.unlinked == map[] && s.requested == map[] && s.place == map[]
    ensures EndsIn(states', steps',
              s.(threads := s.threads[RETIRER := Fresh(Idle).(current := {OBJECT})],
                 unlinked := map[OBJECT := 0], requested := map[OBJECT := 0], place := map[OBJECT := CurOf(RETIRER)]))
  {
    hide IsRun;
    states', steps' := Do(states, steps, s, Unlink(RETIRER, OBJECT));
    var s1 := Next(s, Unlink(RETIRER, OBJECT));
    states', steps' := Do(states', steps', s1, RetLoad(RETIRER, OBJECT));
    var s2 := Next(s1, RetLoad(RETIRER, OBJECT));
    states', steps' := Do(states', steps', s2, RetFinish(RETIRER));
    assert Next(s2, RetFinish(RETIRER)).threads[RETIRER] == Fresh(Idle).(current := {OBJECT});
    assert Next(s2, RetFinish(RETIRER)) ==
           s.(threads := s.threads[RETIRER := Fresh(Idle).(current := {OBJECT})],
              unlinked := map[OBJECT := 0], requested := map[OBJECT := 0], place := map[OBJECT := CurOf(RETIRER)]);
  }

  function AfterLeave(s: State, pc: Pc): State
    requires s.count >= 1 && s.inPrevious >= 1
  {
    s.(count := s.count - 1, inPrevious := s.inPrevious - 1,
       threads := s.threads[RETIRER := Fresh(pc).(current := {OBJECT})])
  }

  ghost predicate CanOrphan(s: State) {
    && s.epoch == 0 && s.count >= 2 && s.inPrevious >= 2
    && RETIRER in s.threads && s.threads[RETIRER] == Fresh(Idle).(current := {OBJECT})
    && s.place == map[OBJECT := CurOf(RETIRER)] && s.orphanPrevious == s.orphanCurrent == {}
  }

  lemma Leave(states: seq<State>, steps: seq<Step>, s: State)
    returns (states': seq<State>, steps': seq<Step>)
    requires EndsIn(states, steps, s) && CanOrphan(s)
    ensures EndsIn(states', steps', AfterLeave(s, OrphanPrevious))
  {
    hide EndsIn;
    var t, th := RETIRER, Fresh(Idle).(current := {OBJECT});
    states', steps' := Do(states, steps, s, LeaveLoad(t));
    var s1 := s.(threads := s.threads[t := th.(pc := LeaveReady(s.StateWord(), 0, false))]);
    assert Next(s, LeaveLoad(t)) == s1;
    states', steps' := Do(states', steps', s1, LeaveCas(t));
    var s2 := AfterLeave(s, Left(0, false, false));
    assert Next(s1, LeaveCas(t)).threads == s2.threads;
    assert Next(s1, LeaveCas(t)) == s2;
    states', steps' := Do(states', steps', s2, LeaveFinish(t));
    assert Next(s2, LeaveFinish(t)).threads == AfterLeave(s, OrphanPrevious).threads;
    assert Next(s2, LeaveFinish(t)) == AfterLeave(s, OrphanPrevious);
  }

  /** The retirer leaves, orphaning its request. */
  lemma Orphaned(states: seq<State>, steps: seq<Step>, s: State)
    returns (states': seq<State>, steps': seq<Step>)
    requires EndsIn(states, steps, s) && CanOrphan(s)
    ensures EndsIn(states', steps',
              s.(count := s.count - 1, inPrevious := s.inPrevious - 1, orphanCurrent := {OBJECT},
                 threads := s.threads[RETIRER := Fresh(Out)], place := map[OBJECT := OrphanedCurrent]))
  {
    hide EndsIn;
    var t := RETIRER;
    states', steps' := Leave(states, steps, s);
    var s1 := AfterLeave(s, OrphanPrevious);
    states', steps' := Do(states', steps', s1, PushPrevious(t));
    var s2 := AfterLeave(s, OrphanCurrent);
    assert Next(s1, PushPrevious(t)).threads == s2.threads;
    assert Next(s1, PushPrevious(t)).place == s2.place;
    states', steps' := Do(states', steps', s2, PushCurrent(t));
    assert Next(s2, PushCurrent(t)).place == map[OBJECT := OrphanedCurrent];
    assert Next(s2, PushCurrent(t)).threads == s.threads[t := Fresh(Out)];
    assert {} + {OBJECT} == {OBJECT};
    assert Next(s2, PushCurrent(t)) ==
           s.(count := s.count - 1, inPrevious := s.inPrevious - 1, orphanCurrent := {OBJECT},
              threads := s.threads[RETIRER := Fresh(Out)], place := map[OBJECT := OrphanedCurrent]);
  }

  /** The leaver decides on single-thread mode while alone; by the time it frees the current-interval
      orphans two others have registered, and one holds what the other orphaned. */
  lemma StaleSingleThreadMode() returns (states: seq<State>, steps: seq<Step>)
    ensures IsRun(states, steps) && HeldAfterFree(states[|steps|])
  {
    hide IsRun;
    states, steps := Begin();
    states, steps := Register(states, steps, NOBODY, LEAVER);
    var s := NOBODY.(count := 1, inPrevious := 1, threads := NOBODY.threads[LEAVER := Fresh(Idle)]);
    states, steps := Do(states, steps, s, LeaveLoad(LEAVER));
    var w := Word(0, 1, 1);
    var s1 := s.(threads := s.threads[LEAVER := Fresh(Leaving(TakePrevious, w, 0))]);
    assert Next(s, LeaveLoad(LEAVER)) == s1;
    states, steps := Register(states, steps, s1, RETIRER);
    var s2 := s1.(count := 2, inPrevious := 2, threads := s1.threads[RETIRER := Fresh(Idle)]);
    states, steps := Register(states, steps, s2, READER);
    var s3 := s2.(count := 3, inPrevious := 3, threads := s2.threads[READER := Fresh(Idle)]);
    states, steps := AcquireRetireOrphan(states, steps, s3);
    var s4 := AfterOrphan(s3);
    states, steps, s4 := TakeLists(states, steps, s4, w);
    states, steps, s4 := FreeLists(states, steps, s4, w);
  }

  lemma Begin() returns (states: seq<State>, steps: seq<Step>)
    ensures EndsIn(states, steps, NOBODY)
  {
    states, steps := [NOBODY], [];
  }

  function AfterOrphan(s: State): State
    requires s.count >= 1 && s.inPrevious >= 1 && READER in s.threads
  {
    s.(count := s.count - 1, inPrevious := s.inPrevious - 1, orphanCurrent := {OBJECT},
       threads := s.threads[READER := s.threads[READER].(hold := {OBJECT})][RETIRER := Fresh(Out)],
       unlinked := map[OBJECT := 0], requested := map[OBJECT := 0], place := map[OBJECT := OrphanedCurrent])
  }

  lemma AcquireRetireOrphan(states: seq<State>, steps: seq<Step>, s: State)
    returns (states': seq<State>, steps': seq<Step>)
    requires EndsIn(states, steps, s) && s.epoch == 0 && s.count >= 2 && s.inPrevious >= 2
    requires RETIRER in s.threads && s.threads[RETIRER] == Fresh(Idle)
    requires READER in s.threads && s.threads[READER].pc == Idle && s.threads[READER].hold == {}
    requires s.orphanPrevious == s.orphanCurrent == {}
    requires s.unlinked == map[] && s.requested == map[] && s.place == map[]
    ensures EndsIn(states', steps', AfterOrphan(s))
  {
    hide IsRun;
    states', steps' := Do(states, steps, s, Acquire(READER, OBJECT));
    var s1 := s.(threads := s.threads[READER := s.threads[READER].(hold := {OBJECT})]);
    assert {} + {OBJECT} == {OBJECT};
    assert Next(s, Acquire(READER, OBJECT)) == s1;
    states', steps' := Retire(states', steps', s1);
    var s2 := s1.(threads := s1.threads[RETIRER := Fresh(Idle).(current := {OBJECT})],
                  unlinked := map[OBJECT := 0], requested := map[OBJECT := 0], place := map[OBJECT := CurOf(RETIRER)]);
    states', steps' := Orphaned(states', steps', s2);
    assert AfterOrphan(s).threads == s2.threads[RETIRER := Fresh(Out)];
  }

  /** The leaver is at `stage` of its handling, the object at `at`. */
  ghost predicate Handling(s: State, stage: Stage, w: Word, orphans: set<Ptr>, at: Place) {
    && LEAVER in s.threads && s.threads[LEAVER] == Fresh(Leaving(stage, w, 0))
    && READER in s.threads && OBJECT in s.threads[READER].hold
    && s.orphanPrevious == {} && s.orphanCurrent == orphans && s.place == map[OBJECT := at]
  }

  lemma TakeLists(states: seq<State>, steps: seq<Step>, s: State, w: Word)
    returns (states': seq<State>, steps': seq<Step>, s': State)
    requires EndsIn(states, steps, s) && Handling(s, TakePrevious, w, {OBJECT}, OrphanedCurrent)
    ensures EndsIn(states', steps', s') && Handling(s', FreeTaken({}, {OBJECT}), w, {}, HandCurrent(LEAVER))
  {
    hide EndsIn;
    var h := HandleOrphans(LEAVER);
    states', steps' := Do(states, steps, s, h);
    var s1 := Next(s, h);
    assert Handling(s1, TakeCurrent({}), w, {OBJECT}, OrphanedCurrent);
    states', steps' := Do(states', steps', s1, h);
    s' := Next(s1, h);
  }

  lemma FreeLists(states: seq<State>, steps: seq<Step>, s: State, w: Word)
    returns (states': seq<State>, steps': seq<Step>, s': State)
    requires EndsIn(states, steps, s) && w.threads < 2
    requires Handling(s, FreeTaken({}, {OBJECT}), w, {}, HandCurrent(LEAVER))
    ensures EndsIn(states', steps', s') && HeldAfterFree(s')
  {
    hide EndsIn;
    var h := HandleOrphans(LEAVER);
    states', steps' := Do(states, steps, s, h);
    var s1 := Next(s, h);
    assert Handling(s1, Publish({OBJECT}), w, {}, HandCurrent(LEAVER));
    states', steps' := Do(states', steps', s1, h);
    s' := Next(s1, h);
  }

  /** A quiescent state of thread `t` that leaves others owing, up to its fetch_sub. */
  lemma QuiescentToFetchSub(states: seq<State>, steps: seq<Step>, s: State, t: Tid)
    returns (states': seq<State>, steps': seq<Step>)
    requires EndsIn(states, steps, s) && s.epoch == 0 && s.count >= 2
    requires t in s.threads && s.threads[t] == Fresh(Idle)
    ensures EndsIn(states', steps', s.(threads := s.threads[t := Fresh(QReady(0, false))]))
  {
    hide EndsIn;
    states', steps' := Do(states, steps, s, QLoad(t));
    var s1 := s.(threads := s.threads[t := Fresh(QLoaded(0, false))]);
    assert Next(s, QLoad(t)) == s1;
    states', steps' := Do(states', steps', s1, QLocal(t));
    assert Next(s1, QLocal(t)).threads == s.threads[t := Fresh(QReady(0, false))];
    assert Next(s1, QLocal(t)) == s.(threads := s.threads[t := Fresh(QReady(0, false))]);
  }

  const QUIET: Thread := Fresh(Idle).(quiescentStates := 1)

  /** Three threads, of which the reader has passed its quiescent state and holds the orphaned object. */
  ghost predicate ReadyToRotate(s: State) {
    && s.epoch == 0 && s.count == 2 && s.inPrevious == 1
    && s.orphanPrevious == {} && s.orphanCurrent == {OBJECT}
    && s.threads == map[LEAVER := Fresh(Idle), RETIRER := Fresh(Out), READER := QUIET.(hold := {OBJECT})]
    && s.place == map[OBJECT := OrphanedCurrent]
  }

  lemma OrphanWithQuietReader() returns (states: seq<State>, steps: seq<Step>, s: State)
    ensures EndsIn(states, steps, s) && ReadyToRotate(s)
  {
    hide EndsIn;
    states, steps := Begin();
    states, steps := Register(states, steps, NOBODY, LEAVER);
    var s1 := NOBODY.(count := 1, inPrevious := 1, threads := NOBODY.threads[LEAVER := Fresh(Idle)]);
    states, steps := Register(states, steps, s1, RETIRER);
    var s2 := s1.(count := 2, inPrevious := 2, threads := s1.threads[RETIRER := Fresh(Idle)]);
    states, steps := Register(states, steps, s2, READER);
    var s3 := s2.(count := 3, inPrevious := 3, threads := s2.threads[READER := Fresh(Idle)]);
    states, steps := QuiescentToFetchSub(states, steps, s3, READER);
    var s4 := s3.(threads := s3.threads[READER := Fresh(QReady(0, false))]);
    states, steps := Do(states, steps, s4, QFetchSub(READER));
    var s5 := s3.(inPrevious := 2, threads := s3.threads[READER := QUIET]);
    assert Next(s4, QFetchSub(READER)).threads == s5.threads;
    assert Next(s4, QFetchSub(READER)) == s5;
    states, steps := AcquireRetireOrphan(states, steps, s5);
    s := AfterOrphan(s5);
  }

  /** The leaver rotates the orphans, expecting to advance the epoch. */
  lemma RotateEarly(states: seq<State>, steps: seq<Step>, s: State)
    returns (states': seq<State>, steps': seq<Step>, s': State)
    requires EndsIn(states, steps, s) && ReadyToRotate(s)
    ensures EndsIn(states', steps', s')
    ensures s' == s.(threads := s.threads[LEAVER := Fresh(LeaveReady(Word(0, 2, 1), 0, true))],
                     orphanPrevious := {OBJECT}, orphanCurrent := {}, place := map[OBJECT := OrphanedPrevious])
  {
    hide EndsIn;
    var w := Word(0, 2, 1);
    states', steps' := Do(states, steps, s, LeaveLoad(LEAVER));
    var s1 := s.(threads := s.threads[LEAVER := Fresh(Leaving(TakePrevious, w, 0))]);
    assert Next(s, LeaveLoad(LEAVER)) == s1;
    states', steps', s' := TakeEarly(states', steps', s1, s);
    states', steps', s' := PublishEarly(states', steps', s', s);
  }

  lemma TakeEarly(states: seq<State>, steps: seq<Step>, s: State, start: State)
    returns (states': seq<State>, steps': seq<Step>, s': State)
    requires EndsIn(states, steps, s) && ReadyToRotate(start)
    requires s == start.(threads := start.threads[LEAVER := Fresh(Leaving(TakePrevious, Word(0, 2, 1), 0))])
    ensures EndsIn(states', steps', s')
    ensures s' == start.(threads := start.threads[LEAVER := Fresh(Leaving(FreeTaken({}, {OBJECT}), Word(0, 2, 1), 0))],
                         orphanCurrent := {}, place := map[OBJECT := HandCurrent(LEAVER)])
  {
    hide EndsIn;
    states', steps' := Do(states, steps, s, HandleOrphans(LEAVER));
    var s1 := start.(threads := start.threads[LEAVER := Fresh(Leaving(TakeCurrent({}), Word(0, 2, 1), 0))]);
    assert Next(s, HandleOrphans(LEAVER)).place == s.place;
    assert Next(s, HandleOrphans(LEAVER)) == s1;
    states', steps' := Do(states', steps', s1, HandleOrphans(LEAVER));
    s' := Next(s1, HandleOrphans(LEAVER));
    assert s'.place == map[OBJECT := HandCurrent(LEAVER)];
  }

  lemma PublishEarly(states: seq<State>, steps: seq<Step>, s: State, start: State)
    returns (states': seq<State>, steps': seq<Step>, s': State)
    requires EndsIn(states, steps, s) && ReadyToRotate(start)
    requires s == start.(threads := start.threads[LEAVER := Fresh(Leaving(FreeTaken({}, {OBJECT}), Word(0, 2, 1), 0))],
                         orphanCurrent := {}, place := map[OBJECT := HandCurrent(LEAVER)])
    ensures EndsIn(states', steps', s')
    ensures s' == start.(threads := start.threads[LEAVER := Fresh(LeaveReady(Word(0, 2, 1), 0, true))],
                         orphanPrevious := {OBJECT}, orphanCurrent := {}, place := map[OBJECT := OrphanedPrevious])
  {
    hide EndsIn;
    var w := Word(0, 2, 1);
    states', steps' := Do(states, steps, s, HandleOrphans(LEAVER));
    var s1 := s.(threads := s.threads[LEAVER := Fresh(Leaving(Publish({OBJECT}), w, 0))]);
    assert Next(s, HandleOrphans(LEAVER)).place == s.place;
    assert Next(s, HandleOrphans(LEAVER)) == s1;
    states', steps' := Do(states', steps', s1, HandleOrphans(LEAVER));
    s' := Next(s1, HandleOrphans(LEAVER));
    assert s'.place == map[OBJECT := OrphanedPrevious];
  }

  /** A newcomer spoils the advance; the leaver goes without it, and the newcomer ends the epoch. */
  lemma LeaveWithoutAdvance(states: seq<State>, steps: seq<Step>, s: State)
    returns (states': seq<State>, steps': seq<Step>, s': State)
    requires EndsIn(states, steps, s) && s.epoch == 0 && s.count == 3 && s.inPrevious == 2
    requires s.threads == map[LEAVER := Fresh(LeaveReady(Word(0, 2, 1), 0, true)), RETIRER := Fresh(Idle), READER := QUIET.(hold := {OBJECT})]
    ensures EndsIn(states', steps', s')
    ensures s' == s.(count := 2, inPrevious := 1, threads := s.threads[LEAVER := Fresh(Left(0, false, false))])
  {
    hide EndsIn;
    states', steps' := Do(states, steps, s, LeaveLoad(LEAVER));
    var s1 := s.(threads := s.threads[LEAVER := Fresh(LeaveReady(Word(0, 3, 2), 0, true))]);
    assert Next(s, LeaveLoad(LEAVER)) == s1;
    states', steps' := Do(states', steps', s1, LeaveCas(LEAVER));
    s' := Next(s1, LeaveCas(LEAVER));
    assert s'.threads == s.threads[LEAVER := Fresh(Left(0, false, false))];
  }

  lemma ChangeAndFree(states: seq<State>, steps: seq<Step>, s: State)
    returns (states': seq<State>, steps': seq<Step>, s': State)
    requires EndsIn(states, steps, s) && s.epoch == 0 && s.count == 2 && s.inPrevious == 1
    requires RETIRER in s.threads && s.threads[RETIRER] == Fresh(QReady(0, false))
    requires READER in s.threads && OBJECT in s.threads[READER].hold
    requires s.orphanPrevious == {OBJECT} && s.place == map[OBJECT := OrphanedPrevious]
    ensures EndsIn(states', steps', s') && HeldAfterFree(s')
  {
    hide EndsIn;
    states', steps' := Do(states, steps, s, QFetchSub(RETIRER));
    s' := Next(s, QFetchSub(RETIRER));
    assert s'.threads[RETIRER] == Fresh(Changing(TakePrevious, 0, false, false));
    states', steps', s' := TakeAndFree(states', steps', s');
  }

  lemma TakeAndFree(states: seq<State>, steps: seq<Step>, s: State)
    returns (states': seq<State>, steps': seq<Step>, s': State)
    requires EndsIn(states, steps, s)
    requires RETIRER in s.threads && s.threads[RETIRER] == Fresh(Changing(TakePrevious, 0, false, false))
    requires READER in s.threads && OBJECT in s.threads[READER].hold
    requires s.orphanPrevious == {OBJECT} && s.place == map[OBJECT := OrphanedPrevious]
    ensures EndsIn(states', steps', s') && HeldAfterFree(s')
  {
    hide EndsIn;
    var h := HandleOrphans(RETIRER);
    states', steps' := Do(states, steps, s, h);
    var s1 := Next(s, h);
    assert s1.threads[RETIRER].pc.stage == TakeCurrent({OBJECT}) && s1.place == map[OBJECT := HandPrevious(RETIRER)];
    states', steps' := Do(states', steps', s1, h);
    s' := Next(s1, h);
    assert s'.threads[RETIRER].pc.stage.FreeTaken? && s'.place == map[OBJECT := HandPrevious(RETIRER)];
    states', steps' := Do(states', steps', s', h);
    s' := Next(s', h);
  }

  /** The leaver rotates the orphans for an epoch change that its own retry then does not make; the next
      change of the same epoch frees them a full epoch early, while the reader still holds one. */
  lemma RotationWithoutAdvance() returns (states: seq<State>, steps: seq<Step>)
    ensures IsRun(states, steps) && HeldAfterFree(states[|steps|])
  {
    hide IsRun;
    var s: State;
    states, steps, s := OrphanWithQuietReader();
    states, steps, s := RotateEarly(states, steps, s);
    states, steps := Register(states, steps, s, RETIRER);
    s := s.(count := 3, inPrevious := 2, threads := s.threads[RETIRER := Fresh(Idle)]);
    states, steps, s := LeaveWithoutAdvance(states, steps, s);
    states, steps := QuiescentToFetchSub(states, steps, s, RETIRER);
    s := s.(threads := s.threads[RETIRER := Fresh(QReady(0, false))]);
    states, steps, s := ChangeAndFree(states, steps, s);
  }
}

/** What the reclamation protocol guarantees over whole runs. */
module QsbrSafety {
  import opened QsbrProtocol
  import opened QsbrInvariant
  import opened QsbrSteps

  lemma {:induction false} RunInv(states: seq<State>, steps: seq<Step>, i: nat)
    requires IsRun(states, steps) && i < |states|
    ensures Inv(states[i])
  {
    hide Inv, Next, Enabled;
    if i == 0 {
      InitialInv(states[0]);
    } else {
      RunInv(states, steps, i - 1);
      StepKeepsInv(states[i - 1], steps[i - 1]);
    }
  }

  /** Grace period: what a thread frees itself, at once or from its own lists, is in nobody's hands. */
  lemma GracePeriod(states: seq<State>, steps: seq<Step>, i: nat, p: Ptr, u: Tid)
    requires IsRun(states, steps) && i < |states|
    requires u in states[i].threads && p in states[i].place
    requires states[i].place[p].Freed? && !states[i].place[p].how.Orphan?
    ensures p !in states[i].threads[u].hold
  {
    hide Counts, Threads, Exclusive, Places, IsRun;
    RunInv(states, steps, i);
    assert HoldOk(states[i], u, p);
    assert p in states[i].requested;
  }

  /** The packed counters count exactly the registered threads and those owing a quiescent state. */
  lemma Accounting(states: seq<State>, steps: seq<Step>, i: nat)
    requires IsRun(states, steps) && i < |states|
    ensures states[i].count == |RegisteredThreads(states[i])|
    ensures states[i].inPrevious == |OwingThreads(states[i])|
  {
    hide Threads, Exclusive, Data, IsRun;
    RunInv(states, steps, i);
  }

  /** The word shows no thread in the previous epoch exactly while one thread changes the epoch. */
  lemma ZeroMeansChange(states: seq<State>, steps: seq<Step>, i: nat)
    requires IsRun(states, steps) && i < |states|
    ensures var s := states[i];
            s.inPrevious == 0 && s.count > 0 <==> exists t :: t in s.threads && s.threads[t].pc.Changing?
  {
    hide Threads, Counts, Data, IsRun;
    RunInv(states, steps, i);
  }

  /** The list tail is written by one thread at a time. */
  lemma ExclusiveHandler(states: seq<State>, steps: seq<Step>, i: nat, t: Tid, u: Tid)
    requires IsRun(states, steps) && i < |states|
    requires t in states[i].threads && IsHandling(states[i].threads[t].pc)
    requires u in states[i].threads && IsHandling(states[i].threads[u].pc)
    ensures t == u
  {
    hide Threads, Counts, Data, IsRun;
    RunInv(states, steps, i);
  }

  /** Every two-bit comparison the code makes in the state `s` for the thread `th` decides true equality. */
  ghost predicate ExactComparisons(s: State, th: Thread) {
    match th.pc
    case RegSpin(start) => Same(s.epoch, start) <==> s.epoch == start
    case Idle => EpochValue(th.quiescentEpoch) == s.StateWord().epoch <==> th.quiescentEpoch == s.epoch
    case RetLoaded(_, e, _) => Same(th.seenEpoch, e) <==> th.seenEpoch == e
    case QLoaded(e, _) =>
      (Same(e, th.seenEpoch) <==> e == th.seenEpoch) && (Same(e, th.quiescentEpoch) <==> e == th.quiescentEpoch)
    case LeaveReady(w, e, _) =>
      && (EpochValue(th.quiescentEpoch) == s.StateWord().epoch <==> th.quiescentEpoch == s.epoch)
      && (w == s.StateWord() ==> e == s.epoch)
    case Left(e, _, _) => Same(e, th.seenEpoch) <==> e == th.seenEpoch
    case _ => true
  }

  /** Wrap-around is exact: a registered thread lags by at most one epoch, so two bits suffice. */
  lemma WrapAroundExact(states: seq<State>, steps: seq<Step>, i: nat, t: Tid)
    requires IsRun(states, steps) && i < |states| && t in states[i].threads
    ensures var th := states[i].threads[t];
            && ExactComparisons(states[i], th)
            && (IsRegistered(th.pc) && !th.pc.RegSpin? ==>
                  th.quiescentEpoch <= th.seenEpoch <= states[i].epoch <= th.quiescentEpoch + 1)
  {
    hide Threads, Counts, Exclusive, Data, IsRun;
    RunInv(states, steps, i);
    ThreadOk(states[i], t);
  }

  /** A request in a thread's own lists is freed two epochs after it was made, or one when single. */
  lemma FreedOnTime(states: seq<State>, steps: seq<Step>, i: nat, p: Ptr)
    requires IsRun(states, steps) && i < |states|
    requires p in states[i].place && states[i].place[p].Freed? && states[i].place[p].how.Own?
    ensures p in states[i].requested
    ensures var Own(e, single) := states[i].place[p].how;
            e == states[i].requested[p] + 2 || (single && e == states[i].requested[p] + 1)
  {
    hide Control, Places, Holds, IsRun;
    RunInv(states, steps, i);
    assert p in states[i].requested;
    assert RequestOk(states[i].place[p], states[i].requested[p], states[i].threads);
  }

  /** The asserts of the code that guard its counters: they never underflow. */
  lemma CountersNeverUnderflow(states: seq<State>, steps: seq<Step>, i: nat, t: Tid)
    requires IsRun(states, steps) && i < |states| && t in states[i].threads
    ensures var s, pc := states[i], states[i].threads[t].pc;
            && (pc.QReady? ==> s.inPrevious > 0)
            && (pc.LeaveReady? ==> s.count > 0)
            && (pc.Changing? ==> s.inPrevious == 0 && s.epoch == pc.seen)
            && (pc.LeaveReady? && s.inPrevious == 0 ==> states[i].threads[t].quiescentEpoch == s.epoch)
  {
    hide Threads, Counts, Data, IsRun;
    var s, pc := states[i], states[i].threads[t].pc;
    RunInv(states, steps, i);
    ThreadOk(s, t);
    if pc.QReady? {
      OwnDebt(s, t);
      SomeOwing(s, t);
    } else if pc.LeaveReady? {
      RegisteredCounted(s, t);
      if s.inPrevious == 0 {
        NoDebtAtZero(s, t);
      }
    }
  }

  lemma SomeOwing(s: State, t: Tid)
    requires Counts(s) && t in OwingThreads(s)
    ensures s.inPrevious > 0
  {
  }

  // ---- conservation ----------------------------------------------------------------------

  /** The container `c` of the code holds the request for `p`. */
  ghost predicate Contains(s: State, c: Place, p: Ptr) {
    match c
    case InCall(t) => t in s.threads && s.threads[t].pc.RetLoaded? && s.threads[t].pc.ptr == p
    case PrevOf(t) => t in s.threads && p in s.threads[t].previous
    case CurOf(t) => t in s.threads && p in s.threads[t].current
    case OrphanedPrevious => p in s.orphanPrevious
    case OrphanedCurrent => p in s.orphanCurrent
    case HandPrevious(t) => t in s.threads && p in TakenPrevious(s.threads[t].pc)
    case HandCurrent(t) => t in s.threads && p in TakenCurrent(s.threads[t].pc)
    case Freed(how) => p in s.place && s.place[p] == c
  }

  lemma ContainsPlace(s: State, c: Place, p: Ptr)
    requires Requests(s) && Places(s)
    ensures Contains(s, c, p) <==> p in s.place && s.place[p] == c
  {
    if p in s.place {
      assert p in s.requested;
      assert RequestOk(s.place[p], s.requested[p], s.threads);
    }
    if c.InCall? || c.PrevOf? || c.CurOf? || c.HandPrevious? || c.HandCurrent? {
      if c.t in s.threads {
        OwnContainers(s, c, p);
      }
    } else if c.OrphanedPrevious? || c.OrphanedCurrent? {
      assert p in PlacedAt(s.place, c) <==> p in s.place && s.place[p] == c;
    }
  }

  lemma OwnContainers(s: State, c: Place, p: Ptr)
    requires Places(s)
    requires c.InCall? || c.PrevOf? || c.CurOf? || c.HandPrevious? || c.HandCurrent?
    requires c.t in s.threads
    ensures Contains(s, c, p) <==> p in s.place && s.place[p] == c
  {
    assert ThreadPlaces(s.place, c.t, s.threads[c.t]);
    assert p in PlacedAt(s.place, c) <==> p in s.place && s.place[p] == c;
  }

  /** Conservation: a submitted request is in exactly one container, an unsubmitted pointer in none. */
  lemma Conservation(states: seq<State>, steps: seq<Step>, i: nat, p: Ptr)
    requires IsRun(states, steps) && i < |states|
    ensures p in states[i].requested ==> exists c :: Contains(states[i], c, p)
    ensures p !in states[i].requested ==> forall c :: !Contains(states[i], c, p)
    ensures forall c, d :: Contains(states[i], c, p) && Contains(states[i], d, p) ==> c == d
  {
    hide Control, Places, Holds, IsRun, Contains;
    var s := states[i];
    RunInv(states, steps, i);
    forall c ensures Contains(s, c, p) <==> p in s.place && s.place[p] == c {
      ContainsPlace(s, c, p);
    }
    if p in s.requested {
      assert Contains(s, s.place[p], p);
    }
  }

  lemma InCallPlace(s: State, t: Tid)
    requires Places(s) && t in s.threads && s.threads[t].pc.RetLoaded?
    ensures var q := s.threads[t].pc.ptr; q in s.place && s.place[q] == InCall(t)
  {
    assert ThreadPlaces(s.place, t, s.threads[t]);
    assert s.threads[t].pc.ptr in PlacedAt(s.place, InCall(t));
  }

  /** No step forgets a request, and a freed one is never touched again. */
  lemma FreedForGood(s: State, step: Step, p: Ptr)
    requires Inv(s) && Enabled(s, step) && p in s.place
    ensures p in Next(s, step).place
    ensures s.place[p].Freed? ==> Next(s, step).place[p] == s.place[p]
  {
    hide Control, Holds, Requests, Places;
    if step.RetFinish? {
      InCallPlace(s, step.t);
      hide Inv, Data;
    } else {
      hide Inv, Data;
    }
  }
}

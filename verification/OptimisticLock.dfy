/** The optimistic lock of optimistic_lock.hpp: unboundedly many readers and writers stepping one load,
    store or compare-and-swap at a time over a lock word and the fields it protects.

    The lock word is kept unbounded: bits 0 and 1 are as in the code, the counter above them does
    not wrap. */
module OptimisticLock {

  type Tid = nat
  type Value = int

  // ---- lock words ------------------------------------------------------------------------

  const OBSOLETE_WORD: nat := 1

  predicate IsWriteLocked(w: nat) {
    w / 2 % 2 == 1
  }

  predicate IsFree(w: nat) {
    w % 4 == 0
  }

  /** The words a write lock can leave: bit 1 set, bit 0 clear. */
  predicate IsTaken(w: nat) {
    w % 4 == 2
  }

  predicate IsObsolete(w: nat) {
    w == OBSOLETE_WORD
  }

  /** set_locked_bit and write_unlock both add two: locking sets bit 1, unlocking carries it into the counter. */
  function Bumped(w: nat): nat {
    w + 2
  }

  lemma Words(w: nat)
    ensures IsFree(w) ==> !IsWriteLocked(w) && !IsObsolete(w) && IsTaken(Bumped(w))
    ensures IsTaken(w) ==> IsWriteLocked(w) && !IsFree(w) && !IsObsolete(w) && IsFree(Bumped(w))
    ensures IsObsolete(w) ==> !IsFree(w) && !IsWriteLocked(w)
  {
  }

  // ---- state machine ---------------------------------------------------------------------

  /** `seen` are the values a reader has copied since it created its critical section. */
  datatype Pc =
    | Idle
    | Reading(version: nat, seen: map<nat, Value>)
    | Writing
    | Unlocking(loaded: nat)

  /** The pc of a thread that owns an active write guard. */
  predicate Holds(pc: Pc) {
    pc.Writing? || pc.Unlocking?
  }

  /** `committed` is a history variable: the fields as they were at each free lock word. */
  datatype State = State(
    word: nat,
    fields: seq<Value>,
    threads: map<Tid, Pc>,
    committed: map<nat, seq<Value>>)
  {
    function Put(t: Tid, pc: Pc): State {
      this.(threads := threads[t := pc])
    }
  }

  datatype Step =
    | TryReadLock(t: Tid)
    | Rehydrate(t: Tid, tag: nat)   // recreate a critical section from a saved version tag
    | ReadField(t: Tid, i: nat)
    | Check(t: Tid)
    | TryReadUnlock(t: Tid)
    | Upgrade(t: Tid)
    | WriteField(t: Tid, i: nat, v: Value)
    | LoadForUnlock(t: Tid)
    | StoreUnlocked(t: Tid)
    | WriteUnlockAndObsolete(t: Tid)

  predicate Enabled(s: State, step: Step) {
    step.t in s.threads &&
    var pc := s.threads[step.t];
    match step
    case TryReadLock(_) => pc.Idle?
    case Rehydrate(_, tag) => pc.Idle? && tag in s.committed
    case ReadField(_, i) => pc.Reading? && i < |s.fields|
    case Check(_) => pc.Reading?
    case TryReadUnlock(_) => pc.Reading?
    case Upgrade(_) => pc.Reading?
    case WriteField(_, i, _) => pc.Writing? && i < |s.fields|
    case LoadForUnlock(_) => pc.Writing?
    case StoreUnlocked(_) => pc.Unlocking?
    case WriteUnlockAndObsolete(_) => pc.Writing?
  }

  /** check, try_read_unlock and the upgrade's compare-and-swap all compare whole words. */
  predicate Succeeds(s: State, step: Step)
    requires Enabled(s, step) && (step.Check? || step.TryReadUnlock? || step.Upgrade?)
  {
    s.word == s.threads[step.t].version
  }

  function Next(s: State, step: Step): State
    requires Enabled(s, step)
  {
    var t, pc := step.t, s.threads[step.t];
    match step
    case TryReadLock(_) =>
      if IsFree(s.word) then s.Put(t, Reading(s.word, map[]))
      else s                                          // spin while locked, restart when obsolete
    case Rehydrate(_, tag) => s.Put(t, Reading(tag, map[]))
    case ReadField(_, i) => s.Put(t, pc.(seen := pc.seen[i := s.fields[i]]))
    case Check(_) => if Succeeds(s, step) then s else s.Put(t, Idle)
    case TryReadUnlock(_) => s.Put(t, Idle)
    case Upgrade(_) =>
      if Succeeds(s, step) then s.Put(t, Writing).(word := Bumped(pc.version)) else s.Put(t, Idle)
    case WriteField(_, i, v) => s.(fields := s.fields[i := v])
    case LoadForUnlock(_) => s.Put(t, Unlocking(s.word))
    case StoreUnlocked(_) =>
      s.Put(t, Idle).(word := Bumped(pc.loaded), committed := s.committed[Bumped(pc.loaded) := s.fields])
    case WriteUnlockAndObsolete(_) => s.Put(t, Idle).(word := OBSOLETE_WORD)
  }

  ghost predicate Initial(s: State) {
    && s.word == 0 && s.committed == map[0 := s.fields]
    && forall t :: t in s.threads ==> s.threads[t] == Idle
  }

  ghost predicate IsRun(states: seq<State>, steps: seq<Step>) {
    && |states| == |steps| + 1
    && Initial(states[0])
    && forall i :: 0 <= i < |steps| ==> Enabled(states[i], steps[i]) && states[i + 1] == Next(states[i], steps[i])
  }

  // ---- invariant -------------------------------------------------------------------------

  ghost predicate WordOk(s: State) {
    && (IsFree(s.word) || IsTaken(s.word) || IsObsolete(s.word))
    && (IsFree(s.word) ==> s.word in s.committed && s.committed[s.word] == s.fields)
    && (forall k :: k in s.committed ==> IsFree(k) && |s.committed[k]| == |s.fields|)
    && (!IsObsolete(s.word) ==> forall k :: k in s.committed ==> k <= s.word)
  }

  ghost predicate WritersOk(s: State) {
    && (forall t, u :: t in s.threads && u in s.threads && Holds(s.threads[t]) && Holds(s.threads[u]) ==> t == u)
    && (IsWriteLocked(s.word) <==> exists t :: t in s.threads && Holds(s.threads[t]))
    && (forall t :: t in s.threads && s.threads[t].Unlocking? ==> s.threads[t].loaded == s.word)
  }

  /** As long as the word is the one it started from, a reader's copies are the current fields. */
  ghost predicate ReaderOk(s: State, pc: Pc) {
    pc.Reading? ==>
      && pc.version in s.committed
      && (s.word == pc.version ==> forall i :: i in pc.seen ==> i < |s.fields| && pc.seen[i] == s.fields[i])
  }

  ghost predicate Inv(s: State) {
    && WordOk(s)
    && WritersOk(s)
    && forall t :: t in s.threads ==> ReaderOk(s, s.threads[t])
  }

  /** One thread changes its program counter, and the lock changes hands accordingly. */
  lemma WritersFollow(s: State, s': State, t: Tid)
    requires WritersOk(s) && t in s.threads
    requires s'.threads.Keys == s.threads.Keys && s'.threads == s.threads[t := s'.threads[t]]
    requires IsWriteLocked(s.word) && !Holds(s.threads[t]) ==> !Holds(s'.threads[t])
    requires IsWriteLocked(s'.word) == if Holds(s.threads[t]) then Holds(s'.threads[t]) else IsWriteLocked(s.word) || Holds(s'.threads[t])
    requires forall w :: s'.threads[t] == Unlocking(w) ==> w == s'.word
    requires s'.word == s.word || Holds(s.threads[t]) || !IsWriteLocked(s.word)
    ensures WritersOk(s')
  {
    if IsWriteLocked(s.word) {
      var u :| u in s.threads && Holds(s.threads[u]);
      assert u != t ==> Holds(s'.threads[u]);
      assert forall v :: v in s'.threads && v != u && v != t ==> !Holds(s'.threads[v]);
    } else {
      assert forall v :: v in s'.threads && v != t ==> !Holds(s'.threads[v]);
    }
  }

  lemma HolderLocks(s: State, t: Tid)
    requires WritersOk(s) && t in s.threads
    ensures Holds(s.threads[t]) ==> IsWriteLocked(s.word)
    ensures s.threads[t].Unlocking? ==> s.threads[t].loaded == s.word
  {
    hide IsWriteLocked;
  }

  lemma StepKeepsWriters(s: State, step: Step)
    requires WordOk(s) && WritersOk(s) && Enabled(s, step) && ReaderOk(s, s.threads[step.t])
    ensures WritersOk(Next(s, step))
  {
    hide WritersOk, IsFree, IsWriteLocked, IsTaken, IsObsolete, Bumped;
    var s', t := Next(s, step), step.t;
    assert s'.threads == s.threads[t := s'.threads[t]];
    HolderLocks(s, t);
    Words(s.word);
    Words(s'.word);
    Words(OBSOLETE_WORD);
    assert IsObsolete(OBSOLETE_WORD) by { ObsoleteWord(); }
    WritersFollow(s, s', t);
  }

  lemma ObsoleteWord()
    ensures IsObsolete(OBSOLETE_WORD)
  {
  }

  lemma StepKeepsWord(s: State, step: Step)
    requires WordOk(s) && WritersOk(s) && Enabled(s, step) && ReaderOk(s, s.threads[step.t])
    ensures WordOk(Next(s, step))
  {
    hide WritersOk, IsFree, IsWriteLocked, IsTaken, IsObsolete, Bumped;
    HolderLocks(s, step.t);
    Words(s.word);
    Words(Next(s, step).word);
    assert IsObsolete(OBSOLETE_WORD) by { ObsoleteWord(); }
    Grown(s.word);
  }

  lemma Grown(w: nat)
    ensures Bumped(w) > w
  {
  }

  lemma StepKeepsReader(s: State, step: Step, u: Tid)
    requires WordOk(s) && WritersOk(s) && Enabled(s, step)
    requires ReaderOk(s, s.threads[step.t]) && u in s.threads && ReaderOk(s, s.threads[u])
    ensures ReaderOk(Next(s, step), Next(s, step).threads[u])
  {
    hide WritersOk, IsFree, IsWriteLocked, IsTaken, IsObsolete, Bumped;
    HolderLocks(s, step.t);
    Words(s.word);
    assert IsObsolete(OBSOLETE_WORD) by { ObsoleteWord(); }
    Words(OBSOLETE_WORD);
    Grown(s.word);
  }

  lemma StepKeepsInv(s: State, step: Step)
    requires Inv(s) && Enabled(s, step)
    ensures Inv(Next(s, step))
  {
    hide WordOk, WritersOk, ReaderOk;
    StepKeepsWord(s, step);
    StepKeepsWriters(s, step);
    var s' := Next(s, step);
    assert s'.threads.Keys == s.threads.Keys;
    forall u | u in s'.threads ensures ReaderOk(s', s'.threads[u]) {
      StepKeepsReader(s, step, u);
    }
  }

  lemma {:induction false} RunInv(states: seq<State>, steps: seq<Step>, i: nat)
    requires IsRun(states, steps) && i < |states|
    ensures Inv(states[i])
  {
    if i > 0 {
      RunInv(states, steps, i - 1);
      StepKeepsInv(states[i - 1], steps[i - 1]);
    }
  }

  // ---- theorems --------------------------------------------------------------------------

  /** A successful check, read unlock or upgrade: everything copied since the critical section began is one
      committed state, and that state is still current, with nobody writing. */
  lemma Snapshot(states: seq<State>, steps: seq<Step>, i: nat)
    requires IsRun(states, steps) && i < |steps|
    requires steps[i].Check? || steps[i].TryReadUnlock? || steps[i].Upgrade?
    requires Succeeds(states[i], steps[i])
    ensures var s, rcs := states[i], states[i].threads[steps[i].t];
            && IsFree(s.word) && rcs.version in s.committed && s.committed[rcs.version] == s.fields
            && (forall f :: f in rcs.seen ==> f < |s.fields| && rcs.seen[f] == s.committed[rcs.version][f])
            && (forall u :: u in s.threads ==> !Holds(s.threads[u]))
  {
    RunInv(states, steps, i);
    var s, rcs := states[i], states[i].threads[steps[i].t];
    hide IsRun, IsFree, IsWriteLocked, IsObsolete, IsTaken;
    assert ReaderOk(s, rcs);
    Words(rcs.version);
    forall u | u in s.threads ensures !Holds(s.threads[u]) {
      HolderLocks(s, u);
    }
  }

  /** At most one writer holds the lock, and the word says so. */
  lemma OneWriter(states: seq<State>, steps: seq<Step>, i: nat, t: Tid, u: Tid)
    requires IsRun(states, steps) && i < |states|
    requires t in states[i].threads && Holds(states[i].threads[t])
    requires u in states[i].threads && Holds(states[i].threads[u])
    ensures t == u && IsWriteLocked(states[i].word)
  {
    RunInv(states, steps, i);
  }

  /** From `s` on, the lock reaches `s'`: the word only grows until it is obsolete, an obsolete lock is frozen, and
      the fields change only under a write lock, so equal free words mean equal fields. */
  ghost predicate Grows(s: State, s': State) {
    && (IsObsolete(s.word) ==> s'.word == s.word && s'.fields == s.fields)
    && (!IsObsolete(s'.word) ==> !IsObsolete(s.word) && s.word <= s'.word)
    && (s'.word == s.word && !IsWriteLocked(s.word) ==> s'.fields == s.fields)
  }

  lemma StepGrows(s: State, step: Step)
    requires Inv(s) && Enabled(s, step)
    ensures Grows(s, Next(s, step))
  {
    assert ReaderOk(s, s.threads[step.t]);
    assert Holds(s.threads[step.t]) ==> IsWriteLocked(s.word);
  }

  lemma {:induction false} WordsGrow(states: seq<State>, steps: seq<Step>, i: nat, j: nat)
    requires IsRun(states, steps) && i <= j < |states|
    ensures Grows(states[i], states[j])
    decreases j - i
  {
    if i < j {
      WordsGrow(states, steps, i, j - 1);
      RunInv(states, steps, j - 1);
      StepGrows(states[j - 1], steps[j - 1]);
      hide Inv;
    }
  }

  /** A lock word names one committed state for ever. */
  lemma {:induction false} CommittedForGood(states: seq<State>, steps: seq<Step>, i: nat, j: nat, k: nat)
    requires IsRun(states, steps) && i <= j < |states| && k in states[i].committed
    ensures k in states[j].committed && states[j].committed[k] == states[i].committed[k]
    decreases j - i
  {
    if i < j {
      CommittedForGood(states, steps, i, j - 1, k);
      RunInv(states, steps, j - 1);
    }
  }
}

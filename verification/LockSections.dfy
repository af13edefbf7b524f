/** Whole critical sections of the optimistic lock: exactly when a reader's validation succeeds and what it has then read,
    what a writer leaves behind, and that nobody gets into an obsolete lock again. */
module LockSections {
  import opened OptimisticLock

  lemma StepOfRun(states: seq<State>, steps: seq<Step>, i: nat)
    requires IsRun(states, steps) && i < |steps|
    ensures |states| == |steps| + 1
    ensures Enabled(states[i], steps[i]) && states[i + 1] == Next(states[i], steps[i])
    ensures Inv(states[i]) && Inv(states[i + 1])
  {
    hide Inv, Enabled, Next;
    RunInv(states, steps, i);
    RunInv(states, steps, i + 1);
  }

  /** A thread becomes a writer. */
  ghost predicate Acquires(s: State, s': State, u: Tid) {
    u in s.threads && u in s'.threads && !Holds(s.threads[u]) && Holds(s'.threads[u])
  }

  ghost predicate SomeoneAcquires(s: State, s': State) {
    exists u :: Acquires(s, s', u)
  }

  ghost predicate NobodyHolds(s: State) {
    forall u :: u in s.threads ==> !Holds(s.threads[u])
  }

  /** try_read_lock lets a reader in if and only if the lock is neither obsolete nor held by a writer. */
  lemma LetsIn(states: seq<State>, steps: seq<Step>, i: nat)
    requires IsRun(states, steps) && i < |steps| && steps[i].TryReadLock?
    ensures var s, s', t := states[i], states[i + 1], steps[i].t;
      && t in s'.threads
      && (s'.threads[t].Reading? <==> NobodyHolds(s) && s.word != 1)
      && (s'.threads[t].Reading? ==> s'.threads[t] == Reading(s.word, map[]))
      && (!s'.threads[t].Reading? ==> s' == s)
  {
    hide IsRun;
    StepOfRun(states, steps, i);
    FreeMeans(states[i]);
    hide Inv;
  }

  lemma FreeMeans(s: State)
    requires Inv(s)
    ensures IsFree(s.word) <==> NobodyHolds(s) && !IsObsolete(s.word)
    ensures !NobodyHolds(s) <==> IsWriteLocked(s.word)
  {
    hide IsFree, IsWriteLocked, IsTaken, IsObsolete, ReaderOk;
    Words(s.word);
    if IsWriteLocked(s.word) {
      var u :| u in s.threads && Holds(s.threads[u]);
    }
  }

  // ---- readers ---------------------------------------------------------------------------

  /** Thread `t` enters its critical section with step `i`, by a read lock or from a saved tag, and is still inside, having
      only read and checked, before step `j`. */
  ghost predicate Inside(states: seq<State>, steps: seq<Step>, t: Tid, i: nat, j: nat) {
    && i < j <= |steps| && |states| == |steps| + 1 && steps[i].t == t && (steps[i].TryReadLock? || steps[i].Rehydrate?)
    && (forall k :: i < k <= j ==> t in states[k].threads && states[k].threads[t].Reading?)
    && (forall k :: i < k < j && steps[k].t == t ==> steps[k].ReadField? || steps[k].Check?)
  }

  ghost predicate NoWriterSince(states: seq<State>, i: nat, j: nat)
    requires i < j < |states|
  {
    forall k :: i < k < j ==> !SomeoneAcquires(states[k], states[k + 1])
  }

  /** What the reader inside knows: its version names the state it entered, and the word has moved on exactly if a writer came. */
  ghost predicate Tracks(states: seq<State>, t: Tid, i: nat, j: nat)
    requires i < j < |states| && t in states[j].threads && states[j].threads[t].Reading?
  {
    var s, version := states[j], states[j].threads[t].version;
    && version == states[i].word && IsFree(version)
    && (NoWriterSince(states, i, j) ==> s.word == version && s.fields == states[i].fields)
    && (!NoWriterSince(states, i, j) ==> s.word > version || IsObsolete(s.word))
  }

  /** The version the reader inside goes by: the word it found, or the tag it was given. */
  ghost function EntryVersion(s: State, step: Step): nat {
    if step.Rehydrate? then step.tag else s.word
  }

  lemma Entered(states: seq<State>, steps: seq<Step>, t: Tid, i: nat)
    requires IsRun(states, steps) && Inside(states, steps, t, i, i + 1)
    ensures states[i + 1].threads[t] == Reading(EntryVersion(states[i], steps[i]), map[])
    ensures states[i + 1].word == states[i].word && states[i + 1].fields == states[i].fields
    ensures EntryVersion(states[i], steps[i]) in states[i].committed && IsFree(EntryVersion(states[i], steps[i]))
    ensures states[i].word != EntryVersion(states[i], steps[i]) ==>
      states[i].word > EntryVersion(states[i], steps[i]) || IsObsolete(states[i].word)
  {
    hide IsFree, IsObsolete, IsTaken, IsWriteLocked;
    StepOfRun(states, steps, i);
    Words(states[i].word);
  }

  lemma {:induction false} SameVersion(states: seq<State>, steps: seq<Step>, t: Tid, i: nat, j: nat)
    requires IsRun(states, steps) && Inside(states, steps, t, i, j)
    ensures states[j].threads[t].version == EntryVersion(states[i], steps[i])
    decreases j
  {
    hide Inv, Next, Enabled;
    if j == i + 1 {
      Entered(states, steps, t, i);
    } else {
      SameVersion(states, steps, t, i, j - 1);
      StepOfRun(states, steps, j - 1);
      VersionStays(states[j - 1], steps[j - 1], t);
    }
  }

  /** How one step moves the word. */
  lemma StepMoves(s: State, step: Step)
    requires Inv(s) && Enabled(s, step) && IsFree(s.word)
    ensures var s' := Next(s, step);
      if SomeoneAcquires(s, s') then s'.word == s.word + 2 else s'.word == s.word && s'.fields == s.fields
  {
    hide IsWriteLocked, IsFree, IsTaken, IsObsolete, ReaderOk;
    FreeMeans(s);
    Words(s.word);
    assert SomeoneAcquires(s, Next(s, step)) <==> Acquires(s, Next(s, step), step.t);
  }

  lemma StaysPast(s: State, s': State, version: nat)
    requires Grows(s, s') && IsFree(version) && (s.word > version || IsObsolete(s.word))
    ensures s'.word > version || IsObsolete(s'.word)
  {
  }

  lemma VersionStays(s: State, step: Step, t: Tid)
    requires Enabled(s, step) && t in s.threads && s.threads[t].Reading?
    requires step.t == t ==> step.ReadField? || step.Check?
    requires Next(s, step).threads[t].Reading?
    ensures Next(s, step).threads[t].version == s.threads[t].version
    ensures s.threads[t].seen.Keys <= Next(s, step).threads[t].seen.Keys
    ensures step.ReadField? && step.t == t ==>
      Next(s, step).threads[t].seen == s.threads[t].seen[step.i := s.fields[step.i]]
  {
  }

  lemma {:induction false} Tracking(states: seq<State>, steps: seq<Step>, t: Tid, i: nat, j: nat)
    requires IsRun(states, steps) && Inside(states, steps, t, i, j) && EntryVersion(states[i], steps[i]) == states[i].word
    ensures Tracks(states, t, i, j)
    decreases j
  {
    hide Inv, Next, Enabled, IsFree, IsObsolete, Grows, SomeoneAcquires;
    if j == i + 1 {
      Entered(states, steps, t, i);
    } else {
      Tracking(states, steps, t, i, j - 1);
      StepOfRun(states, steps, j - 1);
      var s, step, version := states[j - 1], steps[j - 1], states[i].word;
      VersionStays(s, step, t);
      StepGrows(s, step);
      assert NoWriterSince(states, i, j) <==>
        NoWriterSince(states, i, j - 1) && !SomeoneAcquires(states[j - 1], states[j]);
      if NoWriterSince(states, i, j - 1) {
        StepMoves(s, step);
      } else {
        StaysPast(s, states[j], version);
      }
    }
  }

  /** check, try_read_unlock and the upgrade succeed if and only if the version the critical section began with was current
      then, as after a read lock it always is, and no writer has come since. */
  lemma ValidatesExactly(states: seq<State>, steps: seq<Step>, t: Tid, i: nat, j: nat)
    requires IsRun(states, steps) && Inside(states, steps, t, i, j) && j < |steps|
    requires steps[j].t == t && (steps[j].Check? || steps[j].TryReadUnlock? || steps[j].Upgrade?)
    ensures Enabled(states[j], steps[j])
    ensures var valid := (steps[i].Rehydrate? ==> steps[i].tag == states[i].word) && NoWriterSince(states, i, j);
      && (Succeeds(states[j], steps[j]) <==> valid)
      && states[j + 1].threads[t] ==
           if !valid || steps[j].TryReadUnlock? then Idle
           else if steps[j].Upgrade? then Writing else states[j].threads[t]
  {
    hide Inv, NoWriterSince, IsFree, IsObsolete;
    StepOfRun(states, steps, j);
    Entered(states, steps, t, i);
    SameVersion(states, steps, t, i, j);
    if EntryVersion(states[i], steps[i]) == states[i].word {
      Tracking(states, steps, t, i, j);
      Words(states[i].word);
      Words(states[j].word);
    } else {
      WordsGrow(states, steps, i, j);
      StaysPast(states[i], states[j], EntryVersion(states[i], steps[i]));
      Words(EntryVersion(states[i], steps[i]));
    }
  }

  lemma {:induction false} Copied(states: seq<State>, steps: seq<Step>, t: Tid, i: nat, j: nat, k: nat, f: nat)
    requires IsRun(states, steps) && Inside(states, steps, t, i, j)
    requires i < k < j && steps[k] == ReadField(t, f)
    ensures f in states[j].threads[t].seen
    decreases j
  {
    hide Inv, Next, Enabled;
    StepOfRun(states, steps, j - 1);
    VersionStays(states[j - 1], steps[j - 1], t);
    if k < j - 1 {
      Copied(states, steps, t, i, j - 1, k, f);
    }
  }

  /** A reader that validates has read, field by field, the very values of the state its version names, which are those the
      fields had when it entered, and have now. */
  lemma ReadsOneState(states: seq<State>, steps: seq<Step>, t: Tid, i: nat, j: nat, k: nat, f: nat)
    requires IsRun(states, steps) && Inside(states, steps, t, i, j) && j < |steps| && NoWriterSince(states, i, j)
    requires steps[i].Rehydrate? ==> steps[i].tag == states[i].word
    requires i < k < j && steps[k] == ReadField(t, f)
    ensures states[i].word in states[i].committed && states[i].committed[states[i].word] == states[i].fields
    ensures f < |states[i].fields| && f in states[j].threads[t].seen
    ensures states[j].threads[t].seen[f] == states[i].fields[f]
    ensures states[j].fields == states[i].fields
  {
    hide IsFree, IsObsolete, IsTaken, IsWriteLocked, Next, WritersOk, NoWriterSince;
    StepOfRun(states, steps, i);
    StepOfRun(states, steps, j);
    Entered(states, steps, t, i);
    Tracking(states, steps, t, i, j);
    Copied(states, steps, t, i, j, k, f);
    assert ReaderOk(states[j], states[j].threads[t]);
  }

  // ---- writers ---------------------------------------------------------------------------

  /** The fields after the writes that `t` makes from step `i` up to step `j`, in their order. */
  ghost function Written(fields: seq<Value>, steps: seq<Step>, t: Tid, i: nat, j: nat): seq<Value>
    requires i <= j <= |steps|
    decreases j
  {
    if i == j then fields
    else
      var before, step := Written(fields, steps, t, i, j - 1), steps[j - 1];
      if step.WriteField? && step.t == t && step.i < |before| then before[step.i := step.v] else before
  }

  /** Thread `t` takes the write lock with step `i` and has it in every state up to `j`. */
  ghost predicate Owns(states: seq<State>, steps: seq<Step>, t: Tid, i: nat, j: nat) {
    && i < j <= |steps| && |states| == |steps| + 1 && steps[i] == Upgrade(t)
    && forall k :: i < k <= j ==> t in states[k].threads && Holds(states[k].threads[t])
  }

  lemma OthersKeepOut(s: State, step: Step, t: Tid)
    requires Inv(s) && Enabled(s, step) && t in s.threads && Holds(s.threads[t]) && Holds(Next(s, step).threads[t])
    ensures Next(s, step).word == s.word && Next(s, step).committed == s.committed
    ensures Next(s, step).fields ==
      if step.WriteField? && step.t == t && step.i < |s.fields| then s.fields[step.i := step.v] else s.fields
  {
    hide IsFree, IsTaken;
    assert WritersOk(s) && WordOk(s);
    Words(s.word);
    assert ReaderOk(s, s.threads[step.t]);
  }

  lemma Taken(states: seq<State>, steps: seq<Step>, t: Tid, i: nat)
    requires IsRun(states, steps) && Owns(states, steps, t, i, i + 1)
    ensures IsFree(states[i].word) && states[i + 1].word == states[i].word + 2 && states[i + 1].fields == states[i].fields
    ensures states[i + 1].committed == states[i].committed
  {
    hide IsRun, IsFree, WritersOk;
    StepOfRun(states, steps, i);
    assert ReaderOk(states[i], states[i].threads[t]);
  }

  lemma {:induction false} Owning(states: seq<State>, steps: seq<Step>, t: Tid, i: nat, j: nat)
    requires IsRun(states, steps) && Owns(states, steps, t, i, j)
    ensures states[j].word == states[i].word + 2 && states[j].committed == states[i].committed
    ensures states[j].fields == Written(states[i].fields, steps, t, i + 1, j)
    decreases j
  {
    hide Inv, Next, Enabled, IsFree;
    if j == i + 1 {
      Taken(states, steps, t, i);
    } else {
      Owning(states, steps, t, i, j - 1);
      StepOfRun(states, steps, j - 1);
      OthersKeepOut(states[j - 1], steps[j - 1], t);
    }
  }

  /** What a writer commits with its unlock: its own writes, in order, on top of the state it upgraded in, under a new version. */
  lemma CommitsItsWrites(states: seq<State>, steps: seq<Step>, t: Tid, i: nat, j: nat)
    requires IsRun(states, steps) && Owns(states, steps, t, i, j) && j < |steps| && steps[j] == StoreUnlocked(t)
    ensures var s' := states[j + 1];
      && s'.word == states[i].word + 4 && s'.fields == Written(states[i].fields, steps, t, i + 1, j)
      && s'.committed == states[i].committed[s'.word := s'.fields]
      && t in s'.threads && s'.threads[t] == Idle && NobodyHolds(s')
  {
    hide IsFree, IsWriteLocked, IsTaken;
    Owning(states, steps, t, i, j);
    hide Written;
    StepOfRun(states, steps, j);
    Taken(states, steps, t, i);
    FreeMeans(states[j + 1]);
    FourOn(states[i].word);
    assert WritersOk(states[j]);
    hide Inv, IsRun;
  }

  lemma FourOn(w: nat)
    ensures IsFree(w) ==> IsFree(w + 4)
  {
  }

  /** Once a writer has made the lock obsolete, its fields stay as it left them, and nobody is ever let in, validated or
      upgraded again. */
  lemma ObsoleteForEver(states: seq<State>, steps: seq<Step>, i: nat, j: nat)
    requires IsRun(states, steps) && i < j < |steps| && steps[i].WriteUnlockAndObsolete?
    ensures states[j].word == 1 && states[j].fields == states[i].fields && NobodyHolds(states[j])
    ensures steps[j].TryReadLock? ==> states[j + 1] == states[j]
    ensures steps[j].Check? || steps[j].TryReadUnlock? || steps[j].Upgrade? ==>
      Enabled(states[j], steps[j]) && !Succeeds(states[j], steps[j])
  {
    hide IsFree, IsWriteLocked, IsTaken, WritersOk;
    StepOfRun(states, steps, i);
    StepOfRun(states, steps, j);
    assert IsObsolete(states[i + 1].word) && states[i + 1].fields == states[i].fields;
    WordsGrow(states, steps, i + 1, j);
    FreeMeans(states[j]);
    Words(states[j].word);
    hide IsRun;
    assert ReaderOk(states[j], states[j].threads[steps[j].t]);
  }
}

/** Concurrent get and insert of olc_art.hpp as a state machine: any number of threads, one load,
    compare-and-swap, validated copy or locked write at a time. */
module OlcProtocol {
  import opened ArtKey
  import opened OlcHeap
  import opened OlcCommit

  datatype Op = Get(key: Key) | Insert(key: Key, val: Value)

  datatype Result = Found(val: Value) | NotFound | Inserted | AlreadyThere

  datatype Event = Event(t: Tid, op: Op, result: Result)

  // ---- the sequential map ------------------------------------------------------------------

  function Answer(m: map<Key, Value>, op: Op): Result {
    match op
    case Get(k) => if k in m then Found(m[k]) else NotFound
    case Insert(k, _) => if k in m then AlreadyThere else Inserted
  }

  function Apply(m: map<Key, Value>, op: Op): map<Key, Value> {
    if op.Insert? && op.key !in m then m[op.key := op.val] else m
  }

  function Replay(log: seq<Event>): map<Key, Value> {
    if log == [] then map[] else Apply(Replay(log[..|log| - 1]), log[|log| - 1].op)
  }

  /** A sequential history of the map: every result is what the map held when its turn came. */
  ghost predicate Legal(log: seq<Event>) {
    forall i :: 0 <= i < |log| ==> log[i].result == Answer(Replay(log[..i]), log[i].op)
  }

  // ---- threads -----------------------------------------------------------------------------

  /** A call in progress; `from` is the length of the history at its invocation. */
  datatype Call = Call(op: Op, from: nat)

  /** Lock coupling: `node` was read from slot `slot` of `parent` while the lock of `parent` was `seen`. */
  datatype Chain = Chain(parent: Id, slot: Byte, seen: Lock, node: Id, depth: nat)

  datatype Pc =
    | Idle
    | Start(call: Call)
    | RootLocked(call: Call, rl: Lock)
    | RootLoaded(call: Call, rl: Lock, top: map<Byte, Id>)
    | RootHeld(call: Call, rl: Lock)
    | Descend(call: Call, c: Chain)
    | NodeLocked(call: Call, c: Chain, nl: Lock)
    | ParentReleased(call: Call, c: Chain, nl: Lock)                // get, before it reads the node
    | Copied(call: Call, c: Chain, nl: Lock, seen: Body)            // insert, parent not yet released
    | Ready(call: Call, c: Chain, nl: Lock, seen: Body)             // copy taken, parent released
    | ParentHeld(call: Call, c: Chain, nl: Lock, seen: Body)
    | BothHeld(call: Call, c: Chain, nl: Lock, seen: Body)
    | NodeHeld(call: Call, c: Chain, nl: Lock, seen: Body)          // parent not yet re-checked
    | NodeOwned(call: Call, c: Chain, nl: Lock, seen: Body)
    | Growing(call: Call, c: Chain, seen: Body)                     // old node already obsolete
    | Releasing(call: Call, held: seq<Id>, outcome: Option<Outcome>)
    | Done(call: Call, out: Outcome)

  /** A result and its place in the history. */
  datatype Outcome = Outcome(at: nat, result: Result)

  /** `where` and `log` are history variables: where each key's leaf is, and the linearized operations. */
  datatype State = State(heap: Heap, threads: map<Tid, Pc>, where: map<Key, Id>, log: seq<Event>)
  {
    function Put(t: Tid, pc: Pc): State {
      this.(threads := threads[t := pc])
    }

    function Relock(x: Id, lock: Lock): State
      requires x in heap
    {
      this.(heap := heap[x := heap[x].(lock := lock)])
    }

    /** The operation of thread `t` takes effect now. */
    function Linearize(t: Tid, op: Op, result: Result): State {
      this.(log := log + [Event(t, op, result)])
    }

    function Finish(t: Tid, call: Call, result: Result): State {
      Linearize(t, call.op, result).Put(t, Done(call, Outcome(|log|, result)))
    }

    /** A committed insert: the new heap, and the locks still to be released. */
    function Commit(t: Tid, call: Call, h: Heap, l: Id, held: seq<Id>): State
      requires call.op.Insert?
    {
      State(h, threads, where[call.op.key := l], log).Linearize(t, call.op, Inserted)
        .Put(t, Releasing(call, held, Some(Outcome(|log|, Inserted))))
    }
  }

  datatype Step =
    | Invoke(t: Tid, op: Op)
    | LockRoot(t: Tid)
    | LoadRoot(t: Tid)
    | CheckRoot(t: Tid)
    | UpgradeRoot(t: Tid)
    | PlantLeaf(t: Tid, l: Id)
    | LockNode(t: Tid)
    | ReleaseParent(t: Tid)
    | CopyNode(t: Tid, copy: Body)
    | Validate(t: Tid)
    | UpgradeParent(t: Tid)
    | UpgradeNode(t: Tid)
    | CheckParent(t: Tid)
    | AddLeaf(t: Tid, l: Id)
    | SplitNode(t: Tid, n: Id, l: Id)
    | ObsoleteNode(t: Tid)
    | GrowNode(t: Tid, n: Id, l: Id)
    | Unlock(t: Tid)

  /** What the copied node tells the thread to do next. */
  function BranchOf(pc: Pc): Branch
    requires (pc.Copied? || pc.Ready? || pc.ParentHeld? || pc.BothHeld? || pc.NodeHeld? || pc.NodeOwned? || pc.Growing?)
    requires !pc.seen.RootPointer?
  {
    Decide(pc.seen, pc.call.op.key, pc.c.depth)
  }

  predicate HasCopy(pc: Pc) {
    (pc.Copied? || pc.Ready? || pc.ParentHeld? || pc.BothHeld? || pc.NodeHeld? || pc.NodeOwned? || pc.Growing?)
    && !pc.seen.RootPointer?
  }

  /** The thread's program counter allows the step. */
  predicate Due(s: State, step: Step) {
    step.t in s.threads &&
    var pc := s.threads[step.t];
    match step
    case Invoke(_, _) => pc.Idle? || pc.Done?
    case LockRoot(_) => pc.Start?
    case LoadRoot(_) => pc.RootLocked?
    case CheckRoot(_) => pc.RootLoaded? && (0 in pc.top || pc.call.op.Get?)
    case UpgradeRoot(_) => pc.RootLoaded? && 0 !in pc.top && pc.call.op.Insert?
    case PlantLeaf(_, l) => pc.RootHeld? && Fresh(s.heap, l)
    case LockNode(_) => pc.Descend?
    case ReleaseParent(_) =>
      || (pc.NodeLocked? && pc.call.op.Get?)
      || (pc.Copied? && HasCopy(pc) && (BranchOf(pc).Same? || BranchOf(pc).Child?))
    case CopyNode(_, copy) =>
      // a copy torn by a concurrent writer may hold anything, but then the lock word has moved on
      && ((pc.ParentReleased? && pc.call.op.Get?) || (pc.NodeLocked? && pc.call.op.Insert?))
      && !copy.RootPointer?
      && (pc.c.node in s.heap && s.heap[pc.c.node].lock == pc.nl ==> copy == s.heap[pc.c.node].body)
    case Validate(_) => pc.Ready? && HasCopy(pc)
    case UpgradeParent(_) =>
      pc.Copied? && HasCopy(pc) && (BranchOf(pc).LeafSplit? || BranchOf(pc).PrefixSplit? || BranchOf(pc).Grow?)
    case UpgradeNode(_) => pc.ParentHeld? || (pc.Copied? && HasCopy(pc) && BranchOf(pc).AddLeaf?)
    case CheckParent(_) => pc.NodeHeld?
    case AddLeaf(_, l) => pc.NodeOwned? && Fresh(s.heap, l)
    case SplitNode(_, n, l) =>
      && pc.BothHeld? && HasCopy(pc) && (BranchOf(pc).LeafSplit? || BranchOf(pc).PrefixSplit?)
      && Fresh(s.heap, n) && Fresh(s.heap, l) && n != l
    case ObsoleteNode(_) => pc.BothHeld? && HasCopy(pc) && BranchOf(pc).Grow?
    case GrowNode(_, n, l) => pc.Growing? && Fresh(s.heap, n) && Fresh(s.heap, l) && n != l
    case Unlock(_) => pc.Releasing?
  }

  /** How many bytes the node to be split shares with the key. */
  function SharedLength(n: Node, k: Key): nat {
    Common(Tail(n), Rest(k, |n.path|))
  }

  /** Every pointer the step follows leads to a node, of the kind the step takes it for. */
  predicate Safe(s: State, step: Step)
    requires Due(s, step)
  {
    var h, pc := s.heap, s.threads[step.t];
    match step
    case Invoke(_, _) => true
    case LockRoot(_) => ROOT in h
    case LoadRoot(_) => ROOT in h && h[ROOT].body.RootPointer?
    case CheckRoot(_) => ROOT in h
    case UpgradeRoot(_) => ROOT in h && pc.rl.Free?
    case PlantLeaf(_, _) => ROOT in h && h[ROOT].body.RootPointer? && pc.call.op.Insert?
    case LockNode(_) => pc.c.node in h
    case ReleaseParent(_) => pc.c.parent in h
    case CopyNode(_, _) => pc.c.node in h
    case Validate(_) => pc.c.node in h
    case UpgradeParent(_) => pc.c.parent in h && pc.c.seen.Free?
    case UpgradeNode(_) => pc.c.node in h && pc.nl.Free?
    case CheckParent(_) => pc.c.parent in h
    case AddLeaf(_, _) => pc.c.node in h && h[pc.c.node].body.Inode? && pc.seen.Inode? && pc.call.op.Insert?
    case SplitNode(_, _, _) =>
      && pc.c.parent in h && !h[pc.c.parent].body.Leaf? && pc.c.node in h && pc.call.op.Insert?
      && SharedLength(h[pc.c.node], pc.call.op.key) < |Tail(h[pc.c.node])|
    case ObsoleteNode(_) => pc.c.node in h
    case GrowNode(_, n, l) =>
      && pc.c.parent in h && !h[pc.c.parent].body.Leaf? && pc.c.node in h && h[pc.c.node].body.Inode?
      && pc.c.parent != pc.c.node && n != pc.c.parent && n != pc.c.node && pc.seen.Inode? && pc.call.op.Insert?
    case Unlock(_) => pc.held != [] && pc.held[0] in h && h[pc.held[0]].lock.Locked?
  }

  predicate Enabled(s: State, step: Step) {
    Due(s, step) && Safe(s, step)
  }

  /** The key byte that chooses a child of the copied node. */
  function Branching(seen: Body, k: Key, d: nat): Byte
    requires seen.Inode?
  {
    KeyByte(k, d + |seen.prefix|)
  }

  function Validated(s: State, t: Tid, pc: Pc): State
    requires pc.Ready? && HasCopy(pc)
  {
    var k := pc.call.op.key;
    match BranchOf(pc)
    case Child(id) =>
      if pc.seen.Inode? then
        s.Put(t, Descend(pc.call, Chain(pc.c.node, Branching(pc.seen, k, pc.c.depth), pc.nl, id, pc.c.depth + |pc.seen.prefix| + 1)))
      else s
    case Same => s.Finish(t, pc.call, if pc.call.op.Get? && pc.seen.Leaf? then Found(pc.seen.val) else AlreadyThere)
    case _ => s.Finish(t, pc.call, NotFound)
  }

  function Next(s: State, step: Step): State
    requires Enabled(s, step)
  {
    var h, t, pc := s.heap, step.t, s.threads[step.t];
    match step
    case Invoke(_, op) => s.Put(t, Start(Call(op, |s.log|)))
    case LockRoot(_) => if h[ROOT].lock.Free? then s.Put(t, RootLocked(pc.call, h[ROOT].lock)) else s
    case LoadRoot(_) => s.Put(t, RootLoaded(pc.call, pc.rl, h[ROOT].body.kids))
    case CheckRoot(_) =>
      if h[ROOT].lock != pc.rl then s.Put(t, Start(pc.call))
      else if 0 in pc.top then s.Put(t, Descend(pc.call, Chain(ROOT, 0, pc.rl, pc.top[0], 0)))
      else s.Finish(t, pc.call, NotFound)
    case UpgradeRoot(_) =>
      var mine := Locked(pc.rl.version, t);
      if h[ROOT].lock != pc.rl then s.Put(t, Start(pc.call))
      else s.Relock(ROOT, mine).Put(t, RootHeld(pc.call, mine))
    case PlantLeaf(_, l) => s.Commit(t, pc.call, Plant(h, l, pc.call.op.key, pc.call.op.val), l, [ROOT])
    case LockNode(_) =>
      if h[pc.c.node].lock.Free? then s.Put(t, NodeLocked(pc.call, pc.c, h[pc.c.node].lock))
      else if h[pc.c.node].lock.Obsolete? then s.Put(t, Start(pc.call))
      else s                                                            // spin
    case ReleaseParent(_) =>
      if h[pc.c.parent].lock != pc.c.seen then s.Put(t, Start(pc.call))
      else if pc.NodeLocked? then s.Put(t, ParentReleased(pc.call, pc.c, pc.nl))
      else s.Put(t, Ready(pc.call, pc.c, pc.nl, pc.seen))
    case CopyNode(_, copy) =>
      if pc.ParentReleased? then s.Put(t, Ready(pc.call, pc.c, pc.nl, copy))
      else s.Put(t, Copied(pc.call, pc.c, pc.nl, copy))
    case Validate(_) =>
      if h[pc.c.node].lock != pc.nl then s.Put(t, Start(pc.call)) else Validated(s, t, pc)
    case UpgradeParent(_) =>
      var mine := Locked(pc.c.seen.version, t);
      if h[pc.c.parent].lock != pc.c.seen then s.Put(t, Start(pc.call))
      else s.Relock(pc.c.parent, mine).Put(t, ParentHeld(pc.call, pc.c.(seen := mine), pc.nl, pc.seen))
    case UpgradeNode(_) =>
      var mine := Locked(pc.nl.version, t);
      if h[pc.c.node].lock != pc.nl then
        if pc.ParentHeld? then s.Put(t, Releasing(pc.call, [pc.c.parent], None)) else s.Put(t, Start(pc.call))
      else
        s.Relock(pc.c.node, mine)
          .Put(t, if pc.ParentHeld? then BothHeld(pc.call, pc.c, mine, pc.seen) else NodeHeld(pc.call, pc.c, mine, pc.seen))
    case CheckParent(_) =>
      if h[pc.c.parent].lock != pc.c.seen then s.Put(t, Releasing(pc.call, [pc.c.node], None))
      else s.Put(t, NodeOwned(pc.call, pc.c, pc.nl, pc.seen))
    case AddLeaf(_, l) =>
      var k := pc.call.op.key;
      s.Commit(t, pc.call, Add(h, pc.c.node, Branching(pc.seen, k, pc.c.depth), l, k, pc.call.op.val), l, [pc.c.node])
    case SplitNode(_, n, l) =>
      var k, m := pc.call.op.key, SharedLength(h[pc.c.node], pc.call.op.key);
      s.Commit(t, pc.call,
               Split(h, pc.c.parent, pc.c.slot, pc.c.node, m, n, KeyByte(k, pc.c.depth + m), l, k, pc.call.op.val),
               l, [pc.c.node, pc.c.parent])
    case ObsoleteNode(_) => s.Relock(pc.c.node, Obsolete(t)).Put(t, Growing(pc.call, pc.c, pc.seen))
    case GrowNode(_, n, l) =>
      var k := pc.call.op.key;
      s.Commit(t, pc.call,
               GrowInto(h, pc.c.parent, pc.c.slot, pc.c.node, n, Branching(pc.seen, k, pc.c.depth), l, k, pc.call.op.val),
               l, [pc.c.parent])
    case Unlock(_) =>
      var s1 := s.Relock(pc.held[0], Free(h[pc.held[0]].lock.version + 1));
      if |pc.held| > 1 then s1.Put(t, pc.(held := pc.held[1..]))
      else if pc.outcome.Some? then s1.Put(t, Done(pc.call, pc.outcome.value))
      else s1.Put(t, Start(pc.call))
  }

  ghost predicate Initial(s: State) {
    && s.heap == map[ROOT := Node(Free(0), RootPointer(map[]), [], true)]
    && s.where == map[] && s.log == []
    && forall t :: t in s.threads ==> s.threads[t] == Idle
  }

  ghost predicate IsRun(states: seq<State>, steps: seq<Step>) {
    && |states| == |steps| + 1
    && Initial(states[0])
    && forall i :: 0 <= i < |steps| ==> Enabled(states[i], steps[i]) && states[i + 1] == Next(states[i], steps[i])
  }
}

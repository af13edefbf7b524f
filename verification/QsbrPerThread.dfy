/** The per-thread object of qsbr.hpp: two request vectors and a two-bit epoch, updated in place.
    Its methods do to the fields what the protocol's functions do to a thread's lists, and every
    request they free passes the check the code makes at deallocation. */
module QsbrPerThread {
  import opened QsbrProtocol

  datatype Request = Request(pointer: Ptr, epoch: nat)

  function Pointers(rs: seq<Request>): set<Ptr> {
    set r | r in rs :: r.pointer
  }

  lemma PointersOfConcat(a: seq<Request>, b: seq<Request>)
    ensures Pointers(a + b) == Pointers(a) + Pointers(b)
  {
    assert forall r :: r in a + b <==> r in a || r in b;
  }

  predicate AllFrom(rs: seq<Request>, e: nat) {
    forall r :: r in rs ==> r.epoch == EpochValue(e)
  }

  /** deallocation_request::deallocate's assertion for a request freed by its own thread. */
  predicate FreedOnTime(r: Request, deallocEpoch: nat, single: bool) {
    (single && deallocEpoch == (r.epoch + 1) % MAX_EPOCHS) || deallocEpoch == (r.epoch + 2) % MAX_EPOCHS
  }

  class PerThread {
    var lastSeenEpoch: nat
    var previous: seq<Request>
    var current: seq<Request>
    ghost var seen: nat  // lastSeenEpoch without wrap-around

    ghost predicate Valid()
      reads this
    {
      && lastSeenEpoch == EpochValue(seen)
      && AllFrom(current, seen)
      && (if seen > 0 then AllFrom(previous, seen - 1) else previous == [])
    }

    /** These fields as part of a protocol thread. */
    ghost function Lists(th: Thread): Thread
      reads this
    {
      th.(seenEpoch := seen, previous := Pointers(previous), current := Pointers(current))
    }

    constructor (e: nat, ghost start: nat)
      requires e == EpochValue(start)
      ensures Valid() && seen == start && previous == current == []
    {
      lastSeenEpoch := e;
      previous, current := [], [];
      seen := start;
    }

    method ExecutePreviousRequests(single: bool, deallocEpoch: nat, newCurrent: seq<Request>, ghost e: nat)
      returns (freed: seq<Request>)
      requires Valid() && e == seen + 1 && deallocEpoch == EpochValue(e) && AllFrom(newCurrent, e)
      modifies this
      ensures Valid() && seen == e
      ensures freed == old(previous) + (if single then old(current) else [])
      ensures current == newCurrent && previous == if single then [] else old(current)
      ensures forall r :: r in freed ==> FreedOnTime(r, deallocEpoch, single)
      ensures forall th :: Lists(th) == ExecutePrevious(old(Lists(th)), single, e, Pointers(newCurrent))
    {
      lastSeenEpoch := deallocEpoch;
      freed := previous;
      if !single {
        previous := current;
      } else {
        previous := [];
        freed := freed + current;
      }
      current := newCurrent;
      seen := e;
    }

    method AdvanceLastSeenEpoch(single: bool, newSeenEpoch: nat, newCurrent: seq<Request>, ghost e: nat)
      returns (freed: seq<Request>)
      requires Valid() && seen <= e <= seen + 1 && newSeenEpoch == EpochValue(e) && AllFrom(newCurrent, e)
      modifies this
      ensures Valid() && seen == e
      ensures freed == if e == old(seen) then [] else old(previous) + (if single then old(current) else [])
      ensures current == (if e == old(seen) then old(current) else newCurrent)
      ensures previous == if e == old(seen) then old(previous) else if single then [] else old(current)
      ensures forall r :: r in freed ==> FreedOnTime(r, newSeenEpoch, single)
      ensures forall th :: Lists(th) == AdvanceSeen(old(Lists(th)), single, e, Pointers(newCurrent))
    {
      if newSeenEpoch == lastSeenEpoch {
        return [];
      }
      freed := ExecutePreviousRequests(single, newSeenEpoch, newCurrent, e);
    }

    /** The work after the state load: the request is freed at once, opens a new interval, or joins
        the current one. */
    method OnNextEpochDeallocate(pointer: Ptr, globalEpoch: nat, single: bool, ghost e: nat)
      returns (freed: seq<Request>)
      requires Valid() && seen <= e <= seen + 1 && globalEpoch == EpochValue(e)
      modifies this
      ensures Valid() && seen == e
      ensures freed == (if e == old(seen) then [] else old(previous) + (if single then old(current) else []))
                       + (if single then [Request(pointer, globalEpoch)] else [])
      ensures current == (if e == old(seen) then old(current) else []) + (if single then [] else [Request(pointer, globalEpoch)])
      ensures previous == if e == old(seen) then old(previous) else if single then [] else old(current)
      ensures forall r :: r in freed && r != Request(pointer, globalEpoch) ==> FreedOnTime(r, globalEpoch, single)
      ensures forall th :: Lists(th) ==
                if single then AdvanceSeen(old(Lists(th)), single, e, {})
                else if e != old(seen) then AdvanceSeen(old(Lists(th)), single, e, {pointer})
                else old(Lists(th)).(current := old(Lists(th)).current + {pointer})
    {
      if single {
        freed := AdvanceLastSeenEpoch(single, globalEpoch, [], e);
        freed := freed + [Request(pointer, globalEpoch)];
        return;
      }
      if lastSeenEpoch != globalEpoch {
        freed := AdvanceLastSeenEpoch(single, globalEpoch, [Request(pointer, globalEpoch)], e);
        assert Pointers([Request(pointer, globalEpoch)]) == {pointer};
        return;
      }
      PointersOfConcat(current, [Request(pointer, lastSeenEpoch)]);
      assert Pointers([Request(pointer, lastSeenEpoch)]) == {pointer};
      current := current + [Request(pointer, lastSeenEpoch)];
      freed := [];
    }
  }
}

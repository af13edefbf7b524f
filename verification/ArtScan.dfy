/** What the scans of art.hpp visit, as stretches of the sorted entries of the tree. */
module ArtScan {
  import opened ArtKey
  import opened ArtOrder
  import opened ArtSeek

  lemma ReversedMore(s: seq<Item>, item: Item)
    ensures Reversed([item] + s) == Reversed(s) + [item]
  {
  }

  /** The test of the loop: there is no second key, or the entry has not reached it. */
  predicate Passes(key: Key, fwd: bool, to: Option<Key>) {
    to.Some? ==> if fwd then Less(key, to.value) else Less(to.value, key)
  }

  /** The entries at or after `from`, in order; in reverse those at or before it. */
  ghost predicate IsFrom(visited: seq<Item>, entries: seq<Item>, from: Key, fwd: bool) {
    var n := |entries|;
    && |visited| <= n
    && (if fwd then visited == entries[n - |visited|..] else visited == Reversed(entries[..|visited|]))
    && forall i :: 0 <= i < n ==>
         if fwd then i >= n - |visited| <==> !Less(entries[i].key, from) else i < |visited| <==> !Less(from, entries[i].key)
  }

  predicate InRange(key: Key, from: Key, to: Key) {
    if Less(from, to) then !Less(key, from) && Less(key, to) else Less(to, key) && !Less(from, key)
  }

  /** The entries from `from` up or down to `to`, which is excluded, in the direction of travel. */
  ghost predicate IsRange(visited: seq<Item>, entries: seq<Item>, from: Key, to: Key) {
    exists a, b :: 0 <= a <= b <= |entries| && IsStretch(visited, entries, from, to, a, b)
  }

  ghost predicate IsStretch(visited: seq<Item>, entries: seq<Item>, from: Key, to: Key, a: int, b: int)
    requires 0 <= a <= b <= |entries|
  {
    && visited == (if Less(from, to) then entries[a..b] else Reversed(entries[a..b]))
    && forall i :: 0 <= i < |entries| ==> (a <= i < b <==> InRange(entries[i].key, from, to))
  }

  lemma LessTransitive(a: Key, b: Key, c: Key)
    ensures Less(a, b) && Less(b, c) ==> Less(a, c)
    ensures Less(a, b) && !Less(c, b) ==> Less(a, c)
    ensures !Less(b, a) && Less(b, c) ==> Less(a, c)
  {
    LessIsNumeric(a, b);
    LessIsNumeric(b, a);
    LessIsNumeric(b, c);
    LessIsNumeric(c, b);
    LessIsNumeric(a, c);
  }

  /** In sorted entries a key splits smaller from larger ones. */
  lemma LessSplits(entries: seq<Item>, k: Key, i: nat, j: nat)
    requires Increasing(entries) && i <= j < |entries|
    ensures Less(entries[j].key, k) ==> Less(entries[i].key, k)
    ensures Less(k, entries[i].key) ==> Less(k, entries[j].key)
  {
    LessTransitive(entries[i].key, entries[j].key, k);
    LessTransitive(k, entries[i].key, entries[j].key);
  }

  /** Where a search landed right, everything on the far side is on the right side of the key. */
  lemma LandedSides(entries: seq<Item>, k: Key, fwd: bool, at: Option<nat>)
    requires Increasing(entries) && (at.Some? ==> at.value < |entries|) && LandsRight(entries, k, fwd, at)
    ensures fwd ==> forall i :: 0 <= i < |entries| ==>
              (Less(entries[i].key, k) <==> at.None? || i < at.value)
    ensures !fwd ==> forall i :: 0 <= i < |entries| ==>
              (Less(k, entries[i].key) <==> at.None? || i > at.value)
  {
    hide Less, Increasing;
    forall i | 0 <= i < |entries|
      ensures fwd ==> (Less(entries[i].key, k) <==> at.None? || i < at.value)
      ensures !fwd ==> (Less(k, entries[i].key) <==> at.None? || i > at.value)
    {
      if at.Some? {
        if i < at.value {
          assert entries[i] == entries[..at.value][i];
          LessSplits(entries, k, i, at.value);
        } else {
          LessSplits(entries, k, at.value, i);
          if i > at.value { assert entries[i] == entries[at.value + 1..][i - at.value - 1]; }
        }
      }
    }
  }

  lemma VisitedFrom(visited: seq<Item>, entries: seq<Item>, from: Key, fwd: bool, at: Option<nat>)
    requires Increasing(entries) && (at.Some? ==> at.value < |entries|)
    requires fwd ==> visited == entries[if at.None? then |entries| else at.value..]
    requires !fwd ==> visited == Reversed(entries[..if at.None? then 0 else at.value + 1])
    ensures IsFrom(visited, entries, from, fwd) <==> LandsRight(entries, from, fwd, at)
  {
    hide Less, Increasing, Reversed;
    if LandsRight(entries, from, fwd, at) {
      LandedSides(entries, from, fwd, at);
    }
  }

  lemma VisitedRange(visited: seq<Item>, entries: seq<Item>, from: Key, to: Key, at: Option<nat>, stop: nat)
    requires Increasing(entries) && from != to && (at.Some? ==> at.value < |entries|)
    requires LandsRight(entries, from, Less(from, to), at)
    requires Less(from, to) ==>
      var p := if at.None? then |entries| else at.value;
      && p <= stop <= |entries| && visited == entries[p..stop]
      && (forall i :: p <= i < stop ==> Passes(entries[i].key, true, Some(to)))
      && (stop < |entries| ==> !Passes(entries[stop].key, true, Some(to)))
    requires !Less(from, to) ==>
      var p := if at.None? then 0 else at.value + 1;
      && stop <= p <= |entries| && visited == Reversed(entries[stop..p])
      && (forall i :: stop <= i < p ==> Passes(entries[i].key, false, Some(to)))
      && (stop > 0 ==> !Passes(entries[stop - 1].key, false, Some(to)))
    ensures IsRange(visited, entries, from, to)
  {
    hide Less, Increasing, Reversed, LandsRight;
    var fwd := Less(from, to);
    LandedSides(entries, from, fwd, at);
    var p := if at.None? then if fwd then |entries| else 0 else at.value + if fwd then 0 else 1;
    var a, b := if fwd then p else stop, if fwd then stop else p;
    forall i | 0 <= i < |entries| ensures a <= i < b <==> InRange(entries[i].key, from, to) {
      if fwd && i >= stop { LessSplits(entries, to, stop, i); }
      if !fwd && i < stop { LessSplits(entries, to, i, stop - 1); }
    }
    assert IsStretch(visited, entries, from, to, a, b);
  }

  lemma EmptyRange(entries: seq<Item>, k: Key)
    ensures IsRange([], entries, k, k)
  {
    forall i | 0 <= i < |entries| ensures !InRange(entries[i].key, k, k) {
      LessTransitive(k, entries[i].key, k);
      NotBoth(k, k);
    }
    assert IsStretch([], entries, k, k, 0, 0);
  }

  ghost predicate NoneInRange(entries: seq<Item>, from: Key, to: Key) {
    forall i :: 0 <= i < |entries| ==> !InRange(entries[i].key, from, to)
  }

  lemma NothingVisited(entries: seq<Item>, from: Key, to: Key)
    ensures IsRange([], entries, from, to) <==> NoneInRange(entries, from, to)
  {
    hide InRange, Less;
    if NoneInRange(entries, from, to) {
      assert IsStretch([], entries, from, to, 0, 0);
    }
    if IsRange([], entries, from, to) {
      var a, b :| 0 <= a <= b <= |entries| && IsStretch([], entries, from, to, a, b);
      assert a == b;
    }
  }

  lemma StretchInRange(visited: seq<Item>, entries: seq<Item>, from: Key, to: Key, a: nat, b: nat)
    requires a <= b <= |entries| && IsStretch(visited, entries, from, to, a, b) && visited != []
    ensures InRange(visited[0].key, from, to)
  {
    hide InRange, Less;
    assert visited[0] == if Less(from, to) then entries[a] else entries[b - 1];
  }

  /** Starting from an entry on the wrong side of the first key, that entry is visited although it is out of range. */
  lemma StrayRange(visited: seq<Item>, entries: seq<Item>, from: Key, to: Key, at: nat, stop: nat)
    requires from != to && at < |entries| && WrongSide(entries[at].key, from, Less(from, to))
    requires Less(from, to) ==>
      && at <= stop <= |entries| && visited == entries[at..stop]
      && (stop < |entries| ==> !Passes(entries[stop].key, true, Some(to)))
    requires !Less(from, to) ==>
      && stop <= at + 1 <= |entries| && visited == Reversed(entries[stop..at + 1])
      && (stop > 0 ==> !Passes(entries[stop - 1].key, false, Some(to)))
    ensures !IsRange(visited, entries, from, to)
  {
    hide Less;
    NotBoth(from, to);
    LessTransitive(entries[at].key, from, to);
    LessTransitive(to, from, entries[at].key);
    assert visited != [] && visited[0] == entries[at];
    if IsRange(visited, entries, from, to) {
      var a, b :| 0 <= a <= b <= |entries| && IsStretch(visited, entries, from, to, a, b);
      StretchInRange(visited, entries, from, to, a, b);
    }
  }
}

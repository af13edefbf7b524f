/** The four inner-node layouts of art_internal_impl.hpp on their portable paths: different arrays, one map
    from key byte to child. */
module NodeLayouts {
  import opened ArtKey

  /** A child pointer; NULL is no child. */
  type Ptr = nat
  const NULL: Ptr := 0

  const UNUSED_KEY_BYTE: Byte := 0xFF
  const EMPTY_CHILD: Byte := 0xFF

  // ---- parallel arrays of sorted keys and children -----------------------------------------------

  /** The map that the first `n` places of the arrays stand for. */
  function MapOf(keys: seq<Byte>, kids: seq<Ptr>, n: nat): map<Byte, Ptr>
    requires n <= |keys| && n <= |kids|
  {
    if n == 0 then map[] else MapOf(keys, kids, n - 1)[keys[n - 1] := kids[n - 1]]
  }

  ghost predicate Dense(keys: seq<Byte>, kids: seq<Ptr>, n: nat) {
    && n <= |keys| && n <= |kids|
    && (forall i, j :: 0 <= i < j < n ==> keys[i] < keys[j])
    && (forall i :: 0 <= i < n ==> kids[i] != NULL)
  }

  /** `c` is the least key of the map that is not below `from`. */
  ghost predicate IsLeastFrom(m: map<Byte, Ptr>, from: int, c: Byte) {
    c in m && c >= from && forall d :: d in m && d >= from ==> c <= d
  }

  ghost predicate NoneFrom(m: map<Byte, Ptr>, from: int) {
    forall d :: d in m ==> d < from
  }

  /** `c` is the greatest key of the map that is not above `to`. */
  ghost predicate IsGreatestTo(m: map<Byte, Ptr>, to: int, c: Byte) {
    c in m && c <= to && forall d :: d in m && d <= to ==> d <= c
  }

  ghost predicate NoneTo(m: map<Byte, Ptr>, to: int) {
    forall d :: d in m ==> d > to
  }

  /** `i` is where `b` belongs among the first `n` keys. */
  ghost predicate IsRank(keys: seq<Byte>, n: nat, b: Byte, i: nat) {
    && i <= n <= |keys|
    && (forall j :: 0 <= j < i ==> keys[j] < b) && (forall j :: i <= j < n ==> keys[j] > b)
  }

  /** The second pair of arrays is the first with a pair inserted at place `i`. */
  ghost predicate Inserted(keys: seq<Byte>, kids: seq<Ptr>, keys': seq<Byte>, kids': seq<Ptr>, n: nat, i: nat, b: Byte, p: Ptr) {
    && i <= n && n <= |keys| && n <= |kids| && n < |keys'| && n < |kids'|
    && (forall j :: 0 <= j < i ==> keys'[j] == keys[j] && kids'[j] == kids[j])
    && keys'[i] == b && kids'[i] == p
    && (forall j :: i < j <= n ==> keys'[j] == keys[j - 1] && kids'[j] == kids[j - 1])
  }

  lemma {:induction false} MapOfHas(keys: seq<Byte>, kids: seq<Ptr>, n: nat, b: Byte)
    requires Dense(keys, kids, n)
    ensures b in MapOf(keys, kids, n) <==> exists i :: 0 <= i < n && keys[i] == b
    ensures forall i :: 0 <= i < n && keys[i] == b ==> b in MapOf(keys, kids, n) && MapOf(keys, kids, n)[b] == kids[i]
    ensures |MapOf(keys, kids, n)| == n
  {
    if n > 0 {
      MapOfHas(keys, kids, n - 1, b);
      MapOfHas(keys, kids, n - 1, keys[n - 1]);
    }
  }

  lemma {:induction false} MapOfSame(keys: seq<Byte>, kids: seq<Ptr>, keys': seq<Byte>, kids': seq<Ptr>, n: nat)
    requires n <= |keys| && n <= |kids| && n <= |keys'| && n <= |kids'|
    requires forall j :: 0 <= j < n ==> keys'[j] == keys[j] && kids'[j] == kids[j]
    ensures MapOf(keys', kids', n) == MapOf(keys, kids, n)
  {
    if n > 0 { MapOfSame(keys, kids, keys', kids', n - 1); }
  }

  lemma {:induction false} MapOfInserted(keys: seq<Byte>, kids: seq<Ptr>, keys': seq<Byte>, kids': seq<Ptr>, n: nat, i: nat, b: Byte, p: Ptr)
    requires Inserted(keys, kids, keys', kids', n, i, b, p) && forall j :: i <= j < n ==> keys[j] != b
    ensures MapOf(keys', kids', n + 1) == MapOf(keys, kids, n)[b := p]
    decreases n
  {
    if i == n {
      MapOfSame(keys, kids, keys', kids', n);
    } else {
      MapOfInserted(keys, kids, keys', kids', n - 1, i, b, p);
      var m, c, q := MapOf(keys, kids, n - 1), keys[n - 1], kids[n - 1];
      var one, other: map<Byte, Ptr> := m[b := p], m[c := q];
      assert one[c := q] == other[b := p];
    }
  }

  /** A new pair at its rank keeps the arrays sorted and adds it to the map. */
  lemma InsertedDense(keys: seq<Byte>, kids: seq<Ptr>, keys': seq<Byte>, kids': seq<Ptr>, n: nat, i: nat, b: Byte, p: Ptr)
    requires Dense(keys, kids, n) && Inserted(keys, kids, keys', kids', n, i, b, p) && IsRank(keys, n, b, i) && p != NULL
    ensures Dense(keys', kids', n + 1) && MapOf(keys', kids', n + 1) == MapOf(keys, kids, n)[b := p]
  {
    MapOfInserted(keys, kids, keys', kids', n, i, b, p);
    hide MapOf;
    forall j, l | 0 <= j < l < n + 1 ensures keys'[j] < keys'[l] {
      if j != i && l != i {
        var j0, l0 := if j < i then j else j - 1, if l < i then l else l - 1;
        assert keys[j0] < keys[l0];
      }
    }
  }

  /** Closing the gap of a removed pair takes it out of the map. */
  lemma RemovedDense(keys: seq<Byte>, kids: seq<Ptr>, keys': seq<Byte>, kids': seq<Ptr>, n: nat, i: nat)
    requires Dense(keys, kids, n) && i < n && Inserted(keys', kids', keys, kids, n - 1, i, keys[i], kids[i])
    ensures Dense(keys', kids', n - 1) && MapOf(keys', kids', n - 1) == MapOf(keys, kids, n) - {keys[i]}
  {
    RemovedSorted(keys, kids, keys', kids', n, i);
    MapOfInserted(keys', kids', keys, kids, n - 1, i, keys[i], kids[i]);
    hide MapOf;
    MapOfHas(keys', kids', n - 1, keys[i]);
  }

  lemma RemovedSorted(keys: seq<Byte>, kids: seq<Ptr>, keys': seq<Byte>, kids': seq<Ptr>, n: nat, i: nat)
    requires Dense(keys, kids, n) && i < n && Inserted(keys', kids', keys, kids, n - 1, i, keys[i], kids[i])
    ensures Dense(keys', kids', n - 1) && forall j :: 0 <= j < n - 1 ==> keys'[j] != keys[i]
  {
    forall j | 0 <= j < n - 1
      ensures keys'[j] == keys[if j < i then j else j + 1] && kids'[j] == kids[if j < i then j else j + 1]
    {
      if j >= i { assert keys[j + 1] == keys'[j]; }
    }
  }

  /** Copies `n` places of one node's arrays to another's, in order. */
  method CopyPlaces(srcKeys: array<Byte>, srcKids: array<Ptr>, from: nat, keys: array<Byte>, kids: array<Ptr>, to: nat, n: nat)
    requires srcKeys != keys && srcKids != kids
    requires srcKeys.Length == srcKids.Length && keys.Length == kids.Length
    requires from + n <= srcKeys.Length && to + n <= keys.Length
    modifies keys, kids
    ensures forall j :: 0 <= j < to || to + n <= j < keys.Length ==> keys[j] == old(keys[j]) && kids[j] == old(kids[j])
    ensures forall j :: to <= j < to + n ==> keys[j] == srcKeys[j - to + from] && kids[j] == srcKids[j - to + from]
  {
    var i := 0;
    while i < n
      invariant 0 <= i <= n
      invariant forall j :: 0 <= j < to || to + n <= j < keys.Length ==> keys[j] == old(keys[j]) && kids[j] == old(kids[j])
      invariant forall j :: to <= j < to + i ==> keys[j] == srcKeys[j - to + from] && kids[j] == srcKids[j - to + from]
    {
      keys[to + i] := srcKeys[from + i];
      kids[to + i] := srcKids[from + i];
      i := i + 1;
    }
  }

  /** Moves places `pos` to `n` one up, from the top, to make room. */
  method MakeRoom(keys: array<Byte>, kids: array<Ptr>, pos: nat, n: nat)
    requires keys.Length == kids.Length && pos <= n < keys.Length
    modifies keys, kids
    ensures forall j :: 0 <= j < pos || n < j < keys.Length ==> keys[j] == old(keys[j]) && kids[j] == old(kids[j])
    ensures forall j :: pos < j <= n ==> keys[j] == old(keys[..])[j - 1] && kids[j] == old(kids[..])[j - 1]
  {
    var i := n;
    while i > pos
      invariant pos <= i <= n
      invariant forall j :: 0 <= j < i || n < j < keys.Length ==> keys[j] == old(keys[j]) && kids[j] == old(kids[j])
      invariant forall j :: i < j <= n ==> keys[j] == old(keys[..])[j - 1] && kids[j] == old(kids[..])[j - 1]
    {
      keys[i] := keys[i - 1];
      kids[i] := kids[i - 1];
      i := i - 1;
    }
  }

  /** Moves the places above `pos` one down, closing its gap. */
  method CloseGap(keys: array<Byte>, kids: array<Ptr>, pos: nat, n: nat)
    requires keys.Length == kids.Length && pos < n <= keys.Length
    modifies keys, kids
    ensures forall j :: 0 <= j < pos || n - 1 <= j < keys.Length ==> keys[j] == old(keys[j]) && kids[j] == old(kids[j])
    ensures forall j :: pos < j < n ==> old(keys[..])[j] == keys[j - 1] && old(kids[..])[j] == kids[j - 1]
  {
    var i := pos;
    while i < n - 1
      invariant pos <= i <= n - 1
      invariant forall j :: 0 <= j < pos || i <= j < keys.Length ==> keys[j] == old(keys[j]) && kids[j] == old(kids[j])
      invariant forall j :: pos < j <= i ==> old(keys[..])[j] == keys[j - 1] && old(kids[..])[j] == kids[j - 1]
    {
      keys[i] := keys[i + 1];
      kids[i] := kids[i + 1];
      i := i + 1;
    }
  }

  // ---- four children -------------------------------------------------------------------------------

  class Node4 {
    const keys: array<Byte>
    const children: array<Ptr>
    var count: nat

    /** Unused key places hold 0xFF, so that comparing all of them still counts only smaller keys. */
    ghost predicate Valid()
      reads this, keys, children
    {
      && keys.Length == 4 && children.Length == 4 && count <= 4
      && Dense(keys[..], children[..], count)
      && (forall i :: count <= i < 4 ==> keys[i] == UNUSED_KEY_BYTE)
    }

    ghost function Contents(): map<Byte, Ptr>
      requires Valid()
      reads this, keys, children
    {
      MapOf(keys[..], children[..], count)
    }

    /** add_two_to_empty. */
    constructor Two(b1: Byte, p1: Ptr, b2: Byte, p2: Ptr)
      requires b1 != b2 && p1 != NULL && p2 != NULL
      ensures Valid() && Contents() == map[b1 := p1, b2 := p2] && count == 2
      ensures fresh(keys) && fresh(children)
    {
      keys := new Byte[4](_ => UNUSED_KEY_BYTE);
      children := new Ptr[4](_ => NULL);
      count := 2;
      new;
      var i1 := if b1 < b2 then 0 else 1;
      var i2 := 1 - i1;
      keys[i1] := b1;
      children[i1] := p1;
      keys[i2] := b2;
      children[i2] := p2;
      keys[2] := UNUSED_KEY_BYTE;
      keys[3] := UNUSED_KEY_BYTE;
      assert MapOf(keys[..], children[..], 0) == map[];
      assert MapOf(keys[..], children[..], 1) == map[keys[0] := children[0]];
    }

    /** A smallest sixteen-way node without one of its children. */
    constructor From16(source: Node16, childToDelete: nat)
      requires source.Valid() && source.count == 5 && childToDelete < 5
      ensures Valid() && Contents() == source.Contents() - {source.keys[childToDelete]} && count == 4
      ensures fresh(keys) && fresh(children)
    {
      keys := new Byte[4](_ => UNUSED_KEY_BYTE);
      children := new Ptr[4](_ => NULL);
      count := 4;
      new;
      hide Dense, MapOf;
      CopyPlaces(source.keys, source.children, 0, keys, children, 0, childToDelete);
      CopyPlaces(source.keys, source.children, childToDelete + 1, keys, children, childToDelete, 4 - childToDelete);
      RemovedDense(source.keys[..], source.children[..], keys[..], children[..], 5, childToDelete);
    }

    /** The branchless position: how many of the first three places hold a smaller byte. */
    method InsertPosition(b: Byte) returns (i: nat)
      requires Valid() && count < 4 && b !in Contents()
      ensures i <= count && IsRank(keys[..], count, b, i)
    {
      var firstLt := if keys[0] < b then 1 else 0;
      var secondLt := if keys[1] < b then 1 else 0;
      var thirdLt := if keys[2] < b then 1 else 0;
      i := firstLt + secondLt + thirdLt;
      MapOfHas(keys[..], children[..], count, b);
      PaddedRank(keys[..], children[..], count, b);
    }

    /** The same over all four places, for a full node about to grow. */
    method FullInsertPosition(b: Byte) returns (i: nat)
      requires Valid() && count == 4 && b !in Contents()
      ensures i <= 4 && IsRank(keys[..], 4, b, i)
    {
      var firstLt := if keys[0] < b then 1 else 0;
      var secondLt := if keys[1] < b then 1 else 0;
      var thirdLt := if keys[2] < b then 1 else 0;
      var fourthLt := if keys[3] < b then 1 else 0;
      i := firstLt + secondLt + thirdLt + fourthLt;
      MapOfHas(keys[..], children[..], 4, b);
      FullRank(keys[..], children[..], b);
    }

    method AddToNonfull(b: Byte, p: Ptr)
      requires Valid() && count < 4 && b !in Contents() && p != NULL
      modifies this, keys, children
      ensures Valid() && Contents() == old(Contents())[b := p] && count == old(count) + 1
    {
      hide Dense, MapOf, IsRank;
      var pos := InsertPosition(b);
      ghost var ks, cs := keys[..], children[..];
      MakeRoom(keys, children, pos, count);
      keys[pos] := b;
      children[pos] := p;
      InsertedDense(ks, cs, keys[..], children[..], count, pos, b, p);
      count := count + 1;
    }

    method Remove(childIndex: nat)
      requires Valid() && childIndex < count
      modifies this, keys, children
      ensures Valid() && Contents() == old(Contents()) - {old(keys[childIndex])} && count == old(count) - 1
    {
      hide Dense, MapOf;
      ghost var ks, cs := keys[..], children[..];
      CloseGap(keys, children, childIndex, count);
      keys[count - 1] := UNUSED_KEY_BYTE;
      RemovedDense(ks, cs, keys[..], children[..], count, childIndex);
      count := count - 1;
    }

    /** The child left when the node would drop below its minimum, with the byte that leads to it. */
    method LeaveLastChild(childToDelete: nat) returns (b: Byte, last: Ptr)
      requires Valid() && count == 2 && childToDelete < 2
      ensures Contents() - {keys[childToDelete]} == map[b := last]
    {
      var childToLeave := if childToDelete == 0 then 1 else 0;
      b, last := keys[childToLeave], children[childToLeave];
      assert MapOf(keys[..], children[..], 0) == map[];
      assert MapOf(keys[..], children[..], 1) == map[keys[0] := children[0]];
    }

    method FindChild(b: Byte) returns (found: bool, i: nat)
      requires Valid()
      ensures found <==> b in Contents()
      ensures found ==> i < count && keys[i] == b && children[i] == Contents()[b]
    {
      found, i := FindKey(keys, children, count, b);
    }

    method Begin() returns (i: nat)
      requires Valid() && count > 0
      ensures i < count && IsLeastFrom(Contents(), 0, keys[i])
    {
      EveryKey(keys[..], children[..], count);
      i := 0;
    }

    method Last() returns (i: nat)
      requires Valid() && count > 0
      ensures i < count && IsGreatestTo(Contents(), 255, keys[i])
    {
      EveryKey(keys[..], children[..], count);
      i := count - 1;
    }

    /** The next child: the least key of the map beyond that of the child given. */
    method Next(childIndex: nat) returns (found: bool, i: nat)
      requires Valid() && childIndex < count
      ensures found ==> i < count && IsLeastFrom(Contents(), keys[childIndex] as int + 1, keys[i])
      ensures !found ==> NoneFrom(Contents(), keys[childIndex] as int + 1)
    {
      EveryKey(keys[..], children[..], count);
      i := childIndex + 1;
      found := i < count;
    }

    method Prior(childIndex: nat) returns (found: bool, i: nat)
      requires Valid() && childIndex < count
      ensures found ==> i < count && IsGreatestTo(Contents(), keys[childIndex] as int - 1, keys[i])
      ensures !found ==> NoneTo(Contents(), keys[childIndex] as int - 1)
    {
      EveryKey(keys[..], children[..], count);
      if childIndex == 0 {
        return false, 0;
      }
      return true, childIndex - 1;
    }

    /** The first child at or beyond a byte: the least such key of the map. */
    method GteKeyByte(b: Byte) returns (found: bool, i: nat)
      requires Valid()
      ensures found ==> i < count && IsLeastFrom(Contents(), b, keys[i])
      ensures !found ==> NoneFrom(Contents(), b)
    {
      found, i := FirstAtLeast(keys, children, count, b);
    }

    /** The last child at or before a byte. */
    method LteKeyByte(b: Byte) returns (found: bool, i: nat)
      requires Valid()
      ensures found ==> i < count && IsGreatestTo(Contents(), b, keys[i])
      ensures !found ==> NoneTo(Contents(), b)
    {
      found, i := LastAtMost(keys, children, count, b);
    }
  }

  method FindKey(keys: array<Byte>, children: array<Ptr>, n: nat, b: Byte) returns (found: bool, i: nat)
    requires Dense(keys[..], children[..], n)
    ensures found <==> b in MapOf(keys[..], children[..], n)
    ensures found ==> i < n && keys[i] == b && children[i] == MapOf(keys[..], children[..], n)[b]
  {
    MapOfHas(keys[..], children[..], n, b);
    i := 0;
    while i < n
      invariant i <= n && forall j :: 0 <= j < i ==> keys[j] != b
    {
      if keys[i] == b {
        return true, i;
      }
      i := i + 1;
    }
    return false, 0;
  }

  method FirstAtLeast(keys: array<Byte>, children: array<Ptr>, n: nat, b: Byte) returns (found: bool, i: nat)
    requires Dense(keys[..], children[..], n)
    ensures found ==> i < n && IsLeastFrom(MapOf(keys[..], children[..], n), b, keys[i])
    ensures !found ==> NoneFrom(MapOf(keys[..], children[..], n), b)
  {
    EveryKey(keys[..], children[..], n);
    i := 0;
    while i < n
      invariant i <= n && forall j :: 0 <= j < i ==> keys[j] < b
    {
      if keys[i] >= b {
        assert keys[..][i] in MapOf(keys[..], children[..], n);
        return true, i;
      }
      i := i + 1;
    }
    return false, 0;
  }

  method LastAtMost(keys: array<Byte>, children: array<Ptr>, n: nat, b: Byte) returns (found: bool, i: nat)
    requires Dense(keys[..], children[..], n)
    ensures found ==> i < n && IsGreatestTo(MapOf(keys[..], children[..], n), b, keys[i])
    ensures !found ==> NoneTo(MapOf(keys[..], children[..], n), b)
  {
    EveryKey(keys[..], children[..], n);
    i := n;
    while i > 0
      invariant i <= n && forall j :: i <= j < n ==> keys[j] > b
    {
      i := i - 1;
      if keys[i] <= b {
        assert keys[..][i] in MapOf(keys[..], children[..], n);
        return true, i;
      }
    }
    return false, 0;
  }

  lemma EveryKey(keys: seq<Byte>, kids: seq<Ptr>, n: nat)
    requires Dense(keys, kids, n)
    ensures forall c :: c in MapOf(keys, kids, n) ==> exists i :: 0 <= i < n && keys[i] == c
    ensures forall i :: 0 <= i < n ==> keys[i] in MapOf(keys, kids, n)
  {
    forall c | c in MapOf(keys, kids, n) ensures exists i :: 0 <= i < n && keys[i] == c {
      MapOfHas(keys, kids, n, c);
    }
    forall i | 0 <= i < n ensures keys[i] in MapOf(keys, kids, n) {
      MapOfHas(keys, kids, n, keys[i]);
    }
  }

  /** With 0xFF in the unused places, counting the smaller bytes among the first three gives the rank. */
  lemma PaddedRank(keys: seq<Byte>, kids: seq<Ptr>, n: nat, b: Byte)
    requires |keys| == 4 && n < 4 && Dense(keys, kids, n) && forall i :: 0 <= i < n ==> keys[i] != b
    requires forall i :: n <= i < 4 ==> keys[i] == UNUSED_KEY_BYTE
    ensures
      IsRank(keys, n, b, (if keys[0] < b then 1 else 0) + (if keys[1] < b then 1 else 0) + if keys[2] < b then 1 else 0)
  {
    assert n > 1 ==> keys[0] < keys[1];
    assert n > 2 ==> keys[1] < keys[2];
  }

  /** All four places are compared when the node is full. */
  lemma FullRank(keys: seq<Byte>, kids: seq<Ptr>, b: Byte)
    requires |keys| == 4 && Dense(keys, kids, 4) && forall i :: 0 <= i < 4 ==> keys[i] != b
    ensures
      IsRank(keys, 4, b,
             (if keys[0] < b then 1 else 0) + (if keys[1] < b then 1 else 0)
             + (if keys[2] < b then 1 else 0) + if keys[3] < b then 1 else 0)
  {
    assert keys[0] < keys[1] && keys[1] < keys[2] && keys[2] < keys[3];
  }

  // ---- sixteen children ------------------------------------------------------------------------------

  class Node16 {
    const keys: array<Byte>
    const children: array<Ptr>
    var count: nat

    ghost predicate Valid()
      reads this, keys, children
    {
      && keys.Length == 16 && children.Length == 16 && count <= 16
      && Dense(keys[..], children[..], count)
    }

    ghost function Contents(): map<Byte, Ptr>
      requires Valid()
      reads this, keys, children
    {
      MapOf(keys[..], children[..], count)
    }

    /** A full four-way node and one more child. */
    constructor From4(source: Node4, b: Byte, p: Ptr)
      requires source.Valid() && source.count == 4 && b !in source.Contents() && p != NULL
      ensures Valid() && Contents() == source.Contents()[b := p] && count == 5
      ensures fresh(keys) && fresh(children)
    {
      keys := new Byte[16](_ => 0);
      children := new Ptr[16](_ => NULL);
      count := 5;
      new;
      hide Dense, MapOf, IsRank;
      var pos := source.FullInsertPosition(b);
      CopyPlaces(source.keys, source.children, 0, keys, children, 0, pos);
      keys[pos] := b;
      children[pos] := p;
      CopyPlaces(source.keys, source.children, pos, keys, children, pos + 1, 4 - pos);
      InsertedDense(source.keys[..], source.children[..], keys[..], children[..], 4, pos, b, p);
    }

    /** A smallest 48-way node without one of its children: the bytes in order, sixteen of them mapped. */
    constructor From48(source: Node48, childToDelete: Byte)
      requires source.Valid() && source.count == 17 && childToDelete in source.Contents()
      modifies source.indexes
      ensures Valid() && Contents() == old(source.Contents()) - {childToDelete} && count == 16
      ensures fresh(keys) && fresh(children)
    {
      keys := new Byte[16](_ => 0);
      children := new Ptr[16](_ => NULL);
      count := 16;
      new;
      ghost var m := source.Contents() - {childToDelete};
      MinusOne(source.Contents(), childToDelete);
      SparseRemoved(source.indexes[..], source.pointers[..], source.owner, childToDelete);
      source.indexes[childToDelete] := EMPTY_CHILD;
      hide MapOf, Dense;
      CollectInOrder(source.indexes, source.pointers, keys, children, m);
    }

    /** lower_bound over the sorted keys. */
    method InsertPosition(b: Byte) returns (i: nat)
      requires Valid() && b !in Contents()
      ensures i <= count && IsRank(keys[..], count, b, i)
    {
      MapOfHas(keys[..], children[..], count, b);
      i := 0;
      while i < count && keys[i] < b
        invariant i <= count && forall j :: 0 <= j < i ==> keys[j] < b
      {
        i := i + 1;
      }
    }

    method AddToNonfull(b: Byte, p: Ptr)
      requires Valid() && count < 16 && b !in Contents() && p != NULL
      modifies this, keys, children
      ensures Valid() && Contents() == old(Contents())[b := p] && count == old(count) + 1
    {
      hide Dense, MapOf, IsRank;
      var pos := InsertPosition(b);
      ghost var ks, cs := keys[..], children[..];
      MakeRoom(keys, children, pos, count);
      keys[pos] := b;
      children[pos] := p;
      InsertedDense(ks, cs, keys[..], children[..], count, pos, b, p);
      count := count + 1;
    }

    method Remove(childIndex: nat)
      requires Valid() && childIndex < count
      modifies this, keys, children
      ensures Valid() && Contents() == old(Contents()) - {old(keys[childIndex])} && count == old(count) - 1
    {
      hide Dense, MapOf;
      ghost var ks, cs := keys[..], children[..];
      CloseGap(keys, children, childIndex, count);
      RemovedDense(ks, cs, keys[..], children[..], count, childIndex);
      count := count - 1;
    }

    method FindChild(b: Byte) returns (found: bool, i: nat)
      requires Valid()
      ensures found <==> b in Contents()
      ensures found ==> i < count && keys[i] == b && children[i] == Contents()[b]
    {
      found, i := FindKey(keys, children, count, b);
    }

    method Begin() returns (i: nat)
      requires Valid() && count > 0
      ensures i < count && IsLeastFrom(Contents(), 0, keys[i])
    {
      EveryKey(keys[..], children[..], count);
      i := 0;
    }

    method Last() returns (i: nat)
      requires Valid() && count > 0
      ensures i < count && IsGreatestTo(Contents(), 255, keys[i])
    {
      EveryKey(keys[..], children[..], count);
      i := count - 1;
    }

    /** The next child: the least key of the map beyond that of the child given. */
    method Next(childIndex: nat) returns (found: bool, i: nat)
      requires Valid() && childIndex < count
      ensures found ==> i < count && IsLeastFrom(Contents(), keys[childIndex] as int + 1, keys[i])
      ensures !found ==> NoneFrom(Contents(), keys[childIndex] as int + 1)
    {
      EveryKey(keys[..], children[..], count);
      i := childIndex + 1;
      found := i < count;
    }

    method Prior(childIndex: nat) returns (found: bool, i: nat)
      requires Valid() && childIndex < count
      ensures found ==> i < count && IsGreatestTo(Contents(), keys[childIndex] as int - 1, keys[i])
      ensures !found ==> NoneTo(Contents(), keys[childIndex] as int - 1)
    {
      EveryKey(keys[..], children[..], count);
      if childIndex == 0 {
        return false, 0;
      }
      return true, childIndex - 1;
    }

    /** The first child at or beyond a byte: the least such key of the map. */
    method GteKeyByte(b: Byte) returns (found: bool, i: nat)
      requires Valid()
      ensures found ==> i < count && IsLeastFrom(Contents(), b, keys[i])
      ensures !found ==> NoneFrom(Contents(), b)
    {
      found, i := FirstAtLeast(keys, children, count, b);
    }

    /** The last child at or before a byte. */
    method LteKeyByte(b: Byte) returns (found: bool, i: nat)
      requires Valid()
      ensures found ==> i < count && IsGreatestTo(Contents(), b, keys[i])
      ensures !found ==> NoneTo(Contents(), b)
    {
      found, i := LastAtMost(keys, children, count, b);
    }
  }

  // ---- children addressed by key byte ------------------------------------------------------------------

  /** The map of a 48-way node: a byte leads to a place, the place holds the child. */
  function SparseMap(indexes: seq<Byte>, pointers: seq<Ptr>): map<Byte, Ptr>
    requires |indexes| == 256
  {
    map b: Byte | b < 256 && indexes[b] < |pointers| :: pointers[indexes[b]]
  }

  function DirectMap(children: seq<Ptr>): map<Byte, Ptr>
    requires |children| == 256
  {
    map b: Byte | b < 256 && children[b] != NULL :: children[b]
  }

  /** The part of a map with keys below `n`. */
  function BelowByte(m: map<Byte, Ptr>, n: nat): map<Byte, Ptr> {
    map b: Byte | b in m && b < n :: m[b]
  }

  lemma MinusOne(m: map<Byte, Ptr>, b: Byte)
    requires b in m
    ensures |m - {b}| == |m| - 1
  {
    var less := m - {b};
    assert m == less[b := m[b]];
  }

  lemma BelowAll(m: map<Byte, Ptr>, i: nat)
    requires i >= 256
    ensures BelowByte(m, i) == m
  {
  }

  lemma BelowNext(m: map<Byte, Ptr>, b: Byte)
    ensures BelowByte(m, b + 1) == if b in m then BelowByte(m, b)[b := m[b]] else BelowByte(m, b)
    ensures b !in BelowByte(m, b)
  {
  }

  /** The first `n` places hold, in order, the entries of `m` below byte `i`. */
  ghost predicate Collected(keys: seq<Byte>, kids: seq<Ptr>, n: nat, m: map<Byte, Ptr>, i: nat) {
    && Dense(keys, kids, n) && (forall j :: 0 <= j < n ==> keys[j] < i)
    && MapOf(keys, kids, n) == BelowByte(m, i) && |BelowByte(m, i)| == n
  }

  lemma BelowEmpty(m: map<Byte, Ptr>, keys: seq<Byte>, kids: seq<Ptr>)
    ensures Collected(keys, kids, 0, m, 0)
  {
    assert BelowByte(m, 0) == map[];
  }

  lemma CollectNext(keys: seq<Byte>, kids: seq<Ptr>, keys': seq<Byte>, kids': seq<Ptr>, n: nat, m: map<Byte, Ptr>, b: Byte)
    requires Collected(keys, kids, n, m, b) && b in m && m[b] != NULL
    requires n < |keys| && n < |kids| && keys' == keys[n := b] && kids' == kids[n := m[b]]
    ensures Collected(keys', kids', n + 1, m, b + 1)
  {
    BelowNext(m, b);
    MapOfSame(keys, kids, keys', kids', n);
  }

  lemma CollectNone(keys: seq<Byte>, kids: seq<Ptr>, n: nat, m: map<Byte, Ptr>, b: Byte)
    requires Collected(keys, kids, n, m, b) && b !in m
    ensures Collected(keys, kids, n, m, b + 1)
  {
    BelowNext(m, b);
  }

  lemma NotYet(keys: seq<Byte>, kids: seq<Ptr>, n: nat, m: map<Byte, Ptr>, i: nat)
    requires Collected(keys, kids, n, m, i) && n < |m|
    ensures i < 256
  {
    if i >= 256 { BelowAll(m, i); }
  }

  /** What the two arrays hold for each byte once a child has been dropped from the indexes. */
  lemma SparseAt(indexes: seq<Byte>, pointers: seq<Ptr>, m: map<Byte, Ptr>)
    requires |indexes| == 256 && |pointers| == 48 && (forall b: Byte :: b < 256 ==> indexes[b] < 48 || indexes[b] == EMPTY_CHILD)
    requires forall b: Byte :: b < 256 && indexes[b] < 48 ==> pointers[indexes[b]] != NULL
    requires SparseMap(indexes, pointers) == m
    ensures forall b: Byte :: b < 256 ==>
      if indexes[b] == EMPTY_CHILD then b !in m
      else indexes[b] < 48 && b in m && m[b] == pointers[indexes[b]] && m[b] != NULL
  {
  }

  lemma AllCollected(keys: seq<Byte>, kids: seq<Ptr>, m: map<Byte, Ptr>, i: nat)
    requires Collected(keys, kids, |m|, m, i)
    ensures Dense(keys, kids, |m|) && MapOf(keys, kids, |m|) == m
  {
    var below := BelowByte(m, i);
    assert below.Keys <= m.Keys && |below.Keys| == |below| && |m.Keys| == |m|;
    SameSize(below.Keys, m.Keys);
  }

  lemma SameSize<T>(a: set<T>, b: set<T>)
    requires a <= b && |a| == |b|
    ensures a == b
  {
    assert b == a + (b - a);
    assert |b - a| == 0;
  }

  lemma SubsetSize<T>(a: set<T>, b: set<T>)
    requires a <= b
    ensures |a| <= |b|
  {
    assert b == a + (b - a);
  }

  /** The mapped bytes in order, with their children, until the sixteen places are filled. */
  method CollectInOrder(indexes: array<Byte>, pointers: array<Ptr>, keys: array<Byte>, children: array<Ptr>, ghost m: map<Byte, Ptr>)
    requires indexes != keys && pointers != children && keys.Length == 16 && children.Length == 16
    requires indexes.Length == 256 && pointers.Length == 48
    requires forall b: Byte :: b < 256 ==> indexes[b] == EMPTY_CHILD || (indexes[b] < 48 && pointers[indexes[b]] != NULL)
    requires SparseMap(indexes[..], pointers[..]) == m && |m| == 16
    modifies keys, children
    ensures Dense(keys[..], children[..], 16) && MapOf(keys[..], children[..], 16) == m
  {
    hide MapOf, Collected, BelowByte, Dense;
    SparseAt(indexes[..], pointers[..], m);
    var nextChild, i := 0, 0;
    BelowEmpty(m, keys[..], children[..]);
    while nextChild != 16
      invariant 0 <= nextChild <= 16 && i <= 256
      invariant Collected(keys[..], children[..], nextChild, m, i)
      decreases 256 - i
    {
      NotYet(keys[..], children[..], nextChild, m, i);
      var child := indexes[i];
      ghost var ks, cs := keys[..], children[..];
      if child != EMPTY_CHILD {
        keys[nextChild] := i;
        children[nextChild] := pointers[child];
        CollectNext(ks, cs, keys[..], children[..], nextChild, m, i);
        nextChild := nextChild + 1;
      } else {
        CollectNone(ks, cs, nextChild, m, i);
      }
      i := i + 1;
    }
    AllCollected(keys[..], children[..], m, i);
  }

  // ---- forty-eight children ----------------------------------------------------------------------------

  /** Every mapped byte has a place of its own with a child in it; `owner` says whose place is whose. */
  ghost predicate Sparse(indexes: seq<Byte>, pointers: seq<Ptr>, owner: seq<Byte>) {
    && |indexes| == 256 && |pointers| == 48 && |owner| == 48
    && (forall b: Byte :: b < 256 ==> indexes[b] == EMPTY_CHILD || (indexes[b] < 48 && pointers[indexes[b]] != NULL && owner[indexes[b]] == b))
    && (forall i :: 0 <= i < 48 && pointers[i] != NULL ==> indexes[owner[i]] == i)
  }

  class Node48 {
    const indexes: array<Byte>
    const pointers: array<Ptr>
    var count: nat
    ghost var owner: seq<Byte>

    ghost predicate Valid()
      reads this, indexes, pointers
    {
      && indexes.Length == 256 && pointers.Length == 48
      && Sparse(indexes[..], pointers[..], owner) && count == |SparseMap(indexes[..], pointers[..])|
    }

    ghost function Contents(): map<Byte, Ptr>
      requires Valid()
      reads this, indexes, pointers
    {
      SparseMap(indexes[..], pointers[..])
    }

    /** A full sixteen-way node and one more child, in the seventeenth place. */
    constructor From16(source: Node16, b: Byte, p: Ptr)
      requires source.Valid() && source.count == 16 && b !in source.Contents() && p != NULL
      ensures Valid() && Contents() == source.Contents()[b := p] && count == 17
      ensures indexes[b] == 16 && forall i :: 0 <= i < 16 ==> indexes[source.keys[i]] == i
      ensures fresh(indexes) && fresh(pointers)
    {
      indexes := new Byte[256](_ => EMPTY_CHILD);
      pointers := new Ptr[48](_ => NULL);
      count := 17;
      owner := source.keys[..] + [b] + seq(31, _ => 0);
      new;
      hide MapOf, SparseMap, Sparse;
      EveryKey(source.keys[..], source.children[..], 16);
      IndexKeys(source.keys, indexes);
      PlaceChildren(source.children, pointers, p);
      indexes[b] := 16;
      GrownFrom16(source.keys[..], source.children[..], b, p, indexes[..], pointers[..], owner);
    }

    /** A smallest 256-way node without one of its children, whose places fill up in byte order. */
    constructor From256(source: Node256, childToDelete: Byte)
      requires source.Valid() && source.count == 49 && |source.Contents()| == 49 && childToDelete in source.Contents()
      modifies source.children
      ensures Valid() && Contents() == old(source.Contents()) - {childToDelete} && count == 48 && PlacesAscend(indexes[..])
      ensures fresh(indexes) && fresh(pointers)
    {
      indexes := new Byte[256](_ => EMPTY_CHILD);
      pointers := new Ptr[48](_ => NULL);
      count := 48;
      owner := seq(48, _ => 0);
      new;
      ghost var m := source.Contents() - {childToDelete};
      MinusOne(source.Contents(), childToDelete);
      source.children[childToDelete] := NULL;
      assert DirectMap(source.children[..]) == m;
      owner := FillPlaces(source.children, indexes, pointers, m);
    }

    method FindChild(b: Byte) returns (found: bool, i: nat)
      requires Valid()
      ensures found <==> b in Contents()
      ensures found ==> i < 48 && i == indexes[b] && pointers[i] == Contents()[b]
    {
      i := indexes[b];
      found := i != EMPTY_CHILD;
    }

    /** The new child goes to the first free place. */
    method AddToNonfull(b: Byte, p: Ptr)
      requires Valid() && count < 48 && b !in Contents() && p != NULL
      modifies this, indexes, pointers
      ensures Valid() && Contents() == old(Contents())[b := p] && count == old(count) + 1
      ensures indexes[..] == old(indexes[..])[b := indexes[b]] && indexes[b] < 48
      ensures pointers[..] == old(pointers[..])[indexes[b] := p]
      ensures old(pointers[..])[indexes[b]] == NULL && forall j :: 0 <= j < indexes[b] ==> old(pointers[..])[j] != NULL
    {
      FreePlace(indexes[..], pointers[..], owner);
      ghost var xs, ps := indexes[..], pointers[..];
      var i := 0;
      while pointers[i] != NULL
        invariant i < 48 && forall j :: 0 <= j < i ==> pointers[j] != NULL
        decreases 48 - i
      {
        i := i + 1;
      }
      indexes[b] := i;
      pointers[i] := p;
      owner := owner[i := b];
      SparseAdded(xs, ps, old(owner), b, i, p);
      count := count + 1;
    }

    method Remove(b: Byte)
      requires Valid() && b in Contents()
      modifies this, indexes, pointers
      ensures Valid() && Contents() == old(Contents()) - {b} && count == old(count) - 1
      ensures indexes[..] == old(indexes[..])[b := EMPTY_CHILD] && pointers[..] == old(pointers[..])[old(indexes[b]) := NULL]
    {
      ghost var xs, ps := indexes[..], pointers[..];
      SparseRemoved(xs, ps, owner, b);
      pointers[indexes[b]] := NULL;
      indexes[b] := EMPTY_CHILD;
      count := count - 1;
    }

    /** The loops over the byte values: upwards from `from`, and downwards from below `to`. */
    method FirstFrom(from: nat) returns (found: bool, c: Byte)
      requires Valid()
      ensures found ==> IsLeastFrom(Contents(), from, c)
      ensures !found ==> NoneFrom(Contents(), from)
    {
      var i := from;
      while i < 256
        invariant from <= i && forall d: Byte :: from <= d < i ==> indexes[d] == EMPTY_CHILD
      {
        if indexes[i] != EMPTY_CHILD {
          return true, i;
        }
        i := i + 1;
      }
      return false, 0;
    }

    method LastBelow(to: nat) returns (found: bool, c: Byte)
      requires Valid() && to <= 256
      ensures found ==> IsGreatestTo(Contents(), to - 1, c)
      ensures !found ==> NoneTo(Contents(), to - 1)
    {
      var i := to;
      while i > 0
        invariant i <= to && forall d: Byte :: i <= d < to ==> indexes[d] == EMPTY_CHILD
      {
        i := i - 1;
        if indexes[i] != EMPTY_CHILD {
          return true, i;
        }
      }
      return false, 0;
    }

    method Begin() returns (c: Byte)
      requires Valid() && Contents() != map[]
      ensures IsLeastFrom(Contents(), 0, c)
    {
      var found;
      found, c := FirstFrom(0);
    }

    method Last() returns (c: Byte)
      requires Valid() && Contents() != map[]
      ensures IsGreatestTo(Contents(), 255, c)
    {
      var found;
      found, c := LastBelow(256);
    }

    /** Children are numbered by their key bytes. */
    method Next(childIndex: Byte) returns (found: bool, c: Byte)
      requires Valid()
      ensures found ==> IsLeastFrom(Contents(), childIndex + 1, c)
      ensures !found ==> NoneFrom(Contents(), childIndex + 1)
    {
      found, c := FirstFrom(childIndex + 1);
    }

    method Prior(childIndex: Byte) returns (found: bool, c: Byte)
      requires Valid()
      ensures found ==> IsGreatestTo(Contents(), childIndex - 1, c)
      ensures !found ==> NoneTo(Contents(), childIndex - 1)
    {
      found, c := LastBelow(childIndex);
    }

    method GteKeyByte(b: Byte) returns (found: bool, c: Byte)
      requires Valid()
      ensures found ==> IsLeastFrom(Contents(), b, c)
      ensures !found ==> NoneFrom(Contents(), b)
    {
      found, c := FirstFrom(b);
    }

    method LteKeyByte(b: Byte) returns (found: bool, c: Byte)
      requires Valid()
      ensures found ==> IsGreatestTo(Contents(), b, c)
      ensures !found ==> NoneTo(Contents(), b)
    {
      found, c := LastBelow(b + 1);
    }
  }

  lemma SparseAdded(indexes: seq<Byte>, pointers: seq<Ptr>, owner: seq<Byte>, b: Byte, i: Byte, p: Ptr)
    requires Sparse(indexes, pointers, owner) && i < 48 && pointers[i] == NULL && p != NULL
    requires b !in SparseMap(indexes, pointers)
    ensures Sparse(indexes[b := i], pointers[i := p], owner[i := b])
    ensures SparseMap(indexes[b := i], pointers[i := p]) == SparseMap(indexes, pointers)[b := p]
  {
  }

  /** The index of a byte is its place below 48, or 255 when it has no child. */
  lemma SparseIndex(indexes: seq<Byte>, pointers: seq<Ptr>, owner: seq<Byte>, b: Byte)
    requires Sparse(indexes, pointers, owner)
    ensures if b in SparseMap(indexes, pointers) then indexes[b] < 48 && pointers[indexes[b]] == SparseMap(indexes, pointers)[b]
            else indexes[b] == 255
  {
  }

  lemma SparseRemoved(indexes: seq<Byte>, pointers: seq<Ptr>, owner: seq<Byte>, b: Byte)
    requires Sparse(indexes, pointers, owner) && b in SparseMap(indexes, pointers)
    ensures Sparse(indexes[b := EMPTY_CHILD], pointers[indexes[b] := NULL], owner)
    ensures SparseMap(indexes[b := EMPTY_CHILD], pointers[indexes[b] := NULL]) == SparseMap(indexes, pointers) - {b}
    ensures |SparseMap(indexes, pointers) - {b}| == |SparseMap(indexes, pointers)| - 1
  {
    MinusOne(SparseMap(indexes, pointers), b);
  }

  function Owners(owner: seq<Byte>, n: nat): set<Byte>
    requires n <= |owner|
  {
    if n == 0 then {} else Owners(owner, n - 1) + {owner[n - 1]}
  }

  lemma {:induction false} OwnersSize(indexes: seq<Byte>, pointers: seq<Ptr>, owner: seq<Byte>, n: nat)
    requires Sparse(indexes, pointers, owner) && n <= 48 && forall i :: 0 <= i < n ==> pointers[i] != NULL
    ensures |Owners(owner, n)| == n && Owners(owner, n) <= SparseMap(indexes, pointers).Keys
    ensures forall b :: b in Owners(owner, n) ==> indexes[b] < n
  {
    if n > 0 {
      OwnersSize(indexes, pointers, owner, n - 1);
      assert indexes[owner[n - 1]] == n - 1;
    }
  }

  /** Every taken place belongs to a mapped byte, so fewer than 48 bytes leave a place free. */
  lemma FreePlace(indexes: seq<Byte>, pointers: seq<Ptr>, owner: seq<Byte>)
    requires Sparse(indexes, pointers, owner) && |SparseMap(indexes, pointers)| < 48
    ensures exists i :: 0 <= i < 48 && pointers[i] == NULL
  {
    if forall i :: 0 <= i < 48 ==> pointers[i] != NULL {
      assert |SparseMap(indexes, pointers).Keys| == |SparseMap(indexes, pointers)|;
      OwnersSize(indexes, pointers, owner, 48);
      SubsetSize(Owners(owner, 48), SparseMap(indexes, pointers).Keys);
    }
  }

  lemma MapOfAt(keys: seq<Byte>, kids: seq<Ptr>, n: nat)
    requires Dense(keys, kids, n)
    ensures forall i :: 0 <= i < n ==> keys[i] in MapOf(keys, kids, n) && MapOf(keys, kids, n)[keys[i]] == kids[i]
    ensures |MapOf(keys, kids, n)| == n
  {
    forall i | 0 <= i < n ensures keys[i] in MapOf(keys, kids, n) && MapOf(keys, kids, n)[keys[i]] == kids[i] {
      MapOfHas(keys, kids, n, keys[i]);
    }
    MapOfHas(keys, kids, n, 0);
  }

  method IndexKeys(keys: array<Byte>, indexes: array<Byte>)
    requires keys.Length == 16 && indexes.Length == 256 && keys != indexes
    requires forall i, j :: 0 <= i < j < 16 ==> keys[i] < keys[j]
    requires forall c :: 0 <= c < 256 ==> indexes[c] == EMPTY_CHILD
    modifies indexes
    ensures forall j :: 0 <= j < 16 ==> indexes[keys[j]] == j
    ensures forall c: Byte :: c < 256 ==> indexes[c] == EMPTY_CHILD || (indexes[c] < 16 && keys[indexes[c]] == c)
  {
    var i := 0;
    while i < 16
      invariant 0 <= i <= 16
      invariant forall j :: 0 <= j < i ==> indexes[keys[j]] == j
      invariant forall c: Byte :: c < 256 ==> indexes[c] == EMPTY_CHILD || (indexes[c] < i && keys[indexes[c]] == c)
    {
      indexes[keys[i]] := i;
      i := i + 1;
    }
  }

  /** The sixteen children, the new one after them, and no children in the places beyond. */
  method PlaceChildren(children: array<Ptr>, pointers: array<Ptr>, p: Ptr)
    requires children.Length == 16 && pointers.Length == 48 && children != pointers
    modifies pointers
    ensures forall j :: 0 <= j < 16 ==> pointers[j] == children[j]
    ensures pointers[16] == p
    ensures forall j :: 17 <= j < 48 ==> pointers[j] == NULL
  {
    var i := 0;
    while i < 16
      invariant 0 <= i <= 16
      invariant forall j :: 0 <= j < i ==> pointers[j] == children[j]
    {
      pointers[i] := children[i];
      i := i + 1;
    }
    pointers[i] := p;
    i := 17;
    while i < 48
      invariant 17 <= i <= 48 && pointers[16] == p
      invariant forall j :: 0 <= j < 16 ==> pointers[j] == children[j]
      invariant forall j :: 17 <= j < i ==> pointers[j] == NULL
    {
      pointers[i] := NULL;
      i := i + 1;
    }
  }

  /** Sixteen children copied to the first places, and one more in the next. */
  ghost predicate Copied16(keys: seq<Byte>, kids: seq<Ptr>, b: Byte, p: Ptr, indexes: seq<Byte>, pointers: seq<Ptr>, owner: seq<Byte>) {
    && |keys| == 16 && |kids| == 16 && |indexes| == 256 && |pointers| == 48 && |owner| == 48 && p != NULL
    && (forall i :: 0 <= i < 16 ==> owner[i] == keys[i]) && owner[16] == b
    && (forall i :: 0 <= i < 16 ==> indexes[keys[i]] == i) && indexes[b] == 16
    && (forall c: Byte :: c < 256 && c != b ==> indexes[c] == EMPTY_CHILD || (indexes[c] < 16 && keys[indexes[c]] == c))
    && (forall i :: 0 <= i < 16 ==> pointers[i] == kids[i]) && pointers[16] == p
    && (forall i :: 17 <= i < 48 ==> pointers[i] == NULL)
  }

  lemma CopiedSparse(keys: seq<Byte>, kids: seq<Ptr>, b: Byte, p: Ptr, indexes: seq<Byte>, pointers: seq<Ptr>, owner: seq<Byte>)
    requires Copied16(keys, kids, b, p, indexes, pointers, owner) && Dense(keys, kids, 16)
    ensures Sparse(indexes, pointers, owner)
  {
  }

  lemma CopiedAt(keys: seq<Byte>, kids: seq<Ptr>, b: Byte, p: Ptr, indexes: seq<Byte>, pointers: seq<Ptr>, owner: seq<Byte>, c: Byte)
    requires Copied16(keys, kids, b, p, indexes, pointers, owner) && Dense(keys, kids, 16) && b !in MapOf(keys, kids, 16)
    ensures var m, s := MapOf(keys, kids, 16)[b := p], SparseMap(indexes, pointers);
            (c in s <==> c in m) && (c in m ==> s[c] == m[c])
  {
    hide MapOf;
    MapOfAt(keys, kids, 16);
    EveryKey(keys, kids, 16);
    if c != b && c in MapOf(keys, kids, 16) {
      var i :| 0 <= i < 16 && keys[i] == c;
    }
  }

  lemma GrownFrom16(keys: seq<Byte>, kids: seq<Ptr>, b: Byte, p: Ptr, indexes: seq<Byte>, pointers: seq<Ptr>, owner: seq<Byte>)
    requires Copied16(keys, kids, b, p, indexes, pointers, owner) && Dense(keys, kids, 16) && b !in MapOf(keys, kids, 16)
    ensures Sparse(indexes, pointers, owner)
    ensures SparseMap(indexes, pointers) == MapOf(keys, kids, 16)[b := p] && |SparseMap(indexes, pointers)| == 17
  {
    hide MapOf, SparseMap, Sparse, Dense;
    CopiedSparse(keys, kids, b, p, indexes, pointers, owner);
    var m := MapOf(keys, kids, 16)[b := p];
    forall c: Byte
      ensures c in SparseMap(indexes, pointers) <==> c in m
      ensures c in m ==> SparseMap(indexes, pointers)[c] == m[c]
    {
      CopiedAt(keys, kids, b, p, indexes, pointers, owner, c);
    }
    assert SparseMap(indexes, pointers) == m;
    MapOfAt(keys, kids, 16);
  }

  // ---- 256 children ----------------------------------------------------------------------------------------

  /** The children of bytes below `i`, placed in order from place 0. */
  ghost predicate Placed(children: seq<Ptr>, indexes: seq<Byte>, pointers: seq<Ptr>, owner: seq<Byte>, n: nat, i: nat) {
    && |children| == 256 && |indexes| == 256 && |pointers| == 48 && |owner| == 48 && n <= 48
    && (forall b: Byte :: b < 256 ==>
          if b < i && children[b] != NULL then indexes[b] < n && pointers[indexes[b]] == children[b] && owner[indexes[b]] == b
          else indexes[b] == EMPTY_CHILD)
    && (forall j :: 0 <= j < n ==> indexes[owner[j]] == j)
    && (forall j :: n <= j < 48 ==> pointers[j] == NULL)
  }

  /** Mapped bytes have their places in byte order. */
  ghost predicate PlacesAscend(indexes: seq<Byte>) {
    |indexes| == 256
    && forall c: Byte, d: Byte :: c < d < 256 && indexes[c] != EMPTY_CHILD && indexes[d] != EMPTY_CHILD ==> indexes[c] < indexes[d]
  }

  lemma AscendOn(children: seq<Ptr>, indexes: seq<Byte>, pointers: seq<Ptr>, owner: seq<Byte>, n: nat, b: Byte)
    requires Placed(children, indexes, pointers, owner, n, b) && n < 48 && b < 256 && PlacesAscend(indexes)
    ensures PlacesAscend(indexes[b := n])
  {
  }

  lemma PlaceNext(children: seq<Ptr>, indexes: seq<Byte>, pointers: seq<Ptr>, owner: seq<Byte>, n: nat, b: Byte)
    requires Placed(children, indexes, pointers, owner, n, b) && children[b] != NULL && n < 48
    ensures Placed(children, indexes[b := n], pointers[n := children[b]], owner[n := b], n + 1, b + 1)
  {
    assert forall j :: 0 <= j < n ==> owner[j] != b by {
      assert indexes[b] == EMPTY_CHILD;
    }
  }

  lemma PlacedSparse(children: seq<Ptr>, indexes: seq<Byte>, pointers: seq<Ptr>, owner: seq<Byte>, i: nat, m: map<Byte, Ptr>)
    requires Placed(children, indexes, pointers, owner, 48, i) && |m| == 48 && |children| == 256 && DirectMap(children) == m
    requires |BelowByte(m, i)| == 48
    ensures Sparse(indexes, pointers, owner) && SparseMap(indexes, pointers) == m
  {
    assert BelowByte(m, i).Keys <= m.Keys && |BelowByte(m, i).Keys| == 48 && |m.Keys| == 48;
    SameSize(BelowByte(m, i).Keys, m.Keys);
    assert forall b :: b in m ==> b in BelowByte(m, i);
  }

  method FillPlaces(children: array<Ptr>, indexes: array<Byte>, pointers: array<Ptr>, ghost m: map<Byte, Ptr>) returns (ghost owner: seq<Byte>)
    requires children.Length == 256 && indexes.Length == 256 && pointers.Length == 48 && children != pointers
    requires DirectMap(children[..]) == m && |m| == 48
    requires forall b :: 0 <= b < 256 ==> indexes[b] == EMPTY_CHILD
    requires forall i :: 0 <= i < 48 ==> pointers[i] == NULL
    modifies indexes, pointers
    ensures Sparse(indexes[..], pointers[..], owner) && SparseMap(indexes[..], pointers[..]) == m
    ensures PlacesAscend(indexes[..])
  {
    owner := seq(48, _ => 0);
    var nextChild := 0;
    var i: nat := 0;
    ghost var kids := children[..];
    DirectAt(kids, m);
    assert Placed(kids, indexes[..], pointers[..], owner, 0, 0);
    assert BelowByte(m, 0) == map[];
    assert PlacesAscend(indexes[..]);
    hide Placed, BelowByte, DirectMap, Sparse, SparseMap, PlacesAscend;
    while i < 256
      invariant i <= 256 && 0 <= nextChild < 48 && children[..] == kids
      invariant |owner| == 48 && Placed(kids, indexes[..], pointers[..], owner, nextChild, i)
      invariant |BelowByte(m, i)| == nextChild && PlacesAscend(indexes[..])
    {
      BelowNext(m, i);
      if children[i] != NULL {
        AscendOn(kids, indexes[..], pointers[..], owner, nextChild, i);
        PlaceNext(kids, indexes[..], pointers[..], owner, nextChild, i);
        indexes[i] := nextChild;
        pointers[nextChild] := children[i];
        owner := owner[nextChild := i];
        nextChild := nextChild + 1;
        if nextChild == 48 {
          PlacedSparse(kids, indexes[..], pointers[..], owner, i + 1, m);
          return;
        }
      } else {
        PlaceNone(kids, indexes[..], pointers[..], owner, nextChild, i);
      }
      i := i + 1;
    }
    BelowAll(m, 256);
    assert false;
  }

  lemma PlaceNone(children: seq<Ptr>, indexes: seq<Byte>, pointers: seq<Ptr>, owner: seq<Byte>, n: nat, b: Byte)
    requires Placed(children, indexes, pointers, owner, n, b) && children[b] == NULL
    ensures Placed(children, indexes, pointers, owner, n, b + 1)
  {
  }

  lemma DirectAt(children: seq<Ptr>, m: map<Byte, Ptr>)
    requires |children| == 256 && DirectMap(children) == m
    ensures forall b: Byte :: b < 256 ==> if children[b] == NULL then b !in m else b in m && m[b] == children[b]
  {
  }

  class Node256 {
    const children: array<Ptr>
    var count: Byte

    /** The count is one byte wide: a full node counts zero. */
    ghost predicate Valid()
      reads this, children
    {
      children.Length == 256 && count == |DirectMap(children[..])| % 256
    }

    ghost function Contents(): map<Byte, Ptr>
      requires Valid()
      reads this, children
    {
      DirectMap(children[..])
    }

    /** A full 48-way node and one more child. */
    constructor From48(source: Node48, b: Byte, p: Ptr)
      requires source.Valid() && source.count == 48 && b !in source.Contents() && p != NULL
      ensures Valid() && Contents() == source.Contents()[b := p] && count == 49
      ensures fresh(children)
    {
      children := new Ptr[256](_ => NULL);
      count := 49;
      new;
      Spread(source.indexes, source.pointers, children);
      assert DirectMap(children[..]) == source.Contents();
      children[b] := p;
      assert DirectMap(children[..]) == source.Contents()[b := p];
    }

    method AddToNonfull(b: Byte, p: Ptr)
      requires Valid() && b !in Contents() && p != NULL
      modifies this, children
      ensures Valid() && Contents() == old(Contents())[b := p] && count == (old(count) + 1) % 256
    {
      ghost var m := Contents();
      children[b] := p;
      count := (count + 1) % 256;
      assert DirectMap(children[..]) == m[b := p];
    }

    method Remove(b: Byte)
      requires Valid() && b in Contents()
      modifies this, children
      ensures Valid() && Contents() == old(Contents()) - {b} && count == (old(count) + 255) % 256
    {
      ghost var m := Contents();
      MinusOne(m, b);
      children[b] := NULL;
      count := (count + 255) % 256;
      assert DirectMap(children[..]) == m - {b};
    }

    method FindChild(b: Byte) returns (found: bool)
      requires Valid()
      ensures found <==> b in Contents()
      ensures found ==> children[b] == Contents()[b]
    {
      found := children[b] != NULL;
    }

    /** The loops over the byte values: upwards from `from`, and downwards from below `to`. */
    method FirstFrom(from: nat) returns (found: bool, c: Byte)
      requires Valid()
      ensures found ==> IsLeastFrom(Contents(), from, c)
      ensures !found ==> NoneFrom(Contents(), from)
    {
      var i := from;
      while i < 256
        invariant from <= i && forall d: Byte :: from <= d < i ==> children[d] == NULL
      {
        if children[i] != NULL {
          return true, i;
        }
        i := i + 1;
      }
      return false, 0;
    }

    method LastBelow(to: nat) returns (found: bool, c: Byte)
      requires Valid() && to <= 256
      ensures found ==> IsGreatestTo(Contents(), to - 1, c)
      ensures !found ==> NoneTo(Contents(), to - 1)
    {
      var i := to;
      while i > 0
        invariant i <= to && forall d: Byte :: i <= d < to ==> children[d] == NULL
      {
        i := i - 1;
        if children[i] != NULL {
          return true, i;
        }
      }
      return false, 0;
    }

    method Begin() returns (c: Byte)
      requires Valid() && Contents() != map[]
      ensures IsLeastFrom(Contents(), 0, c)
    {
      var found;
      found, c := FirstFrom(0);
    }

    method Last() returns (c: Byte)
      requires Valid() && Contents() != map[]
      ensures IsGreatestTo(Contents(), 255, c)
    {
      var found;
      found, c := LastBelow(256);
    }

    /** Children are numbered by their key bytes. */
    method Next(childIndex: Byte) returns (found: bool, c: Byte)
      requires Valid()
      ensures found ==> IsLeastFrom(Contents(), childIndex + 1, c)
      ensures !found ==> NoneFrom(Contents(), childIndex + 1)
    {
      found, c := FirstFrom(childIndex + 1);
    }

    method Prior(childIndex: Byte) returns (found: bool, c: Byte)
      requires Valid()
      ensures found ==> IsGreatestTo(Contents(), childIndex - 1, c)
      ensures !found ==> NoneTo(Contents(), childIndex - 1)
    {
      found, c := LastBelow(childIndex);
    }

    method GteKeyByte(b: Byte) returns (found: bool, c: Byte)
      requires Valid()
      ensures found ==> IsLeastFrom(Contents(), b, c)
      ensures !found ==> NoneFrom(Contents(), b)
    {
      found, c := FirstFrom(b);
    }

    method LteKeyByte(b: Byte) returns (found: bool, c: Byte)
      requires Valid()
      ensures found ==> IsGreatestTo(Contents(), b, c)
      ensures !found ==> NoneTo(Contents(), b)
    {
      found, c := LastBelow(b + 1);
    }
  }

  /** The minimum-size test reads the one-byte count: it is right for every size the layout can have. */
  lemma MinSizeTest(m: map<Byte, Ptr>)
    requires 49 <= |m| <= 256
    ensures |m| % 256 == 49 <==> |m| == 49
  {
  }

  /** Copies the children until all 48 have been seen, then clears the rest. */
  method Spread(indexes: array<Byte>, pointers: array<Ptr>, children: array<Ptr>)
    requires indexes.Length == 256 && pointers.Length == 48 && children.Length == 256 && children != pointers
    requires forall b: Byte :: b < 256 ==> indexes[b] == EMPTY_CHILD || (indexes[b] < 48 && pointers[indexes[b]] != NULL)
    requires |SparseMap(indexes[..], pointers[..])| == 48
    modifies children
    ensures forall b: Byte :: b < 256 ==> children[b] == if indexes[b] == EMPTY_CHILD then NULL else pointers[indexes[b]]
  {
    ghost var m := SparseMap(indexes[..], pointers[..]);
    SparseAt(indexes[..], pointers[..], m);
    assert BelowByte(m, 0) == map[];
    hide BelowByte, SparseMap;
    var copied := 0;
    var i: nat := 0;
    while true
      invariant i < 256 && 0 <= copied < 48 && |BelowByte(m, i)| == copied
      invariant forall b: Byte :: b < i ==> children[b] == if indexes[b] == EMPTY_CHILD then NULL else pointers[indexes[b]]
      decreases 256 - i
    {
      BelowNext(m, i);
      if indexes[i] == EMPTY_CHILD {
        children[i] := NULL;
      } else {
        children[i] := pointers[indexes[i]];
        copied := copied + 1;
        if copied == 48 { break; }
      }
      if i == 255 { BelowAll(m, 256); }
      i := i + 1;
    }
    NoneAbove(m, i + 1);
    i := i + 1;
    while i < 256
      invariant i <= 256
      invariant forall b: Byte :: b < i ==> children[b] == if indexes[b] == EMPTY_CHILD then NULL else pointers[indexes[b]]
      invariant forall b: Byte :: i <= b ==> b !in m
    {
      children[i] := NULL;
      i := i + 1;
    }
  }

  lemma NoneAbove(m: map<Byte, Ptr>, i: nat)
    requires |BelowByte(m, i)| == |m|
    ensures forall b: Byte :: i <= b ==> b !in m
  {
    assert BelowByte(m, i).Keys <= m.Keys && |BelowByte(m, i).Keys| == |m.Keys|;
    SameSize(BelowByte(m, i).Keys, m.Keys);
  }
}

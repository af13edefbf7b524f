/** What the leaf counter and the memory counter say about the map: how many entries, and how many bytes they take. */
module ArtMemory {
  import opened ArtKey
  import opened ArtTree
  import opened ArtUpdate
  import opened ArtOrder
  import opened ArtStats

  lemma {:induction false} LeavesAreItems(n: Node)
    ensures Total(n, Leaves) == |Flat(n)|
    decreases n, 0
  {
    if n.Inode? {
      LeavesOfKids(n, |n.kids|);
      assert n.kids[..|n.kids|] == n.kids;
    }
  }

  lemma {:induction false} LeavesOfKids(n: Node, c: nat)
    requires n.Inode? && c <= |n.kids|
    ensures SumKids(n.kids[..c], Leaves) == |FlatKids(n.kids[..c])|
    decreases n, 0, c
  {
    if c > 0 {
      LeavesOfKids(n, c - 1);
      assert n.kids[..c][..c - 1] == n.kids[..c - 1];
      assert n.kids[c - 1] in n.kids;
      LeavesAreItems(n.kids[c - 1].node);
    }
  }

  // ---- bytes ------------------------------------------------------------------------------------------

  /** The lengths of all values of a map together. */
  ghost function ValueBytes(m: map<Key, Value>): nat
    decreases |m|
  {
    if m == map[] then 0
    else
      var k :| k in m;
      assert (m - {k}).Keys == m.Keys - {k} && |m| == |m.Keys|;
      |m[k]| + ValueBytes(m - {k})
  }

  /** It does not matter in which order they are added up. */
  lemma {:induction false} ValueBytesWithout(m: map<Key, Value>, k: Key)
    requires k in m
    ensures ValueBytes(m) == |m[k]| + ValueBytes(m - {k})
    decreases |m|
  {
    var j :| j in m && ValueBytes(m) == |m[j]| + ValueBytes(m - {j});
    if j != k {
      assert (m - {j}).Keys == m.Keys - {j} && (m - {k}).Keys == m.Keys - {k};
      assert |m| == |m.Keys| && |m - {j}| == |m.Keys - {j}| && |m - {k}| == |m.Keys - {k}|;
      ValueBytesWithout(m - {j}, k);
      ValueBytesWithout(m - {k}, j);
      assert m - {j} - {k} == m - {k} - {j};
    }
  }

  function Lengths(s: seq<Item>): nat {
    if s == [] then 0 else Lengths(s[..|s| - 1]) + |s[|s| - 1].val|
  }

  lemma {:induction false} LengthsConcat(a: seq<Item>, b: seq<Item>)
    ensures Lengths(a + b) == Lengths(a) + Lengths(b)
    decreases |b|
  {
    if b == [] {
      assert a + b == a;
    } else {
      LengthsConcat(a, b[..|b| - 1]);
      assert (a + b)[..|a + b| - 1] == a + b[..|b| - 1];
    }
  }

  lemma {:induction false} LengthsOfMap(s: seq<Item>)
    requires Increasing(s)
    ensures Lengths(s) == ValueBytes(MapOf(s))
  {
    if s != [] {
      var init, last := s[..|s| - 1], s[|s| - 1];
      LengthsOfMap(init);
      forall i | 0 <= i < |init| ensures init[i].key != last.key {
        LessIsNumeric(s[i].key, last.key);
      }
      if last.key in MapOf(init) {
        MapOfHas(init, last.key, MapOf(init)[last.key]);
      }
      ValueBytesWithout(MapOf(s), last.key);
      assert MapOf(s) - {last.key} == MapOf(init);
    }
  }

  /** A leaf takes 19 bytes, eight of them for the key, and its value. */
  lemma {:induction false} LeafBytesAre(n: Node)
    ensures Total(n, LeafBytes) == 19 * |Flat(n)| + Lengths(Flat(n))
    decreases n, 0
  {
    if n.Inode? {
      LeafBytesOfKids(n, |n.kids|);
      assert n.kids[..|n.kids|] == n.kids;
    } else {
      assert Flat(n)[..0] == [];
    }
  }

  lemma {:induction false} LeafBytesOfKids(n: Node, c: nat)
    requires n.Inode? && c <= |n.kids|
    ensures SumKids(n.kids[..c], LeafBytes) == 19 * |FlatKids(n.kids[..c])| + Lengths(FlatKids(n.kids[..c]))
    decreases n, 0, c
  {
    if c > 0 {
      LeafBytesOfKids(n, c - 1);
      assert n.kids[..c][..c - 1] == n.kids[..c - 1];
      assert n.kids[c - 1] in n.kids;
      LeafBytesAre(n.kids[c - 1].node);
      LengthsConcat(FlatKids(n.kids[..c - 1]), Flat(n.kids[c - 1].node));
    }
  }

  /** The memory counter: 19 bytes an entry, the values, and the sizes of the inner nodes. */
  lemma MemoryIs(root: Option<Node>, s: Stats)
    requires (root.Some? ==> Wf(root.value, [])) && CountsOk(root, s)
    ensures s.memory == 19 * |Contents(root)| + ValueBytes(Contents(root))
                        + 48 * s.live.i4 + 160 * s.live.i16 + 656 * s.live.i48 + 2064 * s.live.i256
  {
    if root.Some? {
      LeafBytesAre(root.value);
      FlatIncreasing(root.value, []);
      LengthsOfMap(Flat(root.value));
      LookupIsEntry(root.value, [0, 0, 0, 0, 0, 0, 0, 0]);
    }
  }

  lemma LeavesAre(root: Option<Node>, s: Stats)
    requires (root.Some? ==> Wf(root.value, [])) && CountsOk(root, s)
    ensures s.leaves == |Contents(root)|
  {
    if root.Some? {
      LeavesAreItems(root.value);
      LookupIsEntry(root.value, [0, 0, 0, 0, 0, 0, 0, 0]);
    }
  }
}

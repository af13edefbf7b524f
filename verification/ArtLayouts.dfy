/** The tree keeps the children of a node as a sorted list, the layouts keep them as a map from key byte to pointer.
    Here the two are tied together: what the tree does to its list is what the layouts do to their map. */
module ArtLayouts {
  import opened ArtKey
  import opened ArtTree
  import opened NodeLayouts

  /** What the pointers lead to. */
  type Memory = map<Ptr, Node>

  ghost predicate Has(kids: seq<Edge>, b: Byte) {
    exists i :: 0 <= i < |kids| && kids[i].byte == b
  }

  ghost predicate Leads(m: map<Byte, Ptr>, e: Edge, at: Memory) {
    e.byte in m && m[e.byte] in at && at[m[e.byte]] == e.node
  }

  /** The map holds exactly the children of the list. */
  ghost predicate Stores(m: map<Byte, Ptr>, kids: seq<Edge>, at: Memory) {
    && Sorted(kids)
    && (forall b :: b in m ==> Has(kids, b))
    && (forall i :: 0 <= i < |kids| ==> Leads(m, kids[i], at))
  }

  /** As many entries as children: both are full, or of minimal size, at the same time. */
  lemma {:induction false} StoresCount(m: map<Byte, Ptr>, kids: seq<Edge>, at: Memory)
    requires Stores(m, kids, at)
    ensures |m| == |kids|
  {
    if kids == [] {
      assert forall b :: b !in m || Has(kids, b);
      assert m == map[];
    } else {
      var last := |kids| - 1;
      DropStores(m, kids, at, last);
      assert kids[..last] + kids[last + 1..] == kids[..last];
      StoresCount(m - {kids[last].byte}, kids[..last], at);
      MinusOne(m, kids[last].byte);
    }
  }

  /** find_child answers alike. */
  lemma FindStores(m: map<Byte, Ptr>, kids: seq<Edge>, at: Memory, b: Byte)
    requires Stores(m, kids, at)
    ensures b in m <==> Find(kids, b) < |kids|
    ensures b in m ==> m[b] in at && at[m[b]] == kids[Find(kids, b)].node
  {
  }

  lemma InsertedHas(kids: seq<Edge>, r: nat, e: Edge, c: Byte)
    requires r <= |kids|
    ensures Has(kids[..r] + [e] + kids[r..], c) <==> c == e.byte || Has(kids, c)
  {
    var kids' := kids[..r] + [e] + kids[r..];
    if c == e.byte { assert kids'[r] == e; }
    if Has(kids, c) {
      var i :| 0 <= i < |kids| && kids[i].byte == c;
      assert kids'[if i < r then i else i + 1] == kids[i];
    }
    if Has(kids', c) {
      var i :| 0 <= i < |kids'| && kids'[i].byte == c;
      if i != r { assert kids'[i] == kids[if i < r then i else i - 1]; }
    }
  }

  /** A new child at its rank is a new entry of the map. */
  lemma AddStores(m: map<Byte, Ptr>, n: Node, at: Memory, b: Byte, p: Ptr)
    requires n.Inode? && Stores(m, n.kids, at) && b !in m && p in at
    ensures Stores(m[b := p], AddKid(n, Edge(b, at[p])).kids, at)
    ensures (AddKid(n, Edge(b, at[p])).ty != n.ty) <==> (|m| == Capacity(n.ty) && n.ty != I256)
  {
    hide Rank, Has;
    StoresCount(m, n.kids, at);
    RankSplits(n.kids, b);
    var kids, e := n.kids, Edge(b, at[p]);
    var kids' := AddKid(n, e).kids;
    forall i | 0 <= i < |kids| ensures kids[i].byte != b { assert Leads(m, kids[i], at); }
    assert Sorted(kids');
    forall c | c in m[b := p] ensures Has(kids', c) { InsertedHas(kids, Rank(kids, b), e, c); }
    forall i | 0 <= i < |kids'| ensures Leads(m[b := p], kids'[i], at) {
      assert i != Rank(kids, b) ==> Leads(m, kids[if i < Rank(kids, b) then i else i - 1], at);
    }
  }

  /** A child replaced is an entry redirected. */
  lemma SetStores(m: map<Byte, Ptr>, n: Node, at: Memory, i: nat, p: Ptr)
    requires n.Inode? && Stores(m, n.kids, at) && i < |n.kids| && p in at
    ensures Stores(m[n.kids[i].byte := p], SetKid(n, i, at[p]).kids, at)
  {
    var kids, b := n.kids, n.kids[i].byte;
    var kids' := SetKid(n, i, at[p]).kids;
    assert forall j :: 0 <= j < |kids| ==> kids'[j].byte == kids[j].byte;
    assert Leads(m, kids[i], at);
    forall c | c in m[b := p] ensures Has(kids', c) {
      assert Has(kids, c);
      var j :| 0 <= j < |kids| && kids[j].byte == c;
      assert kids'[j].byte == c;
    }
    forall j | 0 <= j < |kids'| ensures Leads(m[b := p], kids'[j], at) {
      assert Leads(m, kids[j], at);
    }
  }

  lemma DroppedHas(kids: seq<Edge>, i: nat, c: Byte)
    requires i < |kids| && Has(kids, c) && c != kids[i].byte
    ensures Has(kids[..i] + kids[i + 1..], c)
  {
    var j :| 0 <= j < |kids| && kids[j].byte == c;
    assert (kids[..i] + kids[i + 1..])[if j < i then j else j - 1] == kids[j];
  }

  /** A child dropped is an entry removed. */
  lemma DropStores(m: map<Byte, Ptr>, kids: seq<Edge>, at: Memory, i: nat)
    requires Stores(m, kids, at) && i < |kids|
    ensures kids[i].byte in m && Stores(m - {kids[i].byte}, kids[..i] + kids[i + 1..], at)
  {
    hide Has;
    var kids' := kids[..i] + kids[i + 1..];
    assert Leads(m, kids[i], at);
    forall c | c in m - {kids[i].byte} ensures Has(kids', c) { DroppedHas(kids, i, c); }
    forall j | 0 <= j < |kids'| ensures Leads(m - {kids[i].byte}, kids'[j], at) {
      assert kids'[j] == kids[if j < i then j else j + 1] && kids'[j].byte != kids[i].byte;
      assert Leads(m, kids[if j < i then j else j + 1], at);
    }
  }

  /** remove_or_choose_subtree: in place and by shrinking the entry goes, and the type follows the count; a smallest
      four-way node is left with the entry of its last child. */
  lemma DropKidStores(m: map<Byte, Ptr>, n: Node, at: Memory, i: nat)
    requires n.Inode? && Stores(m, n.kids, at) && i < |n.kids| && MinSize(n.ty) <= |n.kids|
    ensures |m| == |n.kids|
    ensures !(n.ty == I4 && |m| == 2) ==>
      var g := DropKid(n, i);
      && g.Inode? && Stores(m - {n.kids[i].byte}, g.kids, at)
      && g.ty == if |m| == MinSize(n.ty) then Smaller(n.ty) else n.ty
    ensures n.ty == I4 && |m| == 2 ==> Stores(m - {n.kids[i].byte}, [n.kids[1 - i]], at)
  {
    hide Stores;
    StoresCount(m, n.kids, at);
    DropStores(m, n.kids, at, i);
    if n.ty == I4 && |m| == 2 {
      assert n.kids[..i] + n.kids[i + 1..] == [n.kids[1 - i]];
    }
  }

  lemma MapBytes(m: map<Byte, Ptr>, kids: seq<Edge>, at: Memory)
    requires Stores(m, kids, at)
    ensures Sorted(kids)
    ensures forall d :: d in m ==> exists i :: 0 <= i < |kids| && kids[i].byte == d
    ensures forall i :: 0 <= i < |kids| ==> kids[i].byte in m
  {
    forall d | d in m ensures exists i :: 0 <= i < |kids| && kids[i].byte == d { assert Has(kids, d); }
    forall i | 0 <= i < |kids| ensures kids[i].byte in m { assert Leads(m, kids[i], at); }
  }

  /** The child at a place of the list that splits smaller from larger bytes, and the one before it. */
  lemma SplitStores(m: map<Byte, Ptr>, kids: seq<Edge>, at: Memory, b: Byte, r: nat)
    requires Stores(m, kids, at) && r <= |kids|
    requires (forall i :: 0 <= i < r ==> kids[i].byte < b) && (forall i :: r <= i < |kids| ==> kids[i].byte >= b)
    ensures if r < |kids| then IsLeastFrom(m, b, kids[r].byte) else NoneFrom(m, b)
    ensures b !in m ==> if r > 0 then IsGreatestTo(m, b, kids[r - 1].byte) else NoneTo(m, b)
  {
    hide Stores;
    MapBytes(m, kids, at);
    forall d | d in m
      ensures d >= b ==> r < |kids| && kids[r].byte <= d
      ensures d < b ==> r > 0 && d <= kids[r - 1].byte
    {
      var i :| 0 <= i < |kids| && kids[i].byte == d;
    }
  }

  /** begin, gte_key_byte and, for a byte without a child, lte_key_byte find the child the tree's rank points to. */
  lemma RankStores(m: map<Byte, Ptr>, kids: seq<Edge>, at: Memory, b: Byte)
    requires Stores(m, kids, at)
    ensures var r := Rank(kids, b);
      && (if r < |kids| then IsLeastFrom(m, b, kids[r].byte) else NoneFrom(m, b))
      && (b !in m ==> if r > 0 then IsGreatestTo(m, b, kids[r - 1].byte) else NoneTo(m, b))
  {
    hide Rank, Leads;
    RankSplits(kids, b);
    SplitStores(m, kids, at, b, Rank(kids, b));
  }

  /** next and prior go to the neighbours in the tree's list. */
  lemma NeighboursStore(m: map<Byte, Ptr>, kids: seq<Edge>, at: Memory, i: nat)
    requires Stores(m, kids, at) && i < |kids|
    ensures if i + 1 < |kids| then IsLeastFrom(m, kids[i].byte as int + 1, kids[i + 1].byte)
            else NoneFrom(m, kids[i].byte as int + 1)
    ensures if i > 0 then IsGreatestTo(m, kids[i].byte as int - 1, kids[i - 1].byte)
            else NoneTo(m, kids[i].byte as int - 1)
  {
    hide Stores;
    MapBytes(m, kids, at);
    forall d | d in m
      ensures d > kids[i].byte ==> i + 1 < |kids| && kids[i + 1].byte <= d
      ensures d < kids[i].byte ==> i > 0 && d <= kids[i - 1].byte
    {
      var j :| 0 <= j < |kids| && kids[j].byte == d;
    }
  }
}

/** One small run of a tree, with every answer written out. */
module RbSamples {
  import opened RbNodes
  import opened RbOrder
  import opened RbSet
  import opened RbPool
  import opened RbTree

  /** Three keys and what the comparator says about them. */
  predicate Ascending(less: Less, a: Key, b: Key, c: Key) {
    && less(a, b) && less(b, c) && less(a, c) && !less(b, a) && !less(c, b) && !less(c, a)
    && !less(a, a) && !less(b, b) && !less(c, c)
  }

  lemma ComparedAll(less: Less, a: Key, b: Key, c: Key)
    requires StrictWeak(less) && less(a, b) && less(b, c)
    ensures Ascending(less, a, b, c)
  {}

  lemma InsertedThree(less: Less, a: Key, b: Key, c: Key)
    requires Ascending(less, a, b, c)
    ensures InsertKey(less, [], b) == [b] && InsertKey(less, [b], c) == [b, c] && InsertKey(less, [b, c], a) == [a, b, c]
    ensures !Has(less, [], b) && !Has(less, [b], c) && !Has(less, [b, c], a) && Has(less, [a, b, c], b)
  {
    assert [b, c][1..] == [c] && [b][1..] == [];
    assert InsertKey(less, [], c) == [c];
    assert [a, b, c][1] == b && Same(less, b, b);
  }

  lemma ErasedFirst(less: Less, a: Key, b: Key, c: Key)
    requires Ascending(less, a, b, c)
    ensures EraseKey(less, [a, b, c], a) == [b, c] && EraseKey(less, [b, c], a) == [b, c]
    ensures Has(less, [a, b, c], a) && !Has(less, [b, c], a)
  {
    assert [a, b, c][1..] == [b, c] && [b, c][1..] == [c] && [c][1..] == [];
    assert EraseKey(less, [c], a) == [c];
    assert [a, b, c][0] == a && Same(less, a, a);
  }

  /** The middle one is where `lower_bound` of it stops, and where `find` finds it. */
  lemma StopsAtMiddle(less: Less, a: Key, b: Key, c: Key, k: int)
    requires Ascending(less, a, b, c)
    ensures Below(less, [a, b, c], b, k) && NotBelow(less, [a, b, c], b, k) ==> k == 1
    ensures forall x :: x in [a, b, c] && Same(less, x, b) ==> x == b
  {
    var ks := [a, b, c];
    assert ks[0] == a && ks[1] == b && ks[2] == c;
  }

  /** One `emplace` without spare nodes. */
  method Add(t: Tree, x: Key) returns (inserted: bool)
    requires t.Valid() && t.pool == []
    modifies t`size, t`s, t`c, t`tmp, t`pool, t`allocations, t`extra, t.Repr()
    ensures t.Valid() && fresh(t.Repr() - old(t.Repr())) && t.Keys() == InsertKey(t.less, old(t.Keys()), x)
    ensures (inserted <==> !Has(t.less, old(t.Keys()), x)) && (inserted ==> t.pool == []) && t.allocations == old(t.allocations) + 1
  {
    hide *;
    ghost var k;
    var r;
    r, inserted, k := t.Emplace(x, 0, 0);
  }

  method Take(t: Tree, x: Key) returns (n: nat)
    requires t.Valid()
    modifies t`size, t`s, t`c, t`tmp, t`pool, t`extra, t.s.link.Keys
    ensures t.Valid() && t.Repr() <= old(t.Repr()) && t.Keys() == EraseKey(t.less, old(t.Keys()), x)
    ensures n == if Has(t.less, old(t.Keys()), x) then 1 else 0
  {
    hide *;
    ghost var k;
    n, k := t.EraseOne(x);
  }

  /**
   * The keys 2, 3, 1, 2 are inserted and 1 is erased twice: which inserts and erasures succeed, what is listed before and
   * after, which key `lower_bound` and `find` of 2 answer, and how often the allocator is asked.
   */
  method Sample(less: Less, nodeSize: nat, a: Key, b: Key, c: Key)
    returns (inserted: seq<bool>, listed: seq<Key>, bound: Key, found: Key, erased: seq<nat>, left: seq<Key>, ghost asked: nat)
    requires StrictWeak(less) && less(a, b) && less(b, c)
    ensures inserted == [true, true, true, false] && listed == [a, b, c] && bound == b && found == b
    ensures erased == [1, 0] && left == [b, c] && asked == 4
  {
    hide Tree.Valid, Tree.Core, Tree.Pooled, StrictWeak, Ascending, InsertKey, EraseKey, Has, Same;
    ComparedAll(less, a, b, c);
    var t := new Tree(less, nodeSize);
    inserted := Fill(t, a, b, c);
    asked := t.allocations;
    listed := Listing(t);
    bound, found := Look(t, a, b, c);
    erased := Thin(t, a, b, c);
    left := Listing(t);
  }

  method Fill(t: Tree, a: Key, b: Key, c: Key) returns (inserted: seq<bool>)
    requires t.Valid() && t.Keys() == [] && t.pool == [] && Ascending(t.less, a, b, c)
    modifies t`size, t`s, t`c, t`tmp, t`pool, t`allocations, t`extra, t.Repr()
    ensures t.Valid() && fresh(t.Repr() - old(t.Repr())) && t.Keys() == [a, b, c]
    ensures inserted == [true, true, true, false] && t.allocations == old(t.allocations) + 4
  {
    hide Tree.Valid, Tree.Core, Tree.Pooled, StrictWeak, Ascending, InsertKey, Has, Same, Tree.Keys;
    InsertedThree(t.less, a, b, c);
    var i1 := Add(t, b);
    var i2 := Add(t, c);
    var i3 := Add(t, a);
    var i4 := Add(t, b);
    inserted := [i1, i2, i3, i4];
    InsertedAgain(t.less, a, b, c);
  }

  lemma InsertedAgain(less: Less, a: Key, b: Key, c: Key)
    requires Ascending(less, a, b, c)
    ensures InsertKey(less, [a, b, c], b) == [a, b, c]
  {
    assert [a, b, c][1..] == [b, c];
    assert InsertKey(less, [b, c], b) == [b, c];
  }

  method Thin(t: Tree, a: Key, b: Key, c: Key) returns (erased: seq<nat>)
    requires t.Valid() && t.Keys() == [a, b, c] && Ascending(t.less, a, b, c)
    modifies t`size, t`s, t`c, t`tmp, t`pool, t`extra, t.Repr()
    ensures t.Valid() && t.Keys() == [b, c] && erased == [1, 0]
  {
    hide *;
    ErasedFirst(t.less, a, b, c);
    LinksIn(t);
    var m := Take(t, a);
    LinksIn(t);
    var n := Take(t, a);
    erased := [m, n];
  }

  lemma LinksIn(t: Tree)
    ensures forall x :: x in t.s.link.Keys ==> x in t.Repr()
  {}

  method Look(t: Tree, a: Key, b: Key, c: Key) returns (bound: Key, found: Key)
    requires t.Valid() && t.Keys() == [a, b, c] && Ascending(t.less, a, b, c)
    ensures bound == b && found == b
  {
    hide Tree.Core, Tree.Pooled, Ascending, Same, Below, NotBelow, Distinct;
    t.ValidCore();
    t.OrderIs();
    var saved, k, steps := t.LowerBoundPtr(b);
    StopsAtMiddle(t.less, a, b, c, k);
    assert t.Keys()[1] == b;
    bound := saved.key;
    var r, more := t.FindImpl(b);
    assert t.Keys()[1] == b && Same(t.less, b, b) by { SameSelf(t.less, a, b, c); }
    assert r in NodesOf(t.s.order);
    ghost var i :| 0 <= i < |t.s.order| && t.s.order[i] == r;
    assert t.Keys()[i] == r.key;
    found := r.key;
  }

  lemma SameSelf(less: Less, a: Key, b: Key, c: Key)
    requires Ascending(less, a, b, c)
    ensures Same(less, b, b)
  {}
}

/** Runs that mix the operations of a tree do to it what they do to its book. */
module RbRuns {
  import opened RbNodes
  import opened RbOrder
  import opened RbSet
  import opened RbPool
  import opened RbBook
  import opened RbTree

  ghost function BookOf(t: Tree): Book
    reads t, t.s.link.Keys
  {
    Book(t.Keys(), Flags(t.s.order), Flags(t.pool), t.allocations)
  }

  lemma Counts(t: Tree)
    requires t.Valid()
    ensures t.size == |t.Keys()| == |t.s.order| && t.Capacity() == |t.Keys()| + |t.pool|
    ensures StrictWeak(t.less) && Sorted(t.less, t.Keys()) && Even(BookOf(t))
  {
    hide Tree.Valid;
    t.CapacityIs();
    t.ValidSorted();
  }

  /** `emplace` and `emplace_hint` with a hint at any place of the list. */
  method DoInsert(t: Tree, hinted: bool, hint: nat, x: Key, answer: Answer)
    requires t.Valid()
    modifies t`size, t`s, t`c, t`tmp, t`pool, t`allocations, t`extra, t.Repr()
    ensures t.Valid() && fresh(t.Repr() - old(t.Repr()))
    ensures BookOf(t) == Next(t.less, t.persistent, old(BookOf(t)), if hinted then HintedInsertion(hint, x, answer) else Insertion(x, answer), [])
  {
    hide Tree.Valid, Tree.Core, InsertKey, Fits, Same, Sorted, StrictWeak, PlaceOf, Present, Toss, NextFlag, Rest, Flags, Next;
    Counts(t);
    ghost var ks, order, b := t.Keys(), t.s.order, BookOf(t);
    t.ValidCore();
    var at := t.Hint(hinted, hint);
    ghost var k;
    var r, inserted;
    r, inserted, k := t.EmplaceAt(at, x, answer.addr, answer.room);
    if inserted {
      PlaceOfNew(t.less, ks, x, k);
      FlagsAround(order, k, r);
    } else {
      PlaceOfSame(t.less, ks, x, k);
    }
    NextInsertion(t.less, t.persistent, b, hinted, hint, x, answer);
  }

  lemma NextInsertion(less: Less, persistent: bool, b: Book, hinted: bool, hint: nat, x: Key, answer: Answer)
    ensures var k, present := PlaceOf(less, b.keys, x), Present(less, b.keys, x);
      Next(less, persistent, b, if hinted then HintedInsertion(hint, x, answer) else Insertion(x, answer), []) ==
        Book(InsertKey(less, b.keys, x),
          if present || k > |b.held| then b.held else b.held[..k] + [NextFlag(b.spare)] + b.held[k..],
          if present || k > |b.held| then Toss(NextFlag(b.spare), Rest(b.spare), persistent) else Rest(b.spare),
          b.asked + if b.spare == [] then 1 else 0)
  {}

  lemma FlagsAround(q: seq<Node>, k: nat, x: Node)
    requires k <= |q|
    ensures Flags(q[..k] + [x] + q[k..]) == Flags(q)[..k] + [x.prealloc] + Flags(q)[k..]
    ensures k < |q| ==> Flags(q[..k] + q[k + 1..]) == RbBook.Without(Flags(q), k) && Flags(q)[k] == q[k].prealloc
  {}

  /** `erase_unique` */
  method DoRemove(t: Tree, x: Key)
    requires t.Valid()
    modifies t`size, t`s, t`c, t`tmp, t`pool, t`extra, t.Repr()
    ensures t.Valid() && fresh(t.Repr() - old(t.Repr()))
    ensures BookOf(t) == Next(t.less, t.persistent, old(BookOf(t)), Removal(x), [])
  {
    hide Tree.Valid, EraseKey, Same, Sorted, StrictWeak, PlaceOf, Toss, Flags, Destroyed;
    Counts(t);
    ghost var ks, order, pool := t.Keys(), t.s.order, t.pool;
    ghost var k;
    var n;
    n, k := t.EraseOne(x);
    PlaceMeans(t.less, ks, x);
    if n != 0 {
      PlaceOfSame(t.less, ks, x, k);
      FlagsAround(order, k, order[k]);
      DestroyedFlags(pool, order[k], t.persistent);
    }
  }

  /** `erase` of the position at a place of the list; at the end it does nothing. */
  method DoRemoveAt(t: Tree, i: nat)
    requires t.Valid()
    modifies t`size, t`s, t`c, t`tmp, t`pool, t`extra, t.Repr()
    ensures t.Valid() && fresh(t.Repr() - old(t.Repr()))
    ensures BookOf(t) == Next(t.less, t.persistent, old(BookOf(t)), RemovalAt(i), [])
  {
    hide Tree.Valid, Sorted, StrictWeak, Toss, Flags, Destroyed;
    Counts(t);
    ghost var order, pool := t.s.order, t.pool;
    t.EraseAt(i);
    if i < |order| {
      FlagsAround(order, i, order[i]);
      DestroyedFlags(pool, order[i], t.persistent);
    }
  }

  /** `reserve` */
  method DoReserve(t: Tree, c: nat, base: nat, slack: nat)
    requires t.Valid()
    modifies t`tmp, t`pool, t`extra, t`pieces, t`blocks, t`allocations
    ensures t.Valid() && fresh(t.Repr() - old(t.Repr()))
    ensures BookOf(t) == Next(t.less, t.persistent, old(BookOf(t)), Reservation(c, base, slack), [])
  {
    hide Tree.Valid, Sorted, StrictWeak, Flags, Times, Trues;
    Counts(t);
    NoTrues(Flags(t.pool));
    t.Reserve(c, base, Times(if c > t.size then c - t.size else 0, t.nodeSize) + slack);
  }

  lemma NoTrues(q: seq<bool>)
    ensures Trues(0) + q == q
  {}

  /** `clear`; the answer is which of the nodes came with a block, in the order in which they are destroyed. */
  method DoClear(t: Tree) returns (ghost visited: seq<bool>)
    requires t.Valid()
    modifies t`size, t`s, t`c, t`tmp, t`pool, t`extra, t.Repr()
    ensures t.Valid() && fresh(t.Repr() - old(t.Repr())) && Visits(old(BookOf(t)), Clearing, visited)
    ensures BookOf(t) == Next(t.less, t.persistent, old(BookOf(t)), Clearing, visited)
  {
    hide Tree.Valid, Tree.Core, Tree.Pooled, Sorted, StrictWeak, Flags, DestroyAll, TossAll, Kept;
    Counts(t);
    t.CoreApart();
    ghost var pool := t.pool;
    ghost var v := t.Clear();
    visited := Flags(v);
    DestroyAllFlags(pool, v, t.persistent);
    assert Flags(t.s.order) == [] by { NoFlags(t.s.order); }
  }

  lemma NoFlags(q: seq<Node>)
    ensures q == [] ==> Flags(q) == []
  {}

  /** `shrink_to_fit` */
  method DoShrink(t: Tree)
    requires t.Valid()
    modifies t`tmp, t`pool, t`extra, t`blocks, t.Spare()`parent
    ensures t.Valid() && fresh(t.Repr() - old(t.Repr()))
    ensures BookOf(t) == Next(t.less, t.persistent, old(BookOf(t)), Shrinking, [])
  {
    hide Tree.Valid, Sorted, StrictWeak, Flags, RbPool.Preallocated, Only;
    Counts(t);
    PreallocatedFlags(t.pool);
    var freed := t.ShrinkToFit();
    NoFlags(t.pool);
  }

  /** One operation does to the tree what it does to its book. */
  method Do(t: Tree, op: Op) returns (ghost visited: seq<bool>)
    requires t.Valid()
    modifies t`size, t`s, t`c, t`tmp, t`pool, t`allocations, t`extra, t`pieces, t`blocks, t.Repr()
    ensures t.Valid() && fresh(t.Repr() - old(t.Repr())) && Visits(old(BookOf(t)), op, visited)
    ensures BookOf(t) == Next(t.less, t.persistent, old(BookOf(t)), op, visited)
  {
    hide Tree.Valid, BookOf, Next;
    visited := [];
    match op
    case Insertion(x, answer) => DoInsert(t, false, 0, x, answer);
    case HintedInsertion(hint, x, answer) => DoInsert(t, true, hint, x, answer);
    case Removal(x) => DoRemove(t, x);
    case RemovalAt(i) => DoRemoveAt(t, i);
    case Reservation(c, base, slack) => DoReserve(t, c, base, slack);
    case Clearing => visited := DoClear(t);
    case Shrinking => DoShrink(t);
  }

  /**
   * Every run keeps the tree and does to it what it does to its book: keys, nodes, spare nodes and calls of the allocator,
   * in either mode. What a run does besides is the order in which `clear` destroys the nodes, each once.
   */
  method Run(t: Tree, ops: seq<Op>) returns (ghost visits: seq<seq<bool>>)
    requires t.Valid()
    modifies t`size, t`s, t`c, t`tmp, t`pool, t`allocations, t`extra, t`pieces, t`blocks, t.Repr()
    ensures t.Valid() && fresh(t.Repr() - old(t.Repr())) && t.Capacity() == |t.Keys()| + |t.pool|
    ensures |visits| == |ops| && AllVisits(t.less, t.persistent, old(BookOf(t)), ops, visits)
    ensures BookOf(t) == After(t.less, t.persistent, old(BookOf(t)), ops, visits)
    ensures old(t.allocations) <= t.allocations <= old(t.allocations) + MayAsk(ops)
    ensures WithinPool(ops, |old(t.pool)|) ==> t.allocations == old(t.allocations)
  {
    hide Tree.Valid, Next, BookOf, Visits;
    Counts(t);
    BookParts(t);
    ghost var b := BookOf(t);
    visits := [];
    Prefixes(ops);
    for i := 0 to |ops|
      invariant t.Valid() && fresh(t.Repr() - old(t.Repr()))
      invariant |visits| == i && AllVisits(t.less, t.persistent, old(BookOf(t)), ops[..i], visits)
      invariant BookOf(t) == After(t.less, t.persistent, old(BookOf(t)), ops[..i], visits)
    {
      ghost var visited := Do(t, ops[i]);
      assert ops[..i + 1][..i] == ops[..i] && (visits + [visited])[..i] == visits;
      visits := visits + [visited];
    }
    Counts(t);
    AskedAtMost(t.less, t.persistent, b, ops, visits);
    if WithinPool(ops, |b.spare|) {
      ReservedIsFree(t.less, t.persistent, b, ops, visits);
    }
    BookParts(t);
  }

  lemma Prefixes(ops: seq<Op>)
    ensures ops[..|ops|] == ops
  {}

  lemma BookParts(t: Tree)
    ensures BookOf(t).asked == t.allocations && |BookOf(t).spare| == |t.pool| && BookOf(t).keys == t.Keys()
  {}
}

/** The shortest runs on a new queue that end with a call, or a `clear`, that would write behind a dangling end. */
module PqInputs {
  import opened PqNodes
  import opened PriorityQueues
  import opened PqRuns

  /** What `n` pushes of one priority leave: the preallocated nodes come first, then those of the one block. */
  ghost predicate Row(q: PriorityQueue, n: nat, value: Value, b: StorageBlock?)
    reads q, NodesOf(q.queue)`next, NodesOf(q.queue)`priority, NodesOf(q.queue)`value, NodesOf(q.queue)`stamp, NodesOf(q.free)`next, q.blocks`used
  {
    && q.Valid() && q.TailRight() && q.hands == {}
    && q.Items() == Alike(n, value) && |q.queue| == n
    && (forall j :: 0 <= j < n ==> q.queue[j].block == if j < PREALLOCATED_NODES then null else b)
    && (forall x :: x in q.free ==> x.block == if n <= PREALLOCATED_NODES then null else b)
    && (n > PREALLOCATED_NODES ==> b != null)
    && q.blocks == if n <= PREALLOCATED_NODES then {} else {b}
  }

  /** Pushes of one priority, each behind the ones before. */
  method PushRow(n: nat, value: Value) returns (q: PriorityQueue, ghost b: StorageBlock?)
    requires n <= PREALLOCATED_NODES + STORAGE_NODES
    ensures fresh(q) && fresh(q.Footprint()) && fresh(q.blocks) && Row(q, n, value, b)
  {
    hide PriorityQueue.Valid, PriorityQueue.TailRight, PriorityQueue.Items, ItemsOf;
    q := new PriorityQueue();
    b := null;
    assert q.Items() == [] == Alike(0, value);
    for i := 0 to n
      invariant fresh(q) && fresh(q.Footprint()) && fresh(q.blocks) && Row(q, i, value, b)
    {
      b := PushOne(q, i, value, b);
    }
  }

  method PushOne(q: PriorityQueue, n: nat, value: Value, ghost b: StorageBlock?) returns (ghost c: StorageBlock?)
    requires Row(q, n, value, b) && n < PREALLOCATED_NODES + STORAGE_NODES
    modifies q, q.Footprint(), q.blocks`used
    ensures Row(q, n + 1, value, c) && fresh(q.Footprint() - old(q.Footprint())) && fresh(q.blocks - old(q.blocks))
  {
    hide PriorityQueue.Valid, PriorityQueue.TailRight, PriorityQueue.Items, ItemsOf, Slot;
    FreeInRow(q, n, value, b);
    ghost var queue0 := q.queue;
    ghost var x, k := q.Push(0, false, value);
    c := if n < PREALLOCATED_NODES then b else x.block;
    AllLate(n, value);
    LateIsLast(q, value, queue0, x, k);
  }

  /** There is a free node, but for the ninth push. */
  lemma FreeInRow(q: PriorityQueue, n: nat, value: Value, b: StorageBlock?)
    requires Row(q, n, value, b)
    ensures |q.free| == (if n <= PREALLOCATED_NODES then PREALLOCATED_NODES else PREALLOCATED_NODES + STORAGE_NODES) - n
  {
    hide PriorityQueue.Valid;
    q.CapacityIs();
  }

  function Alike(n: nat, value: Value): seq<Item> { seq(n, _ => Item(0, value)) }

  lemma {:induction false} AllLate(n: nat, value: Value)
    ensures Insert(Alike(n, value), Item(0, value), false) == Alike(n + 1, value)
  {
    if n > 0 {
      assert Alike(n, value)[1..] == Alike(n - 1, value);
      AllLate(n - 1, value);
      assert Alike(n + 1, value) == [Item(0, value)] + Alike(n, value);
    }
  }

  lemma LateIsLast(q: PriorityQueue, value: Value, queue0: seq<Node>, x: Node, k: nat)
    requires k <= |queue0| && q.queue == queue0[..k] + [x] + queue0[k..] && Slot(queue0, 0, false, k)
    requires q.Items() == Alike(|q.queue|, value)
    ensures q.queue == queue0 + [x]
  {
    OnePriority(q, value, queue0, x, k);
  }

  lemma OnePriority(q: PriorityQueue, value: Value, row: seq<Node>, x: Node, k: nat)
    requires k <= |row| && q.queue == row[..k] + [x] + row[k..] && q.Items() == Alike(|q.queue|, value)
    ensures forall i {:trigger row[i]} :: 0 <= i < |row| ==> row[i].priority == 0
  {
    forall i {:trigger row[i]} | 0 <= i < |row| ensures row[i].priority == 0 {
      var j := if i < k then i else i + 1;
      assert q.queue[j] == row[i] && q.Items()[j] == Item(q.queue[j].priority, q.queue[j].value);
    }
  }

  /** Nine pushes, of which the last goes to the front, and a pop: the only block dies, and no node is free. */
  function TenCalls(value: Value): (ops: seq<Op>)
    ensures |ops| == 10
  {
    seq(PREALLOCATED_NODES, _ => Pushing(Call(Item(0, value), false))) + [Pushing(Call(Item(0, value), true)), Popping(false)]
  }

  /** After these ten calls every push would write behind the dangling end. */
  method TenCallsAndAPush(value: Value) returns (q: PriorityQueue)
    ensures fresh(q) && q.Valid() && q.hands == {} && q.Items() == Held([], TenCalls(value))
    ensures forall call :: Unsafe(q, Pushing(call))
  {
    hide PriorityQueue.Valid, PriorityQueue.TailRight, PriorityQueue.Dangling, PriorityQueue.Items, ItemsOf, Slot, Without;
    ghost var b;
    q, b := PushRow(PREALLOCATED_NODES, value);
    FreeInRow(q, PREALLOCATED_NODES, value, b);
    ghost var row := q.queue;
    ghost var x, k := q.Push(0, true, value);
    AllEarly(value, q, row, x, k);
    assert !InUseBy(row, {}, x.block) by { NotInUse(row, x.block); }
    ghost var free := q.free;
    var r := q.Pop(false);
    assert q.queue == row;
    NoneLeft(free + [x], x.block);
    AfterTen(value);
  }

  lemma NotInUse(q: seq<Node>, b: StorageBlock)
    requires forall j :: 0 <= j < |q| ==> q[j].block == null
    ensures !InUseBy(q, {}, b)
  {}

  lemma {:induction false} NoneLeft(q: seq<Node>, b: StorageBlock?)
    requires forall x :: x in q ==> x.block == b
    ensures Without(q, b) == []
  {
    if q != [] {
      assert q[0] in q;
      NoneLeft(q[1..], b);
    }
  }

  /** In front of all its equals is in front. */
  lemma AllEarly(value: Value, q: PriorityQueue, row: seq<Node>, x: Node, k: nat)
    requires k <= |row| && q.queue == row[..k] + [x] + row[k..] && Slot(row, 0, true, k)
    requires q.Items() == Insert(Alike(|row|, value), Item(0, value), true)
    ensures k == 0 && q.queue == [x] + row && q.Items() == Alike(|row| + 1, value)
  {
    assert q.Items() == Alike(|row| + 1, value);
    OnePriority(q, value, row, x, k);
    assert row != [] ==> row[0].priority == 0;
  }

  lemma AfterTen(value: Value)
    ensures Held([], TenCalls(value)) == Alike(PREALLOCATED_NODES, value)
  {
    var late := seq(PREALLOCATED_NODES, _ => Pushing(Call(Item(0, value), false)));
    HeldRow(PREALLOCATED_NODES, value);
    var ops := TenCalls(value);
    assert ops[..9] == late + [Pushing(Call(Item(0, value), true))] && ops[..9][..8] == late;
    assert Insert(Alike(8, value), Item(0, value), true) == Alike(9, value);
    assert Alike(9, value)[1..] == Alike(8, value);
  }

  lemma {:induction false} HeldRow(n: nat, value: Value)
    ensures Held([], seq(n, _ => Pushing(Call(Item(0, value), false)))) == Alike(n, value)
  {
    var ops := seq(n, _ => Pushing(Call(Item(0, value), false)));
    if n > 0 {
      assert ops[..n - 1] == seq(n - 1, _ => Pushing(Call(Item(0, value), false)));
      HeldRow(n - 1, value);
      AllLate(n - 1, value);
    }
  }

  /** How far a run of `n` calls, `pushes` of them pushes, has come: a block needs nine pushes, and a pop to die. */
  ghost predicate Early(q: PriorityQueue, pushes: nat, n: nat)
    reads q
  {
    && q.hands == {} && |q.queue| <= pushes <= n && (q.blocks != {} ==> pushes >= 9)
    && (q.Dangling() ==> 9 <= pushes < n) && (q.TailRight() <==> !q.Dangling())
  }

  /** One of the first ten calls. */
  method EarlyCall(q: PriorityQueue, op: Op, ghost pushes: nat, ghost n: nat) returns (out: seq<Item>)
    requires q.Valid() && Early(q, pushes, n) && n < 10
    modifies q, q.Footprint(), q.blocks`used
    ensures q.Valid() && Early(q, pushes + if op.Pushing? then 1 else 0, n + 1)
    ensures q.Items() == Effect(old(q.Items()), op) && out == Answer(old(q.Items()), op)
    ensures fresh(q.Footprint() - old(q.Footprint())) && fresh(q.blocks - old(q.blocks))
  {
    hide PriorityQueue.Valid, PriorityQueue.TailRight, PriorityQueue.Dangling, PriorityQueue.Items, ItemsOf, Slot, Insert, Without, InUseBy;
    FreeOrFull(q);
    HeadInBlock(q);
    match op {
      case Pushing(call) =>
        ghost var x, k := q.Push(call.item.priority, call.insertFirst, call.item.value);
        out := [];
      case Popping(direct) =>
        out := q.Pop(direct);
    }
    Ends(q);
  }

  /** No shorter run gets there: any ten calls on a new queue do what they do to the list. */
  method TenCallsAreSafe(ops: seq<Op>) returns (q: PriorityQueue, out: seq<Item>)
    requires |ops| <= 10
    ensures fresh(q) && q.Valid() && q.hands == {} && q.Items() == Held([], ops) && out == Delivered([], ops)
  {
    hide PriorityQueue.Valid, PriorityQueue.TailRight, PriorityQueue.Dangling, PriorityQueue.Items, ItemsOf, Effect, Answer;
    q := new PriorityQueue();
    out := [];
    NothingYet(q);
    Ends(q);
    ghost var pushes := 0;
    assert ops[..|ops|] == ops;
    for i := 0 to |ops|
      invariant q.Valid() && Early(q, pushes, i)
      invariant q.Items() == Held([], ops[..i]) && out == Delivered([], ops[..i])
      invariant fresh(q) && fresh(q.Footprint()) && fresh(q.blocks)
    {
      assert ops[..i + 1][..i] == ops[..i];
      var r := EarlyCall(q, ops[i], pushes, i);
      out := out + r;
      pushes := pushes + if ops[i].Pushing? then 1 else 0;
    }
  }

  lemma NothingYet(q: PriorityQueue)
    ensures q.queue == [] ==> q.Items() == []
  {}

  /** A new block is only made when all preallocated nodes are in use. */
  lemma FreeOrFull(q: PriorityQueue)
    requires q.Valid() && q.hands == {}
    ensures q.free == [] ==> |q.queue| == PREALLOCATED_NODES + STORAGE_NODES * |q.blocks|
  {
    hide PriorityQueue.Valid;
    q.CapacityIs();
  }

  lemma HeadInBlock(q: PriorityQueue)
    requires q.Valid()
    ensures q.queue != [] && q.queue[0].block != null ==> q.queue[0].block in q.blocks
  {}

  /** After this many pushes of one priority `clear` brings a node of the second block back when the first has died. */
  method SeventyThreePushes(value: Value) returns (q: PriorityQueue)
    ensures fresh(q) && q.Valid() && q.hands == {} && q.Items() == Alike(73, value)
    ensures !Drains(q.queue, q.hands, q.TailRight())
  {
    hide PriorityQueue.Valid, PriorityQueue.TailRight, PriorityQueue.Items, ItemsOf, Slot, Drains;
    var n := PREALLOCATED_NODES + STORAGE_NODES;
    ghost var b;
    q, b := PushRow(n, value);
    FreeInRow(q, n, value, b);
    ghost var row := q.queue;
    ghost var x, k := q.Push(0, false, value);
    AllLate(n, value);
    LateIsLast(q, value, row, x, k);
    FirstDies(row, x);
  }

  lemma FirstDies(row: seq<Node>, x: Node)
    requires row != [] && row[|row| - 1].block != null && x.block != null && x.block != row[|row| - 1].block
    ensures !Drains(row + [x], {}, true)
  {
    var q, k := row + [x], |row| - 1;
    assert q[k + 1..] == [x] && q[k] == row[k];
    assert Dies(q, {}, k);
    assert q[k + 1].block != null;
  }

  /** No fewer pushes get there: after any seventy-two, `clear` works. */
  method FewerPushesDrain(calls: seq<Call>) returns (q: PriorityQueue)
    requires |calls| <= 72
    ensures fresh(q) && fresh(q.Footprint()) && fresh(q.blocks) && q.Valid() && q.hands == {} && q.Items() == PushAll([], calls)
    ensures Drains(q.queue, q.hands, q.TailRight())
  {
    hide PriorityQueue.Valid, PriorityQueue.TailRight, PriorityQueue.Items, ItemsOf, Slot, Insert, Drains;
    q := new PriorityQueue();
    NothingYet(q);
    for i := 0 to |calls|
      invariant q.Valid() && q.TailRight() && q.hands == {} && |q.queue| == i
      invariant PushAll(q.Items(), calls[i..]) == PushAll([], calls)
      invariant |q.blocks| <= 1
      invariant fresh(q) && fresh(q.Footprint()) && fresh(q.blocks)
    {
      assert calls[i..][0] == calls[i] && calls[i..][1..] == calls[i + 1..];
      FreeOrFull(q);
      ghost var x, k := q.Push(calls[i].item.priority, calls[i].insertFirst, calls[i].item.value);
    }
    q.OneBlockDrains();
  }

  /** Four pushes and their order, written out: by priority, and among equals the one that was to go first, then the others in turn. */
  method Sample(a: Value, b: Value, c: Value, d: Value, direct: bool) returns (out: seq<Item>)
    ensures out == [Item(1, d), Item(1, b), Item(1, c), Item(2, a)]
  {
    hide PriorityQueue.Valid, PriorityQueue.TailRight, PriorityQueue.Items, Drains, PushAll;
    var calls := [Call(Item(2, a), false), Call(Item(1, b), false), Call(Item(1, c), false), Call(Item(1, d), true)];
    var q := FewerPushesDrain(calls);
    SampleOrder(a, b, c, d);
    ChainsWithin(q);
    out := PopRun(q, direct);
  }

  lemma ChainsWithin(q: PriorityQueue)
    requires q.Valid()
    ensures NodesOf(q.queue) <= q.Footprint() && NodesOf(q.free) <= q.Footprint()
  {}

  lemma SampleOrder(a: Value, b: Value, c: Value, d: Value)
    ensures PushAll([], [Call(Item(2, a), false), Call(Item(1, b), false), Call(Item(1, c), false), Call(Item(1, d), true)]) ==
      [Item(1, d), Item(1, b), Item(1, c), Item(2, a)]
  {
    var ka, kb, kc, kd := Call(Item(2, a), false), Call(Item(1, b), false), Call(Item(1, c), false), Call(Item(1, d), true);
    assert [ka, kb, kc, kd][1..] == [kb, kc, kd] && [kb, kc, kd][1..] == [kc, kd] && [kc, kd][1..] == [kd] && [kd][1..] == [];
    assert [kb.item, ka.item][1..] == [ka.item];
    var q1, q2 := [ka.item], [kb.item, ka.item];
    var q3, q4 := [kb.item, kc.item, ka.item], [kd.item, kb.item, kc.item, ka.item];
    assert Insert([], ka.item, false) == q1 && Insert(q1, kb.item, false) == q2;
    assert Insert(q1, kc.item, false) == [kc.item, ka.item] && Insert(q2, kc.item, false) == q3 && Insert(q3, kd.item, true) == q4;
    assert PushAll(q4, []) == q4 && PushAll(q3, [kd]) == q4 && PushAll(q2, [kc, kd]) == q4 && PushAll(q1, [kb, kc, kd]) == q4;
  }
}

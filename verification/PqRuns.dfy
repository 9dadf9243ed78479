/** What runs of pushes mean: the queue is a stable list, and its order says in which order items will be popped. */
module PqRuns {
  import opened PqNodes
  import opened PriorityQueues

  /** One call of `push`. */
  datatype Call = Call(item: Item, insertFirst: bool)

  predicate NonDecreasing(q: seq<Item>) { forall i, j :: 0 <= i < j < |q| ==> q[i].priority <= q[j].priority }

  /** What the list becomes after the calls. */
  function PushAll(q: seq<Item>, calls: seq<Call>): seq<Item>
    decreases |calls|
  {
    if calls == [] then q else PushAll(Insert(q, calls[0].item, calls[0].insertFirst), calls[1..])
  }

  /** The items of priority `p`, in the order of the list. */
  function Of(q: seq<Item>, p: int): seq<Item> {
    if q == [] then [] else (if q[0].priority == p then [q[0]] else []) + Of(q[1..], p)
  }

  /** The items of priority `p` that were pushed behind their equals, in the order of the calls. */
  function Late(calls: seq<Call>, p: int): seq<Item> {
    if calls == [] then []
    else (if calls[0].item.priority == p && !calls[0].insertFirst then [calls[0].item] else []) + Late(calls[1..], p)
  }

  /** The items of priority `p` that were pushed in front of their equals, the latest call first. */
  function Early(calls: seq<Call>, p: int): seq<Item> {
    if calls == [] then []
    else Early(calls[1..], p) + if calls[0].item.priority == p && calls[0].insertFirst then [calls[0].item] else []
  }

  lemma InsertSorted(q: seq<Item>, x: Item, insertFirst: bool)
    requires NonDecreasing(q)
    ensures NonDecreasing(Insert(q, x, insertFirst))
    ensures forall i :: 0 <= i < |Insert(q, x, insertFirst)| ==>
      Insert(q, x, insertFirst)[i].priority >= if q == [] || x.priority < q[0].priority then x.priority else q[0].priority
  {
    if q != [] {
      InsertSorted(q[1..], x, insertFirst);
    }
  }

  lemma NoneOf(q: seq<Item>, p: int)
    requires forall i :: 0 <= i < |q| ==> q[i].priority > p
    ensures Of(q, p) == []
  {}

  /** A push goes in front of all its equals or behind all of them, and moves nothing else. */
  lemma {:induction false} InsertStable(q: seq<Item>, x: Item, insertFirst: bool, p: int)
    requires NonDecreasing(q)
    ensures Of(Insert(q, x, insertFirst), p) ==
      if x.priority != p then Of(q, p) else if insertFirst then [x] + Of(q, p) else Of(q, p) + [x]
  {
    var r := Insert(q, x, insertFirst);
    if q == [] {
    } else if (if insertFirst then x.priority <= q[0].priority else x.priority < q[0].priority) {
      assert r[1..] == q;
      if x.priority == p && !insertFirst {
        NoneOf(q, p);
      }
    } else {
      assert r[1..] == Insert(q[1..], x, insertFirst);
      InsertStable(q[1..], x, insertFirst, p);
    }
  }

  /** After any calls the list is sorted, and of every priority first come the early ones, then those it had, then the late ones. */
  lemma {:induction false} PushAllStable(q: seq<Item>, calls: seq<Call>, p: int)
    requires NonDecreasing(q)
    ensures NonDecreasing(PushAll(q, calls))
    ensures Of(PushAll(q, calls), p) == Early(calls, p) + Of(q, p) + Late(calls, p)
    decreases |calls|
  {
    if calls != [] {
      var x, first := calls[0].item, calls[0].insertFirst;
      InsertSorted(q, x, first);
      InsertStable(q, x, first, p);
      PushAllStable(Insert(q, x, first), calls[1..], p);
    }
  }

  /** The nodes of a queue hold a sorted list. */
  lemma QueueSorted(pq: PriorityQueue)
    requires pq.Valid()
    ensures NonDecreasing(pq.Items())
  {
    var q := pq.queue;
    assert pq.Queued();
    forall i, j | 0 <= i < j < |q|
      ensures pq.Items()[i].priority <= pq.Items()[j].priority
    {
      assert Before(q[i].priority, q[i].stamp, q[j].priority, q[j].stamp);
    }
  }

  /** A run of pushes on any queue whose free chain has a right end. */
  method PushRun(pq: PriorityQueue, calls: seq<Call>)
    requires pq.Valid() && pq.TailRight()
    modifies pq, pq.Footprint(), pq.blocks`used
    ensures pq.Valid() && pq.TailRight() && pq.hands == old(pq.hands)
    ensures pq.Items() == PushAll(old(pq.Items()), calls) && NonDecreasing(pq.Items())
  {
    hide PriorityQueue.Valid, PriorityQueue.TailRight, PriorityQueue.Items, NonDecreasing;
    for i := 0 to |calls|
      invariant pq.Valid() && pq.TailRight() && pq.hands == old(pq.hands)
      invariant PushAll(pq.Items(), calls[i..]) == PushAll(old(pq.Items()), calls)
      invariant fresh(pq.Footprint() - old(pq.Footprint())) && fresh(pq.blocks - old(pq.blocks))
    {
      assert calls[i..][0] == calls[i] && calls[i..][1..] == calls[i + 1..];
      ghost var x, k := pq.Push(calls[i].item.priority, calls[i].insertFirst, calls[i].item.value);
    }
    QueueSorted(pq);
  }

  /** A run of pops, in either form, to the end: the items come out in the order of the list. */
  method PopRun(pq: PriorityQueue, direct: bool) returns (out: seq<Item>)
    requires pq.Valid() && Drains(pq.queue, pq.hands, pq.TailRight())
    modifies pq, NodesOf(pq.queue)`next, NodesOf(pq.free)`next, pq.blocks`used
    ensures pq.Valid() && out == old(pq.Items()) && pq.Items() == [] && pq.hands == old(pq.hands)
  {
    hide PriorityQueue.Valid, PriorityQueue.TailRight, PriorityQueue.Items, Drains;
    ghost var nodes, B := pq.Footprint(), pq.blocks;
    out := [];
    var more := true;
    while more
      invariant pq.Valid() && Drains(pq.queue, pq.hands, pq.TailRight()) && pq.hands == old(pq.hands)
      invariant pq.Footprint() <= nodes && pq.blocks <= B
      invariant out + pq.Items() == old(pq.Items()) && (!more ==> pq.Items() == [])
      decreases |pq.Items()|, more
    {
      DrainsNow(pq);
      var r := pq.Pop(direct);
      out := out + r;
      more := r != [];
    }
  }

  lemma DrainsNow(pq: PriorityQueue)
    requires Drains(pq.queue, pq.hands, pq.TailRight())
    ensures pq.TailRight() || pq.queue == [] || pq.queue[0].block == null
  {}

  /** One call of `push` or of one of the pops. */
  datatype Op = Pushing(call: Call) | Popping(direct: bool)

  /** What one call does to the list, and what it delivers. */
  function Effect(q: seq<Item>, op: Op): seq<Item> {
    match op
    case Pushing(call) => Insert(q, call.item, call.insertFirst)
    case Popping(_) => if q == [] then [] else q[1..]
  }

  function Answer(q: seq<Item>, op: Op): seq<Item> { if op.Popping? && q != [] then [q[0]] else [] }

  /** What the list holds after the calls, and what they have delivered. */
  function Held(q: seq<Item>, ops: seq<Op>): seq<Item> {
    if ops == [] then q else Effect(Held(q, ops[..|ops| - 1]), ops[|ops| - 1])
  }

  function Delivered(q: seq<Item>, ops: seq<Op>): seq<Item> {
    if ops == [] then [] else Delivered(q, ops[..|ops| - 1]) + Answer(Held(q, ops[..|ops| - 1]), ops[|ops| - 1])
  }

  /** The items of all pushes, in order. */
  function Pushed(ops: seq<Op>): seq<Item> {
    if ops == [] then []
    else Pushed(ops[..|ops| - 1]) + if ops[|ops| - 1].Pushing? then [ops[|ops| - 1].call.item] else []
  }

  lemma {:induction false} InsertCounted(q: seq<Item>, x: Item, insertFirst: bool)
    ensures multiset(Insert(q, x, insertFirst)) == multiset(q) + multiset{x}
  {
    var r := Insert(q, x, insertFirst);
    if q != [] {
      assert q == [q[0]] + q[1..];
      if r[0] == q[0] && r[1..] == Insert(q[1..], x, insertFirst) {
        InsertCounted(q[1..], x, insertFirst);
        assert r == [q[0]] + r[1..];
      }
    }
  }

  lemma OneConserved(q: seq<Item>, op: Op)
    requires NonDecreasing(q)
    ensures multiset(Effect(q, op)) + multiset(Answer(q, op)) ==
      multiset(q) + multiset(if op.Pushing? then [op.call.item] else [])
    ensures NonDecreasing(Effect(q, op))
  {
    match op
    case Pushing(call) =>
      InsertCounted(q, call.item, call.insertFirst);
      InsertSorted(q, call.item, call.insertFirst);
    case Popping(_) =>
      if q != [] {
        assert q == [q[0]] + q[1..];
      }
  }

  /** Nothing is lost or made up: what is held and what was delivered is what there was and what was pushed. */
  lemma {:induction false} Conserved(q: seq<Item>, ops: seq<Op>)
    requires NonDecreasing(q)
    ensures multiset(Held(q, ops)) + multiset(Delivered(q, ops)) == multiset(q) + multiset(Pushed(ops))
    ensures NonDecreasing(Held(q, ops))
    decreases |ops|
  {
    hide Effect, Answer, NonDecreasing;
    if ops != [] {
      var op, rest := ops[|ops| - 1], ops[..|ops| - 1];
      Conserved(q, rest);
      OneConserved(Held(q, rest), op);
      var more := if op.Pushing? then [op.call.item] else [];
      var d, a, h := Delivered(q, rest), Answer(Held(q, rest), op), Held(q, rest);
      Counted(d, a);
      Counted(Pushed(rest), more);
      Unfolded(q, ops);
      hide *;
      Balance(multiset(h), multiset(Effect(h, op)), multiset(d), multiset(a), multiset(q) + multiset(Pushed(rest)), multiset(more));
      Regroup(multiset(q), multiset(Pushed(rest)), multiset(more));
    }
  }

  lemma Unfolded(q: seq<Item>, ops: seq<Op>)
    requires ops != []
    ensures var (op, rest) := (ops[|ops| - 1], ops[..|ops| - 1]);
      && Held(q, ops) == Effect(Held(q, rest), op)
      && Delivered(q, ops) == Delivered(q, rest) + Answer(Held(q, rest), op)
      && Pushed(ops) == Pushed(rest) + if op.Pushing? then [op.call.item] else []
  {}

  lemma Balance(h: multiset<Item>, h1: multiset<Item>, d: multiset<Item>, a: multiset<Item>, was: multiset<Item>, more: multiset<Item>)
    requires h + d == was && h1 + a == h + more
    ensures h1 + (d + a) == was + more
  {
    forall x | x in h1 + (d + a) + (was + more)
      ensures (h1 + (d + a))[x] == (was + more)[x]
    {
      assert (h + d)[x] == was[x] && (h1 + a)[x] == (h + more)[x];
    }
  }

  lemma Regroup(a: multiset<Item>, b: multiset<Item>, c: multiset<Item>)
    ensures (a + b) + c == a + (b + c)
  {}

  lemma Counted(a: seq<Item>, b: seq<Item>)
    ensures multiset(a + b) == multiset(a) + multiset(b)
  {}

  /** The call would write behind a dangling end. */
  ghost predicate Unsafe(pq: PriorityQueue, op: Op)
    reads pq, NodesOf(pq.queue)
  {
    pq.Dangling() && if op.Pushing? then pq.free == [] else pq.queue != [] && pq.queue[0].block != null
  }

  /** The check for that, and then the call. */
  method TryOne(pq: PriorityQueue, op: Op) returns (ok: bool, out: seq<Item>)
    requires pq.Valid()
    modifies pq, pq.Footprint(), pq.blocks`used
    ensures pq.Valid() && pq.hands == old(pq.hands) && (ok <==> !old(Unsafe(pq, op)))
    ensures if ok then pq.Items() == Effect(old(pq.Items()), op) && out == Answer(old(pq.Items()), op)
            else pq.Items() == old(pq.Items()) && out == [] && Unsafe(pq, op)
    ensures fresh(pq.Footprint() - old(pq.Footprint())) && fresh(pq.blocks - old(pq.blocks))
  {
    hide PriorityQueue.Valid, PriorityQueue.TailRight, PriorityQueue.Items, PriorityQueue.Dangling, Insert;
    var right := pq.LastIsRight();
    Ends(pq);
    ok, out := right || (if op.Pushing? then pq.freeFirst != null else pq.queueFirst == null || pq.queueFirst.block == null), [];
    if ok {
      match op
      case Pushing(call) =>
        ghost var x, k := pq.Push(call.item.priority, call.insertFirst, call.item.value);
      case Popping(direct) =>
        out := pq.Pop(direct);
    }
  }

  lemma Ends(pq: PriorityQueue)
    requires pq.Valid()
    ensures pq.TailRight() <==> !pq.Dangling()
    ensures pq.freeFirst == null <==> pq.free == []
    ensures if pq.queue == [] then pq.queueFirst == null else pq.queueFirst == pq.queue[0]
  {}

  /**
   * A run of pushes and pops on any queue does to it and delivers what it does to the list and delivers from it, up to
   * the first call that would write behind a dangling end.
   */
  method Run(pq: PriorityQueue, ops: seq<Op>) returns (out: seq<Item>, done: nat)
    requires pq.Valid()
    modifies pq, pq.Footprint(), pq.blocks`used
    ensures pq.Valid() && pq.hands == old(pq.hands) && done <= |ops|
    ensures pq.Items() == Held(old(pq.Items()), ops[..done]) && out == Delivered(old(pq.Items()), ops[..done])
    ensures done < |ops| ==> Unsafe(pq, ops[done])
  {
    hide PriorityQueue.Valid, PriorityQueue.TailRight, PriorityQueue.Items, Effect, Answer, Unsafe;
    out, done := [], 0;
    while done < |ops|
      invariant done <= |ops| && pq.Valid() && pq.hands == old(pq.hands)
      invariant pq.Items() == Held(old(pq.Items()), ops[..done]) && out == Delivered(old(pq.Items()), ops[..done])
      invariant fresh(pq.Footprint() - old(pq.Footprint())) && fresh(pq.blocks - old(pq.blocks))
    {
      assert ops[..done + 1][..done] == ops[..done];
      var ok, r := TryOne(pq, ops[done]);
      if !ok {
        return;
      }
      out, done := out + r, done + 1;
    }
  }
}

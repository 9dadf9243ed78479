/** The priority queue: a sorted chain of nodes, a chain of free nodes, and blocks that come and go. */
module PriorityQueues {
  import opened PqNodes

  class PriorityQueue {
    var queueFirst: Node?
    var queueLast: Node?
    var freeFirst: Node?
    var freeLast: Node?
    var capacity: nat
    ghost var queue: seq<Node>
    ghost var free: seq<Node>
    ghost var hands: set<Node>
    ghost var all: set<Node>
    ghost var blocks: set<StorageBlock>
    ghost var pushes: int

    /* ---- the queue ---- */

    ghost predicate Queued()
      reads this`queueFirst, this`queueLast, this`queue, this`pushes, NodesOf(queue)`next, NodesOf(queue)`priority, NodesOf(queue)`stamp
    {
      && queueFirst == First(queue) && queueLast == Last(queue)
      && Distinct(queue) && Leads(queue, null) && Ordered(queue) && pushes >= 0
      && (forall i {:trigger queue[i]} :: 0 <= i < |queue| ==> -pushes <= queue[i].stamp <= pushes)
    }

    /** `popNode`: the answer comes before everything that stays. */
    method PopNode() returns (ret: Node?)
      requires Queued() && NodesOf(queue) !! hands
      modifies this`queueFirst, this`queueLast, this`queue, this`hands, NodesOf(queue)`next
      ensures Queued() && NodesOf(queue) !! hands
      ensures old(queue) == [] ==> ret == null && queue == [] && hands == old(hands)
      ensures old(queue) != [] ==> ret == old(queue)[0] && queue == old(queue)[1..] && hands == old(hands) + {ret} && ret !in old(hands) && ret.next == null
      ensures ret != null ==> forall i {:trigger queue[i]} :: 0 <= i < |queue| ==> Before(ret.priority, ret.stamp, queue[i].priority, queue[i].stamp)
    {
      ret := null;
      if queueFirst != null {
        ret := queueFirst;
        OrderedRest(queue);
        PopLinks(queue);
        if queueFirst == queueLast {
          queueFirst, queueLast := null, null;
        } else {
          queueFirst := ret.next;
        }
        ret.next := null;
        queue := queue[1..];
        hands := hands + {ret};
      }
    }

    /** The chain of the queue with `node` at position `k`, before the order is looked at. */
    ghost predicate Linked(q: seq<Node>, node: Node, k: nat)
      reads this`queueFirst, this`queueLast, node, NodesOf(q)
      requires k <= |q|
    {
      var r := q[..k] + [node] + q[k..];
      queueFirst == First(r) && queueLast == Last(r) && Distinct(r) && Leads(r, null)
    }

    /** In front of the queue. */
    method LinkFront(node: Node)
      requires Queued() && node !in queue && queue != []
      modifies this`queueFirst, node`next
      ensures Linked(queue, node, 0)
    {
      hide Ordered;
      node.next := queueFirst;
      queueFirst := node;
      assert queue[..0] == [] && queue[0..] == queue;
      DistinctPush([], node, queue);
      LeadsJoin([node], queue, null);
    }

    /** Behind the queue. */
    method LinkBack(node: Node)
      requires Queued() && node !in queue && queue != [] && node.next == null
      modifies this`queueLast, queueLast`next
      ensures Linked(queue, node, |queue|)
    {
      hide Ordered;
      var q := queueLast;
      q.next := node;
      queueLast := node;
      assert queue[..|queue|] == queue && queue[|queue|..] == [];
      DistinctPush(queue, node, []);
      LeadsJoin(queue, [node], null);
    }

    /** Behind node `n` inside the queue. */
    method LinkAfter(n: Node, node: Node, ghost k: nat)
      requires Queued() && node !in queue && 0 < k < |queue| && n == queue[k - 1]
      modifies n`next, node`next
      ensures Linked(queue, node, k)
    {
      hide Ordered;
      assert queue == queue[..k] + queue[k..];
      LeadsSplit(queue[..k], queue[k..], null);
      assert n == queue[..k][k - 1] && n.next == queue[k];
      DistinctParts(queue[..k], queue[k..]);
      node.next := n.next;
      n.next := node;
      DistinctPush(queue[..k], node, queue[k..]);
      LeadsJoin([node], queue[k..], null);
      assert queue[..k] + [node] + queue[k..] == queue[..k] + ([node] + queue[k..]);
      LeadsJoin(queue[..k], [node] + queue[k..], null);
    }

    /** The walk to the place behind all nodes that go first; `or` says whether equals go first. */
    method FindPlace(priority: int, equals: bool) returns (n: Node, ghost k: nat)
      requires Queued() && queue != []
      requires if equals then queue[0].priority <= priority < queue[|queue| - 1].priority else queue[0].priority < priority <= queue[|queue| - 1].priority
      ensures 0 < k < |queue| && n == queue[k - 1] && Slot(queue, priority, !equals, k)
    {
      n, k := queueFirst, 1;
      while n.next != null && (if equals then n.next.priority <= priority else n.next.priority < priority)
        invariant 0 < k <= |queue| && n == queue[k - 1]
        invariant forall i {:trigger queue[i]} :: 0 <= i < k ==> if equals then queue[i].priority <= priority else queue[i].priority < priority
        decreases |queue| - k
      {
        n := n.next;
        k := k + 1;
      }
    }

    /** The chain, the stamp and the order are all in place. */
    lemma Sorted(q: seq<Node>, node: Node, insertFirst: bool, k: nat)
      requires Ordered(q) && Slot(q, node.priority, insertFirst, k) && Linked(q, node, k) && queue == q[..k] + [node] + q[k..]
      requires pushes > 0 && node.stamp == (if insertFirst then -pushes else pushes) && forall i {:trigger q[i]} :: 0 <= i < |q| ==> -pushes < q[i].stamp < pushes
      ensures Queued()
    {
      OrderedInsert(q, node, k, insertFirst);
    }

    /** The branches of `pushNode`. */
    method Link(node: Node, insertFirst: bool) returns (ghost k: nat)
      requires Queued() && node !in queue
      modifies this`queueFirst, this`queueLast, NodesOf(queue)`next, node`next
      ensures Slot(queue, node.priority, insertFirst, k) && Linked(queue, node, k)
    {
      hide Ordered, Linked;
      OrderedEnds(queue);
      node.next := null;
      if queueFirst == null {
        queueLast := node;
        queueFirst := node;
        k := 0;
        Alone(node);
      } else if insertFirst {
        if node.priority <= queueFirst.priority {
          k := 0;
          LinkFront(node);
        } else if queueLast.priority < node.priority {
          k := |queue|;
          LinkBack(node);
        } else {
          var n;
          n, k := FindPlace(node.priority, false);
          LinkAfter(n, node, k);
        }
      } else {
        if node.priority < queueFirst.priority {
          k := 0;
          LinkFront(node);
        } else if queueLast.priority <= node.priority {
          k := |queue|;
          LinkBack(node);
        } else {
          var n;
          n, k := FindPlace(node.priority, true);
          LinkAfter(n, node, k);
        }
      }
    }

    lemma Alone(node: Node)
      requires queueFirst == node && queueLast == node && node.next == null
      ensures Linked([], node, 0)
    {
    }

    /** `pushNode` */
    method PushNode(node: Node, insertFirst: bool) returns (ghost k: nat)
      requires Queued() && node in hands && NodesOf(queue) !! hands
      modifies this`queueFirst, this`queueLast, this`queue, this`hands, this`pushes, NodesOf(queue)`next, node`next, node`stamp
      ensures Queued() && NodesOf(queue) !! hands && hands == old(hands) - {node} && pushes == old(pushes) + 1
      ensures Slot(old(queue), node.priority, insertFirst, k) && k <= |old(queue)| && queue == old(queue)[..k] + [node] + old(queue)[k..]
    {
      hide Ordered, Leads, Distinct;
      ghost var q := queue;
      k := Link(node, insertFirst);
      pushes := pushes + 1;
      node.stamp := if insertFirst then -pushes else pushes;
      queue := q[..k] + [node] + q[k..];
      hands := hands - {node};
      Sorted(q, node, insertFirst, k);
    }

    /* ---- the free chain and the blocks ---- */

    ghost predicate Freed()
      reads this`freeFirst, this`free, NodesOf(free)`next
    {
      freeFirst == First(free) && Distinct(free) && Leads(free, null)
    }

    /** Every node of the capacity is in exactly one place. */
    ghost predicate Partition()
      reads this`queue, this`free, this`hands, this`all, this`capacity
    {
      Account(NodesOf(free), hands)
    }

    /** The pointer to the last free node is right. */
    ghost predicate TailRight()
      reads this`freeLast, this`free
    {
      freeLast == Last(free)
    }

    /** It points to a node that is none of ours: its block has been given back. */
    ghost predicate Dangling()
      reads this`freeLast, this`all
    {
      freeLast != null && freeLast !in all
    }

    ghost predicate Valid()
      reads this, NodesOf(queue)`next, NodesOf(queue)`priority, NodesOf(queue)`stamp, NodesOf(free)`next, blocks`used
    {
      && NodesOf(queue) <= all && NodesOf(free) <= all
      && Queued() && Freed() && Partition() && Blocks(all, blocks, NodesOf(free)) && (TailRight() || Dangling())
    }

    /** `initNodes`: the nodes of one piece of memory are linked one behind the other. */
    static method InitNodes(nodes: seq<Node>)
      requires |nodes| > 0 && Distinct(nodes)
      modifies NodesOf(nodes)`next
      ensures Leads(nodes, null)
    {
      var i := 0;
      while i != |nodes| - 1
        invariant 0 <= i < |nodes|
        invariant forall j {:trigger nodes[j].next} :: 0 <= j < i ==> nodes[j].next == nodes[j + 1]
      {
        nodes[i].next := nodes[i + 1];
        i := i + 1;
      }
      nodes[i].next := null;
    }

    /** The memory of `n` nodes, which know their block. */
    static method NewNodes(n: nat, block: StorageBlock?) returns (nodes: seq<Node>)
      requires n > 0
      ensures |nodes| == n && fresh(nodes) && Distinct(nodes) && forall x :: x in nodes ==> x.block == block
    {
      nodes := [];
      for i := 0 to n
        invariant |nodes| == i && fresh(nodes) && Distinct(nodes) && forall x :: x in nodes ==> x.block == block
      {
        var x := new Node(block);
        nodes := nodes + [x];
      }
    }

    static method NewChain(n: nat, block: StorageBlock?) returns (nodes: seq<Node>)
      requires n > 0
      ensures |nodes| == n && fresh(nodes) && Distinct(nodes) && Leads(nodes, null) && forall x :: x in nodes ==> x.block == block
    {
      nodes := NewNodes(n, block);
      InitNodes(nodes);
    }

    constructor ()
      ensures Valid() && TailRight() && queue == [] && hands == {} && blocks == {} && capacity == 8
      ensures fresh(free) && |free| == 8 && forall x :: x in free ==> x.block == null
    {
      hide Valid, Distinct, Leads, TailRight, First, Last, NodesOf;
      queueFirst, queueLast := null, null;
      capacity := PREALLOCATED_NODES;
      new;
      var nodes := NewChain(PREALLOCATED_NODES, null);
      freeFirst := nodes[0];
      freeLast := nodes[|nodes| - 1];
      free := nodes;
      Ends(nodes);
      queue, hands, all, blocks, pushes := [], {}, NodesOf(free), {}, 0;
      Begun();
    }

    static lemma Ends(q: seq<Node>)
      requires q != []
      ensures First(q) == q[0] && Last(q) == q[|q| - 1]
    {}

    lemma Begun()
      requires queue == [] && hands == {} && all == NodesOf(free) && blocks == {} && pushes == 0 && queueFirst == null && queueLast == null
      requires Distinct(free) && Leads(free, null) && freeFirst == First(free) && freeLast == Last(free) && capacity == |free| == PREALLOCATED_NODES
      requires forall x :: x in free ==> x.block == null
      ensures Valid() && TailRight()
    {
      DistinctCount(free);
    }

    /* ---- taking a node ---- */

    /** `ret` is out of the free chain, and not yet handed out. */
    ghost predicate Taken(F: set<Node>, H: set<Node>, ret: Node)
      reads this, NodesOf(queue)`next, NodesOf(queue)`priority, NodesOf(queue)`stamp, NodesOf(free)`next, blocks`used
    {
      && NodesOf(queue) <= all && NodesOf(free) <= all
      && Queued() && Freed() && Blocks(all, blocks, F) && Account(F, H) && (TailRight() || Dangling())
      && NodesOf(free) + {ret} == F && ret !in free && hands == H
    }

    /** The free chain without its first node. */
    method TakeFirst() returns (ret: Node)
      requires Freed() && free != [] && (TailRight() || (freeLast != null && freeLast !in free))
      requires Queued() && Blocks(all, blocks, NodesOf(free)) && Account(NodesOf(free), hands) && NodesOf(free) !! NodesOf(queue)
      modifies this`freeFirst, this`freeLast, this`free, NodesOf(free)`next
      ensures Queued() && Blocks(all, blocks, old(NodesOf(free))) && Account(old(NodesOf(free)), hands)
      ensures Freed() && ret.next == null && ret == old(free)[0] && free == old(free)[1..] && ret !in free
      ensures NodesOf(free) + {ret} == old(NodesOf(free))
      ensures if old(TailRight()) then TailRight() else freeLast == old(freeLast)
    {
      hide Queued, Blocks, Account;
      assert forall y :: y in NodesOf(queue) + NodesOf(free) ==> allocated(y);
      ret := freeFirst;
      PopLinks(free);
      assert free == [free[0]] + free[1..];
      if freeFirst == freeLast {
        freeFirst, freeLast := null, null;
      } else {
        freeFirst := ret.next;
      }
      ret.next := null;
      free := free[1..];
    }

    /** Everything but the free chain stays as it was. */
    method Detach() returns (ret: Node)
      requires Valid() && free != []
      modifies this`freeFirst, this`freeLast, this`free, NodesOf(free)`next
      ensures Taken(old(NodesOf(free)), hands, ret) && ret.next == null
      ensures ret == old(free)[0] && free == old(free)[1..] && (TailRight() <==> old(TailRight()))
    {
      hide Valid, Queued, Freed, Blocks, Account, Partition, Dangling, TailRight;
      Opened();
      TailApart();
      ghost var dangling := Dangling();
      ret := TakeFirst();
      Tailed(dangling);
    }

    lemma Tailed(dangling: bool)
      requires NodesOf(free) <= all && if dangling then freeLast != null && freeLast !in all else TailRight()
      ensures if dangling then Dangling() && !TailRight() else TailRight()
    {
    }

    lemma TailApart()
      requires NodesOf(free) <= all && (TailRight() || Dangling())
      ensures if Dangling() then freeLast != null && freeLast !in free && freeLast !in all && !TailRight() else TailRight()
    {
    }

    /** `allocateBlock` */
    method AllocateBlock() returns (block: StorageBlock, nodes: seq<Node>)
      modifies this`capacity
      ensures fresh(block) && fresh(nodes) && |nodes| == STORAGE_NODES && block.used == 0
      ensures Distinct(nodes) && Leads(nodes, null) && forall x :: x in nodes ==> x.block == block
      ensures capacity == old(capacity) + STORAGE_NODES
    {
      block := new StorageBlock();
      nodes := NewChain(STORAGE_NODES, block);
      capacity := capacity + |nodes|;
    }

    /** `allocateNode`. It must not be called with an empty free chain behind a dangling end: it would write there. */
    method AllocateNode() returns (ret: Node)
      requires Valid() && (TailRight() || free != [])
      modifies this`freeFirst, this`freeLast, this`free, this`hands, this`all, this`blocks, this`capacity, NodesOf(free)`next, blocks`used
      ensures Valid() && hands == old(hands) + {ret} && ret !in old(hands) && ret.next == null && queue == old(queue) && ret !in queue
      ensures TailRight() <==> old(TailRight())
      ensures if old(free) != [] then ret == old(free)[0] && free == old(free)[1..] && capacity == old(capacity) && blocks == old(blocks)
              else fresh(ret) && |free| == STORAGE_NODES - 1 && capacity == old(capacity) + STORAGE_NODES && |blocks| == |old(blocks)| + 1
      ensures old(free) == [] ==> ret.block != null && fresh(ret.block) && ret.block.used == 1 && fresh(free) && blocks == old(blocks) + {ret.block}
      ensures old(free) == [] ==> forall x :: x in free ==> x.block == ret.block
    {
      hide Valid, TailRight;
      FreeStart();
      if freeFirst != null {
        ret := Reuse();
      } else {
        ret := Grow();
      }
    }

    lemma FreeStart()
      requires Valid()
      ensures freeFirst == null <==> free == []
    {
    }

    /** The block of a node that is no longer free. */
    method Bump(ret: Node, ghost F: set<Node>)
      requires Blocks(all, blocks, F) && ret in F && ret in all
      modifies blocks`used
      ensures Blocks(all, blocks, F - {ret}) && forall b :: b in blocks && b != ret.block ==> b.used == old(b.used)
    {
      if ret.block != null {
        ghost var b := ret.block;
        assert Counted(b, all, F);
        assert Members(all, b) - (F - {ret}) == Members(all, b) - F + {ret};
        ret.block.used := ret.block.used + 1;
      }
      forall b | b in blocks ensures Counted(b, all, F - {ret}) && b.used > 0 {
        assert old(Counted(b, all, F));
        if b != ret.block { assert Members(all, b) - (F - {ret}) == Members(all, b) - F; }
      }
    }

    /** The branch that takes a free node. */
    method Reuse() returns (ret: Node)
      requires Valid() && free != []
      modifies this`freeFirst, this`freeLast, this`free, this`hands, NodesOf(free)`next, blocks`used
      ensures Valid() && hands == old(hands) + {ret} && ret !in old(hands) && ret.next == null && ret !in queue
      ensures (TailRight() <==> old(TailRight())) && ret == old(free)[0] && free == old(free)[1..]
    {
      hide Valid, Taken, TailRight;
      ghost var F, H := NodesOf(free), hands;
      ret := Detach();
      Hand(ret, F, H);
    }

    /** The node is in the caller's hands now. */
    method Hand(ret: Node, ghost F: set<Node>, ghost H: set<Node>)
      requires Taken(F, H, ret)
      modifies this`hands, blocks`used
      ensures Valid() && hands == H + {ret} && ret !in H && ret !in queue && (TailRight() <==> old(TailRight()))
    {
      hide Valid, Queued, Freed, Blocks, Account, Partition, Dangling, TailRight;
      InAccount(ret, F, H);
      assert forall y :: y in NodesOf(queue) + NodesOf(free) ==> allocated(y);
      hands := hands + {ret};
      Bump(ret, F);
      assert NodesOf(free) == F - {ret};
      Closed(F, H, ret);
    }

    lemma InAccount(ret: Node, F: set<Node>, H: set<Node>)
      requires Account(F, H) && ret in F
      ensures ret in all
    {
    }

    /** What `Valid` says, piece by piece. */
    lemma Opened()
      requires Valid()
      ensures Queued() && Freed() && Blocks(all, blocks, NodesOf(free)) && (TailRight() || Dangling()) && NodesOf(queue) <= all && NodesOf(free) <= all
      ensures Account(NodesOf(free), hands) && NodesOf(free) !! NodesOf(queue) && hands <= all
    {
    }

    lemma Closed(F: set<Node>, H: set<Node>, ret: Node)
      requires Account(F, H) && ret in F && NodesOf(free) == F - {ret} && hands == H + {ret}
      requires Queued() && Freed() && Blocks(all, blocks, NodesOf(free)) && (TailRight() || Dangling())
      ensures Valid() && ret !in queue && ret !in H
    {
      hide Queued, Freed, Blocks, Split;
      SplitHand(all, F, NodesOf(queue), H, ret);
    }

    /** No node is free. */
    ghost predicate InUse(A: set<Node>, H: set<Node>)
      reads this`queue
    {
      Split(A, {}, NodesOf(queue), H)
    }

    lemma NoneFree()
      requires Valid() && free == []
      ensures InUse(all, hands) && Blocks(all, blocks, {}) && |all| == capacity && Queued()
    {
      assert NodesOf(free) == {};
    }

    /** A new block; all its nodes but the first become the free chain. */
    method Extend() returns (block: StorageBlock, nodes: seq<Node>)
      requires Queued() && InUse(all, hands) && Blocks(all, blocks, {})
      modifies this`freeFirst, this`freeLast, this`free, this`capacity
      ensures Queued() && InUse(all, hands) && Blocks(all, blocks, {})
      ensures fresh(block) && block !in blocks && fresh(nodes) && NodesOf(nodes) !! all
      ensures |nodes| == STORAGE_NODES && Distinct(nodes) && block.used == 1 && forall x :: x in nodes ==> x.block == block
      ensures free == nodes[1..] && Freed() && TailRight() && nodes[0].next == null && capacity == old(capacity) + STORAGE_NODES
    {
      hide Queued, InUse, Blocks;
      assert forall y :: y in NodesOf(queue) + NodesOf(free) ==> allocated(y);
      block, nodes := AllocateBlock();
      PopLinks(nodes);
      freeFirst := nodes[1];
      freeLast := nodes[|nodes| - 1];
      nodes[0].next := null;
      block.used := block.used + 1;
      free := nodes[1..];
    }

    lemma Grown(A: set<Node>, B: set<StorageBlock>, H: set<Node>, nodes: seq<Node>)
      requires |nodes| == STORAGE_NODES && Distinct(nodes) && NodesOf(nodes) !! A && InUse(A, H) && capacity == |A| + STORAGE_NODES
      requires all == A + NodesOf(nodes) && hands == H + {nodes[0]} && free == nodes[1..]
      requires Queued() && Freed() && TailRight() && Blocks(all, blocks, NodesOf(free))
      ensures Valid() && nodes[0] !in queue
    {
      hide Queued, Freed, Blocks, Split;
      DistinctCount(nodes);
      UnionCount(A, NodesOf(nodes));
      FirstApart(nodes);
      SplitGrow(A, NodesOf(queue), H, NodesOf(nodes[1..]), nodes[0]);
    }

    /** The branch that adds a block: its first node is handed out, the others become free. */
    method Grow() returns (ret: Node)
      requires Valid() && TailRight() && free == []
      modifies this`freeFirst, this`freeLast, this`free, this`hands, this`all, this`blocks, this`capacity
      ensures Valid() && hands == old(hands) + {ret} && fresh(ret) && ret.next == null && ret !in queue
      ensures TailRight() && |free| == STORAGE_NODES - 1 && capacity == old(capacity) + STORAGE_NODES && |blocks| == |old(blocks)| + 1
      ensures ret.block != null && fresh(ret.block) && ret.block.used == 1 && fresh(free) && blocks == old(blocks) + {ret.block}
      ensures forall x :: x in free ==> x.block == ret.block
    {
      hide Valid, Queued, Freed, InUse, Blocks, Distinct, TailRight, NodesOf;
      NoneFree();
      var block, nodes := Extend();
      ret := nodes[0];
      Adopt(block, nodes);
    }

    /** The new block is known, and its first node is in the caller's hands. */
    ghost method Adopt(block: StorageBlock, nodes: seq<Node>)
      requires |nodes| == STORAGE_NODES && Distinct(nodes) && NodesOf(nodes) !! all && InUse(all, hands) && capacity == |all| + STORAGE_NODES
      requires Blocks(all, blocks, {}) && block !in blocks && block.used == 1 && forall x :: x in nodes ==> x.block == block
      requires Queued() && Freed() && TailRight() && free == nodes[1..]
      modifies this`hands, this`all, this`blocks
      ensures Valid() && TailRight() && nodes[0] !in queue && hands == old(hands) + {nodes[0]} && blocks == old(blocks) + {block} && free == old(free)
    {
      hide Valid, Queued, Freed, InUse, Blocks, Distinct, TailRight, NodesOf;
      ghost var A, B, H := all, blocks, hands;
      BlocksGrow(A, B, block, nodes);
      hands, all, blocks := H + {nodes[0]}, A + NodesOf(nodes), B + {block};
      Grown(A, B, H, nodes);
    }

    /* ---- giving a node back ---- */

    /** The walk over the free chain: `kept` leads to `m`, where `*target` points, and `rest` starts at `n`. */
    ghost predicate Walk(kept: seq<Node>, rest: seq<Node>, target: Node?, m: Node?, n: Node?)
      reads this`freeFirst, NodesOf(kept)`next, NodesOf(rest)`next
    {
      && Distinct(kept + rest) && Leads(rest, null) && n == First(rest)
      && Leads(kept, m) && target == Last(kept) && freeFirst == if kept == [] then m else kept[0]
    }

    /** Over a node that stays. */
    lemma WalkOn(kept: seq<Node>, rest: seq<Node>, target: Node?, n: Node, dying: StorageBlock)
      requires Walk(kept, rest, target, n, n) && n.block != dying
      ensures rest != [] && rest[0] == n && Walk(kept + [n], rest[1..], n, n.next, n.next)
      ensures kept + Without(rest, dying) == kept + [n] + Without(rest[1..], dying)
    {
      PopLinks2(kept, rest);
    }

    /** Over a node that goes. */
    lemma WalkOver(kept: seq<Node>, rest: seq<Node>, target: Node?, m: Node?, n: Node, dying: StorageBlock)
      requires Walk(kept, rest, target, m, n) && n.block == dying
      ensures rest != [] && rest[0] == n && Walk(kept, rest[1..], target, m, n.next) && Without(rest, dying) == Without(rest[1..], dying)
    {
      DistinctParts(kept, rest);
      PopLinks(rest);
      DistinctDrop(kept, rest);
    }

    /** `*target = n` */
    method Redirect(target: Node?, n: Node?, ghost kept: seq<Node>, ghost rest: seq<Node>, ghost m: Node?)
      requires Walk(kept, rest, target, m, n)
      modifies this`freeFirst, NodesOf(kept)`next
      ensures Walk(kept, rest, target, n, n)
    {
      DistinctParts(kept, rest);
      if target == null { freeFirst := n; } else { target.next := n; }
    }

    /** The loops of `freeNode` that take all nodes of a block out of the free chain. */
    method RemoveBlock(dying: StorageBlock)
      requires Freed()
      modifies this`freeFirst, this`free, NodesOf(free)`next
      ensures Freed() && free == Without(old(free), dying)
    {
      hide Walk, Leads, Without;
      var target: Node?, n := null, freeFirst;
      ghost var kept: seq<Node>, rest: seq<Node> := [], free;
      WalkStart(dying);
      while n != null && n.block == null
        invariant Walk(kept, rest, target, n, n) && kept + Without(rest, dying) == Without(free, dying)
        invariant free == old(free) && NodesOf(kept) <= NodesOf(free) && NodesOf(rest) <= NodesOf(free)
        decreases |rest|
      {
        WalkOn(kept, rest, target, n, dying);
        target := n;
        n := n.next;
        kept, rest := kept + [target], rest[1..];
      }
      kept := RemoveRest(dying, target, n, kept, rest);
      free := kept;
    }

    /** The second walk, behind the preallocated nodes. */
    method RemoveRest(dying: StorageBlock, target0: Node?, n0: Node?, ghost kept0: seq<Node>, ghost rest0: seq<Node>) returns (ghost kept: seq<Node>)
      requires Walk(kept0, rest0, target0, n0, n0)
      modifies this`freeFirst, NodesOf(kept0)`next, NodesOf(rest0)`next
      ensures kept == kept0 + Without(rest0, dying) && Distinct(kept) && Leads(kept, null) && freeFirst == First(kept)
    {
      hide Walk, Leads, Without;
      var target, n := target0, n0;
      ghost var rest, m := rest0, n0;
      kept := kept0;
      while true
        invariant Walk(kept, rest, target, m, n) && kept + Without(rest, dying) == kept0 + Without(rest0, dying)
        invariant NodesOf(kept) + NodesOf(rest) <= NodesOf(kept0) + NodesOf(rest0)
        decreases |rest|
      {
        ghost var before := |rest|;
        while n != null && n.block == dying
          invariant Walk(kept, rest, target, m, n) && kept + Without(rest, dying) == kept0 + Without(rest0, dying)
          invariant NodesOf(kept) + NodesOf(rest) <= NodesOf(kept0) + NodesOf(rest0) && |rest| <= before
          decreases |rest|
        {
          WalkOver(kept, rest, target, m, n, dying);
          n := n.next;
          rest := rest[1..];
        }
        Redirect(target, n, kept, rest, m);
        m := n;
        if n == null { break; }
        WalkOn(kept, rest, target, n, dying);
        target := n;
        n := n.next;
        kept, rest, m := kept + [target], rest[1..], n;
      }
      WalkEnd(kept, rest, target, dying);
    }

    lemma WalkStart(dying: StorageBlock)
      requires Freed()
      ensures Walk([], free, null, freeFirst, freeFirst) && [] + Without(free, dying) == Without(free, dying)
    {
      assert [] + free == free;
    }

    lemma WalkEnd(kept: seq<Node>, rest: seq<Node>, target: Node?, dying: StorageBlock)
      requires Walk(kept, rest, target, null, null)
      ensures kept + Without(rest, dying) == kept && Distinct(kept) && Leads(kept, null) && freeFirst == First(kept)
    {
      assert kept + rest == kept;
    }

    /** A preallocated node goes to the front. */
    method PutFront(node: Node)
      requires Freed() && node !in free && Queued() && node !in queue && (freeLast == null ==> free == [])
      modifies this`freeFirst, this`freeLast, this`free, node`next
      ensures Freed() && Queued() && free == [node] + old(free) && freeLast == if old(freeLast) == null then node else old(freeLast)
    {
      hide Queued;
      assert forall y :: y in NodesOf(queue) + NodesOf(free) ==> allocated(y);
      node.next := freeFirst;
      freeFirst := node;
      if freeLast == null { freeLast := freeFirst; }
      free := [node] + free;
    }

    /** All nodes are accounted for, `F` being free and `H` in hand. */
    ghost predicate Account(F: set<Node>, H: set<Node>)
      reads this`all, this`queue, this`capacity
    {
      Split(all, F, NodesOf(queue), H) && capacity == |all|
    }

    /** A node of a block goes to the end. */
    method PutBack(node: Node, ghost F: set<Node>, ghost H: set<Node>)
      requires Freed() && TailRight() && node !in free && Queued() && node !in queue && NodesOf(free) !! NodesOf(queue)
      requires Blocks(all, blocks, NodesOf(free)) && Account(F, H)
      modifies this`freeFirst, this`freeLast, this`free, node`next, NodesOf(free)`next
      ensures Freed() && Queued() && TailRight() && free == old(free) + [node]
      ensures Blocks(all, blocks, old(NodesOf(free))) && Account(F, H) && freeLast == node && NodesOf(free) == old(NodesOf(free)) + {node}
    {
      hide Queued, Blocks, Account;
      assert forall y :: y in NodesOf(queue) + NodesOf(free) ==> allocated(y);
      node.next := null;
      if freeLast != null {
        freeLast.next := node;
        freeLast := node;
      } else {
        freeLast := node;
        freeFirst := node;
      }
      free := free + [node];
    }

    /** One node less of its block is in use. */
    method Drop(node: Node, ghost F: set<Node>, ghost F1: set<Node>, ghost H: set<Node>)
      requires Blocks(all, blocks, F) && node !in F && node in all && node.block != null
      requires Queued() && Freed() && TailRight() && Account(F1, H)
      modifies node.block`used
      ensures Queued() && Freed() && TailRight() && Account(F1, H)
      ensures node.block in blocks && node.block.used == old(node.block.used) - 1 && Tallied(all, blocks, F + {node}, node.block)
    {
      hide Queued, Freed, TailRight, Account;
      assert forall y :: y in NodesOf(queue) + NodesOf(free) ==> allocated(y);
      ghost var b := node.block;
      assert Counted(b, all, F);
      assert Members(all, b) - F == Members(all, b) - (F + {node}) + {node};
      node.block.used := node.block.used - 1;
      forall c | c in blocks ensures Counted(c, all, F + {node}) && (c != b ==> c.used > 0) {
        assert old(Counted(c, all, F));
        if c != b { assert Members(all, c) - (F + {node}) == Members(all, c) - F; }
      }
    }

    /** The node is in neither chain, and known. */
    lemma InHand(node: Node)
      requires Valid() && node in hands
      ensures node !in free && node !in queue && node in all && NodesOf(free) !! NodesOf(queue) && (freeLast == null ==> free == [])
      ensures Queued() && Freed() && Blocks(all, blocks, NodesOf(free)) && Account(NodesOf(free), hands) && (TailRight() || Dangling())
    {
      hide Queued, Freed, Blocks;
    }

    /** The node is free now, and nothing else has changed. */
    lemma Returned(F: set<Node>, H: set<Node>, node: Node)
      requires Account(F, H) && node in H && NodesOf(free) == F + {node} && hands == H - {node}
      requires Queued() && Freed() && Blocks(all, blocks, NodesOf(free)) && (TailRight() || Dangling())
      ensures Valid()
    {
      hide Queued, Freed, Blocks, Split;
      SplitReturn(all, F, NodesOf(queue), H, node);
    }

    /** The branch for a preallocated node. */
    method FreePlain(node: Node)
      requires Valid() && node in hands && node.block == null
      modifies this`freeFirst, this`freeLast, this`free, this`hands, node`next
      ensures Valid() && hands == old(hands) - {node} && free == [node] + old(free) && (TailRight() <==> old(TailRight()))
    {
      hide Valid, Queued, Freed, Blocks, Account;
      InHand(node);
      ghost var F, H, dangling := NodesOf(free), hands, Dangling();
      PutFront(node);
      hands := hands - {node};
      assert NodesOf(free) == F + {node};
      BlocksPlain(all, blocks, F, node);
      Returned(F, H, node);
    }

    /** `node` is back at the end of the free chain, and block `b` counts one node less in use. */
    ghost predicate Behind(node: Node, b: StorageBlock)
      reads this, NodesOf(queue)`next, NodesOf(queue)`priority, NodesOf(queue)`stamp, NodesOf(free)`next, blocks`used
    {
      && Queued() && Freed() && TailRight() && Tallied(all, blocks, NodesOf(free), b) && Account(NodesOf(free), hands)
      && node.block == b && b in blocks && node in all && freeLast == node
    }

    method Append(node: Node) returns (b: StorageBlock)
      requires Valid() && node in hands && node.block != null && TailRight()
      modifies this`freeFirst, this`freeLast, this`free, this`hands, node`next, NodesOf(free)`next, node.block`used
      ensures b == node.block && Behind(node, b)
      ensures free == old(free) + [node] && b.used == old(node.block.used) - 1 && hands == old(hands) - {node}
    {
      hide Valid, Queued, Freed, Blocks, Tallied, Account, TailRight, Behind;
      InHand(node);
      ghost var F := NodesOf(free);
      b := node.block;
      AccountReturn(node);
      hands := hands - {node};
      PutBack(node, F + {node}, hands);
      Drop(node, F, F + {node}, hands);
      BehindIs(F, node, b);
    }

    lemma AccountReturn(node: Node)
      requires Account(NodesOf(free), hands) && node in hands
      ensures Account(NodesOf(free) + {node}, hands - {node})
    {
      SplitReturn(all, NodesOf(free), NodesOf(queue), hands, node);
    }

    lemma BehindIs(F: set<Node>, node: Node, b: StorageBlock)
      requires Queued() && Freed() && TailRight() && Tallied(all, blocks, F + {node}, b) && Account(F + {node}, hands)
      requires NodesOf(free) == F + {node} && node.block == b && b in blocks && node in all && freeLast == node
      ensures Behind(node, b)
    {
      hide Queued, Freed, TailRight, Tallied, Account;
    }

    /** `deallocateBlock`: the block leaves with its nodes. */
    method DeallocateBlock(b: StorageBlock, ghost M: set<Node>)
      requires Queued() && Freed() && Blocks(all - M, blocks - {b}, NodesOf(free)) && Lighter(M) && freeLast != null && freeLast in M
      modifies this`capacity, this`all, this`blocks
      ensures Valid() && Dangling() && !TailRight()
      ensures capacity == old(capacity) - STORAGE_NODES && blocks == old(blocks) - {b}
    {
      hide Queued, Freed, Blocks, Split;
      capacity := capacity - STORAGE_NODES;
      all, blocks := all - M, blocks - {b};
    }

    /** Without `M` everything would be accounted for. */
    ghost predicate Lighter(M: set<Node>)
      reads this`all, this`free, this`queue, this`hands, this`capacity
    {
      && Split(all - M, NodesOf(free), NodesOf(queue), hands) && NodesOf(queue) <= all - M && NodesOf(free) <= all - M
      && capacity >= STORAGE_NODES && capacity - STORAGE_NODES == |all - M|
    }

    /** The last node of a block came back: all its nodes leave the free chain and the block is given back. */
    method Reclaim(node: Node, b: StorageBlock)
      requires Behind(node, b) && b.used == 0
      modifies this`freeFirst, this`free, this`all, this`blocks, this`capacity, NodesOf(free)`next
      ensures Valid() && free == Without(old(free), b) && capacity == old(capacity) - STORAGE_NODES && blocks == old(blocks) - {b}
      ensures Dangling() && !TailRight()
    {
      hide Valid, Queued, Freed, Blocks, Split, Without, Dangling, TailRight, Behind, Lighter, Members;
      ghost var M, F := Members(all, b), NodesOf(free);
      Dying(node, b);
      RemoveCarry(b, M, all - M, blocks - {b}, F - M);
      DeallocateBlock(b, M);
    }

    /** What leaves, and what is left. */
    lemma Dying(node: Node, b: StorageBlock)
      requires Behind(node, b) && b.used == 0
      ensures var M := Members(all, b);
        && Queued() && Freed() && Blocks(all - M, blocks - {b}, NodesOf(free) - M) && NodesOf(free) !! NodesOf(queue)
        && freeLast == node && node in M && NodesOf(Without(free, b)) == NodesOf(free) - M
        && Split(all - M, NodesOf(free) - M, NodesOf(queue), hands) && NodesOf(queue) <= all - M && NodesOf(free) - M <= all - M
        && capacity >= STORAGE_NODES && capacity - STORAGE_NODES == |all - M|
    {
      hide Queued, Blocks, Tallied, Split, Members, Leads, NodesOf, Without;
      BlocksShrink(all, blocks, NodesOf(free), b);
      SplitShrink(all, NodesOf(free), NodesOf(queue), hands, Members(all, b));
      SplitParts(all, NodesOf(free), NodesOf(queue), hands);
      GoneNodes(all, free, b);
      MemberOf(all, node, b);
      SizeApart(all, Members(all, b));
    }

    method RemoveCarry(b: StorageBlock, ghost M: set<Node>, ghost A: set<Node>, ghost B: set<StorageBlock>, ghost F: set<Node>)
      requires Freed() && Queued() && Blocks(A, B, F) && NodesOf(free) !! NodesOf(queue) && NodesOf(Without(free, b)) == F
      requires A == all - M && Split(A, F, NodesOf(queue), hands) && NodesOf(queue) <= A && F <= A && capacity >= STORAGE_NODES && capacity - STORAGE_NODES == |A|
      modifies this`freeFirst, this`free, NodesOf(free)`next
      ensures Freed() && Queued() && Blocks(A, B, NodesOf(free)) && free == Without(old(free), b) && Lighter(M)
    {
      hide Freed, Queued, Blocks, Without, Split;
      assert forall y :: y in NodesOf(queue) + NodesOf(free) ==> allocated(y);
      RemoveBlock(b);
    }

    /**
     * `freeNode`. A node of a block must not come back while the end of the chain dangles.
     * The end of the chain is wrong afterwards exactly if it was before or a block has been given back.
     */
    method FreeNode(node: Node)
      requires Valid() && node in hands && (node.block == null || TailRight())
      modifies this`freeFirst, this`freeLast, this`free, this`hands, this`all, this`blocks, this`capacity, node`next, NodesOf(free)`next, blocks`used
      ensures Valid() && hands == old(hands) - {node}
      ensures TailRight() <==> old(TailRight() && !(node.block != null && node.block.used == 1))
      ensures old(node.block != null && node.block.used == 1) ==>
                free == Without(old(free) + [node], node.block) && blocks == old(blocks) - {node.block} && capacity == old(capacity) - STORAGE_NODES && Dangling()
      ensures old(node.block == null || node.block.used != 1) ==>
                free == (if node.block == null then [node] + old(free) else old(free) + [node]) && blocks == old(blocks) && capacity == old(capacity)
    {
      hide Valid, TailRight, Dangling, Behind, Without;
      if node.block != null {
        BlockOf(node);
        var b := Append(node);
        if node.block.used == 0 {
          Reclaim(node, b);
        } else {
          StillUsed(node, b);
        }
      } else {
        FreePlain(node);
      }
    }

    lemma BlockOf(node: Node)
      requires Valid() && node in hands && node.block != null
      ensures node.block in blocks
    {
    }

    lemma StillUsed(node: Node, b: StorageBlock)
      requires Behind(node, b) && b.used > 0
      ensures Valid() && TailRight()
    {
      hide Queued, Freed;
      TalliedUsed(all, blocks, NodesOf(free), b);
    }

    /* ---- the public operations ---- */

    /** What the queue holds, as a caller sees it. */
    ghost function Items(): (r: seq<Item>)
      reads this`queue, NodesOf(queue)`priority, NodesOf(queue)`value
      ensures |r| == |queue| && forall i {:trigger queue[i]} :: 0 <= i < |r| ==> r[i] == Item(queue[i].priority, queue[i].value)
    {
      ItemsOf(queue)
    }

    /** The queue is apart from everything else. */
    lemma Separate(node: Node)
      requires Valid() && node in hands
      ensures NodesOf(queue) !! hands && NodesOf(free) !! NodesOf(queue) && node !in free && Freed() && Queued() && Blocks(all, blocks, NodesOf(free))
      ensures Split(all, NodesOf(free), NodesOf(queue), hands) && capacity == |all|
    {
      hide Queued, Freed, Blocks;
    }

    method PushCarry(node: Node, insertFirst: bool) returns (ghost k: nat)
      requires Queued() && node in hands && NodesOf(queue) !! hands && Freed() && node !in free && NodesOf(free) !! NodesOf(queue) && Blocks(all, blocks, NodesOf(free))
      modifies this`queueFirst, this`queueLast, this`queue, this`hands, this`pushes, NodesOf(queue)`next, node`next, node`stamp
      ensures Queued() && Freed() && Blocks(all, blocks, NodesOf(free)) && hands == old(hands) - {node}
      ensures Slot(old(queue), node.priority, insertFirst, k) && queue == old(queue)[..k] + [node] + old(queue)[k..]
      ensures NodesOf(queue) == old(NodesOf(queue)) + {node}
    {
      hide Queued, Freed, Blocks, Slot;
      assert forall y :: y in NodesOf(queue) + NodesOf(free) ==> allocated(y);
      k := PushNode(node, insertFirst);
      NodesInserted(old(queue), node, k);
    }

    lemma Moved(F: set<Node>, H: set<Node>, Q: set<Node>, node: Node)
      requires Split(all, F, Q, H) && node in H && F == NodesOf(free) && NodesOf(queue) == Q + {node} && hands == H - {node} && capacity == |all|
      requires Queued() && Freed() && Blocks(all, blocks, NodesOf(free)) && (TailRight() || Dangling())
      ensures Valid()
    {
      hide Queued, Freed, Blocks, Split;
      SplitMove(all, F, Q, H, node);
    }

    /** The nodes of both chains. */
    ghost function Footprint(): set<Node>
      reads this`queue, this`free
    {
      NodesOf(queue) + NodesOf(free)
    }

    /** `pushNode` among all nodes. */
    method Enqueue(node: Node, insertFirst: bool) returns (ghost k: nat)
      requires Valid() && node in hands
      modifies this`queueFirst, this`queueLast, this`queue, this`hands, this`pushes, NodesOf(queue)`next, node`next, node`stamp
      ensures Valid() && hands == old(hands) - {node} && (TailRight() <==> old(TailRight()))
      ensures Slot(old(queue), node.priority, insertFirst, k) && queue == old(queue)[..k] + [node] + old(queue)[k..]
      ensures Footprint() == old(Footprint()) + {node}
    {
      hide Valid, Queued, Freed, Blocks, TailRight, Dangling, Slot, Account;
      InHand(node);
      ghost var F, H, Q := NodesOf(free), hands, NodesOf(queue);
      Separate(node);
      k := PushCarry(node, insertFirst);
      Moved(F, H, Q, node);
    }

    /** `popNode` among all nodes. */
    method Dequeue() returns (ret: Node?)
      requires Valid()
      modifies this`queueFirst, this`queueLast, this`queue, this`hands, NodesOf(queue)`next
      ensures Valid() && (TailRight() <==> old(TailRight()))
      ensures old(queue) == [] ==> ret == null && queue == [] && hands == old(hands)
      ensures old(queue) != [] ==> ret == old(queue)[0] && queue == old(queue)[1..] && hands == old(hands) + {ret} && ret !in old(hands)
    {
      hide Valid, Queued, Freed, Blocks, TailRight, Dangling, Account;
      Opened();
      ghost var F, H, Q, q := NodesOf(free), hands, NodesOf(queue), queue;
      Whole();
      ret := PopCarry();
      if ret != null {
        MovedBack(F, H, q);
      } else {
        Restored();
      }
    }

    lemma Whole()
      requires Valid()
      ensures NodesOf(queue) !! hands && NodesOf(free) !! NodesOf(queue) && Split(all, NodesOf(free), NodesOf(queue), hands) && capacity == |all| && Distinct(queue)
    {
      hide Freed, Blocks;
    }

    method PopCarry() returns (ret: Node?)
      requires Queued() && NodesOf(queue) !! hands && Freed() && NodesOf(free) !! NodesOf(queue) && Blocks(all, blocks, NodesOf(free))
      modifies this`queueFirst, this`queueLast, this`queue, this`hands, NodesOf(queue)`next
      ensures Queued() && Freed() && Blocks(all, blocks, NodesOf(free))
      ensures old(queue) == [] ==> ret == null && queue == [] && hands == old(hands)
      ensures old(queue) != [] ==> ret == old(queue)[0] && queue == old(queue)[1..] && hands == old(hands) + {ret} && ret !in old(hands)
    {
      hide Queued, Freed, Blocks;
      assert forall y :: y in NodesOf(queue) + NodesOf(free) ==> allocated(y);
      ret := PopNode();
    }

    lemma MovedBack(F: set<Node>, H: set<Node>, q: seq<Node>)
      requires q != [] && Distinct(q) && Split(all, F, NodesOf(q), H) && F == NodesOf(free) && queue == q[1..] && hands == H + {q[0]} && capacity == |all|
      requires Queued() && Freed() && Blocks(all, blocks, NodesOf(free)) && (TailRight() || Dangling())
      ensures Valid()
    {
      hide Queued, Freed, Blocks, Split;
      FirstApart(q);
      SplitBack(all, F, NodesOf(q), H, NodesOf(q[1..]), q[0]);
    }

    lemma Restored()
      requires Split(all, NodesOf(free), NodesOf(queue), hands) && capacity == |all|
      requires Queued() && Freed() && Blocks(all, blocks, NodesOf(free)) && (TailRight() || Dangling())
      ensures Valid()
    {
      hide Queued, Freed, Blocks;
    }

    /**
     * `push`: the queue is what the stable list becomes. The node is the first free one, or the first of a new block whose
     * others become free.
     */
    method Push(p: int, insertFirst: bool, value: Value) returns (ghost x: Node, ghost k: nat)
      requires Valid() && (TailRight() || free != [])
      modifies this, NodesOf(free), NodesOf(queue)`next, blocks`used
      ensures Valid() && hands == old(hands) && (TailRight() <==> old(TailRight()))
      ensures Items() == Insert(old(Items()), Item(p, value), insertFirst)
      ensures Slot(old(queue), p, insertFirst, k) && k <= |old(queue)| && queue == old(queue)[..k] + [x] + old(queue)[k..]
      ensures old(free) != [] ==> x == old(free)[0] && free == old(free)[1..] && blocks == old(blocks)
      ensures old(free) == [] ==> x.block != null && fresh(x.block) && blocks == old(blocks) + {x.block}
      ensures old(free) == [] ==> |free| == 63 && forall y :: y in free ==> y.block == x.block
      ensures fresh(Footprint() - old(Footprint())) && fresh(blocks - old(blocks))
    {
      hide Valid, TailRight, Slot, Footprint, Items, ItemsOf, Insert;
      var node := Fill(p, value);
      k := EnqueueItem(node, insertFirst);
      x := node;
    }

    /** `pushNode`, seen from the list of items. */
    method EnqueueItem(node: Node, insertFirst: bool) returns (ghost k: nat)
      requires Valid() && node in hands
      modifies this`queueFirst, this`queueLast, this`queue, this`hands, this`pushes, NodesOf(queue)`next, node`next, node`stamp
      ensures Valid() && hands == old(hands) - {node} && (TailRight() <==> old(TailRight()))
      ensures Slot(old(queue), node.priority, insertFirst, k) && k <= |old(queue)| && queue == old(queue)[..k] + [node] + old(queue)[k..]
      ensures Items() == Insert(old(Items()), Item(node.priority, node.value), insertFirst)
      ensures Footprint() == old(Footprint()) + {node}
    {
      hide Valid, TailRight, Footprint;
      ghost var q := queue;
      k := Enqueue(node, insertFirst);
      Inserted(q, node, insertFirst, k);
    }

    /** A node of its own for a value. */
    method Fill(p: int, value: Value) returns (node: Node)
      requires Valid() && (TailRight() || free != [])
      modifies this`freeFirst, this`freeLast, this`free, this`hands, this`all, this`blocks, this`capacity, NodesOf(free), blocks`used
      ensures Valid() && hands == old(hands) + {node} && node !in old(hands) && (TailRight() <==> old(TailRight()))
      ensures queue == old(queue) && Items() == old(Items()) && node.priority == p && node.value == value
      ensures fresh(node) || node in old(NodesOf(free))
      ensures old(free) != [] ==> node == old(free)[0] && free == old(free)[1..] && blocks == old(blocks)
      ensures old(free) == [] ==> node.block != null && fresh(node.block) && blocks == old(blocks) + {node.block}
      ensures old(free) == [] ==> |free| == STORAGE_NODES - 1 && forall x :: x in free ==> x.block == node.block
      ensures fresh(Footprint() + {node} - old(Footprint())) && fresh(blocks - old(blocks))
    {
      hide Valid, TailRight, Items, ItemsOf;
      Apart();
      assert forall y :: y in NodesOf(queue) ==> allocated(y);
      node := AllocateNode();
      node.priority := p;
      node.value := value;
    }

    lemma Apart()
      requires Valid()
      ensures NodesOf(free) !! NodesOf(queue)
    {
      hide Queued, Freed, Blocks;
    }

    /** The node has left the queue, and it and the others can be freed. */
    ghost predicate Draining(node: Node)
      reads this`queue, this`hands, this`freeLast, this`free
    {
      Drains([node] + queue, hands - {node}, TailRight())
    }

    /** The first item leaves with its node. */
    method TakeItem() returns (node: Node?)
      requires Valid()
      modifies this`queueFirst, this`queueLast, this`queue, this`hands, NodesOf(queue)`next
      ensures Valid() && (TailRight() <==> old(TailRight()))
      ensures old(Items()) == [] ==> node == null && Items() == [] && hands == old(hands)
      ensures old(Items()) != [] ==> node != null && node !in old(hands) && hands == old(hands) + {node} && node == old(queue)[0] && queue == old(queue)[1..]
      ensures old(Items()) != [] ==> Item(node.priority, node.value) == old(Items())[0] && Items() == old(Items())[1..]
      ensures old(Items()) != [] ==> (Draining(node) <==> old(Drains(queue, hands, TailRight())))
      ensures Footprint() <= old(Footprint()) && (node != null ==> node in old(Footprint()))
    {
      hide Valid, TailRight, ItemsOf, Drains;
      ghost var q, H := queue, hands;
      node := Dequeue();
      if node != null {
        ItemsRest(q);
        assert q == [node] + queue && hands - {node} == H;
      }
    }

    /**
     * `pop_prefix` frees the node before the callback, `pop_direct` after it; the answer is what the callback gets.
     * A node of a block must not be freed while the end of the free chain dangles.
     */
    method Pop(direct: bool) returns (r: seq<Item>)
      requires Valid() && (TailRight() || queue == [] || queue[0].block == null)
      modifies this, NodesOf(queue)`next, NodesOf(free)`next, blocks`used
      ensures Valid() && hands == old(hands)
      ensures old(Items()) == [] ==> r == [] && Items() == []
      ensures old(Items()) != [] ==> r == old(Items())[..1] && Items() == old(Items())[1..]
      ensures Drains(queue, hands, TailRight()) <==> old(Drains(queue, hands, TailRight()))
      ensures old(queue) == [] ==> queue == [] && free == old(free) && blocks == old(blocks) && (TailRight() <==> old(TailRight()))
      ensures old(queue) != [] ==> queue == old(queue)[1..] && Released(old(queue)[0], old(free), old(blocks), old(TailRight()))
      ensures Footprint() <= old(Footprint()) && blocks <= old(blocks)
    {
      hide Valid, TailRight, ItemsOf, Items, Dangling, Without, Drains, Draining, Released;
      r := [];
      var node := TakeItem();
      if node != null {
        var p, tmp := node.priority, node.value;
        if direct {
          r := [Item(p, tmp)];
          Dispose(node);
        } else {
          Dispose(node);
          r := [Item(p, tmp)];
        }
      }
    }

    /**
     * What has become of the free chain: a preallocated node is its first, a node of a block its last; if no other node
     * of the block is in use, all its nodes have left the chain and its end dangles.
     */
    ghost predicate Released(node: Node, free0: seq<Node>, blocks0: set<StorageBlock>, right0: bool)
      reads this`queue, this`hands, this`free, this`freeLast, this`blocks, this`all
    {
      if node.block == null then free == [node] + free0 && blocks == blocks0 && TailRight() == right0
      else if InUseBy(queue, hands, node.block) then free == free0 + [node] && blocks == blocks0 && TailRight()
      else free == Without(free0 + [node], node.block) && blocks == blocks0 - {node.block} && Dangling()
    }

    method Dispose(node: Node)
      requires Valid() && node in hands && (node.block == null || TailRight())
      modifies this`freeFirst, this`freeLast, this`free, this`hands, this`all, this`blocks, this`capacity, node`next, NodesOf(free)`next, blocks`used
      ensures Valid() && hands == old(hands) - {node} && Items() == old(Items())
      ensures Drains(queue, hands, TailRight()) <==> old(Draining(node))
      ensures Released(node, old(free), old(blocks), old(TailRight()))
      ensures Footprint() <= old(Footprint()) + {node} && blocks <= old(blocks)
    {
      hide Valid, TailRight, ItemsOf, Dangling, Without, Drains, InUseBy;
      assert forall y :: y in NodesOf(queue) ==> allocated(y);
      assert ([node] + queue)[1..] == queue;
      DrainsStep([node] + queue, hands - {node}, TailRight());
      Reclaimed(free + [node], node.block);
      if node.block != null {
        BlockOf(node);
        LastOne(node);
      }
      FreeNode(node);
    }

    /** What the next node asks for. */
    lemma NextDrains(node: Node)
      requires Draining(node)
      ensures node.block == null || TailRight()
    {
      hide TailRight, Drains;
      DrainsStep([node] + queue, hands - {node}, TailRight());
    }

    /** One node goes back, and the next one comes. */
    method FreeAndTake(node: Node, ghost all0: set<Node>) returns (next: Node?)
      requires Valid() && node in hands && (node.block == null || TailRight()) && Footprint() + {node} <= all0
      modifies this, NodesOf(queue)`next, node`next, NodesOf(free)`next, blocks`used
      ensures Valid() && blocks <= old(blocks) && Footprint() <= all0
      ensures if next == null then queue == [] && hands == old(hands) - {node}
              else next in all0 && next !in old(hands) - {node} && hands == old(hands) - {node} + {next} && |queue| < |old(queue)|
      ensures old(Draining(node)) <==> next == null || Draining(next)
    {
      hide Valid, TailRight, Drains, Draining, Items, ItemsOf;
      Dispose(node);
      NoneDrains(queue, hands, TailRight());
      next := TakeItem();
    }

    /** `clear`: it must not bring a node of a block back behind a dangling end. */
    method Clear()
      requires Valid() && Drains(queue, hands, TailRight())
      modifies this, NodesOf(queue)`next, NodesOf(free)`next, blocks`used
      ensures Valid() && queue == [] && hands == old(hands)
    {
      hide Valid, TailRight, Drains, Draining, Items, ItemsOf;
      ghost var all0, B := Footprint(), blocks;
      var node := TakeItem();
      while node != null
        invariant Valid() && blocks <= B && Footprint() <= all0
        invariant if node == null then queue == [] && hands == old(hands)
                  else node in all0 && hands == old(hands) + {node} && node !in old(hands) && Draining(node)
        decreases |queue|, node != null
      {
        NextDrains(node);
        node := FreeAndTake(node, all0);
      }
    }

    /** Whether the end of the free chain is right. */
    method LastIsRight() returns (right: bool)
      requires Valid()
      ensures right <==> TailRight()
    {
      hide Queued, Blocks, Account;
      var last: Node?, n := null, freeFirst;
      ghost var i := 0;
      while n != null
        invariant 0 <= i <= |free| && n == (if i < |free| then free[i] else null) && last == if i == 0 then null else free[i - 1]
        decreases |free| - i
      {
        assert free[i].next == if i < |free| - 1 then free[i + 1] else null;
        last := n;
        n := n.next;
        i := i + 1;
      }
      right := freeLast == last;
    }

    /**
     * The loop of `clear`, which stops in front of the first `freeNode` that would write behind a dangling end: there is
     * one exactly if the queue does not drain.
     */
    method ClearOrStop() returns (stuck: Node?)
      requires Valid()
      modifies this, NodesOf(queue)`next, NodesOf(free)`next, blocks`used
      ensures Valid() && (stuck == null <==> old(Drains(queue, hands, TailRight())))
      ensures stuck == null ==> queue == [] && hands == old(hands)
      ensures stuck != null ==> stuck.block != null && stuck in hands && Dangling()
    {
      hide Valid, TailRight, Drains, Draining, Items, ItemsOf, Dangling;
      ghost var all0, B := Footprint(), blocks;
      NoneDrains(queue, hands, TailRight());
      stuck := TakeItem();
      while stuck != null
        invariant Valid() && blocks <= B && Footprint() <= all0
        invariant if stuck == null then queue == [] && hands == old(hands) && old(Drains(queue, hands, TailRight()))
                  else stuck in all0 && hands == old(hands) + {stuck} && stuck !in old(hands) && (Draining(stuck) <==> old(Drains(queue, hands, TailRight())))
        decreases |queue|, stuck != null
      {
        var right := LastIsRight();
        if stuck.block != null && !right {
          Stuck(stuck);
          return;
        }
        stuck := FreeAndTake(stuck, all0);
      }
    }

    lemma Stuck(node: Node)
      requires Valid() && node.block != null && !TailRight()
      ensures Dangling() && !Draining(node)
    {
      if Draining(node) {
        NextDrains(node);
      }
    }

    lemma NoneDrains(q: seq<Node>, H: set<Node>, right: bool)
      ensures q == [] ==> Drains(q, H, right)
    {}

    lemma Reclaimed(q: seq<Node>, b: StorageBlock?)
      ensures NodesOf(Without(q, b)) <= NodesOf(q)
    {
      WithoutFew(q, b);
    }

    /** A block dies with this node exactly if no other node of it is in use. */
    lemma LastOne(node: Node)
      requires Valid() && node in hands && node.block != null
      ensures node.block.used == 1 <==> !InUseBy(queue, hands - {node}, node.block)
    {
      hide Queued, Freed;
      var b := node.block;
      var used := Members(all, b) - NodesOf(free);
      assert b in blocks && Counted(b, all, NodesOf(free)) by { BlockOf(node); }
      assert node in used;
      assert forall x :: x in used <==> x in NodesOf(queue) + hands && x.block == b;
      assert forall x :: x in used ==> x == node || x in NodesOf(queue) + (hands - {node});
      if |used| == 1 {
        OnlyOne(used, node);
      }
      if !InUseBy(queue, hands - {node}, b) {
        assert used == {node};
      }
    }

    /** With one block at most, `clear` always works. */
    lemma OneBlockDrains()
      requires Valid() && (TailRight() || blocks == {}) && |blocks| <= 1
      ensures Drains(queue, hands, TailRight())
    {
      hide Queued, Freed;
      forall x | x in queue && x.block != null ensures x.block in blocks {}
      if blocks == {} {
        PlainDrains(queue, hands, TailRight());
      } else {
        var b :| b in blocks;
        OneLess(blocks, b);
        BlockDrains(queue, hands, b);
      }
    }

    /** The capacity is the free nodes, the queued ones and those in the callers' hands. */
    lemma CapacityIs()
      requires Valid()
      ensures capacity == |free| + |queue| + |hands| == PREALLOCATED_NODES + STORAGE_NODES * |blocks|
    {
      hide Ordered, Leads;
      DistinctCount(free);
      DistinctCount(queue);
      SplitCount(all, NodesOf(free), NodesOf(queue), hands);
    }

    /** The nodes of a block that are not free are as many as the block counts. */
    lemma UsedIs(b: StorageBlock)
      requires Valid() && b in blocks
      ensures b.used == |Members(all, b) - NodesOf(free)| && 0 < b.used <= |Members(all, b)| == STORAGE_NODES
    {
      hide Queued, Freed, Split;
      assert Counted(b, all, NodesOf(free));
      UsedBound(Members(all, b), NodesOf(free));
    }

    /** `free_capacity` */
    method FreeCapacity() returns (ret: nat)
      requires Valid()
      ensures ret == |free|
    {
      hide Queued, Blocks, Account;
      ret := 0;
      var node := freeFirst;
      while node != null
        invariant ret <= |free| && node == if ret < |free| then free[ret] else null
        decreases |free| - ret
      {
        assert free[ret].next == if ret < |free| - 1 then free[ret + 1] else null;
        ret := ret + 1;
        node := node.next;
      }
    }
  }

  lemma UsedBound(M: set<Node>, F: set<Node>)
    ensures |M - F| <= |M|
  {
    assert M == (M - F) + (M * F);
  }

  lemma SplitCount(A: set<Node>, F: set<Node>, Q: set<Node>, H: set<Node>)
    requires Split(A, F, Q, H)
    ensures |A| == |F| + |Q| + |H|
  {
    UnionCount(F, Q);
    UnionCount(F + Q, H);
  }

  /** A node of block `b` is among the nodes of `q` and `H`. */
  ghost predicate InUseBy(q: seq<Node>, H: set<Node>, b: StorageBlock) { exists x :: x in NodesOf(q) + H && x.block == b }

  /** When the nodes of `q` go one after the other, the block of node `k` dies with it, with the nodes of `H` in use elsewhere. */
  ghost predicate Dies(q: seq<Node>, H: set<Node>, k: nat)
    requires k < |q|
  {
    q[k].block != null && !InUseBy(q[k + 1..], H, q[k].block)
  }

  /**
   * The nodes of `q` can be freed one after the other: those of blocks need a right end of the free chain, and when a
   * block dies, which makes the end wrong, no node of a block follows.
   */
  ghost predicate Drains(q: seq<Node>, H: set<Node>, right: bool) {
    && (forall j :: 0 <= j < |q| && q[j].block != null ==> right)
    && (forall k, j :: 0 <= k < j < |q| && Dies(q, H, k) ==> q[j].block == null)
  }

  /** What the first node asks for, and what it leaves to the others. */
  lemma DrainsStep(q: seq<Node>, H: set<Node>, right: bool)
    requires q != []
    ensures Drains(q, H, right) <==>
      if q[0].block == null then Drains(q[1..], H, right) else right && Drains(q[1..], H, InUseBy(q[1..], H, q[0].block))
  {
    hide InUseBy;
    var t, later := q[1..], if q[0].block == null then right else InUseBy(q[1..], H, q[0].block);
    forall k | 0 <= k < |t| ensures Dies(q, H, k + 1) == Dies(t, H, k) {
      assert q[k + 2..] == t[k + 1..] && q[k + 1] == t[k];
    }
    if Drains(q, H, right) {
      forall j | 0 <= j < |t| && t[j].block != null ensures later {
        assert q[j + 1].block != null && !Dies(q, H, 0);
      }
      forall k, j | 0 <= k < j < |t| && Dies(t, H, k) ensures t[j].block == null {
        assert Dies(q, H, k + 1) && q[j + 1] == t[j];
      }
    }
    if (q[0].block != null ==> right) && Drains(t, H, later) {
      forall j | 0 <= j < |q| && q[j].block != null ensures right {
        assert j > 0 ==> t[j - 1].block != null;
      }
      forall k, j | 0 <= k < j < |q| && Dies(q, H, k) ensures q[j].block == null {
        assert t[j - 1] == q[j] && (k > 0 ==> Dies(t, H, k - 1));
      }
    }
  }

  lemma PlainDrains(q: seq<Node>, H: set<Node>, right: bool)
    requires forall x :: x in q ==> x.block == null
    ensures Drains(q, H, right)
  {
    hide InUseBy;
    assert forall j :: 0 <= j < |q| ==> q[j] in q;
  }

  lemma BlockDrains(q: seq<Node>, H: set<Node>, b: StorageBlock)
    requires forall x :: x in q ==> x.block == null || x.block == b
    ensures Drains(q, H, true)
  {
    forall k, j | 0 <= k < j < |q| && Dies(q, H, k) ensures q[j].block == null {
      assert q[j] == q[k + 1..][j - k - 1] && q[k] in q && q[j] in q;
      assert q[j] in NodesOf(q[k + 1..]) + H;
    }
  }

  lemma OnlyOne(S: set<Node>, x: Node)
    requires x in S && |S| == 1
    ensures S == {x}
  {
    assert |S - {x}| == 0;
  }

  lemma OneLess(B: set<StorageBlock>, b: StorageBlock)
    requires |B| <= 1 && b in B
    ensures B == {b}
  {
    assert |B - {b}| == |B| - 1;
  }

  lemma {:induction false} ItemsJoin(a: seq<Node>, b: seq<Node>)
    ensures ItemsOf(a + b) == ItemsOf(a) + ItemsOf(b)
  {
    if b == [] {
      assert a + b == a;
    } else {
      ItemsJoin(a, b[..|b| - 1]);
      assert (a + b)[..|a + b| - 1] == a + b[..|b| - 1];
    }
  }

  lemma ItemsOne(x: Node)
    ensures ItemsOf([x]) == [Item(x.priority, x.value)]
  {
    assert [x][..0] == [];
  }

  lemma ItemsRest(q: seq<Node>)
    requires q != []
    ensures ItemsOf(q)[0] == Item(q[0].priority, q[0].value) && ItemsOf(q[1..]) == ItemsOf(q)[1..]
  {
    hide ItemsOf;
    ItemsJoin([q[0]], q[1..]);
    ItemsOne(q[0]);
    assert q == [q[0]] + q[1..];
  }

  lemma ItemsInserted(q: seq<Node>, node: Node, k: nat)
    requires k <= |q|
    ensures ItemsOf(q[..k] + [node] + q[k..]) == ItemsOf(q)[..k] + [Item(node.priority, node.value)] + ItemsOf(q)[k..]
  {
    hide ItemsOf;
    ItemsJoin(q[..k] + [node], q[k..]);
    ItemsJoin(q[..k], [node]);
    ItemsOne(node);
    ItemsJoin(q[..k], q[k..]);
    assert q == q[..k] + q[k..];
    Parts(ItemsOf(q), ItemsOf(q[..k]), ItemsOf(q[k..]), k);
  }

  lemma Parts(w: seq<Item>, a: seq<Item>, b: seq<Item>, k: nat)
    requires w == a + b && |a| == k
    ensures a == w[..k] && b == w[k..]
  {
  }

  /** The new list of items is the reference's. */
  lemma Inserted(q: seq<Node>, node: Node, insertFirst: bool, k: nat)
    requires Slot(q, node.priority, insertFirst, k)
    ensures ItemsOf(q[..k] + [node] + q[k..]) == Insert(ItemsOf(q), Item(node.priority, node.value), insertFirst)
  {
    var x := Item(node.priority, node.value);
    assert forall i {:trigger q[i]} :: 0 <= i < |q| ==> ItemsOf(q)[i] == Item(q[i].priority, q[i].value);
    forall i | 0 <= i < k ensures if insertFirst then ItemsOf(q)[i].priority < x.priority else ItemsOf(q)[i].priority <= x.priority { assert q[i] in q; }
    forall i | k <= i < |q| ensures if insertFirst then x.priority <= ItemsOf(q)[i].priority else x.priority < ItemsOf(q)[i].priority { assert q[i] in q; }
    InsertAt(ItemsOf(q), x, insertFirst, k);
    ItemsInserted(q, node, k);
  }

  datatype Item = Item(priority: int, value: Value)

  ghost function ItemsOf(q: seq<Node>): (r: seq<Item>)
    reads NodesOf(q)`priority, NodesOf(q)`value
    ensures |r| == |q| && forall i {:trigger q[i]} :: 0 <= i < |r| ==> r[i] == Item(q[i].priority, q[i].value)
  {
    if q == [] then [] else ItemsOf(q[..|q| - 1]) + [Item(q[|q| - 1].priority, q[|q| - 1].value)]
  }

  /** The reference: a stable list, searched from the front. */
  function Insert(q: seq<Item>, x: Item, insertFirst: bool): seq<Item>
  {
    if q == [] then [x]
    else if (if insertFirst then x.priority <= q[0].priority else x.priority < q[0].priority) then [x] + q
    else [q[0]] + Insert(q[1..], x, insertFirst)
  }

  lemma {:induction false} InsertAt(q: seq<Item>, x: Item, insertFirst: bool, k: nat)
    requires k <= |q|
    requires forall i :: 0 <= i < k ==> if insertFirst then q[i].priority < x.priority else q[i].priority <= x.priority
    requires forall i :: k <= i < |q| ==> if insertFirst then x.priority <= q[i].priority else x.priority < q[i].priority
    ensures Insert(q, x, insertFirst) == q[..k] + [x] + q[k..]
  {
    if k > 0 {
      InsertAt(q[1..], x, insertFirst, k - 1);
      assert q[..k] == [q[0]] + q[1..][..k - 1] && q[k..] == q[1..][k - 1..];
    }
  }

  /** `A` falls apart into the free nodes, the queue and the nodes in hand. */
  ghost predicate Split(A: set<Node>, F: set<Node>, Q: set<Node>, H: set<Node>)
  {
    F !! Q && F !! H && Q !! H && A == F + Q + H
  }

  lemma SplitGrow(A: set<Node>, Q: set<Node>, H: set<Node>, N: set<Node>, x: Node)
    requires Split(A, {}, Q, H) && N + {x} !! A && x !in N
    ensures Split(A + (N + {x}), N, Q, H + {x}) && x !in Q && Q <= A + (N + {x}) && N <= A + (N + {x})
  {
  }

  lemma SplitHand(A: set<Node>, F: set<Node>, Q: set<Node>, H: set<Node>, x: Node)
    requires Split(A, F, Q, H) && x in F
    ensures Split(A, F - {x}, Q, H + {x}) && x !in Q && x !in H && F - {x} <= A && Q <= A && x in A
  {
  }

  lemma SplitReturn(A: set<Node>, F: set<Node>, Q: set<Node>, H: set<Node>, x: Node)
    requires Split(A, F, Q, H) && x in H
    ensures Split(A, F + {x}, Q, H - {x}) && F + {x} <= A && Q <= A
  {
  }

  lemma SplitParts(A: set<Node>, F: set<Node>, Q: set<Node>, H: set<Node>)
    requires Split(A, F, Q, H)
    ensures F <= A && F !! Q
  {
  }

  lemma GoneNodes(A: set<Node>, q: seq<Node>, b: StorageBlock)
    requires Distinct(q) && NodesOf(q) <= A
    ensures NodesOf(Without(q, b)) == NodesOf(q) - Members(A, b)
  {
    hide Without;
    WithoutNodes(q, b);
  }

  lemma MemberOf(A: set<Node>, x: Node, b: StorageBlock)
    requires x in A && x.block == b
    ensures x in Members(A, b)
  {
  }

  lemma SizeApart(A: set<Node>, M: set<Node>)
    requires |A - M| == |A| - STORAGE_NODES
    ensures |A| >= STORAGE_NODES
  {
  }

  lemma SplitMove(A: set<Node>, F: set<Node>, Q: set<Node>, H: set<Node>, x: Node)
    requires Split(A, F, Q, H) && x in H
    ensures Split(A, F, Q + {x}, H - {x}) && F <= A && Q + {x} <= A
  {
  }

  lemma SplitBack(A: set<Node>, F: set<Node>, Q: set<Node>, H: set<Node>, R: set<Node>, x: Node)
    requires Split(A, F, Q, H) && Q == R + {x} && x !in R
    ensures Split(A, F, R, H + {x}) && F <= A && R <= A
  {
  }

  lemma NodesInserted(q: seq<Node>, x: Node, k: nat)
    requires k <= |q|
    ensures NodesOf(q[..k] + [x] + q[k..]) == NodesOf(q) + {x}
  {
    assert q == q[..k] + q[k..];
  }

  lemma SplitShrink(A: set<Node>, F: set<Node>, Q: set<Node>, H: set<Node>, M: set<Node>)
    requires Split(A, F, Q, H) && M <= F
    ensures Split(A - M, F - M, Q, H) && F - M <= A - M && Q <= A - M
  {
  }

  ghost function Members(A: set<Node>, b: StorageBlock): set<Node> { set x | x in A && x.block == b }

  /** A block has its nodes, and `used` is the number of those that are not in `F`. */
  ghost predicate Counted(b: StorageBlock, A: set<Node>, F: set<Node>)
    reads b`used
  {
    |Members(A, b)| == STORAGE_NODES && b.used == |Members(A, b) - F|
  }

  ghost predicate Homed(A: set<Node>, B: set<StorageBlock>) { forall x {:trigger x.block} :: x in A && x.block != null ==> x.block in B }

  /** Of the nodes `A`, those of `F` are free; nobody keeps a block all of whose nodes are free. */
  ghost predicate Blocks(A: set<Node>, B: set<StorageBlock>, F: set<Node>)
    reads B`used
  {
    && (forall b {:trigger Counted(b, A, F)} :: b in B ==> Counted(b, A, F) && b.used > 0)
    && Homed(A, B) && |A| == PREALLOCATED_NODES + STORAGE_NODES * |B|
  }

  /** The same when block `b` may have become unused. */
  ghost predicate Tallied(A: set<Node>, B: set<StorageBlock>, F: set<Node>, b: StorageBlock)
    reads B`used
  {
    && (forall c {:trigger Counted(c, A, F)} :: c in B ==> Counted(c, A, F) && (c != b ==> c.used > 0))
    && Homed(A, B) && |A| == PREALLOCATED_NODES + STORAGE_NODES * |B|
  }

  lemma TalliedUsed(A: set<Node>, B: set<StorageBlock>, F: set<Node>, b: StorageBlock)
    requires Tallied(A, B, F, b) && b.used > 0
    ensures Blocks(A, B, F)
  {
    assert forall c :: c in B ==> Counted(c, A, F);
  }

  lemma BlocksPlain(A: set<Node>, B: set<StorageBlock>, F: set<Node>, node: Node)
    requires Blocks(A, B, F) && node.block == null
    ensures Blocks(A, B, F + {node})
  {
    forall c | c in B ensures Counted(c, A, F + {node}) && c.used > 0 {
      assert Counted(c, A, F);
      assert Members(A, c) - (F + {node}) == Members(A, c) - F;
    }
  }

  /** A block without a node in use leaves with all its nodes, and the others do not notice. */
  lemma BlocksShrink(A: set<Node>, B: set<StorageBlock>, F: set<Node>, b: StorageBlock)
    requires Tallied(A, B, F, b) && b in B && b.used == 0
    ensures Members(A, b) <= F && |Members(A, b)| == STORAGE_NODES
    ensures Blocks(A - Members(A, b), B - {b}, F - Members(A, b)) && |A - Members(A, b)| == |A| - STORAGE_NODES
  {
    hide Members;
    assert Counted(b, A, F);
    var M := Members(A, b);
    MembersIn(A, b);
    NoneLeft(M, F);
    UnionCount(A - M, M);
    assert A - M + M == A;
    forall c | c in B - {b} ensures Counted(c, A - M, F - M) && c.used > 0 {
      assert Counted(c, A, F);
      MembersApart(A, F, b, c);
    }
    HomedRest(A, B, b);
  }

  lemma NoneLeft(M: set<Node>, F: set<Node>)
    requires |M - F| == 0
    ensures M <= F
  {
    assert M - F == {};
    forall x | x in M ensures x in F { assert x !in M - F; }
  }

  lemma MembersIn(A: set<Node>, b: StorageBlock)
    ensures Members(A, b) <= A
  {
  }

  lemma MembersApart(A: set<Node>, F: set<Node>, b: StorageBlock, c: StorageBlock)
    requires b != c
    ensures Members(A - Members(A, b), c) == Members(A, c)
    ensures Members(A, c) - (F - Members(A, b)) == Members(A, c) - F
  {
  }

  lemma HomedRest(A: set<Node>, B: set<StorageBlock>, b: StorageBlock)
    requires Homed(A, B)
    ensures Homed(A - Members(A, b), B - {b})
  {
  }

  lemma OldBlock(c: StorageBlock, A: set<Node>, N: set<Node>, F: set<Node>)
    requires Counted(c, A, {}) && F <= N && N !! A && forall x :: x in N ==> x.block != c
    ensures Counted(c, A + N, F)
  {
    assert Members(A + N, c) == Members(A, c);
    assert Members(A, c) - F == Members(A, c) - {};
  }

  lemma NewBlock(b: StorageBlock, A: set<Node>, ns: seq<Node>)
    requires b.used == 1 && |ns| == STORAGE_NODES && Distinct(ns)
    requires (forall x :: x in ns ==> x.block == b) && forall x :: x in A ==> x.block != b
    ensures Counted(b, A + NodesOf(ns), NodesOf(ns[1..])) && |NodesOf(ns)| == STORAGE_NODES
  {
    DistinctCount(ns);
    assert ns == [ns[0]] + ns[1..];
    DistinctParts([ns[0]], ns[1..]);
    assert Members(A + NodesOf(ns), b) == NodesOf(ns);
    assert NodesOf(ns) - NodesOf(ns[1..]) == {ns[0]};
  }

  lemma UnionCount(A: set<Node>, N: set<Node>)
    requires A !! N
    ensures |A + N| == |A| + |N|
  {
  }

  /** A new block whose nodes are all free but the first. */
  lemma BlocksGrow(A: set<Node>, B: set<StorageBlock>, b: StorageBlock, ns: seq<Node>)
    requires Blocks(A, B, {}) && b !in B && b.used == 1 && |ns| == STORAGE_NODES && Distinct(ns) && NodesOf(ns) !! A
    requires forall x :: x in ns ==> x.block == b
    ensures Blocks(A + NodesOf(ns), B + {b}, NodesOf(ns[1..]))
  {
    hide Counted, Distinct;
    forall x | x in A ensures x.block != b { assert x.block != null ==> x.block in B; }
    NewBlock(b, A, ns);
    UnionCount(A, NodesOf(ns));
    forall c | c in B ensures Counted(c, A + NodesOf(ns), NodesOf(ns[1..])) && c.used > 0 {
      assert Counted(c, A, {});
      OldBlock(c, A, NodesOf(ns), NodesOf(ns[1..]));
    }
  }

  lemma DistinctPush(a: seq<Node>, x: Node, b: seq<Node>)
    requires Distinct(a + b) && x !in a && x !in b
    ensures Distinct(a + [x] + b)
  {
    DistinctParts(a, b);
    assert forall i, j :: 0 <= i < |a| && 0 <= j < |b| ==> a[i] in NodesOf(a) && b[j] in NodesOf(b);
  }

  /** The walk moves over the first node of the rest. */
  lemma PopLinks2(kept: seq<Node>, rest: seq<Node>)
    requires Distinct(kept + rest) && rest != [] && Leads(rest, null) && Leads(kept, First(rest))
    ensures rest[0].next == First(rest[1..]) && Leads(rest[1..], null) && Leads(kept + [rest[0]], First(rest[1..]))
    ensures kept + [rest[0]] + rest[1..] == kept + rest && rest[0] !in kept && rest[0] !in rest[1..] && Distinct(kept + rest[1..])
  {
    DistinctParts(kept, rest);
    PopLinks(rest);
    DistinctDrop(kept, rest);
    assert rest[0] in NodesOf(rest);
  }

  lemma DistinctDrop(a: seq<Node>, b: seq<Node>)
    requires Distinct(a + b) && b != []
    ensures Distinct(a + b[1..])
  {
    var q := a + b;
    var r := a + b[1..];
    forall i, j | 0 <= i < j < |r| ensures r[i] != r[j] {
      assert r[i] == q[if i < |a| then i else i + 1] && r[j] == q[if j < |a| then j else j + 1];
    }
  }

  lemma FirstApart(q: seq<Node>)
    requires Distinct(q) && q != []
    ensures NodesOf(q) == NodesOf(q[1..]) + {q[0]} && q[0] !in NodesOf(q[1..])
  {
    assert q == [q[0]] + q[1..];
    DistinctParts([q[0]], q[1..]);
  }

  lemma PopLinks(q: seq<Node>)
    requires Distinct(q) && Leads(q, null) && q != []
    ensures Leads(q[1..], null) && Distinct(q[1..]) && q[0] !in q[1..] && q[0].next == First(q[1..]) && Last(q[1..]) == if |q| == 1 then null else Last(q)
    ensures q[0] == Last(q) <==> |q| == 1
  {
    assert [q[0]] + q[1..] == q;
    LeadsSplit([q[0]], q[1..], null);
    DistinctParts([q[0]], q[1..]);
  }

  lemma OrderedEnds(q: seq<Node>)
    requires Ordered(q)
    ensures forall i {:trigger q[i]} :: 0 <= i < |q| ==> q[0].priority <= q[i].priority <= q[|q| - 1].priority
  {
    forall i {:trigger q[i]} | 0 <= i < |q| ensures q[0].priority <= q[i].priority <= q[|q| - 1].priority {
      assert 0 < i ==> Before(q[0].priority, q[0].stamp, q[i].priority, q[i].stamp);
      assert i < |q| - 1 ==> Before(q[i].priority, q[i].stamp, q[|q| - 1].priority, q[|q| - 1].stamp);
    }
  }
}

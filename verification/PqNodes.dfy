/** Records and chains of the priority queue. */
module PqNodes {
  type Value(==, !new, 0)

  const PREALLOCATED_NODES: nat := 8
  const STORAGE_NODES: nat := 64

  class Node {
    const block: StorageBlock?
    var next: Node?
    var priority: int
    var value: Value
    ghost var stamp: int

    constructor (block: StorageBlock?)
      ensures next == null && this.block == block
    {
      this.block, next := block, null;
    }
  }

  class StorageBlock {
    var used: nat

    constructor ()
      ensures used == 0
    {
      used := 0;
    }
  }

  ghost function NodesOf(q: seq<Node>): set<Node> { set x | x in q }

  ghost predicate Distinct(q: seq<Node>) { forall i, j :: 0 <= i < j < |q| ==> q[i] != q[j] }

  function First(q: seq<Node>): Node? { if q == [] then null else q[0] }

  function Last(q: seq<Node>): Node? { if q == [] then null else q[|q| - 1] }

  /** The chain through `next` runs over the nodes of `q` and then to `last`. */
  ghost predicate Leads(q: seq<Node>, last: Node?)
    reads NodesOf(q)`next
  {
    forall j {:trigger q[j].next} :: 0 <= j < |q| ==> q[j].next == if j < |q| - 1 then q[j + 1] else last
  }

  lemma DistinctCount(q: seq<Node>)
    requires Distinct(q)
    ensures |NodesOf(q)| == |q|
  {
    if q != [] {
      DistinctCount(q[1..]);
      assert NodesOf(q) == {q[0]} + NodesOf(q[1..]);
    }
  }

  lemma DistinctParts(a: seq<Node>, b: seq<Node>)
    requires Distinct(a + b)
    ensures Distinct(a) && Distinct(b) && NodesOf(a) !! NodesOf(b) && NodesOf(a + b) == NodesOf(a) + NodesOf(b)
  {
    var q := a + b;
    forall i, j | 0 <= i < |a| && 0 <= j < |b| ensures a[i] != b[j] { assert q[i] == a[i] && q[|a| + j] == b[j]; }
    forall i, j | 0 <= i < j < |a| ensures a[i] != a[j] { assert q[i] == a[i] && q[j] == a[j]; }
    forall i, j | 0 <= i < j < |b| ensures b[i] != b[j] { assert q[|a| + i] == b[i] && q[|a| + j] == b[j]; }
  }

  lemma LeadsJoin(a: seq<Node>, b: seq<Node>, last: Node?)
    requires Leads(a, if b == [] then last else b[0]) && Leads(b, last)
    ensures Leads(a + b, last)
  {
    var q := a + b;
    forall j {:trigger q[j].next} | 0 <= j < |q| ensures q[j].next == if j < |q| - 1 then q[j + 1] else last {
      if j < |a| { assert a[j].next == if j < |a| - 1 then a[j + 1] else if b == [] then last else b[0]; }
      else { assert b[j - |a|].next == if j - |a| < |b| - 1 then b[j - |a| + 1] else last; }
    }
  }

  lemma LeadsSplit(a: seq<Node>, b: seq<Node>, last: Node?)
    requires Leads(a + b, last)
    ensures Leads(a, if b == [] then last else b[0]) && Leads(b, last)
  {
    var q := a + b;
    forall j {:trigger a[j].next} | 0 <= j < |a| ensures a[j].next == if j < |a| - 1 then a[j + 1] else if b == [] then last else b[0] {
      assert q[j].next == if j < |q| - 1 then q[j + 1] else last;
    }
    forall j {:trigger b[j].next} | 0 <= j < |b| ensures b[j].next == if j < |b| - 1 then b[j + 1] else last {
      assert q[|a| + j].next == if |a| + j < |q| - 1 then q[|a| + j + 1] else last;
    }
  }

  /* ---- the order of the queue ---- */

  /** How the queue is ordered: by priority, and by the stamp of the push among equals. */
  ghost predicate Before(p: int, s: int, p2: int, s2: int) { p < p2 || (p == p2 && s < s2) }

  ghost predicate Ordered(q: seq<Node>)
    reads NodesOf(q)`priority, NodesOf(q)`stamp
  {
    forall i, j {:trigger q[i], q[j]} :: 0 <= i < j < |q| ==> Before(q[i].priority, q[i].stamp, q[j].priority, q[j].stamp)
  }

  /** Where a push with priority `p` goes: in front of all equals, or behind them. */
  ghost predicate Slot(q: seq<Node>, p: int, insertFirst: bool, k: nat)
    reads NodesOf(q)`priority
  {
    && k <= |q|
    && (forall i {:trigger q[i]} :: 0 <= i < k ==> if insertFirst then q[i].priority < p else q[i].priority <= p)
    && (forall i {:trigger q[i]} :: k <= i < |q| ==> if insertFirst then p <= q[i].priority else p < q[i].priority)
  }

  /** There is only one such place. */
  lemma SlotOnce(q: seq<Node>, p: int, insertFirst: bool, k: nat, m: nat)
    requires Slot(q, p, insertFirst, k) && Slot(q, p, insertFirst, m)
    ensures k == m
  {
    var a := if k < |q| then q[k].priority else p;
    var b := if m < |q| then q[m].priority else p;
  }

  /** The newest stamp, above all others or below them, fits that place. */
  lemma OrderedInsert(q: seq<Node>, x: Node, k: nat, insertFirst: bool)
    requires Ordered(q) && Slot(q, x.priority, insertFirst, k)
    requires forall i {:trigger q[i]} :: 0 <= i < |q| ==> if insertFirst then x.stamp < q[i].stamp else q[i].stamp < x.stamp
    ensures Ordered(q[..k] + [x] + q[k..])
  {
  }

  lemma OrderedRest(q: seq<Node>)
    requires Ordered(q) && q != []
    ensures Ordered(q[1..])
    ensures forall i {:trigger q[i]} :: 0 < i < |q| ==> Before(q[0].priority, q[0].stamp, q[i].priority, q[i].stamp)
  {
  }

  /* ---- the nodes of one block ---- */

  ghost function Without(q: seq<Node>, b: StorageBlock?): (r: seq<Node>)
  {
    if q == [] then [] else (if q[0].block == b then [] else [q[0]]) + Without(q[1..], b)
  }

  lemma {:induction false} WithoutPush(a: seq<Node>, x: Node, b: StorageBlock?)
    ensures Without(a + [x], b) == Without(a, b) + if x.block == b then [] else [x]
  {
    if a == [] {
      assert [x][1..] == [] && a + [x] == [x];
    } else {
      WithoutPush(a[1..], x, b);
      assert (a + [x])[1..] == a[1..] + [x];
    }
  }

  lemma {:induction false} WithoutNodes(q: seq<Node>, b: StorageBlock?)
    requires Distinct(q)
    ensures Distinct(Without(q, b)) && NodesOf(Without(q, b)) == set x | x in q && x.block != b
  {
    if q != [] {
      var r := Without(q[1..], b);
      WithoutNodes(q[1..], b);
      assert q == [q[0]] + q[1..];
      DistinctParts([q[0]], q[1..]);
      assert q[0] !in NodesOf(r);
      NodesPush(q[0], r);
    }
  }

  lemma {:induction false} WithoutFew(q: seq<Node>, b: StorageBlock?)
    ensures NodesOf(Without(q, b)) <= NodesOf(q)
  {
    if q != [] {
      WithoutFew(q[1..], b);
      var r := Without(q[1..], b);
      forall x | x in NodesOf(Without(q, b)) ensures x in NodesOf(q) {
        if x in r { assert x in NodesOf(r); assert x in NodesOf(q[1..]); }
      }
    }
  }

  lemma NodesPush(x: Node, r: seq<Node>)
    requires Distinct(r) && x !in NodesOf(r)
    ensures Distinct([x] + r) && NodesOf([x] + r) == {x} + NodesOf(r) && [] + r == r
  {
    assert forall i :: 0 <= i < |r| ==> r[i] in NodesOf(r);
  }
}

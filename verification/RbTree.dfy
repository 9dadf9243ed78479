/** The ordered tree: `Tree` of SPMemRbtree.h over the records of `RbNodes`. */
module RbTree {
  import opened RbNodes
  import opened RbShape
  import opened RbColour
  import opened RbFixup
  import opened RbEdit
  import opened RbWalk
  import opened RbOrder
  import opened RbSet
  import opened RbHeight
  import opened RbPool
  import opened RbLinks

  class Tree {
    const header: Node
    const less: Less
    const nodeSize: nat
    var size: nat
    var tmp: Node?
    var extra: nat
    var pieces: nat
    var persistent: bool
    ghost var s: Shape
    ghost var c: Colours
    ghost var pool: seq<Node>
    ghost var blocks: seq<Block>
    ghost var allocations: nat

    constructor (less: Less, nodeSize: nat)
      requires StrictWeak(less)
      ensures Valid() && s.order == [] && this.less == less && fresh(header) && pool == [] && blocks == [] && allocations == 0
      ensures !persistent && this.nodeSize == nodeSize && Repr() == {header} && Keys() == []
    {
      this.less, this.nodeSize := less, nodeSize;
      tmp, extra, pieces, persistent := null, 0, 0, false;
      pool, blocks, allocations := [], [], 0;
      var h := new Node(0, false, 0, 0, Black);
      header := h;
      size := 0;
      s := Shape(h, map[h := Link(null, null, null)], [], map[]);
      c := Colours(map[h := Black], map[]);
    }

    /* ---- the node pool ---- */

    /** The chain that starts at `tmp` and continues through `parent` lists exactly the nodes of `pool`. */
    ghost predicate Chained()
      reads this`tmp, this`pool, set x | x in pool
    {
      tmp == First(pool) && Strung(pool)
    }

    ghost function Spare(): set<Node>
      reads this`pool
    {
      set x | x in pool
    }

    /** All records the tree owns. */
    ghost function Repr(): set<Node>
      reads this`s, this`pool
    {
      s.link.Keys + Spare()
    }

    /** The chain of spare nodes, when the nodes of `T` are in use. */
    ghost predicate Chain(T: set<Node>)
      reads this`tmp, this`pool, this`extra, Spare()
    {
      Chained() && Distinct(pool) && header !in pool && header !in T && Spare() !! T && extra == |pool|
    }

    /** The pool: no node is in two places, and no preallocated node is lost. */
    ghost predicate Pooled(T: set<Node>)
      reads this`tmp, this`pool, this`blocks, this`extra, this`pieces, Spare()
    {
      Chain(T) && pieces == |blocks| && Ledger(blocks, T + Spare())
    }

    /** `Tree::allocateNode`; `addr` and `room` are what the allocator answers. */
    method AllocateNode(addr: nat, room: nat, ghost T: set<Node>) returns (ret: Node)
      requires Pooled(T)
      modifies this`tmp, this`pool, this`allocations, this`extra
      ensures Pooled(T + {ret}) && ret !in T && ret != header
      ensures if old(pool) == [] then fresh(ret) && !ret.prealloc && pool == [] && allocations == old(allocations) + 1
              else ret == old(pool)[0] && pool == old(pool)[1..] && allocations == old(allocations)
    {
      hide Ledger, Strung;
      if tmp != null {
        StrungRest(pool);
        ret := tmp;
        tmp := ret.parent;
        extra := extra - 1;
        pool := pool[1..];
        assert old(T + Spare()) == (T + {ret}) + Spare();
      } else {
        ret := new Node(addr, false, 0, room, Red);
        allocations := allocations + 1;
        LedgerGrows(blocks, T + Spare(), ret);
        assert T + Spare() + {ret} == (T + {ret}) + Spare();
      }
    }

    /** `Tree::destroyNode`: the first free node is kept, preallocated ones always, the others only in persistent mode. */
    method DestroyNode(n: Node, ghost T: set<Node>)
      requires Pooled(T) && n in T
      modifies this`tmp, this`pool, this`extra, n`parent
      ensures Pooled(T - {n})
      ensures pool == if old(pool) == [] || n.prealloc || persistent then [n] + old(pool) else old(pool)
    {
      hide Ledger, Strung;
      Known(T, n);
      if tmp == null {
        n.parent := null;
        tmp := n;
        extra := extra + 1;
        StrungPush(n, pool);
        pool := [n] + pool;
        assert (T - {n}) + Spare() == old(T + Spare());
      } else if n.prealloc || persistent {
        n.parent := tmp;
        tmp := n;
        extra := extra + 1;
        StrungPush(n, pool);
        pool := [n] + pool;
        assert (T - {n}) + Spare() == old(T + Spare());
      } else {
        LedgerShrinks(blocks, T + Spare(), n);
        assert (T - {n}) + Spare() == (T + Spare()) - {n};
      }
    }

    lemma Known(T: set<Node>, n: Node)
      requires Pooled(T) && n in T
      ensures n !in pool && n != header && (tmp == null <==> pool == [])
    {
    }

    /** The loop of `allocateTmp`: `count` nodes in one piece, linked one behind the other, the last one to `last`. */
    method AllocatePiece(count: nat, base: nat, total: nat, index: nat, last: Node?) returns (ns: seq<Node>)
      requires count >= 1 && total >= Times(count, nodeSize)
      ensures |ns| == count && fresh(ns) && Cut(ns, base, index, Shares(count, nodeSize, total))
      ensures Leads(ns, last)
    {
      hide Times, Shares;
      TimesMonotone(nodeSize, count);
      ghost var shares := Shares(count, nodeSize, total);
      var s := total;
      ns := [];
      for i := 0 to count
        invariant |ns| == i && fresh(ns) && (forall j :: 0 <= j < i ==> Piece(ns[j], base + j, index, shares[j]))
        invariant forall j {:trigger ns[j].parent} :: 0 <= j < i - 1 ==> ns[j].parent == ns[j + 1]
        invariant i == count ==> ns[i - 1].parent == last
        invariant i < count ==> s + Times(i, nodeSize) == total
      {
        ShareOf(count, nodeSize, total, i);
        var n := new Node(base + i, true, index, if i < count - 1 then nodeSize else s, Red);
        if i > 0 { ns[i - 1].parent := n; }
        if i < count - 1 { s := s - nodeSize; } else { n.parent := last; }
        ns := ns + [n];
      }
    }

    /** `Tree::allocateTmp`; the allocator answers with memory at `base` of `total` bytes. */
    method AllocateTmp(count: nat, base: nat, total: nat, ghost T: set<Node>) returns (ghost b: Block)
      requires Pooled(T) && count >= 1 && total >= Times(count, nodeSize)
      modifies this`tmp, this`pool, this`extra, this`pieces, this`blocks, this`allocations
      ensures Pooled(T) && allocations == old(allocations) + 1
      ensures IsPiece(b, count, total) && pool == b.nodes + old(pool) && blocks == old(blocks) + [b] && fresh(b.nodes)
      ensures Flags(b.nodes) == Trues(count)
    {
      hide Ledger, Cut, Times, Shares, Sound, Strung, Distinct;
      pieces := pieces + 1;
      extra := extra + count;
      var ns := AllocatePiece(count, base, total, pieces, tmp);
      tmp := ns[0];
      allocations := allocations + 1;
      b := Block(ns, Shares(count, nodeSize, total), total);
      SoundPiece(b, count, nodeSize, base, pieces);
      CutFlags(ns, base, pieces, Shares(count, nodeSize, total));
      LedgerExtends(blocks, T + Spare(), b, base);
      blocks := blocks + [b];
      StrungJoin(ns, pool);
      PiecesDistinct(ns, base, pieces, Shares(count, nodeSize, total));
      DistinctJoin(ns, pool);
      pool := ns + pool;
      assert IsPiece(b, count, total);
      assert T + Spare() == old(T + Spare()) + set x | x in ns;
    }

    /** One spare node leaves the chain behind `kept`. */
    method Unchain(prev: Node?, next: Node?, ghost kept: seq<Node>, ghost rest: seq<Node>)
      requires pool == kept + rest && Distinct(pool) && rest != [] && next == First(rest[1..])
      requires prev == if kept == [] then null else kept[|kept| - 1]
      requires Leads(kept, First(rest)) && Strung(rest) && tmp == First(pool)
      modifies this`tmp, this`pool, kept`parent
      ensures pool == kept + rest[1..] && Distinct(pool) && Leads(kept, next) && Strung(rest[1..]) && tmp == First(pool)
    {
      StrungRest(rest);
      Apart(kept, rest);
      if prev == null { tmp := next; } else { prev.parent := next; }
      pool := kept + rest[1..];
    }

    lemma RestLedger(T: set<Node>, kept: seq<Node>, rest: seq<Node>)
      requires Ledger(blocks, T + NodesOf(kept + rest)) && rest != [] && !rest[0].prealloc
      requires NodesOf(kept + rest) !! T && Distinct(kept + rest)
      ensures Ledger(blocks, T + NodesOf(kept + rest[1..])) && NodesOf(kept + rest[1..]) <= NodesOf(kept + rest)
    {
      hide Ledger;
      LedgerShrinks(blocks, T + NodesOf(kept + rest), rest[0]);
      Apart(kept, rest);
      assert (kept + rest)[|kept|] == rest[0];
      assert T + NodesOf(kept + rest) - {rest[0]} == T + NodesOf(kept + rest[1..]);
    }

    /** `releaseTmp` beside a tree that is not empty: single spare nodes go back, preallocated ones stay in the chain. */
    method ReleaseSingles(ghost T: set<Node>) returns (freed: seq<Freed>)
      requires Pooled(T)
      modifies this`tmp, this`pool, this`extra, Spare()`parent
      ensures Pooled(T) && freed == Singles(old(pool)) && pool == Preallocated(old(pool))
    {
      hide Ledger, Distinct, Strung, Leads, Singles, Preallocated;
      freed := [];
      SinglesStart(pool);
      var prev: Node?, cur := null, tmp;
      ghost var kept: seq<Node>, rest: seq<Node> := [], pool;
      while cur != null
        invariant pool == kept + rest && Distinct(pool) && NodesOf(kept + rest) <= old(Spare()) && extra == |pool|
        invariant cur == First(rest) && Strung(rest) && Leads(kept, cur) && tmp == First(pool)
        invariant prev == if kept == [] then null else kept[|kept| - 1]
        invariant freed + Singles(rest) == Singles(old(pool)) && kept + Preallocated(rest) == Preallocated(old(pool))
        invariant Ledger(blocks, T + NodesOf(kept + rest))
        decreases |rest|
      {
        StrungRest(rest);
        Freeing(freed, rest);
        Keeping(kept, rest);
        var next := cur.parent;
        if !cur.prealloc {
          freed := freed + [Freed(cur, 1, cur.bytes)];
          RestLedger(T, kept, rest);
          Unchain(prev, next, kept, rest);
          extra := extra - 1;
        } else {
          prev := cur;
          LeadsOn(kept, rest);
          kept := kept + [cur];
        }
        rest := rest[1..];
        cur := next;
      }
      StrungJoin(kept, rest);
    }

    /** `releaseTmp` of an empty tree that never preallocated: all nodes go back alone. */
    method ReleasePlain() returns (freed: seq<Freed>)
      requires Pooled({}) && pieces == 0
      modifies this`tmp, this`pool, this`extra
      ensures Pooled({}) && freed == Singles(old(pool)) && pool == []
      ensures tmp == null && extra == 0 && pieces == |blocks|
    {
      hide Pooled, Ledger, Strung, Distinct;
      freed := [];
      ghost var K: set<Node>, S: set<Node> := Spare(), {};
      AllPlain(K);
      while tmp != null
        invariant Gathering(K, S) && tmp == First(pool) && extra == |pool| && NodesOf(pool) <= K
        invariant freed + Singles(pool) == Singles(old(pool))
        decreases |pool|
      {
        var ptr := TakeSpare(K, S);
        freed := freed + [Freed(ptr, 1, ptr.bytes)];
        extra := extra - 1;
        S := S + {ptr};
      }
      assert Gone(blocks) == blocks;
      EmptyPool();
    }

    lemma AllPlain(K: set<Node>)
      requires Pooled({}) && pieces == 0 && K == Spare()
      ensures blocks == [] && Gathering(K, {}) && (forall x :: x in K ==> !x.prealloc) && tmp == First(pool) && extra == |pool|
    {
      assert {} + K == K;
      forall x | x in pool ensures !x.prealloc { assert Recorded(blocks, x); }
    }

    lemma EmptyPool()
      requires tmp == null && pool == [] && extra == 0 && pieces == |blocks| && blocks == Gone(blocks)
      ensures Pooled({})
    {
      LedgerGone(blocks);
    }

    /** What the gathering loops keep: `S` is the part of the chain they have met. */
    ghost predicate Gathering(K: set<Node>, S: set<Node>)
      reads this`tmp, this`pool, this`blocks, this`pieces, Spare()
    {
      && Strung(pool) && Distinct(pool) && tmp == First(pool) && pieces == |blocks| && Ledger(blocks, K)
      && K == S + Spare() && S !! Spare()
    }

    /** The head of the chain is taken off. */
    method TakeSpare(ghost K: set<Node>, ghost S: set<Node>) returns (ptr: Node)
      requires Gathering(K, S) && tmp != null
      modifies this`tmp, this`pool
      ensures old(pool) != [] && ptr == old(pool)[0] && pool == old(pool)[1..] && tmp == First(pool)
      ensures Gathering(K, S + {ptr}) && ptr in K && ptr !in S && Ledger(blocks, K) && NodesOf(pool) <= K
    {
      hide Ledger, Strung, Distinct;
      StrungRest(pool);
      assert [] + pool == pool && [] + pool[1..] == pool[1..];
      Apart([], pool);
      ptr := tmp;
      tmp := tmp.parent;
      pool := pool[1..];
    }

    /** `releaseTmp` of an empty tree with one preallocated block. */
    method ReleaseBlock() returns (freed: seq<Freed>)
      requires Pooled({}) && pieces == 1
      modifies this`tmp, this`pool, this`extra, this`blocks
      ensures Pooled({}) && freed == Singles(old(pool)) + Wholes(old(blocks)) && pool == [] && blocks == Gone(old(blocks))
      ensures tmp == null && extra == 0 && pieces == |blocks|
    {
      hide Ledger, Tally, Gather, Pooled, Wholes, Strung, Distinct, Singles;
      freed := [];
      SinglesStart(pool);
      var data := Pending(null, 0, 0);
      ghost var K: set<Node>, S: set<Node> := Spare(), {};
      GatherStart(K);
      TallyStart(blocks, K, 0);
      while tmp != null
        invariant Gathering(K, S) && NodesOf(pool) <= K && tmp == First(pool)
        invariant blocks == old(blocks) && Tally(data, blocks[0], S) && extra == |pool| + data.count
        invariant freed + Singles(pool) == Singles(old(pool))
        decreases |pool|
      {
        ghost var spare := pool;
        var ptr := TakeSpare(K, S);
        SinglesStep(spare);
        TallyStep(blocks, K, S, ptr, data, 0);
        GatherCount(data, ptr);
        if ptr.prealloc {
          data := Gather(data, ptr);
        } else {
          freed := freed + [Freed(ptr, 1, ptr.bytes)];
          extra := extra - 1;
        }
        S := S + {ptr};
      }
      GatherEnd(K, S);
      TallyEnd(blocks, K, data, 0);
      WholesStep(blocks, 0);
      assert blocks[..0 + 1] == blocks;
      if data.head != null {
        extra := extra - data.count;
        freed := freed + [Freed(data.head, data.count, data.size)];
      }
      blocks := Gone(blocks);
      EmptyPool();
    }

    lemma GatherStart(K: set<Node>)
      requires Pooled({}) && K == Spare()
      ensures Gathering(K, {}) && Ledger(blocks, K) && pieces == |blocks| && extra == |pool| && tmp == First(pool)
    {
      assert {} + K == K;
    }

    lemma GatherEnd(K: set<Node>, S: set<Node>)
      requires Gathering(K, S) && tmp == null
      ensures S == K && Ledger(blocks, K) && pool == []
    {
    }

    /** All accumulators of `releaseTmp` agree with the part of the chain that was met. */
    ghost predicate Tallies(data: seq<Pending>, S: set<Node>)
      reads this`blocks
    {
      |data| == |blocks| && forall b {:trigger data[b]} :: 0 <= b < |blocks| ==> Tally(data[b], blocks[b], S)
    }

    lemma TalliesStart(K: set<Node>, data: seq<Pending>)
      requires Ledger(blocks, K) && data == seq(|blocks|, _ => Pending(null, 0, 0))
      ensures Tallies(data, {}) && Total(data) == 0
    {
      hide Ledger, Tally;
      forall b | 0 <= b < |blocks| ensures Tally(data[b], blocks[b], {}) { TallyStart(blocks, K, b); }
      TotalNone(|blocks|);
    }

    lemma TalliesStep(K: set<Node>, S: set<Node>, x: Node, data: seq<Pending>)
      requires Ledger(blocks, K) && Tallies(data, S) && x in K && x !in S
      ensures x.prealloc ==> 1 <= x.index <= |data| && Total(data[x.index - 1 := Gather(data[x.index - 1], x)]) == Total(data) + 1
      ensures Tallies(if x.prealloc then data[x.index - 1 := Gather(data[x.index - 1], x)] else data, S + {x})
    {
      hide Ledger, Tally, Gather;
      if x.prealloc {
        RecordedIn(blocks, K, x);
        TotalUpdate(data, x.index - 1, Gather(data[x.index - 1], x));
        GatherCount(data[x.index - 1], x);
      }
      var q := if x.prealloc then data[x.index - 1 := Gather(data[x.index - 1], x)] else data;
      forall b | 0 <= b < |blocks| ensures Tally(q[b], blocks[b], S + {x}) { TallyStep(blocks, K, S, x, data[b], b); }
    }

    lemma TalliesEnd(K: set<Node>, data: seq<Pending>, i: nat)
      requires Ledger(blocks, K) && Tallies(data, K) && i < |blocks|
      ensures |data| == |blocks| && data[i].count == |blocks[i].nodes| && data[i].size == blocks[i].bytes && data[i].head == First(blocks[i].nodes)
      ensures Total(data[..i + 1]) == Total(data[..i]) + data[i].count
    {
      hide Ledger, Tally;
      TallyEnd(blocks, K, data[i], i);
      assert data[..i + 1][..i] == data[..i];
    }

    static lemma AllFreed(freed: seq<Freed>, q: seq<Node>)
      requires q == []
      ensures freed + Singles(q) == freed
    {}

    static lemma Keeping(kept: seq<Node>, q: seq<Node>)
      requires q != []
      ensures kept + Preallocated(q) == (if q[0].prealloc then kept + [q[0]] else kept) + Preallocated(q[1..])
      ensures kept + q == (kept + [q[0]]) + q[1..]
    {
      var x := if q[0].prealloc then [q[0]] else [];
      SinglesStep(q);
      assert q == [q[0]] + q[1..] && kept + [] == kept;
      hide *;
      Joined(kept, x, Preallocated(q[1..]));
      Joined(kept, [q[0]], q[1..]);
    }

    static lemma Joined(a: seq<Node>, b: seq<Node>, c: seq<Node>)
      ensures a + (b + c) == (a + b) + c
    {}

    static lemma Freeing(freed: seq<Freed>, q: seq<Node>)
      requires q != []
      ensures freed + Singles(q) ==
        (if q[0].prealloc then freed else freed + [Freed(q[0], 1, q[0].bytes)]) + Singles(q[1..])
    {
      hide Singles;
      SinglesStep(q);
    }

    /** The loop of `releaseTmp` over the chain. */
    method GatherBlocks(ghost K: set<Node>) returns (freed: seq<Freed>, data: seq<Pending>)
      requires Pooled({}) && K == Spare()
      modifies this`tmp, this`pool, this`extra
      ensures tmp == null && pool == [] && extra == Total(data) && Tallies(data, K) && Ledger(blocks, K)
      ensures freed == Singles(old(pool)) && |data| == |blocks|
    {
      hide Ledger, Tally, Gather, Pooled, Wholes, Strung, Distinct, Tallies, Total, Singles;
      freed := [];
      data := seq(pieces, _ => Pending(null, 0, 0));
      ghost var S: set<Node> := {};
      GatherStart(K);
      TalliesStart(K, data);
      while tmp != null
        invariant Gathering(K, S) && NodesOf(pool) <= K && tmp == First(pool)
        invariant |data| == |blocks| && Tallies(data, S) && extra == |pool| + Total(data)
        invariant freed + Singles(pool) == Singles(old(pool))
        decreases |pool|
      {
        Freeing(freed, pool);
        var ptr := TakeSpare(K, S);
        TalliesStep(K, S, ptr, data);
        if ptr.prealloc {
          data := data[ptr.index - 1 := Gather(data[ptr.index - 1], ptr)];
        } else {
          freed := freed + [Freed(ptr, 1, ptr.bytes)];
          extra := extra - 1;
        }
        S := S + {ptr};
      }
      GatherEnd(K, S);
      AllFreed(freed, pool);
    }

    /** `releaseTmp` of an empty tree with several preallocated blocks. */
    method ReleaseBlocks() returns (freed: seq<Freed>)
      requires Pooled({}) && pieces > 1
      modifies this`tmp, this`pool, this`extra, this`blocks
      ensures Pooled({}) && freed == Singles(old(pool)) + Wholes(old(blocks)) && pool == [] && blocks == Gone(old(blocks))
      ensures tmp == null && extra == 0 && pieces == |blocks|
    {
      hide Ledger, Tally, Pooled, Wholes, Strung, Distinct, Tallies, Singles;
      ghost var K: set<Node> := Spare();
      PiecesOf();
      var data;
      freed, data := GatherBlocks(K);
      ghost var single := freed;
      TotalPrefix(data, 0);
      WholesNone(blocks);
      for i := 0 to pieces
        invariant pieces == |blocks| == |data| && Ledger(blocks, K) && Tallies(data, K) && tmp == null && pool == []
        invariant freed == single + Wholes(blocks[..i]) && extra + Total(data[..i]) == Total(data)
        invariant blocks == old(blocks)
      {
        TalliesEnd(K, data, i);
        TotalPrefix(data, i + 1);
        WholesStep(blocks, i);
        if data[i].head != null {
          extra := extra - data[i].count;
          freed := freed + [Freed(data[i].head, data[i].count, data[i].size)];
        }
      }
      assert blocks[..pieces] == blocks && data[..pieces] == data;
      blocks := Gone(blocks);
      EmptyPool();
    }

    lemma PiecesOf()
      requires Pooled({})
      ensures pieces == |blocks|
    {
    }

    ghost predicate Valid()
      reads this, s.link.Keys, s.span.Keys, Spare()
    {
      Core() && Pooled(s.span.Keys)
    }

    /** The links, the header and the colours. */
    ghost predicate Structure()
      reads this`s, this`c, this`size, s.link.Keys
    {
      && s.head == header && RbShape.Tree(s) && Extremes(s) && Now(s)
      && Balanced(s, c, null, null, null) && Painted(c.paint)
      && size == |s.order|
    }

    /** Everything but the node pool. */
    ghost predicate Core()
      reads this`s, this`c, this`size, s.link.Keys
    {
      Structure() && StrictWeak(less) && Sorted(less, Keys())
    }

    ghost function Keys(): (ks: seq<Key>)
      reads this`s, s.link.Keys
      ensures (forall x :: x in s.order ==> x in s.link) ==> |ks| == |s.order| && forall i :: 0 <= i < |ks| ==> ks[i] == s.order[i].key
    {
      if forall x :: x in s.order ==> x in s.link then KeysOf(s.order) else []
    }

    /** What the records around one node say. */
    lemma Reads(x: Node)
      requires Core() && x in s.span
      ensures 0 <= s.span[x].lo <= s.span[x].pos < s.span[x].hi <= |s.order| == |Keys()| && s.order[s.span[x].pos] == x
      ensures x.key == Keys()[s.span[x].pos] && x != header
      ensures x.left == null <==> s.span[x].lo == s.span[x].pos
      ensures x.left != null ==> x.left in s.span && s.span[x.left].lo == s.span[x].lo && s.span[x.left].hi == s.span[x].pos
      ensures x.right == null <==> s.span[x].pos + 1 == s.span[x].hi
      ensures x.right != null ==> x.right in s.span && s.span[x.right].lo == s.span[x].pos + 1 && s.span[x.right].hi == s.span[x].hi
      ensures x in s.link && x.left == s.link[x].left && x.right == s.link[x].right
    {
      hide Sorted, Balanced, Painted, StrictWeak, Extremes;
      Around(s, x);
      InLink(s);
    }

    lemma Top()
      requires Core()
      ensures |Keys()| == |s.order| == size && Sorted(less, Keys()) && StrictWeak(less)
      ensures header.left == null <==> s.order == []
      ensures s.order == [] ==> header.parent == null && header.right == null
      ensures s.order != [] ==> header.left in s.span && s.span[header.left].lo == 0 && s.span[header.left].hi == |s.order|
      ensures s.order != [] ==> header.parent == s.order[0] && header.right == s.order[|s.order| - 1]
      ensures forall i :: 0 <= i < |s.order| ==> s.order[i] in s.span && s.span[s.order[i]].pos == i && Keys()[i] == s.order[i].key
    {
      InLink(s);
      if header.left != null { assert Linked(s, header.left); }
      forall i | 0 <= i < |s.order| ensures s.order[i] in s.span && s.span[s.order[i]].pos == i { assert At(s, i); }
    }

    /** `Tree::find_impl`; `steps` counts the iterations of its loop. */
    method FindImpl(x: Key) returns (r: Node?, steps: nat)
      requires Core()
      ensures r != null ==> r in s.span && Same(less, r.key, x)
      ensures r == null ==> forall i :: 0 <= i < |Keys()| ==> !Same(less, Keys()[i], x)
      ensures Pow2((steps + 1) / 2) <= size + 1
    {
      hide Core, Sorted, StrictWeak;
      Top();
      var current := header.left;
      steps := 0;
      ghost var lo, hi := 0, |s.order|;
      ghost var b := Deep();
      while current != null
        invariant 0 <= lo <= hi <= |s.order|
        invariant if current == null then lo == hi else current in s.span && s.span[current].lo == lo && s.span[current].hi == hi
        invariant Below(less, Keys(), x, lo) && Above(less, Keys(), x, hi)
        invariant steps + Budget(c, current) <= 2 * b && 0 <= Budget(c, current)
        decreases hi - lo, current != null
      {
        Reads(current);
        Step(current);
        steps := steps + 1;
        if less(x, current.key) {
          GoLeft(less, Keys(), x, s.span[current].pos);
          hi := s.span[current].pos;
          current := current.left;
        } else {
          if !less(current.key, x) {
            Pow2Grows((steps + 1) / 2, b);
            return current, steps;
          }
          GoRight(less, Keys(), x, s.span[current].pos);
          lo := s.span[current].pos + 1;
          current := current.right;
        }
      }
      Pow2Grows((steps + 1) / 2, b);
      forall i | 0 <= i < |Keys()| ensures !Same(less, Keys()[i], x) { FitsNoSame(less, Keys(), x, lo, i); }
      return null, steps;
    }

    /** `Tree::lower_bound_ptr`: the first node that is not less than `x`. */
    method LowerBoundPtr(x: Key) returns (saved: Node?, ghost k: nat, steps: nat)
      requires Core()
      ensures Below(less, Keys(), x, k) && NotBelow(less, Keys(), x, k)
      ensures saved == if k < |s.order| then s.order[k] else null
      ensures Pow2((steps + 1) / 2) <= size + 1
    {
      hide Core, Sorted, StrictWeak;
      Top();
      var current := header.left;
      saved, steps := null, 0;
      ghost var lo, hi := 0, |s.order|;
      ghost var b := Deep();
      while current != null
        invariant 0 <= lo <= hi <= |s.order|
        invariant if current == null then lo == hi else current in s.span && s.span[current].lo == lo && s.span[current].hi == hi
        invariant Below(less, Keys(), x, lo) && NotBelow(less, Keys(), x, hi)
        invariant saved == if hi < |s.order| then s.order[hi] else null
        invariant steps + Budget(c, current) <= 2 * b && 0 <= Budget(c, current)
        decreases hi - lo, current != null
      {
        Reads(current);
        Step(current);
        steps := steps + 1;
        if !less(current.key, x) {
          StayLeft(less, Keys(), x, s.span[current].pos);
          saved := current;
          hi := s.span[current].pos;
          current := current.left;
        } else {
          GoRight(less, Keys(), x, s.span[current].pos);
          lo := s.span[current].pos + 1;
          current := current.right;
        }
      }
      Pow2Grows((steps + 1) / 2, b);
      k := lo;
    }

    lemma Deep() returns (b: nat)
      requires Core()
      ensures header in s.link && header.left == s.link[header].left && Budget(c, header.left) == 2 * b && Pow2(b) <= size + 1
    {
      RootBudget(s, c);
      b := H(c, header.left);
    }

    lemma Step(x: Node)
      requires Core() && x in s.span
      ensures 0 <= Budget(c, x.left) && Budget(c, x.left) + 1 <= Budget(c, x)
      ensures 0 <= Budget(c, x.right) && Budget(c, x.right) + 1 <= Budget(c, x)
    {
      hide Sorted, StrictWeak;
      Reads(x);
      BudgetStep(s, c, x);
      BudgetNonNegative(s, c, x.left);
      BudgetNonNegative(s, c, x.right);
    }

    /* ---- where a key belongs ---- */

    /** The descent has narrowed the place of `x` to the nodes `[lo, hi)`. */
    ghost predicate Frontier(x: Key, current: Node?, parent: Node?, isLeft: bool, lo: int, hi: int)
      reads this`s, s.link.Keys
    {
      && 0 <= lo <= hi <= |s.order| && Below(less, Keys(), x, lo) && Above(less, Keys(), x, hi)
      && if current == null then
           lo == hi && parent != null && EmptyLink(s, parent, SideOf(isLeft)) && Gap(s, parent, SideOf(isLeft)) == lo
         else current in s.span && s.span[current].lo == lo && s.span[current].hi == hi
    }

    /** What any of the four routes must answer: the one empty link where the key belongs, or the node that has it. */
    ghost predicate Position(x: Key, unique: bool, current: Node?, parent: Node?, isLeft: bool)
      reads this`s, s.link.Keys
    {
      if unique then
        && current == null
        && (if s.order == [] then parent == null && isLeft
            else parent != null && EmptyLink(s, parent, SideOf(isLeft)) && Fits(less, Keys(), x, Gap(s, parent, SideOf(isLeft))))
      else current != null && current in s.span && current in s.link && Same(less, current.key, x)
    }

    /** `getInsertPositionUnique_search` */
    method Search(x: Key, current0: Node?, parent0: Node?, isLeft0: bool, ghost lo0: int, ghost hi0: int)
      returns (ok: bool, current: Node?, parent: Node?, isLeft: bool)
      requires Core() && s.order != [] && Frontier(x, current0, parent0, isLeft0, lo0, hi0)
      ensures Position(x, ok, current, parent, isLeft)
    {
      hide Core, Sorted, StrictWeak, Below, Above;
      Top();
      current, parent, isLeft := current0, parent0, isLeft0;
      ghost var lo, hi := lo0, hi0;
      while current != null
        invariant Frontier(x, current, parent, isLeft, lo, hi)
        decreases hi - lo, current != null
      {
        Reads(current);
        parent := current;
        if less(x, current.key) {
          GoLeft(less, Keys(), x, s.span[current].pos);
          isLeft := true;
          hi := s.span[current].pos;
          current := current.left;
        } else {
          if !less(current.key, x) {
            return false, current, parent, isLeft;
          }
          GoRight(less, Keys(), x, s.span[current].pos);
          isLeft := false;
          lo := s.span[current].pos + 1;
          current := current.right;
        }
      }
      return true, current, parent, isLeft;
    }

    /** The key belongs between the node before `h` and `h`. */
    lemma HintBefore(x: Key, h: Node)
      requires Core() && h in s.span && 0 < s.span[h].pos <= |s.order| && less(x, h.key) && less(s.order[s.span[h].pos - 1].key, x)
      ensures Frontier(x, h.left, h, true, s.span[h].lo, s.span[h].pos)
    {
      hide Core, Sorted, StrictWeak, Below, Above, Extremes, RbShape.Tree, Now, Balanced, Painted;
      Top();
      Reads(h);
      GoLeft(less, Keys(), x, s.span[h].pos);
      GoRight(less, Keys(), x, s.span[h].pos - 1);
      BelowLess(less, Keys(), x, s.span[h].pos, s.span[h].lo);
    }

    /** The key belongs between `h` and the node behind `h`, if there is one. */
    lemma HintBehind(x: Key, h: Node)
      requires Core() && h in s.span && 0 <= s.span[h].pos < |s.order| && less(h.key, x)
      requires s.span[h].pos + 1 < |s.order| ==> less(x, s.order[s.span[h].pos + 1].key)
      ensures Frontier(x, h.right, h, false, s.span[h].pos + 1, s.span[h].hi)
      ensures s.span[h].pos + 1 == |s.order| ==> h.right == null && Position(x, true, null, h, false)
    {
      hide Core, Sorted, StrictWeak, Below, Above, Extremes, RbShape.Tree, Now, Balanced, Painted;
      Top();
      Reads(h);
      var i := s.span[h].pos;
      GoRight(less, Keys(), x, i);
      if i + 1 < |s.order| {
        GoLeft(less, Keys(), x, i + 1);
        AboveMore(less, Keys(), x, i + 1, s.span[h].hi);
      } else {
        AboveEnd(less, Keys(), x);
      }
    }

    /** `getInsertPositionUnique_tryHint`: a hint is a node or the end; `done` is the source's return value. */
    method TryHint(x: Key, hint: Node?)
      returns (done: bool, current: Node?, parent: Node?, isLeft: bool)
      requires Core() && s.order != [] && (hint == null || hint == header || hint in s.span)
      ensures if done then Position(x, current == null, current, parent, isLeft) else current == null
    {
      hide Core, Sorted, StrictWeak, Below, Above, Extremes, RbShape.Tree, Now, Balanced, Painted, Frontier;
      Top();
      current, parent, isLeft := hint, null, false;
      if current == null { return false, current, parent, isLeft; }
      if current == header.parent || current == header {
        return false, null, parent, isLeft;
      }
      var h := current;
      Reads(h);
      CoreTree();
      if less(x, h.key) {
        var p := Decrement(current, s);
        if less(p.key, x) {
          HintBefore(x, h);
          parent := current;
          current := current.left;
          isLeft := true;
          var ok;
          ok, current, parent, isLeft := Search(x, current, parent, isLeft, s.span[h].lo, s.span[h].pos);
          return true, current, parent, isLeft;
        }
      } else if less(h.key, x) {
        var p := Increment(current, s);
        if p == header {
          HintBehind(x, h);
          parent := current;
          current := current.right;
          isLeft := false;
          return true, current, parent, isLeft;
        } else if less(x, p.key) {
          HintBehind(x, h);
          parent := current;
          current := current.right;
          isLeft := false;
          var ok;
          ok, current, parent, isLeft := Search(x, current, parent, isLeft, s.span[h].pos + 1, s.span[h].hi);
          return true, current, parent, isLeft;
        }
      } else {
        return true, current, parent, isLeft;
      }
      return false, null, parent, isLeft;
    }

    /** Hints never matter: any two answers that meet `Position` are the same answer. */
    lemma PositionUnique(x: Key, u1: bool, c1: Node?, p1: Node?, l1: bool, u2: bool, c2: Node?, p2: Node?, l2: bool)
      requires Core() && Position(x, u1, c1, p1, l1) && Position(x, u2, c2, p2, l2)
      ensures u1 == u2 && c1 == c2 && (u1 ==> p1 == p2 && l1 == l2)
    {
      hide RbShape.Tree, Extremes, Now, Balanced, Painted, Sorted, StrictWeak, Below, Above;
      Top();
      if u1 {
        if s.order != [] {
          var k := Gap(s, p1, SideOf(l1));
          if u2 {
            FitsOnce(less, Keys(), x, k, Gap(s, p2, SideOf(l2)));
            LinkUnique(s, p1, SideOf(l1), p2, SideOf(l2));
          } else {
            Reads(c2);
            FitsNoSame(less, Keys(), x, k, s.span[c2].pos);
          }
        } else if !u2 {
          Reads(c2);
        }
      } else {
        Reads(c1);
        if u2 {
          FitsNoSame(less, Keys(), x, Gap(s, p2, SideOf(l2)), s.span[c1].pos);
        } else {
          Reads(c2);
          SameOnce(less, Keys(), x, s.span[c1].pos, s.span[c2].pos);
        }
      }
    }

    lemma CoreTree()
      requires Core()
      ensures s.head == header && RbShape.Tree(s) && Now(s)
    {
    }

    /** `getInsertPositionUnique_tryLeft` */
    method TryLeft(x: Key) returns (done: bool, current: Node?, parent: Node?, isLeft: bool)
      requires Core() && s.order != []
      ensures done ==> Position(x, current == null, current, parent, isLeft)
      ensures !done ==> current == null
    {
      hide Core, Sorted, StrictWeak, Below, Above;
      Top();
      current, parent, isLeft := null, null, false;
      var l := header.parent;
      if l != null {
        Reads(l);
        if less(x, l.key) {
          GoLeft(less, Keys(), x, 0);
          BelowStart(less, Keys(), x);
          return true, null, l, true;
        } else if !less(l.key, x) {
          return true, l, parent, isLeft;
        }
      }
      return false, current, parent, isLeft;
    }

    /** `getInsertPositionUnique_tryRight` */
    method TryRight(x: Key) returns (done: bool, current: Node?, parent: Node?, isLeft: bool)
      requires Core() && s.order != []
      ensures done ==> Position(x, current == null, current, parent, isLeft)
      ensures !done ==> current == null
    {
      hide Core, Sorted, StrictWeak, Below, Above;
      Top();
      current, parent, isLeft := null, null, false;
      var r := header.right;
      if r != null {
        Reads(r);
        if less(r.key, x) {
          GoRight(less, Keys(), x, |s.order| - 1);
          AboveEnd(less, Keys(), x);
          return true, null, r, false;
        } else if !less(x, r.key) {
          return true, r, parent, isLeft;
        }
      }
      return false, current, parent, isLeft;
    }

    /** `getInsertPositionUnique` */
    method GetInsertPositionUnique(x: Key, hint: Node?)
      returns (unique: bool, current: Node?, parent: Node?, isLeft: bool)
      requires Core() && (hint == null || hint == header || hint in s.span)
      ensures Position(x, unique, current, parent, isLeft)
    {
      hide Core, Sorted, StrictWeak, Below, Above, Same;
      Top();
      if size == 0 {
        return true, null, null, true;
      }
      var done;
      done, current, parent, isLeft := TryHint(x, hint);
      if done { return current == null, current, parent, isLeft; }
      done, current, parent, isLeft := TryLeft(x);
      if done { return current == null, current, parent, isLeft; }
      done, current, parent, isLeft := TryRight(x);
      if done { return current == null, current, parent, isLeft; }
      BelowStart(less, Keys(), x);
      AboveEnd(less, Keys(), x);
      unique, current, parent, isLeft := Search(x, header.left, null, false, 0, |s.order|);
    }

    /* ---- makeInsert ---- */

    /** The leaf case of `makeInsert`. */
    method HangLeaf(n: Node, parent: Node, isLeft: bool)
      requires header in s.link && header !in s.span && n !in s.link && Now(s) && s.head == header
      requires n.left == null && n.right == null && n.parent == parent && EmptyLink(s, parent, SideOf(isLeft))
      modifies header`parent, header`right, parent`left, parent`right
      ensures Is(n, Link(parent, null, null)) && Is(parent, SetChild(s.link[parent], SideOf(isLeft), n))
      ensures header.left == s.link[header].left
      ensures header.parent == if isLeft && s.link[header].parent == parent then n else s.link[header].parent
      ensures header.right == if !isLeft && s.link[header].right == parent then n else s.link[header].right
      ensures forall w {:trigger Is(w, s.link[w])} :: w in s.link && w != header && w != parent ==> Is(w, s.link[w])
    {
      if isLeft {
        if parent == header.parent { header.parent := n; }
        parent.left := n;
      } else {
        if parent == header.right { header.right := n; }
        parent.right := n;
      }
    }

    /** The links of `makeInsert`: the first node becomes the root, any other fills its empty link. */
    method Hang(n: Node, parent: Node?, isLeft: bool) returns (ghost t: Shape)
      requires RbShape.Tree(s) && Extremes(s) && Now(s) && s.head == header && n !in s.link && n.left == null && n.right == null
      requires if s.order == [] then parent == null else parent != null && parent in s.span && EmptyLink(s, parent, SideOf(isLeft))
      modifies n`parent, s.link.Keys`parent, s.link.Keys`left, s.link.Keys`right
      ensures Now(t) && RbShape.Tree(t) && Extremes(t) && t.head == header && t.link.Keys == s.link.Keys + {n} && n in t.span
      ensures parent == null ==> IsFirst(t, n)
      ensures parent != null ==> Grafted(s, t, n, parent, SideOf(isLeft))
    {
      hide Linked, RootLinked, Extremes, At;
      n.parent := parent;
      if parent != null {
        assert parent in s.link && parent != header;
        HangLeaf(n, parent, isLeft);
        t := GraftSeen(s, n, parent, SideOf(isLeft));
      } else {
        EmptyKeys(s);
        header.parent := n;
        header.right := n;
        header.left := n;
        n.parent := header;
        t := FirstSeen(header, n);
      }
    }

    method HangRed(n: Node, parent: Node?, isLeft: bool) returns (ghost t: Shape, ghost c1: Colours)
      requires Structure() && n !in s.link && n.left == null && n.right == null && n.color == Red
      requires if s.order == [] then parent == null else parent != null && parent in s.span && EmptyLink(s, parent, SideOf(isLeft))
      modifies n`parent, s.link.Keys`parent, s.link.Keys`left, s.link.Keys`right
      ensures Now(t) && RbShape.Tree(t) && Extremes(t) && t.head == header && t.link.Keys == s.link.Keys + {n} && n in t.span
      ensures Balanced(t, c1, null, n, null) && Painted(c1.paint) && n in c1.paint && c1.paint[n] == Red
      ensures header in t.link
      ensures var k := LinkIndex(s, parent, isLeft); 0 <= k <= |s.order| && t.order == s.order[..k] + [n] + s.order[k..]
    {
      hide Balanced, RbShape.Tree, Now, Extremes, EmptyLink;
      t := Hang(n, parent, isLeft);
      HungColours(s, t, c, n, parent, SideOf(isLeft));
      c1 := PaintLeaf(c, n);
    }

    /** `Tree::makeInsert`, without the keys. */
    method Attach(n: Node, parent: Node?, isLeft: bool) returns (ghost k: int)
      requires Structure() && n !in s.link && n.left == null && n.right == null && n.color == Red
      requires if s.order == [] then parent == null else parent != null && parent in s.span && EmptyLink(s, parent, SideOf(isLeft))
      modifies this`size, this`s, this`c, n`parent, n`left, n`right, n`color
      modifies s.link.Keys`parent, s.link.Keys`left, s.link.Keys`right, s.link.Keys`color
      ensures Structure() && s.link.Keys == old(s.link.Keys) + {n} && n in s.span
      ensures k == LinkIndex(old(s), parent, isLeft) && 0 <= k <= |old(s.order)|
      ensures s.order == old(s.order)[..k] + [n] + old(s.order)[k..]
    {
      hide Balanced, RbShape.Tree, Now, Extremes, Painted, EmptyLink, LinkIndex, Reordered, Structure;
      StructureParts();
      k := LinkIndex(s, parent, isLeft);
      ghost var t1, c1 := HangRed(n, parent, isLeft);
      ghost var t, c2 := Insert(header, n, t1, c1);
      ReorderedIs(t1, t);
      s, c := t, c2;
      size := size + 1;
      StructureMade();
    }

    lemma StructureParts()
      requires Structure()
      ensures s.head == header && header in s.link && size == |s.order|
    {}

    lemma StructureMade()
      requires s.head == header && RbShape.Tree(s) && header in s.link && Extremes(s) && Now(s)
      requires Balanced(s, c, null, null, null) && Painted(c.paint) && size == |s.order|
      ensures Structure()
    {}

    /** `Tree::makeInsert` */
    method MakeInsert(n: Node, parent: Node?, isLeft: bool) returns (ghost k: nat)
      requires Core() && Position(n.key, true, null, parent, isLeft)
      requires n !in s.link && n.left == null && n.right == null && n.color == Red
      modifies this`size, this`s, this`c, n`parent, n`left, n`right, n`color
      modifies s.link.Keys`parent, s.link.Keys`left, s.link.Keys`right, s.link.Keys`color
      ensures Core() && s.link.Keys == old(s.link.Keys) + {n} && s.span.Keys == old(s.span.Keys) + {n} && n in s.span
      ensures k <= |old(s.order)| && Fits(less, old(Keys()), n.key, k)
      ensures s.order == old(s.order)[..k] + [n] + old(s.order)[k..]
      ensures Keys() == old(Keys())[..k] + [n.key] + old(Keys())[k..]
    {
      hide Sorted, StrictWeak, Below, Above, Structure;
      Top();
      ghost var order0, ks, span0 := s.order, Keys(), s.span.Keys;
      SpanKeys();
      if s.order == [] { BelowStart(less, ks, n.key); AboveEnd(less, ks, n.key); }
      k := Attach(n, parent, isLeft);
      StructureInLink();
      assert ks == KeysOf(order0);
      KeysGrow(order0, n, k);
      SpanKeys();
      assert s.span.Keys == span0 + {n};
      InsertSorted(less, ks, n.key, k);
    }

    lemma SpanKeys()
      requires Core() || Structure()
      ensures header in s.link && header !in s.span && s.link.Keys == s.span.Keys + {header} && s.head == header
    {
    }

    lemma StructureInLink()
      requires Structure()
      ensures forall x :: x in s.order ==> x in s.link
    {
      InLink(s);
    }

    /* ---- deleteNode ---- */

    /** `setright`: the header lets go of the last node. */
    method ReleaseRight(z: Node) returns (ghost s1: Shape)
      requires Structure() && z in s.span
      modifies header`right
      ensures SameButEnds(s1, s, c) && Now(s1) && s.order != [] && header.parent == s.order[0]
      ensures 0 <= s.span[z].pos < |s.order| && header.right == LastWithout(s.order, s.span[z].pos)
    {
      hide Balanced, RbShape.Tree, Extremes, Painted;
      InSpan(s, c);
      EndsOf(s);
      PlacedOf(s, z);
      if z == header.right {
        if z == header.parent { header.right := null; } else {
          var p := Decrement(z, s);
          header.right := p;
        }
      }
      s1 := HeaderSeen(s, c);
    }

    /** `setleft`: the header lets go of the first node. */
    method ReleaseLeft(z: Node, ghost s2: Shape) returns (ghost s1: Shape)
      requires SameButEnds(s2, s, c) && s.head == header && Now(s2) && z in s.span && s.order != [] && header.parent == s.order[0]
      requires 0 <= s.span[z].pos < |s.order| && header.right == LastWithout(s.order, s.span[z].pos)
      modifies header`parent
      ensures SameButEnds(s1, s, c) && Now(s1) && EndsWithout(s1, s.span[z].pos)
    {
      hide Balanced, RbShape.Tree, LastWithout;
      PlacedOf(s2, z);
      LastIsLast(s.order, s.span[z].pos);
      FirstAt(s2);
      if z == header.parent {
        var q := Increment(z, s2);
        header.parent := if q == header then null else q;
      }
      s1 := HeaderSeen(s2, c);
    }

    /** The header lets go of `z`, a node with at most one child. */
    method ReleaseEnds(z: Node) returns (ghost s1: Shape)
      requires Structure() && z in s.span
      modifies header`parent, header`right
      ensures SameButEnds(s1, s, c) && Now(s1) && EndsWithout(s1, s.span[z].pos) && Painted(c.paint)
    {
      hide Balanced, RbShape.Tree, Extremes, LastWithout, SameButEnds, EndsWithout, Now;
      ghost var s2 := ReleaseRight(z);
      s1 := ReleaseLeft(z, s2);
    }

    /** The record that really leaves: `z` itself, or its predecessor at the end of the left subtree. */
    method ChooseLeaving(z: Node) returns (y: Node, ghost s1: Shape)
      requires Structure() && z in s.span
      modifies header`parent, header`right
      ensures SameButEnds(s1, s, c) && Now(s1) && EndsWithout(s1, s.span[z].pos) && Painted(c.paint)
      ensures y in s.span && (y == z || (s.span[y].pos == s.span[z].pos - 1 && s.link[z].left != null && s.link[z].right != null))
      ensures OnlyChild(s1, y, if y.left != null then y.left else y.right)
    {
      hide Balanced, RbShape.Tree, Extremes, Painted, Now, EndsWithout, SameButEnds;
      InSpan(s, c);
      Around(s, z);
      Sees(s, c, z);
      if z.left == null || z.right == null {
        y := z;
        s1 := ReleaseEnds(z);
      } else {
        y := Rightmost(z.left, s);
        s1 := s;
        KeptEnds(s, c, z);
      }
      ChosenChild(s, s1, c, y, z);
    }

    /** The colour side of a splice without a child: a black leaf is first made weightless by `Remove`. */
    method CutLeaf(y: Node, ghost s1: Shape) returns (ghost t: Shape, ghost c2: Colours)
      requires RbShape.Tree(s1) && Now(s1) && Balanced(s1, c, null, null, null) && Painted(c.paint) && s1.head == header
      requires OnlyChild(s1, y, null)
      modifies s1.link.Keys`parent, s1.link.Keys`left, s1.link.Keys`right, s1.link.Keys`color
      ensures RbShape.Tree(t) && Now(t) && Balanced(t, c2, null, null, null) && Painted(c2.paint)
      ensures Shortened(s1, t, y)
    {
      hide Balanced, RbShape.Tree, Now, Painted, OnlyChild, Shortened, Bypassed, Phantom, Under, H;
      ghost var s2, c1 := s1, c;
      ghost var ph: Node? := null;
      LeafIn(s1, c, y);
      Sees(s1, c, y);
      if y.color == Black {
        ghost var c0 := Haunt(s1, c, y);
        ph := y;
        s2, c1 := Remove(header, y, y, s1, c0);
        LeafStill(s2, c1, y);
      }
      t := SplicePainted(y, null, s2, c1);
      c2 := Forget(c1, y);
      CutColours(s1, s2, t, c1, y, ph);
    }

    /** The splice with a child: the red child is left one black node short. */
    method CutAbove(y: Node, x: Node, ghost s1: Shape) returns (ghost t: Shape, ghost c2: Colours)
      requires RbShape.Tree(s1) && Now(s1) && Balanced(s1, c, null, null, null) && Painted(c.paint) && s1.head == header
      requires OnlyChild(s1, y, x)
      modifies s1.link.Keys`parent, s1.link.Keys`left, s1.link.Keys`right
      ensures RbShape.Tree(t) && Now(t) && Balanced(t, c2, x, x, null) && Painted(c2.paint)
      ensures Shortened(s1, t, y) && x in t.span && x in c2.paint && c2.paint[x] == Red
    {
      hide Balanced, RbShape.Tree, Now, Painted, OnlyChild, Shortened, Bypassed, H;
      t := SplicePainted(y, x, s1, c);
      c2 := Forget(c, y);
      AboveColours(s1, t, c, y, x);
    }

    /** `y` takes the place of `z`. */
    method TakePlace(z: Node, y: Node, ghost x: Node?, ghost t: Shape, ghost c2: Colours) returns (ghost u: Shape, ghost c3: Colours)
      requires RbShape.Tree(t) && Now(t) && Balanced(t, c2, x, x, null) && Painted(c2.paint) && t.head == header
      requires z in t.span && y !in t.link && x != y && x != z
      modifies y`parent, y`left, y`right, y`color, t.link.Keys`parent, t.link.Keys`left, t.link.Keys`right
      ensures RbShape.Tree(u) && Now(u) && Balanced(u, c3, x, x, null) && Painted(c3.paint)
      ensures Swapped(t, u, z, y) && y in c3.paint && y.color == c3.paint[y]
      ensures x != null && x in c2.paint ==> x in c3.paint && c3.paint[x] == c2.paint[x]
    {
      hide Balanced, RbShape.Tree, Now, Replaceable, Linked, Swapped;
      ReplaceableOf(t, z, y);
      PlacedOf(t, z);
      BalancedDomains(t, c2, x);
      Replace(z, y, t);
      u := ReplacedShape(t, z, y);
      ReplaceSeen(t, z, y);
      c3 := Recast(c2, z, y);
      ReplaceKeepsTree(t, u, z, y);
      ReplaceColours(t, u, c2, z, y, x);
      SwappedOf(t, u, z, y);
    }

    /** The case of `deleteNode` without a child: cut off first, then let the leaf take over the place of `z`. */
    method RemoveLeaf(z: Node, y: Node, ghost s1: Shape) returns (ghost u: Shape, ghost c3: Colours)
      requires Leavers(s1, z, y, null) && SameButEnds(s1, s, c) && Now(s1) && Painted(c.paint) && s.head == header
      modifies s.link.Keys`parent, s.link.Keys`left, s.link.Keys`right, s.link.Keys`color
      ensures RbShape.Tree(u) && Now(u) && Balanced(u, c3, null, null, null) && Painted(c3.paint) && Without(s1, u, z)
    {
      hide Balanced, RbShape.Tree, Now, Painted, OnlyChild, Shortened, Swapped, Without;
      LeaversIn(s1, z, y, null);
      u, c3 := CutLeaf(y, s1);
      ghost var t := u;
      ShortenedIn(s1, t, z, y, null);
      if y != z {
        u, c3 := TakePlace(z, y, null, t, c3);
        SwapAfter(s1, t, u, z, y);
      }
    }

    /** The case of `deleteNode` with a child: the child goes to the place of `y`, `y` to the place of `z`, then the colours are repaired. */
    method RemoveAbove(z: Node, y: Node, x: Node, ghost s1: Shape) returns (ghost u: Shape, ghost c3: Colours)
      requires Leavers(s1, z, y, x) && SameButEnds(s1, s, c) && Now(s1) && Painted(c.paint) && s.head == header
      modifies s.link.Keys`parent, s.link.Keys`left, s.link.Keys`right, s.link.Keys`color
      ensures RbShape.Tree(u) && Now(u) && Balanced(u, c3, null, null, null) && Painted(c3.paint) && Without(s1, u, z)
    {
      hide Balanced, RbShape.Tree, Now, Painted, OnlyChild, Shortened, Swapped, Without;
      LeaversIn(s1, z, y, x);
      u, c3 := CutAbove(y, x, s1);
      ghost var t := u;
      ShortenedIn(s1, t, z, y, x);
      if y != z {
        u, c3 := TakePlace(z, y, x, t, c3);
        SwapAfter(s1, t, u, z, y);
      } else {
        BalancedDomains(t, c3, x);
        RedApart(y, u, c3);
      }
      WithoutIs(s1, u, z);
      ghost var u1, c4 := u, c3;
      if y.color == Black {
        u, c3 := Remove(header, x, null, u1, c4);
        HeadIn(u);
        WithoutKept(s1, u1, u, z);
      } else {
        c3 := SetColor(x, Black, u, c4);
        Finish(u, c4, c3, x, null);
      }
    }

    /** The record that has left the tree turns red, which no other record notices. */
    method RedApart(y: Node, ghost u: Shape, ghost c3: Colours)
      requires y !in u.link && y !in c3.paint && Now(u) && Painted(c3.paint)
      modifies y`color
      ensures Now(u) && Painted(c3.paint) && y.color == Red
    {
      y.color := Red;
    }

    /** The work of `deleteNode` on the records. */
    method Unhook(z: Node) returns (ghost u: Shape, ghost c3: Colours, ghost k: nat)
      requires Structure() && z in s.span
      modifies s.link.Keys`parent, s.link.Keys`left, s.link.Keys`right, s.link.Keys`color
      ensures RbShape.Tree(u) && Extremes(u) && Now(u) && Balanced(u, c3, null, null, null) && Painted(c3.paint) && u.head == header
      ensures u.link.Keys == s.link.Keys - {z} && u.span.Keys == s.span.Keys - {z}
      ensures k < |s.order| && s.order[k] == z && u.order == s.order[..k] + s.order[k + 1..]
    {
      hide Balanced, RbShape.Tree, Now, Extremes, Painted, OnlyChild, EndsWithout, Without, SameButEnds;
      HeadIn(s);
      var y, s1 := ChooseLeaving(z);
      SameIn(s1, s, c, z);
      var x := if y.left != null then y.left else y.right;
      if x == null {
        u, c3 := RemoveLeaf(z, y, s1);
      } else {
        u, c3 := RemoveAbove(z, y, x, s1);
      }
      WithoutEnds(s1, u, z);
      WithoutIs(s1, u, z);
      k := s1.span[z].pos;
    }

    /** `Tree::deleteNode`, without the keys and the node pool. */
    method Detach(z: Node) returns (ghost k: nat)
      requires Structure() && z in s.span
      modifies this`size, this`s, this`c
      modifies s.link.Keys`parent, s.link.Keys`left, s.link.Keys`right, s.link.Keys`color
      ensures Structure() && s.link.Keys == old(s.link.Keys) - {z} && s.span.Keys == old(s.span.Keys) - {z}
      ensures k < |old(s.order)| && old(s.order)[k] == z && s.order == old(s.order)[..k] + old(s.order)[k + 1..]
    {
      hide Balanced, RbShape.Tree, Now, Extremes, Painted;
      ghost var u, c3;
      u, c3, k := Unhook(z);
      s, c := u, c3;
      size := size - 1;
    }

    /* ---- the public operations ---- */

    /** `constructNode`: a node for `x`, taken from the pool if it has one. */
    method ConstructNode(x: Key, addr: nat, room: nat) returns (n: Node)
      requires Valid()
      modifies this`tmp, this`pool, this`allocations, this`extra, Spare()
      ensures Core() && Pooled(s.span.Keys + {n}) && n !in s.link
      ensures n.left == null && n.right == null && n.color == Red && n.key == x
      ensures old(pool) == [] ==> pool == [] && !n.prealloc && allocations == old(allocations) + 1
      ensures old(pool) != [] ==> n == old(pool)[0] && pool == old(pool)[1..] && allocations == old(allocations)
      ensures fresh(n) || n in old(Spare())
      ensures Keys() == old(Keys())
    {
      hide Core, Pooled, Structure;
      CoreApart();
      n := AllocateNode(addr, room, s.span.Keys);
      Make(n, x);
    }

    /** The record of the allocated node is set. */
    method Make(n: Node, x: Key)
      requires Core() && Pooled(s.span.Keys + {n}) && n !in s.link
      modifies n
      ensures Core() && Pooled(s.span.Keys + {n}) && Keys() == old(Keys())
      ensures n.left == null && n.right == null && n.color == Red && n.key == x
    {
      hide Core, Ledger;
      SpanKeys();
      n.parent, n.left, n.right, n.color, n.key := null, null, null, Red, x;
    }

    /** The records in the tree are no spare records. */
    lemma CoreApart()
      requires Valid()
      ensures Core() && s.link.Keys == s.span.Keys + {header} && Spare() !! s.link.Keys
    {
      hide Ledger;
      SpanKeys();
    }

    /** `getInsertPositionUnique`, with the new node in hand. */
    method Locate(n: Node, x: Key, hint: Node?) returns (unique: bool, current: Node?, parent: Node?, isLeft: bool)
      requires Core() && Pooled(s.span.Keys + {n}) && (hint == null || hint == header || hint in s.span)
      ensures Core() && Pooled(s.span.Keys + {n}) && Position(x, unique, current, parent, isLeft)
      ensures Keys() == old(Keys())
    {
      hide Core, Ledger, Position;
      assert forall y :: y in Spare() ==> allocated(y);
      unique, current, parent, isLeft := GetInsertPositionUnique(x, hint);
    }

    /** A node that is not in the tree goes to the pool or back to the allocator. */
    method Discard(n: Node)
      requires Core() && Pooled(s.span.Keys + {n}) && n !in s.link
      modifies this`tmp, this`pool, this`extra, n`parent
      ensures Valid() && Keys() == old(Keys()) && |pool| >= |old(pool)|
      ensures pool == if old(pool) == [] || n.prealloc || persistent then [n] + old(pool) else old(pool)
    {
      hide Core, Chain, Ledger, Pooled, Structure;
      SpanKeys();
      DestroyNode(n, s.span.Keys + {n});
      assert s.span.Keys + {n} - {n} == s.span.Keys;
    }

    /** The node becomes part of the tree and no longer counts as being in hand. */
    method Join(n: Node, parent: Node?, isLeft: bool) returns (ghost k: nat)
      requires Core() && Pooled(s.span.Keys + {n}) && n !in s.link && Position(n.key, true, null, parent, isLeft)
      requires n.left == null && n.right == null && n.color == Red
      modifies this`size, this`s, this`c, n`parent, n`left, n`right, n`color
      modifies s.link.Keys`parent, s.link.Keys`left, s.link.Keys`right, s.link.Keys`color
      ensures Valid() && k <= |old(s.order)| && Fits(less, old(Keys()), n.key, k)
      ensures s.order == old(s.order)[..k] + [n] + old(s.order)[k..] && n in s.span && s.link.Keys == old(s.link.Keys) + {n}
      ensures Keys() == old(Keys())[..k] + [n.key] + old(Keys())[k..]
    {
      hide Core, Chained, Ledger, Position, Fits;
      InHand(n);
      k := MakeInsert(n, parent, isLeft);
    }

    lemma InHand(n: Node)
      requires Core() && Pooled(s.span.Keys + {n})
      ensures n !in pool && header !in pool && Spare() !! s.link.Keys && s.link.Keys == s.span.Keys + {header}
    {
      SpanKeys();
    }

    /** The new node goes to the position found for it, or is not needed. */
    method Settle(n: Node, unique: bool, current: Node?, parent: Node?, isLeft: bool) returns (r: Node, ghost k: nat)
      requires Core() && StrictWeak(less) && Pooled(s.span.Keys + {n}) && n !in s.link && Position(n.key, unique, current, parent, isLeft)
      requires n.left == null && n.right == null && n.color == Red
      modifies this`size, this`s, this`c, this`tmp, this`pool, this`extra, n`parent, n`left, n`right, n`color
      modifies s.link.Keys`parent, s.link.Keys`left, s.link.Keys`right, s.link.Keys`color
      ensures Valid() && r in s.span && k < |s.order| && s.order[k] == r && Same(less, r.key, n.key)
      ensures unique ==> r == n && k <= |old(s.order)| && s.order == old(s.order)[..k] + [r] + old(s.order)[k..]
      ensures unique ==> Fits(less, old(Keys()), n.key, k) && Keys() == old(Keys())[..k] + [n.key] + old(Keys())[k..]
      ensures unique ==> pool == old(pool) && s.link.Keys == old(s.link.Keys) + {n}
      ensures !unique ==> s == old(s) && Keys() == old(Keys()) && |pool| >= |old(pool)| && NodesOf(pool) <= NodesOf(old(pool)) + {n}
      ensures !unique ==> pool == Destroyed(old(pool), n, persistent)
    {
      hide Core, Pooled, Fits, Valid;
      if !unique {
        Index(current);
        r, k := current, s.span[current].pos;
        Discard(n);
      } else {
        SelfSame(less, n.key);
        r := n;
        k := Join(n, parent, isLeft);
      }
    }

    /** The new node's position is found, and it goes there or to the pool. */
    method Place(n: Node, hint: Node?) returns (r: Node, inserted: bool, ghost k: nat)
      requires Core() && Pooled(s.span.Keys + {n}) && n !in s.link && (hint == null || hint == header || hint in s.span)
      requires n.left == null && n.right == null && n.color == Red
      modifies this`size, this`s, this`c, this`tmp, this`pool, this`extra, n`parent, n`left, n`right, n`color
      modifies s.link.Keys`parent, s.link.Keys`left, s.link.Keys`right, s.link.Keys`color
      ensures Valid() && r in s.span && k < |s.order| && s.order[k] == r && Same(less, r.key, n.key)
      ensures inserted ==> k <= |old(s.order)| && s.order == old(s.order)[..k] + [r] + old(s.order)[k..]
      ensures inserted ==> Fits(less, old(Keys()), n.key, k) && Keys() == old(Keys())[..k] + [n.key] + old(Keys())[k..]
      ensures inserted ==> r == n && pool == old(pool)
      ensures !inserted ==> s.order == old(s.order) && Keys() == old(Keys()) && pool == Destroyed(old(pool), n, persistent)
      ensures Repr() <= old(Repr()) + {n}
    {
      hide Core, Pooled, Fits, Valid, Same, Position;
      Weak();
      var unique, current, parent, isLeft := Locate(n, n.key, hint);
      inserted := unique;
      r, k := Settle(n, unique, current, parent, isLeft);
    }

    lemma Weak()
      requires Core()
      ensures StrictWeak(less)
    {}

    /** `insertNodeUnique` and `insertNodeUniqueHint`: the node is built first and goes to the pool if its key is present. */
    method EmplaceHint(hint: Node?, x: Key, addr: nat, room: nat) returns (r: Node, inserted: bool, ghost k: nat)
      requires Valid() && (hint == null || hint == header || hint in s.span)
      modifies this`size, this`s, this`c, this`tmp, this`pool, this`allocations, Spare(), this`extra
      modifies s.link.Keys`parent, s.link.Keys`left, s.link.Keys`right, s.link.Keys`color
      ensures Valid() && r in s.span && k < |s.order| && s.order[k] == r && Same(less, r.key, x)
      ensures inserted ==> k <= |old(s.order)| && s.order == old(s.order)[..k] + [r] + old(s.order)[k..]
      ensures inserted ==> Fits(less, old(Keys()), x, k) && Keys() == old(Keys())[..k] + [x] + old(Keys())[k..]
      ensures !inserted ==> s.order == old(s.order) && Keys() == old(Keys())
      ensures allocations == old(allocations) + (if old(pool) == [] then 1 else 0) && |pool| >= |old(pool)| - 1
      ensures inserted ==> pool == (if old(pool) == [] then [] else old(pool)[1..]) && r.prealloc == NextFlag(Flags(old(pool)))
      ensures !inserted ==> Flags(pool) == Toss(NextFlag(Flags(old(pool))), Rest(Flags(old(pool))), persistent)
      ensures fresh(Repr() - old(Repr()))
    {
      hide Core, Pooled, Fits, Valid, Same, Flags, Toss, NextFlag, Rest, Destroyed;
      ValidCore();
      ghost var q := pool;
      var n := ConstructNode(x, addr, room);
      ghost var rest := pool;
      r, inserted, k := Place(n, hint);
      ThrownBack(q, n, rest, persistent);
    }

    /** What becomes of the spare nodes `q` when the first of them, or a node of its own, is thrown back. */
    static lemma ThrownBack(q: seq<Node>, n: Node, rest: seq<Node>, persistent: bool)
      requires if q == [] then !n.prealloc && rest == [] else n == q[0] && rest == q[1..]
      ensures n.prealloc == NextFlag(Flags(q)) && |Destroyed(rest, n, persistent)| >= |q| - 1
      ensures Flags(Destroyed(rest, n, persistent)) == Toss(NextFlag(Flags(q)), Rest(Flags(q)), persistent)
    {
      hide Flags, Toss, NextFlag, Rest, Destroyed;
      FirstFlag(q, n);
      DestroyedFlags(rest, n, persistent);
      DestroyedSize(rest, n, persistent);
    }

    lemma ValidCore()
      requires Valid()
      ensures Core() && StrictWeak(less)
    {
    }

    lemma Index(x: Node)
      requires Core() && x in s.span
      ensures 0 <= s.span[x].pos < |s.order| && s.order[s.span[x].pos] == x && x in s.link
    {
      Reads(x);
    }

    /** `Tree::deleteNode` on the ordered keys. */
    method DeleteKeyed(z: Node) returns (ghost k: nat)
      requires Valid() && z in s.span
      modifies this`size, this`s, this`c
      modifies s.link.Keys`parent, s.link.Keys`left, s.link.Keys`right, s.link.Keys`color
      ensures Core() && Pooled(s.span.Keys + {z}) && z !in s.link && z in old(s.link) && s.link.Keys <= old(s.link.Keys)
      ensures k < |old(s.order)| && old(s.order)[k] == z && s.order == old(s.order)[..k] + old(s.order)[k + 1..]
      ensures k < |old(Keys())| && Keys() == old(Keys())[..k] + old(Keys())[k + 1..]
    {
      hide Structure, Sorted, StrictWeak, Ledger, Chained;
      ghost var order0, ks, span0 := s.order, Keys(), s.span.Keys;
      CoreApart();
      k := Detach(z);
      SpanKeys();
      StructureInLink();
      assert s.span.Keys + {z} == span0;
      assert ks == KeysOf(order0);
      KeysShrink(order0, k);
      RemoveSorted(less, ks, k);
    }

    /** `Tree::deleteNode` */
    method DeleteNode(z: Node) returns (ghost k: nat)
      requires Valid() && z in s.span
      modifies this`size, this`s, this`c, this`tmp, this`pool, this`extra, s.link.Keys
      ensures Valid() && |pool| >= |old(pool)| && allocations == old(allocations) && Repr() <= old(Repr())
      ensures pool == if old(pool) == [] || z.prealloc || persistent then [z] + old(pool) else old(pool)
      ensures k < |old(s.order)| && old(s.order)[k] == z && s.order == old(s.order)[..k] + old(s.order)[k + 1..]
      ensures k < |old(Keys())| && Keys() == old(Keys())[..k] + old(Keys())[k + 1..]
    {
      hide Core, Pooled, Valid;
      k := DeleteKeyed(z);
      Discard(z);
    }

    /** `Tree::erase(pos)`: the answer is the successor, even if the record of the predecessor moves. */
    method Erase(pos: Node) returns (next: Node, ghost k: nat)
      requires Valid() && (pos == header || pos in s.span)
      modifies this`size, this`s, this`c, this`tmp, this`pool, this`extra, s.link.Keys
      ensures Valid() && allocations == old(allocations) && Repr() <= old(Repr())
      ensures pos == header ==> next == header && s.order == old(s.order) && Keys() == old(Keys()) && pool == old(pool)
      ensures pos != header ==> pool == Destroyed(old(pool), pos, persistent)
      ensures pos != header ==> k < |old(s.order)| && old(s.order)[k] == pos && s.order == old(s.order)[..k] + old(s.order)[k + 1..]
      ensures pos != header ==> k < |old(Keys())| && Keys() == old(Keys())[..k] + old(Keys())[k + 1..]
      ensures pos != header ==> next == if k < |s.order| then s.order[k] else header
    {
      hide Core, Pooled, Valid;
      ValidCore();
      k := 0;
      if pos != header {
        Index(pos);
        ghost var s0, i := s, s.span[pos].pos;
        assert forall y :: y in Spare() ==> allocated(y);
        var n := Next(pos);
        k := DeleteNode(pos);
        SamePlaces(s0, i, k);
        next := n;
      } else {
        next := pos;
      }
    }

    /** `operator++` on a position inside the tree. */
    method Next(x: Node) returns (n: Node)
      requires Core() && x in s.span
      ensures RbShape.Tree(s) && 0 <= s.span[x].pos < |s.order|
      ensures n == if s.span[x].pos + 1 < |s.order| then s.order[s.span[x].pos + 1] else header
    {
      hide Core;
      CoreTree();
      Top();
      Index(x);
      n := Increment(x, s);
    }

    /** `operator--` on any position but the first one. */
    method Prev(x: Node) returns (n: Node)
      requires Core() && s.order != [] && (x == header || (x in s.span && x != s.order[0]))
      ensures x == header ==> n == s.order[|s.order| - 1]
      ensures x != header ==> 0 < s.span[x].pos < |s.order| && n == s.order[s.span[x].pos - 1]
    {
      hide Core;
      CoreTree();
      Top();
      if x != header { Index(x); }
      n := Decrement(x, s);
    }

    /** Decrement undoes increment, from every position inside the tree. */
    method ThereAndBack(x: Node) returns (y: Node)
      requires Core() && x in s.span
      ensures y == x
    {
      hide Core, RbShape.Tree, Sorted, StrictWeak;
      Top();
      SpanKeys();
      Index(x);
      y := Next(x);
      y := Prev(y);
    }

    /** `Tree::begin` */
    method Begin() returns (n: Node)
      requires Core()
      ensures n == if s.order == [] then header else s.order[0]
    {
      hide Core;
      Top();
      n := if header.left != null then header.parent else header;
    }

    /** A whole iteration from `begin` visits the nodes in order and reaches `end` after `size` steps. */
    method Iterate() returns (visited: seq<Node>)
      requires Core()
      ensures visited == s.order && |visited| == size
    {
      hide Core;
      Top();
      SpanKeys();
      visited := [];
      var it := Begin();
      while it != header
        invariant |visited| <= |s.order| && visited == s.order[..|visited|]
        invariant it == if |visited| < |s.order| then s.order[|visited|] else header
        decreases |s.order| - |visited|
      {
        visited := visited + [it];
        it := Next(it);
      }
      assert visited == s.order[..|s.order|];
    }

    /** `Tree::erase_unique` */
    method EraseUnique(x: Key) returns (n: nat, ghost k: nat)
      requires Valid()
      modifies this`size, this`s, this`c, this`tmp, this`pool, this`extra, s.link.Keys
      ensures Valid() && allocations == old(allocations) && n <= 1 && Repr() <= old(Repr())
      ensures n == 0 ==> s.order == old(s.order) && pool == old(pool) && Keys() == old(Keys()) && forall i :: 0 <= i < |Keys()| ==> !Same(less, Keys()[i], x)
      ensures n == 1 ==> k < |old(Keys())| && Same(less, old(Keys())[k], x) && Keys() == old(Keys())[..k] + old(Keys())[k + 1..]
      ensures n == 1 ==> |old(s.order)| == |old(Keys())| && s.order == old(s.order)[..k] + old(s.order)[k + 1..]
      ensures n == 1 ==> pool == Destroyed(old(pool), old(s.order)[k], persistent)
    {
      hide Core, Pooled, Valid;
      ValidCore();
      assert forall y :: y in Spare() ==> allocated(y);
      var node, steps := FindImpl(x);
      k := 0;
      if node != null {
        KeyAt(node);
        ghost var s0, i := s, s.span[node].pos;
        k := DeleteNode(node);
        SamePlaces(s0, i, k);
        return 1, k;
      }
      return 0, k;
    }

    /* ---- reserve, clear, shrink_to_fit ---- */

    /** `Tree::capacity` */
    function Capacity(): (n: nat)
      reads this`size, this`extra
    {
      size + extra
    }

    lemma CapacityIs()
      requires Valid()
      ensures Capacity() == |s.order| + |pool| && size == |s.order| && extra == |pool|
    {
    }

    /** The position at place `i` of the list: as many steps from the first one, or the end. */
    method Nth(i: nat) returns (n: Node)
      requires Core()
      ensures n == if i < |s.order| then s.order[i] else header
    {
      hide Core;
      Top();
      SpanKeys();
      n := Begin();
      var j := 0;
      while j < i && n != header
        invariant j <= i && j <= |s.order| && n == if j < |s.order| then s.order[j] else header
        decreases i - j
      {
        n := Next(n);
        j := j + 1;
      }
    }

    /** A node has one place in the list. */
    lemma OnePlace(order: seq<Node>, i: nat, k: nat)
      requires Distinct(order) && i < |order| && k < |order| && order[i] == order[k]
      ensures i == k
    {}

    lemma Listed(i: nat)
      requires Core()
      ensures i < |s.order| ==> s.order[i] in s.span && s.order[i] in s.link
    {
      hide Sorted, StrictWeak, Balanced;
      Top();
      SpanKeys();
    }

    /** No hint, or the one at place `i`. */
    method Hint(hinted: bool, i: nat) returns (at: Node?)
      requires Core()
      ensures at == null || at == header || at in s.span
    {
      hide Core;
      at := null;
      if hinted {
        at := Nth(i);
        Listed(i);
      }
    }

    /** `erase` of the position at place `i`. */
    method EraseAt(i: nat)
      requires Valid()
      modifies this`size, this`s, this`c, this`tmp, this`pool, this`extra, s.link.Keys
      ensures Valid() && allocations == old(allocations) && Repr() <= old(Repr()) && |old(s.order)| == |old(Keys())|
      ensures i < |old(s.order)| ==> s.order == old(s.order)[..i] + old(s.order)[i + 1..] && Keys() == old(Keys())[..i] + old(Keys())[i + 1..]
      ensures i < |old(s.order)| ==> pool == Destroyed(old(pool), old(s.order)[i], persistent)
      ensures i >= |old(s.order)| ==> s.order == old(s.order) && Keys() == old(Keys()) && pool == old(pool)
    {
      hide Core, Pooled, Valid, Destroyed;
      ValidCore();
      ValidSorted();
      assert forall y :: y in Spare() ==> allocated(y);
      var pos := Nth(i);
      Listed(i);
      SpanKeys();
      OrderIs();
      ghost var order := s.order;
      var next;
      ghost var k;
      next, k := Erase(pos);
      if i < |order| {
        OnePlace(order, i, k);
      }
    }

    /** `Tree::reserve`; the allocator, if it is asked, answers with memory at `base` of `total` bytes. */
    method Reserve(c: nat, base: nat, total: nat)
      requires Valid() && (c > Capacity() ==> total >= Times(c - size, nodeSize))
      modifies this`tmp, this`pool, this`extra, this`pieces, this`blocks, this`allocations
      ensures Valid() && Keys() == old(Keys()) && s == old(s) && Capacity() >= c && |pool| >= c - |s.order|
      ensures if c > old(Capacity()) then allocations == old(allocations) + 1 && |blocks| == |old(blocks)| + 1 && Flags(pool) == Trues(c - size) + Flags(old(pool)) else pool == old(pool) && allocations == old(allocations)
      ensures fresh(Repr() - old(Repr()))
    {
      hide Structure, Ledger, Strung, Distinct;
      CapacityIs();
      if c > size + extra {
        ghost var b := AllocateTmp(c - size, base, total, s.span.Keys);
      }
    }

    /** `Tree::releaseTmp`, which is all that `shrink_to_fit` does. */
    method ShrinkToFit() returns (freed: seq<Freed>)
      requires Valid()
      modifies this`tmp, this`pool, this`extra, this`blocks, Spare()`parent
      ensures Valid() && Keys() == old(Keys()) && s == old(s)
      ensures Repr() <= old(Repr())
      ensures s.order == [] ==> pool == [] && Capacity() == 0 && freed == Singles(old(pool)) + Wholes(old(blocks)) && blocks == Gone(old(blocks))
      ensures s.order != [] ==> pool == Preallocated(old(pool)) && freed == Singles(old(pool)) && blocks == old(blocks)
    {
      hide Core, Pooled, Singles, Wholes, Preallocated;
      CapacityIs();
      CoreApart();
      NothingIn();
      if size != 0 {
        PreallocatedFew(pool);
        freed := ReleaseSingles(s.span.Keys);
        return;
      }
      if pieces == 0 {
        NoBlocks();
        freed := ReleasePlain();
      } else if pieces == 1 {
        freed := ReleaseBlock();
      } else {
        freed := ReleaseBlocks();
      }
      tmp := null;
      EmptyPool();
    }

    lemma NothingIn()
      requires Core()
      ensures s.order == [] ==> s.span.Keys == {}
    {
      if s.order == [] { EmptyKeys(s); }
    }

    lemma NoBlocks()
      requires Pooled({}) && pieces == 0
      ensures blocks == [] && Gone(blocks) == blocks && Wholes(blocks) == []
    {
    }

    /** `clear_visit`: both subtrees first, then the node itself. */
    method ClearVisit(target: Node, ghost sh: Shape, ghost T: set<Node>) returns (ghost v: seq<Node>)
      requires RbShape.Tree(sh) && target in sh.span && Sides(sh) && Pooled(T)
      requires Part(sh, sh.span[target].lo, sh.span[target].hi) <= T
      modifies this`tmp, this`pool, this`extra, Part(sh, sh.span[target].lo, sh.span[target].hi)`parent
      ensures Pooled(T - Part(sh, sh.span[target].lo, sh.span[target].hi)) && Sides(sh)
      ensures NodesOf(v) == Part(sh, sh.span[target].lo, sh.span[target].hi) && |v| == sh.span[target].hi - sh.span[target].lo && Distinct(v)
      ensures pool == DestroyAll(old(pool), v, persistent)
      decreases sh.span[target].hi - sh.span[target].lo, 0
    {
      hide Pooled, RbShape.Tree, DestroyAll, Part;
      var sp := PartSplit(sh, target);
      SidesAt(sh, target);
      ghost var L, R := Part(sh, sp.lo, sp.pos), Part(sh, sp.pos + 1, sp.hi);
      ghost var q0 := pool;
      ghost var l := ClearSide(target.left, sp.lo, sp.pos, sh, T);
      ghost var T1 := T - L;
      ghost var r := ClearSide(target.right, sp.pos + 1, sp.hi, sh, T1);
      ghost var T2 := T1 - R;
      DestroyNode(target, T2);
      TakenAll(T, L, R, target);
      Visited(q0, l, r, target, persistent);
      v := l + r + [target];
      OnceEach(l, r, target);
    }

    static lemma TakenAll(T: set<Node>, L: set<Node>, R: set<Node>, x: Node)
      ensures T - L - R - {x} == T - (L + {x} + R) && L + {x} + R == L + R + {x}
    {}

    /** A subtree, if there is one. */
    method ClearSide(child: Node?, ghost lo: int, ghost hi: int, ghost sh: Shape, ghost T: set<Node>) returns (ghost v: seq<Node>)
      requires RbShape.Tree(sh) && Sides(sh) && Pooled(T) && Part(sh, lo, hi) <= T
      requires if child == null then lo == hi && Part(sh, lo, hi) == {} else child in sh.span && sh.span[child].lo == lo && sh.span[child].hi == hi
      modifies this`tmp, this`pool, this`extra, Part(sh, lo, hi)`parent
      ensures Pooled(T - Part(sh, lo, hi)) && Sides(sh) && NodesOf(v) == Part(sh, lo, hi) && |v| == hi - lo && Distinct(v)
      ensures pool == DestroyAll(old(pool), v, persistent)
      decreases hi - lo, 1
    {
      hide Pooled, RbShape.Tree, Part;
      if child != null {
        v := ClearVisit(child, sh, T);
      } else {
        assert T - Part(sh, lo, hi) == T;
        v := [];
      }
    }

    /** `Tree::clear`: the nodes of the tree are destroyed one after the other; those the pool cannot keep go back to the allocator. */
    method Clear() returns (ghost v: seq<Node>)
      requires Valid()
      modifies this`size, this`s, this`c, this`tmp, this`pool, this`extra
      modifies header`left, header`right, header`parent, s.span.Keys`parent
      ensures Valid() && s.order == [] && Keys() == [] && allocations == old(allocations) && blocks == old(blocks)
      ensures Kept(old(pool), pool, old(s.span.Keys), old(size), persistent) && Repr() <= old(Repr())
      ensures pool == DestroyAll(old(pool), v, persistent) && |v| == old(size) && multiset(Flags(v)) == multiset(Flags(old(s.order)))
    {
      hide Core, Kept, Pooled, DestroyAll;
      CoreApart();
      SpanKeys();
      OrderIs();
      ghost var before, S, order := pool, s.span.Keys, s.order;
      HeaderBlack();
      v := ClearAll();
      DestroyKeeps(before, v, persistent);
      KeptFrom(before, pool, S, size, persistent);
      FlagsTurned(v, order);
      Unroot();
      Empty();
    }

    method Unroot()
      requires Pooled({}) && header.color == Black
      modifies this`size, this`s, this`c, header`left, header`right, header`parent
      ensures Pooled({}) && size == 0 && header.left == null && header.right == null && header.parent == null
      ensures s == Shape(header, map[header := Link(null, null, null)], [], map[]) && c == Colours(map[header := Black], map[])
    {
      hide Ledger, Distinct;
      header.left := null;
      header.right := null;
      header.parent := null;
      size := 0;
      s := Shape(header, map[header := Link(null, null, null)], [], map[]);
      c := Colours(map[header := Black], map[]);
    }

    lemma HeaderBlack()
      requires Core()
      ensures header.color == Black && header in s.link && StrictWeak(less)
    {
    }

    method ClearAll() returns (ghost v: seq<Node>)
      requires Core() && Pooled(s.span.Keys)
      modifies this`tmp, this`pool, this`extra, s.span.Keys`parent
      ensures Pooled({}) && pool == DestroyAll(old(pool), v, persistent) && NodesOf(v) == s.span.Keys && |v| == size && Distinct(v)
    {
      hide Pooled, RbShape.Tree, Part, Balanced, Sorted, StrictWeak;
      SpanKeys();
      Whole(s);
      if header.left != null {
        v := ClearVisit(header.left, s, s.span.Keys);
        assert s.span.Keys - s.span.Keys == {};
      } else {
        v := [];
      }
    }

    /** The list has every node of the tree once. */
    lemma OrderIs()
      requires Core()
      ensures Distinct(s.order) && NodesOf(s.order) == s.span.Keys
    {
      hide Balanced, Painted, Sorted, StrictWeak, Extremes;
      Top();
      forall x | x in s.span ensures x in s.order { Reads(x); }
    }

    static lemma OnceEach(l: seq<Node>, r: seq<Node>, x: Node)
      requires Distinct(l) && Distinct(r) && NodesOf(l) !! NodesOf(r) && x !in NodesOf(l) && x !in NodesOf(r)
      ensures Distinct(l + r + [x]) && NodesOf(l + r + [x]) == NodesOf(l) + {x} + NodesOf(r)
    {
      var v := l + r + [x];
      forall i, j | 0 <= i < j < |v| ensures v[i] != v[j] {
        assert i < |l| ==> v[i] in NodesOf(l);
        assert |l| <= i < |l| + |r| ==> v[i] in NodesOf(r);
        assert |l| <= j < |l| + |r| ==> v[j] in NodesOf(r);
      }
    }

    /** Both subtrees and then the node itself. */
    static lemma Visited(q: seq<Node>, l: seq<Node>, r: seq<Node>, x: Node, persistent: bool)
      ensures DestroyAll(q, l + r + [x], persistent) == Destroyed(DestroyAll(DestroyAll(q, l, persistent), r, persistent), x, persistent)
    {
      hide Destroyed;
      DestroyBoth(q, l, r, persistent);
      assert (l + r + [x])[..|l + r|] == l + r;
    }

    lemma Empty()
      requires s == Shape(header, map[header := Link(null, null, null)], [], map[]) && c == Colours(map[header := Black], map[])
      requires size == 0 && header.left == null && header.right == null && header.parent == null && header.color == Black
      requires StrictWeak(less)
      ensures Core() && Keys() == [] && s.span.Keys == {}
    {
    }

    /* ---- the validator and a whole run ---- */

    /** The recursion of `TreeDebug::validate` over the records. */
    method ValidateBelow(counter: int, node: Node?, path: int) returns (res: Validation)
      requires Structure() && (node == null || node in s.span)
      ensures c.paint.Keys == s.link.Keys && res == ValidateFrom(s, c.paint, counter, node, path)
      decreases if node == null then 0 else s.span[node].hi - s.span[node].lo
    {
      hide Balanced, RbShape.Tree, Now, Painted, Extremes;
      InSpan(s, c);
      if node == null {
        return if counter != path then DifferentBlackNodeCount else Validation.Valid;
      }
      SeesAround(node);
      if node.color == Black {
        res := ValidateBelow(counter, node.left, path + 1);
        if res == Validation.Valid { res := ValidateBelow(counter, node.right, path + 1); }
      } else if (node.left != null && node.left.color == Red) || (node.right != null && node.right.color == Red) {
        res := RedChildIntoRedNode;
      } else {
        res := ValidateBelow(counter, node.left, path);
        if res == Validation.Valid { res := ValidateBelow(counter, node.right, path); }
      }
    }

    lemma SeesAround(x: Node)
      requires Structure() && x in s.span
      ensures RbShape.Tree(s) && x in s.link && x in c.paint && x.color == c.paint[x] && x.left == s.link[x].left && x.right == s.link[x].right
      ensures 0 <= s.span[x].lo < s.span[x].hi
      ensures x.left != null ==> x.left in s.span && x.left in c.paint && x.left.color == c.paint[x.left] && s.span[x.left].hi - s.span[x.left].lo < s.span[x].hi - s.span[x].lo
      ensures x.right != null ==> x.right in s.span && x.right in c.paint && x.right.color == c.paint[x.right] && s.span[x.right].hi - s.span[x.right].lo < s.span[x].hi - s.span[x].lo
    {
      hide Balanced, Extremes;
      InSpan(s, c);
      Around(s, x);
    }

    /** `TreeDebug::validate` accepts every reachable tree. */
    method ValidateTree() returns (res: Validation)
      requires Structure()
      ensures c.paint.Keys == s.link.Keys && res == RbHeight.Validate(s, c.paint) == Validation.Valid
    {
      hide Balanced, RbShape.Tree, Now, Painted, Extremes, ValidateFrom, LeftBlacks;
      RootSeen();
      if header.left != null && header.left.color == Red {
        return RootIsNotBlack;
      }
      var counter, root := 0, header.left;
      while root != null
        invariant root == null || root in s.span
        invariant counter + LeftBlacks(s, c.paint, root) == LeftBlacks(s, c.paint, header.left)
        decreases if root == null then 0 else s.span[root].hi - s.span[root].lo
      {
        SeesAround(root);
        LeftBlacksStep(root);
        if root.color == Black { counter := counter + 1; }
        root := root.left;
      }
      LeftBlacksNone();
      res := ValidateBelow(counter, header.left, 0);
    }

    lemma LeftBlacksNone()
      requires Structure()
      ensures c.paint.Keys == s.link.Keys && LeftBlacks(s, c.paint, null) == 0
    {
      InSpan(s, c);
    }

    lemma LeftBlacksStep(x: Node)
      requires Structure() && x in s.span
      ensures c.paint.Keys == s.link.Keys && x in c.paint && (x.left == null || x.left in s.span)
      ensures LeftBlacks(s, c.paint, x) == LeftBlacks(s, c.paint, x.left) + if c.paint[x] == Black then 1 else 0
    {
      hide Balanced, Extremes;
      InSpan(s, c);
      SeesAround(x);
    }

    lemma RootSeen()
      requires Structure()
      ensures RbShape.Tree(s) && c.paint.Keys == s.link.Keys && RbHeight.Validate(s, c.paint) == Validation.Valid
      ensures s.head == header && header in s.link && header.left == s.link[header].left
      ensures header.left != null ==> header.left in s.span && header.left in c.paint && header.left.color == c.paint[header.left]
    {
      InSpan(s, c);
      var root := s.link[header].left;
      BalancedValidates(s, c, H(c, root), root, 0);
    }

    /** One `emplace_hint`, seen from the set of keys and from the spare nodes; a hint never changes what comes of it. */
    method EmplaceAt(hint: Node?, x: Key, addr: nat, room: nat) returns (r: Node, inserted: bool, ghost k: nat)
      requires Valid() && (hint == null || hint == header || hint in s.span)
      modifies this`size, this`s, this`c, this`tmp, this`pool, this`allocations, this`extra, Repr()
      ensures Valid() && r in s.span && Keys() == InsertKey(less, old(Keys()), x) && fresh(Repr() - old(Repr()))
      ensures k < |s.order| == |Keys()| && s.order[k] == r && Keys()[k] == r.key && Same(less, r.key, x)
      ensures (inserted <==> !Has(less, old(Keys()), x)) && (inserted ==> r.key == x && r !in old(s.order))
      ensures allocations == old(allocations) + (if old(pool) == [] then 1 else 0) && |pool| >= |old(pool)| - 1
      ensures inserted ==> Fits(less, old(Keys()), x, k) && k <= |old(s.order)| && s.order == old(s.order)[..k] + [r] + old(s.order)[k..]
      ensures inserted ==> Flags(pool) == Rest(Flags(old(pool))) && r.prealloc == NextFlag(Flags(old(pool)))
      ensures !inserted ==> s.order == old(s.order) && k < |Keys()| && Same(less, Keys()[k], x) && Keys() == old(Keys())
      ensures !inserted ==> Flags(pool) == Toss(NextFlag(Flags(old(pool))), Rest(Flags(old(pool))), persistent)
    {
      hide Valid, Fits, Same, InsertKey, Flags, Toss, NextFlag, Rest, Has;
      ValidSorted();
      ghost var ks, q, order := Keys(), pool, s.order;
      r, inserted, k := EmplaceHint(hint, x, addr, room);
      ValidSorted();
      KeyIs(r, k);
      RestFlags(q);
      if inserted {
        InsertKeyAt(less, ks, x, k);
        FitsNone(less, ks, x, k);
        PlacedKey(ks, x, k);
        OrderOnce(order, r, k);
      } else {
        InsertKeyHas(less, ks, x, k);
        HasAt(less, ks, x, k);
      }
    }

    /** `emplace`: the node that has the key afterwards, and whether it is new; the answer to `inserted` is that it was not there. */
    method Emplace(x: Key, addr: nat, room: nat) returns (r: Node, inserted: bool, ghost k: nat)
      requires Valid()
      modifies this`size, this`s, this`c, this`tmp, this`pool, this`allocations, this`extra, Repr()
      ensures Valid() && r in s.span && Keys() == InsertKey(less, old(Keys()), x) && fresh(Repr() - old(Repr()))
      ensures k < |s.order| == |Keys()| && s.order[k] == r && Keys()[k] == r.key && Same(less, r.key, x)
      ensures (inserted <==> !Has(less, old(Keys()), x)) && (inserted ==> r.key == x && r !in old(s.order))
      ensures !inserted ==> s.order == old(s.order) && Keys() == old(Keys())
      ensures allocations == old(allocations) + (if old(pool) == [] then 1 else 0) && |pool| >= |old(pool)| - 1
      ensures inserted ==> |pool| == |old(pool)| - if old(pool) == [] then 0 else 1
    {
      hide Valid, Fits, Same, InsertKey, Flags, Toss, NextFlag, Has;
      r, inserted, k := EmplaceAt(null, x, addr, room);
    }

    lemma PlacedKey(ks: seq<Key>, x: Key, k: nat)
      requires k <= |ks|
      ensures (ks[..k] + [x] + ks[k..])[k] == x
    {}

    lemma OrderOnce(order: seq<Node>, r: Node, k: nat)
      requires Valid() && k <= |order| && s.order == order[..k] + [r] + order[k..]
      ensures r !in order
    {
      hide Pooled, StrictWeak, Sorted;
      OrderIs();
      NotTwice(order, r, k);
    }

    /** A list without repetition has a node at one place. */
    static lemma NotTwice(order: seq<Node>, r: Node, k: nat)
      requires k <= |order| && Distinct(order[..k] + [r] + order[k..])
      ensures r !in order
    {
      var q := order[..k] + [r] + order[k..];
      forall i | 0 <= i < |order| ensures order[i] != r {
        var j := if i < k then i else i + 1;
        assert q[j] == order[i] && q[k] == r && (j < k || k < j);
      }
    }

    lemma ValidSorted()
      requires Valid()
      ensures StrictWeak(less) && Sorted(less, Keys()) && |Keys()| == |s.order|
    {
      hide Pooled;
      Top();
    }

    lemma KeyIs(r: Node, k: nat)
      requires Valid() && k < |s.order| && s.order[k] == r
      ensures k < |Keys()| && Keys()[k] == r.key
    {
      hide Pooled;
      Top();
    }

    /** Inserts a list of keys, whatever the allocator answers each time; with enough spare nodes it is not asked. */
    method EmplaceAll(data: seq<Key>, answers: seq<Answer>)
      requires Valid() && |answers| == |data|
      modifies this`size, this`s, this`c, this`tmp, this`pool, this`allocations, this`extra, Repr()
      ensures Valid() && Keys() == InsertAll(less, old(Keys()), data) && fresh(Repr() - old(Repr()))
      ensures |data| <= |old(pool)| ==> allocations == old(allocations)
    {
      hide Valid, InsertKey, InsertAll, Keys;
      InsertAllStep(less, Keys(), data, |data|);
      for i := 0 to |data|
        invariant Valid() && Keys() == InsertAll(less, old(Keys()), data[..i]) && fresh(Repr() - old(Repr()))
        invariant i <= |old(pool)| ==> allocations == old(allocations) && |pool| >= |old(pool)| - i
      {
        InsertAllStep(less, old(Keys()), data, i);
        ghost var R := Repr();
        var r, inserted;
        ghost var k;
        r, inserted, k := Emplace(data[i], answers[i].addr, answers[i].room);
        assert Repr() - old(Repr()) <= (Repr() - R) + (R - old(Repr()));
      }
    }

    /** `reserve` keeps its word: the next inserts up to `c` keys come from the pool. */
    method ReservedRun(c: nat, base: nat, total: nat, data: seq<Key>, answers: seq<Answer>)
      requires Valid() && (c > Capacity() ==> total >= Times(c - size, nodeSize)) && |data| <= c - size && |answers| == |data|
      modifies this`size, this`s, this`c, this`tmp, this`pool, this`allocations, this`extra, this`pieces, this`blocks, Repr()
      ensures Valid() && Keys() == InsertAll(less, old(Keys()), data)
      ensures allocations == old(allocations) + if c > old(Capacity()) then 1 else 0
    {
      hide Valid;
      assert size == |s.order| by { CapacityIs(); }
      Reserve(c, base, total);
      EmplaceAll(data, answers);
    }

    /** One `erase_unique`, seen from the set of keys and from the spare nodes. */
    method EraseOne(x: Key) returns (n: nat, ghost k: nat)
      requires Valid()
      modifies this`size, this`s, this`c, this`tmp, this`pool, this`extra, s.link.Keys
      ensures Valid() && Keys() == EraseKey(less, old(Keys()), x) && Repr() <= old(Repr()) && allocations == old(allocations)
      ensures n == if Has(less, old(Keys()), x) then 1 else 0
      ensures n == 0 ==> s.order == old(s.order) && pool == old(pool) && Keys() == old(Keys())
      ensures n != 0 ==> k < |old(s.order)| == |old(Keys())| && Same(less, old(Keys())[k], x)
      ensures n != 0 ==> s.order == old(s.order)[..k] + old(s.order)[k + 1..] && pool == Destroyed(old(pool), old(s.order)[k], persistent)
    {
      hide Valid, Same, EraseKey, Destroyed;
      ValidSorted();
      ghost var ks := Keys();
      n, k := EraseUnique(x);
      if n == 1 {
        EraseKeyAt(less, ks, x, k);
      } else {
        EraseKeyNone(less, ks, x);
      }
    }

    /** The second loop of `make_test`: erase a key, then validate. */
    method EraseChecked(erase: seq<Key>, valid0: bool) returns (valid: bool)
      requires Valid()
      modifies this`size, this`s, this`c, this`tmp, this`pool, this`extra, Repr()
      ensures Valid() && Keys() == EraseAll(less, old(Keys()), erase) && valid == valid0
    {
      hide Valid, EraseKey;
      valid := valid0;
      assert erase[..|erase|] == erase;
      for i := 0 to |erase|
        invariant valid == valid0 && Valid() && Keys() == EraseAll(less, old(Keys()), erase[..i]) && Repr() <= old(Repr())
      {
        var n;
        ghost var k;
        n, k := EraseOne(erase[i]);
        assert erase[..i + 1][..i] == erase[..i];
        valid := Check(this, valid);
      }
    }

    lemma KeyAt(x: Node)
      requires Core() && x in s.span
      ensures RbShape.Tree(s) && 0 <= s.span[x].pos < |Keys()| == |s.order|
      ensures Keys()[s.span[x].pos] == x.key && s.order[s.span[x].pos] == x
    {
      Reads(x);
    }
  }

  /**
   * `TreeDebug::make_test`: insert, list, validate, then erase one key after another and validate each time.
   * It always answers true, and the listing is the sorted set of what was inserted.
   */
  method MakeTest(less: Less, nodeSize: nat, data: seq<Key>, erase: seq<Key>, answers: seq<Answer>)
    returns (arr: seq<Key>, valid: bool, ghost rest: seq<Key>)
    requires StrictWeak(less) && |answers| == |data|
    ensures valid && arr == InsertAll(less, [], data) && rest == EraseAll(less, arr, erase)
  {
    hide InsertKey, EraseKey, Tree.Valid;
    var t := new Tree(less, nodeSize);
    t.EmplaceAll(data, answers);
    arr := Listing(t);
    valid := Check(t, true);
    valid := t.EraseChecked(erase, valid);
    rest := t.Keys();
  }

  method Check(t: Tree, valid: bool) returns (r: bool)
    requires t.Valid()
    ensures r == valid
  {
    hide Tree.Core, Tree.Pooled;
    t.ValidCore();
    var val := t.ValidateTree();
    r := if val == Validation.Valid then valid else false;
  }

  /** The loop from `begin` to `end` that copies the values. */
  method Listing(t: Tree) returns (arr: seq<Key>)
    requires t.Valid()
    ensures arr == t.Keys()
  {
    hide Tree.Core, Tree.Pooled;
    t.ValidCore();
    t.Top();
    t.SpanKeys();
    arr := [];
    var it := t.Begin();
    while it != t.header
      invariant |arr| <= |t.s.order| && arr == t.Keys()[..|arr|]
      invariant it == if |arr| < |t.s.order| then t.s.order[|arr|] else t.header
      decreases |t.s.order| - |arr|
    {
      arr := arr + [it.key];
      it := t.Next(it);
    }
  }
}

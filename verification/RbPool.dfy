/** The tree's private store of nodes: the chain of spare nodes and the blocks they were allocated in. */
module RbPool {
  import opened RbNodes

  ghost predicate Distinct(q: seq<Node>) { forall i, j :: 0 <= i < j < |q| ==> q[i] != q[j] }

  function First(q: seq<Node>): Node? { if q == [] then null else q[0] }

  /** Where the allocator puts a node, and the bytes it gives beyond the request. */
  datatype Answer = Answer(addr: nat, room: nat)

  /** Nodes that were allocated in one piece, the bytes noted in each, and all bytes; empty once it went back. */
  datatype Block = Block(nodes: seq<Node>, sizes: seq<nat>, bytes: nat)

  function Sum(q: seq<nat>): nat { if q == [] then 0 else Sum(q[..|q| - 1]) + q[|q| - 1] }

  /** The nodes lie one behind the other and share all bytes. */
  ghost predicate Sound(b: Block)
  {
    && |b.sizes| == |b.nodes| && Sum(b.sizes) == b.bytes
    && forall j :: 0 <= j < |b.nodes| ==> b.nodes[j].addr == b.nodes[0].addr + j
  }

  function Times(n: nat, k: nat): nat { n * k }

  lemma TimesLe(k: nat, i: nat, n: nat)
    requires i < n
    ensures Times(i, k) + k == Times(i + 1, k) <= Times(n, k)
  {
    var d := n - i - 1;
    assert (i + 1) * k == i * k + k;
    assert (i + 1 + d) * k == (i + 1) * k + d * k;
  }

  lemma TimesMonotone(k: nat, n: nat)
    ensures forall i {:trigger Times(i, k)} :: 0 <= i < n ==> Times(i, k) + k == Times(i + 1, k) <= Times(n, k)
    ensures Times(0, k) == 0
  {
    hide Times;
    forall i {:trigger Times(i, k)} | 0 <= i < n ensures Times(i, k) + k == Times(i + 1, k) <= Times(n, k) {
      TimesLe(k, i, n);
    }
    TimesZero(k);
  }

  lemma TimesZero(k: nat)
    ensures Times(0, k) == 0
  {
  }

  /** The bytes noted in each node of a piece: the last one takes what is left. */
  function Shares(count: nat, size: nat, total: nat): (q: seq<nat>)
    requires count >= 1 && total >= Times(count, size)
    ensures |q| == count
  {
    TimesMonotone(size, count);
    seq(count, j => if j < count - 1 then size else total - Times(count - 1, size))
  }

  lemma ShareOf(count: nat, size: nat, total: nat, i: nat)
    requires i < count && total >= Times(count, size)
    ensures Times(i + 1, size) == Times(i, size) + size
    ensures Times(i + 1, size) <= total
    ensures i < count - 1 ==> Shares(count, size, total)[i] == size
    ensures i == count - 1 ==> Shares(count, size, total)[i] == total - Times(i, size)
  {
    TimesMonotone(size, count);
  }

  ghost predicate Piece(x: Node, addr: nat, index: nat, bytes: nat)
  {
    x.addr == addr && x.prealloc && x.index == index && x.bytes == bytes
  }

  ghost predicate Cut(ns: seq<Node>, base: nat, index: nat, shares: seq<nat>)
  {
    |ns| == |shares| && forall j :: 0 <= j < |ns| ==> Piece(ns[j], base + j, index, shares[j])
  }

  /** A preallocated node knows its block. */
  ghost predicate Recorded(bs: seq<Block>, x: Node)
  {
    x.prealloc ==>
      && 1 <= x.index <= |bs|
      && var b := bs[x.index - 1];
      && b.nodes != [] && |b.sizes| == |b.nodes|
      && var j := x.addr - b.nodes[0].addr;
      && 0 <= j < |b.nodes| && b.nodes[j] == x && x.bytes == b.sizes[j]
  }

  /** Node `j` of block `b` is among the known nodes and says where it belongs. */
  ghost predicate Held(bs: seq<Block>, b: int, j: int, K: set<Node>)
    requires 0 <= b < |bs| && 0 <= j < |bs[b].nodes|
  {
    var x := bs[b].nodes[j];
    x in K && x.prealloc && x.index == b + 1
  }

  /** The known nodes and the preallocated blocks agree. */
  ghost predicate Ledger(bs: seq<Block>, K: set<Node>)
  {
    && (forall x {:trigger Recorded(bs, x)} :: x in K ==> Recorded(bs, x))
    && (forall b {:trigger Sound(bs[b])} :: 0 <= b < |bs| ==> Sound(bs[b]))
    && (forall b, j {:trigger Held(bs, b, j, K)} :: 0 <= b < |bs| && 0 <= j < |bs[b].nodes| ==> Held(bs, b, j, K))
  }

  lemma LedgerGrows(bs: seq<Block>, K: set<Node>, x: Node)
    requires Ledger(bs, K) && !x.prealloc && x !in K
    ensures Ledger(bs, K + {x})
  {
    forall b, j | 0 <= b < |bs| && 0 <= j < |bs[b].nodes| ensures Held(bs, b, j, K + {x}) { assert Held(bs, b, j, K); }
    assert Recorded(bs, x);
  }

  lemma LedgerShrinks(bs: seq<Block>, K: set<Node>, x: Node)
    requires Ledger(bs, K) && !x.prealloc
    ensures Ledger(bs, K - {x})
  {
    forall y | y in K - {x} ensures Recorded(bs, y) { assert y in K; }
    forall b, j | 0 <= b < |bs| && 0 <= j < |bs[b].nodes| ensures Held(bs, b, j, K - {x}) { assert Held(bs, b, j, K); }
  }

  /** The ledger with one more block, whose nodes become known. */
  lemma LedgerExtends(bs: seq<Block>, K: set<Node>, b: Block, base: nat)
    requires Ledger(bs, K) && Sound(b) && b.nodes != [] && Cut(b.nodes, base, |bs| + 1, b.sizes)
    ensures Ledger(bs + [b], K + set x | x in b.nodes)
  {
    var bs1, K1 := bs + [b], K + set x | x in b.nodes;
    forall x | x in K1 ensures Recorded(bs1, x) {
      if x in b.nodes {
        var j :| 0 <= j < |b.nodes| && b.nodes[j] == x;
        assert Piece(b.nodes[j], base + j, |bs| + 1, b.sizes[j]) && Piece(b.nodes[0], base + 0, |bs| + 1, b.sizes[0]);
      } else {
        assert Recorded(bs, x);
      }
    }
    forall i | 0 <= i < |bs1| ensures Sound(bs1[i]) { if i < |bs| { assert Sound(bs[i]); } }
    forall i, j | 0 <= i < |bs1| && 0 <= j < |bs1[i].nodes| ensures Held(bs1, i, j, K1) {
      if i < |bs| { assert Held(bs, i, j, K); } else { assert Piece(b.nodes[j], base + j, |bs| + 1, b.sizes[j]); }
    }
  }

  ghost predicate Follows(q: seq<Node>, i: int)
    requires 0 <= i < |q|
    reads q[i]
  {
    q[i].parent == First(q[i + 1..])
  }

  /** The chain through `parent` lists exactly the nodes of `q`. */
  ghost predicate Strung(q: seq<Node>)
    reads set x | x in q
  {
    forall i {:trigger Follows(q, i)} :: 0 <= i < |q| ==> Follows(q, i)
  }

  /** The chain through `parent` runs over the nodes of `q` and then to `last`. */
  ghost predicate Leads(q: seq<Node>, last: Node?)
    reads set x | x in q
  {
    forall j {:trigger q[j].parent} :: 0 <= j < |q| ==> q[j].parent == if j < |q| - 1 then q[j + 1] else last
  }

  lemma Apart(kept: seq<Node>, rest: seq<Node>)
    requires Distinct(kept + rest)
    ensures Distinct(kept) && Distinct(rest)
    ensures forall i, j :: 0 <= i < |kept| && 0 <= j < |rest| ==> kept[i] != rest[j]
    ensures rest != [] ==> rest[0] !in kept && rest[0] !in rest[1..] && Distinct(kept + rest[1..])
  {
    var q := kept + rest;
    forall i, j | 0 <= i < |kept| && 0 <= j < |rest| ensures kept[i] != rest[j] { assert q[i] == kept[i] && q[|kept| + j] == rest[j]; }
    forall i, j | 0 <= i < j < |kept| ensures kept[i] != kept[j] { assert q[i] == kept[i] && q[j] == kept[j]; }
    forall i, j | 0 <= i < j < |rest| ensures rest[i] != rest[j] { assert q[|kept| + i] == rest[i] && q[|kept| + j] == rest[j]; }
    if rest != [] {
      DistinctJoin(kept, rest[1..]);
    }
  }

  lemma StrungRest(q: seq<Node>)
    requires Strung(q) && q != []
    ensures Strung(q[1..]) && q[0].parent == First(q[1..])
  {
    assert Follows(q, 0);
    forall i | 0 <= i < |q| - 1 ensures Follows(q[1..], i) { assert Follows(q, i + 1) && q[1..][i + 1..] == q[i + 2..]; }
  }

  lemma StrungPush(n: Node, q: seq<Node>)
    requires Strung(q) && n.parent == First(q)
    ensures Strung([n] + q)
  {
    var w := [n] + q;
    forall i | 0 <= i < |w| ensures Follows(w, i) {
      assert w[i + 1..] == q[i..];
      if i > 0 { assert Follows(q, i - 1); }
    }
  }

  lemma StrungJoin(ns: seq<Node>, q: seq<Node>)
    requires Strung(q)
    requires Leads(ns, First(q))
    ensures Strung(ns + q)
  {
    var w := ns + q;
    forall i | 0 <= i < |w| ensures Follows(w, i) {
      if i < |ns| {
        assert w[i + 1..] == ns[i + 1..] + q;
      } else {
        assert Follows(q, i - |ns|) && w[i + 1..] == q[i - |ns| + 1..];
      }
    }
  }

  lemma DistinctJoin(ns: seq<Node>, q: seq<Node>)
    requires Distinct(ns) && Distinct(q) && forall i, j :: 0 <= i < |ns| && 0 <= j < |q| ==> ns[i] != q[j]
    ensures Distinct(ns + q)
  {
  }

  lemma PiecesDistinct(ns: seq<Node>, base: nat, index: nat, shares: seq<nat>)
    requires Cut(ns, base, index, shares)
    ensures Distinct(ns)
  {
    forall i, j | 0 <= i < j < |ns| ensures ns[i] != ns[j] {
      assert Piece(ns[i], base + i, index, shares[i]) && Piece(ns[j], base + j, index, shares[j]);
    }
  }

  /** A block as `allocateTmp` notes it. */
  ghost predicate IsPiece(b: Block, count: nat, total: nat) { |b.nodes| == count && b.bytes == total && Sound(b) }

  lemma SharesSum(count: nat, size: nat, total: nat, i: nat)
    requires count >= 1 && total >= Times(count, size) && i <= count
    ensures Sum(Shares(count, size, total)[..i]) == if i == count then total else Times(i, size)
  {
    hide Times, Shares;
    var q := Shares(count, size, total);
    if i == 0 {
      TimesZero(size);
    } else {
      SharesSum(count, size, total, i - 1);
      assert q[..i][..i - 1] == q[..i - 1];
      ShareOf(count, size, total, i - 1);
    }
  }

  lemma SoundPiece(b: Block, count: nat, size: nat, base: nat, index: nat)
    requires count >= 1 && b.bytes >= Times(count, size) && b.sizes == Shares(count, size, b.bytes) && Cut(b.nodes, base, index, b.sizes)
    ensures Sound(b)
  {
    hide Times, Shares;
    SharesSum(count, size, b.bytes, count);
    assert b.sizes[..count] == b.sizes;
    forall j | 0 <= j < |b.nodes| ensures b.nodes[j].addr == b.nodes[0].addr + j {
      assert Piece(b.nodes[j], base + j, index, b.sizes[j]) && Piece(b.nodes[0], base + 0, index, b.sizes[0]);
    }
  }

  /** What one call of `__deallocate` gives back. */
  datatype Freed = Freed(head: Node, count: nat, bytes: nat)

  /** The single nodes of a chain, each given back alone. */
  function Singles(q: seq<Node>): seq<Freed>
  {
    if q == [] then [] else (if q[0].prealloc then [] else [Freed(q[0], 1, q[0].bytes)]) + Singles(q[1..])
  }

  function Preallocated(q: seq<Node>): seq<Node>
  {
    if q == [] then [] else (if q[0].prealloc then [q[0]] else []) + Preallocated(q[1..])
  }

  /** Every spare node either came alone and goes back with its bytes, or came with a block and stays; none does both or is lost. */
  lemma {:induction false} SinglesMean(q: seq<Node>, x: Node)
    ensures Freed(x, 1, x.bytes) in Singles(q) <==> x in q && !x.prealloc
    ensures x in Preallocated(q) <==> x in q && x.prealloc
    ensures |Singles(q)| + |Preallocated(q)| == |q|
  {
    if q != [] {
      SinglesMean(q[1..], x);
      assert x in q <==> x == q[0] || x in q[1..];
    }
  }

  lemma {:induction false} PreallocatedFew(q: seq<Node>)
    ensures forall x :: x in Preallocated(q) ==> x in q
  {
    if q != [] {
      PreallocatedFew(q[1..]);
    }
  }

  lemma SinglesStep(q: seq<Node>)
    requires q != []
    ensures Singles(q) == (if q[0].prealloc then [] else [Freed(q[0], 1, q[0].bytes)]) + Singles(q[1..])
    ensures Preallocated(q) == (if q[0].prealloc then [q[0]] else []) + Preallocated(q[1..])
  {
  }

  lemma SinglesStart(q: seq<Node>)
    ensures [] + Singles(q) == Singles(q) && [] + Preallocated(q) == Preallocated(q)
    ensures Singles([]) == [] && Preallocated([]) == [] && Leads([], First(q))
  {
  }

  lemma LeadsOn(kept: seq<Node>, rest: seq<Node>)
    requires rest != [] && Leads(kept, First(rest)) && rest[0].parent == First(rest[1..])
    ensures Leads(kept + [rest[0]], First(rest[1..]))
  {
    var q := kept + [rest[0]];
    forall j {:trigger q[j].parent} | 0 <= j < |q|
      ensures q[j].parent == if j < |q| - 1 then q[j + 1] else First(rest[1..])
    {
      if j < |kept| {
        assert kept[j] == q[j];
      }
    }
  }

  /** The blocks that have not gone back yet, each given back in one piece. */
  function Wholes(bs: seq<Block>): seq<Freed>
  {
    if bs == [] then [] else
      var b := bs[|bs| - 1];
      Wholes(bs[..|bs| - 1]) + if b.nodes == [] then [] else [Freed(b.nodes[0], |b.nodes|, b.bytes)]
  }

  /** Every block that has not gone back yet does so as a whole: from its first node, with its count and its bytes. */
  lemma {:induction false} WholesMean(bs: seq<Block>, i: nat)
    requires i < |bs| && bs[i].nodes != []
    ensures Freed(bs[i].nodes[0], |bs[i].nodes|, bs[i].bytes) in Wholes(bs) && |Wholes(bs)| <= |bs|
    decreases |bs|
  {
    var n := |bs| - 1;
    WholesFew(bs[..n]);
    if i < n {
      WholesMean(bs[..n], i);
    }
  }

  lemma {:induction false} WholesFew(bs: seq<Block>)
    ensures |Wholes(bs)| <= |bs|
    ensures forall f :: f in Wholes(bs) ==> exists i :: 0 <= i < |bs| && bs[i].nodes != [] && f == Freed(bs[i].nodes[0], |bs[i].nodes|, bs[i].bytes)
  {
    if bs != [] {
      var n := |bs| - 1;
      WholesFew(bs[..n]);
      forall f | f in Wholes(bs)
        ensures exists i :: 0 <= i < |bs| && bs[i].nodes != [] && f == Freed(bs[i].nodes[0], |bs[i].nodes|, bs[i].bytes)
      {
        if f in Wholes(bs[..n]) {
          var i :| 0 <= i < n && bs[..n][i].nodes != [] && f == Freed(bs[..n][i].nodes[0], |bs[..n][i].nodes|, bs[..n][i].bytes);
          assert bs[i].nodes != [] && f == Freed(bs[i].nodes[0], |bs[i].nodes|, bs[i].bytes);
        } else {
          assert bs[n].nodes != [] && f == Freed(bs[n].nodes[0], |bs[n].nodes|, bs[n].bytes);
        }
      }
    }
  }

  function Gone(bs: seq<Block>): seq<Block> { seq(|bs|, _ => Block([], [], 0)) }

  ghost function NodesOf(q: seq<Node>): set<Node> { set x | x in q }

  /** `PreallocatedData`: what the release loop has gathered of one block; no head stands for the largest pointer. */
  datatype Pending = Pending(head: Node?, count: nat, size: nat)

  function Gather(p: Pending, x: Node): Pending
  {
    Pending(if p.head == null || x.addr < p.head.addr then x else p.head, p.count + 1, p.size + x.bytes)
  }

  /** How many of the first `n` nodes of a block are in `S`, and the bytes they hold. */
  ghost function CountIn(b: Block, S: set<Node>, n: nat): nat
    requires n <= |b.nodes|
  {
    if n == 0 then 0 else CountIn(b, S, n - 1) + if b.nodes[n - 1] in S then 1 else 0
  }

  ghost function BytesIn(b: Block, S: set<Node>, n: nat): nat
    requires n <= |b.nodes| == |b.sizes|
  {
    if n == 0 then 0 else BytesIn(b, S, n - 1) + if b.nodes[n - 1] in S then b.sizes[n - 1] else 0
  }

  /** `p` holds exactly what the nodes of `S` say about block `b`. */
  ghost predicate Tally(p: Pending, b: Block, S: set<Node>)
  {
    && |b.nodes| == |b.sizes| && p.count == CountIn(b, S, |b.nodes|) && p.size == BytesIn(b, S, |b.nodes|)
    && (p.head == null ==> forall j :: 0 <= j < |b.nodes| ==> b.nodes[j] !in S)
    && (p.head != null ==> p.head in S && p.head in b.nodes)
    && (p.head != null ==> forall j :: 0 <= j < |b.nodes| && b.nodes[j] in S ==> p.head.addr <= b.nodes[j].addr)
  }

  lemma {:induction false} CountMore(b: Block, S: set<Node>, j: nat, n: nat)
    requires Sound(b) && n <= |b.nodes| && j < |b.nodes| && b.nodes[j] !in S
    ensures CountIn(b, S + {b.nodes[j]}, n) == CountIn(b, S, n) + if j < n then 1 else 0
    ensures BytesIn(b, S + {b.nodes[j]}, n) == BytesIn(b, S, n) + if j < n then b.sizes[j] else 0
  {
    if n > 0 {
      CountMore(b, S, j, n - 1);
      assert b.nodes[n - 1] == b.nodes[j] ==> n - 1 == j;
    }
  }

  lemma {:induction false} CountSame(b: Block, S: set<Node>, x: Node, n: nat)
    requires Sound(b) && n <= |b.nodes| && x !in b.nodes
    ensures CountIn(b, S + {x}, n) == CountIn(b, S, n) && BytesIn(b, S + {x}, n) == BytesIn(b, S, n)
  {
    if n > 0 { CountSame(b, S, x, n - 1); }
  }

  lemma {:induction false} CountFull(b: Block, S: set<Node>, n: nat)
    requires Sound(b) && n <= |b.nodes| && forall j :: 0 <= j < |b.nodes| ==> b.nodes[j] in S
    ensures CountIn(b, S, n) == n && BytesIn(b, S, n) == Sum(b.sizes[..n])
  {
    if n > 0 {
      CountFull(b, S, n - 1);
      assert b.sizes[..n][..n - 1] == b.sizes[..n - 1];
    }
  }

  lemma TallyAdd(p: Pending, bs: seq<Block>, S: set<Node>, x: Node)
    requires x.prealloc && x !in S && Recorded(bs, x) && Sound(bs[x.index - 1]) && Tally(p, bs[x.index - 1], S)
    ensures Tally(Gather(p, x), bs[x.index - 1], S + {x})
  {
    var b := bs[x.index - 1];
    CountMore(b, S, x.addr - b.nodes[0].addr, |b.nodes|);
  }

  lemma TallyOther(p: Pending, b: Block, S: set<Node>, x: Node)
    requires Sound(b) && Tally(p, b, S) && x !in b.nodes
    ensures Tally(p, b, S + {x})
  {
    CountSame(b, S, x, |b.nodes|);
  }

  /** All nodes of the block were met: it goes back whole, as it was allocated. */
  lemma TallyFull(p: Pending, b: Block, S: set<Node>)
    requires Sound(b) && Tally(p, b, S) && forall j :: 0 <= j < |b.nodes| ==> b.nodes[j] in S
    ensures p.count == |b.nodes| && p.size == b.bytes && p.head == First(b.nodes)
  {
    CountFull(b, S, |b.nodes|);
    assert b.sizes[..|b.nodes|] == b.sizes;
    if b.nodes != [] {
      var j :| 0 <= j < |b.nodes| && b.nodes[j] == p.head;
      assert b.nodes[0] in S;
    }
  }

  lemma {:induction false} TallyNone(b: Block, n: nat)
    requires Sound(b) && n <= |b.nodes|
    ensures CountIn(b, {}, n) == 0 && BytesIn(b, {}, n) == 0
  {
    if n > 0 { TallyNone(b, n - 1); }
  }

  lemma Elsewhere(bs: seq<Block>, K: set<Node>, x: Node, b: nat)
    requires Ledger(bs, K) && b < |bs| && (x.prealloc ==> x.index != b + 1)
    ensures x !in bs[b].nodes
  {
    forall j | 0 <= j < |bs[b].nodes| ensures bs[b].nodes[j] != x { assert Held(bs, b, j, K); }
  }

  /** One node of the chain, as block `b` sees it. */
  lemma TallyStep(bs: seq<Block>, K: set<Node>, S: set<Node>, x: Node, p: Pending, b: nat)
    requires Ledger(bs, K) && x in K && x !in S && b < |bs| && Tally(p, bs[b], S)
    ensures x.prealloc ==> 1 <= x.index <= |bs|
    ensures Tally(if x.prealloc && x.index == b + 1 then Gather(p, x) else p, bs[b], S + {x})
  {
    hide Tally, Gather;
    assert Recorded(bs, x) && Sound(bs[b]);
    if x.prealloc && x.index == b + 1 {
      TallyAdd(p, bs, S, x);
    } else {
      Elsewhere(bs, K, x, b);
      TallyOther(p, bs[b], S, x);
    }
  }

  lemma TallyStart(bs: seq<Block>, K: set<Node>, b: nat)
    requires Ledger(bs, K) && b < |bs|
    ensures Tally(Pending(null, 0, 0), bs[b], {})
  {
    assert Sound(bs[b]);
    TallyNone(bs[b], |bs[b].nodes|);
  }

  lemma TallyEnd(bs: seq<Block>, K: set<Node>, p: Pending, b: nat)
    requires Ledger(bs, K) && b < |bs| && Tally(p, bs[b], K)
    ensures p.count == |bs[b].nodes| && p.size == bs[b].bytes && p.head == First(bs[b].nodes)
  {
    assert Sound(bs[b]);
    forall j | 0 <= j < |bs[b].nodes| ensures bs[b].nodes[j] in K { assert Held(bs, b, j, K); }
    TallyFull(p, bs[b], K);
  }

  lemma LedgerGone(bs: seq<Block>)
    ensures Ledger(Gone(bs), {})
  {
  }

  function Total(q: seq<Pending>): nat { if q == [] then 0 else Total(q[..|q| - 1]) + q[|q| - 1].count }

  lemma {:induction false} TotalUpdate(q: seq<Pending>, i: nat, p: Pending)
    requires i < |q|
    ensures Total(q[i := p]) == Total(q) - q[i].count + p.count
  {
    if i < |q| - 1 {
      TotalUpdate(q[..|q| - 1], i, p);
      assert q[i := p][..|q| - 1] == q[..|q| - 1][i := p];
    } else {
      assert q[i := p][..|q| - 1] == q[..|q| - 1];
    }
  }

  lemma {:induction false} TotalNone(n: nat)
    ensures Total(seq(n, _ => Pending(null, 0, 0))) == 0
  {
    if n > 0 {
      TotalNone(n - 1);
      assert seq(n, _ => Pending(null, 0, 0))[..n - 1] == seq(n - 1, _ => Pending(null, 0, 0));
    }
  }

  lemma GatherCount(p: Pending, x: Node)
    ensures Gather(p, x).count == p.count + 1 && Gather(p, x).head != null
  {
  }

  lemma WholesStep(bs: seq<Block>, i: nat)
    requires i < |bs|
    ensures Wholes(bs[..i + 1]) == Wholes(bs[..i]) + if bs[i].nodes == [] then [] else [Freed(bs[i].nodes[0], |bs[i].nodes|, bs[i].bytes)]
    ensures bs[..|bs|] == bs && Wholes(bs[..0]) == []
  {
    assert bs[..i + 1][..i] == bs[..i];
  }

  lemma RecordedIn(bs: seq<Block>, K: set<Node>, x: Node)
    requires Ledger(bs, K) && x in K && x.prealloc
    ensures 1 <= x.index <= |bs|
  {
    assert Recorded(bs, x);
  }

  lemma WholesNone(bs: seq<Block>)
    ensures Wholes(bs[..0]) == []
  {
  }

  lemma {:induction false} TotalPrefix(q: seq<Pending>, i: nat)
    requires i <= |q|
    ensures Total(q[..i]) <= Total(q) && Total(q[..0]) == 0
  {
    if i < |q| {
      TotalPrefix(q[..|q| - 1], i);
      assert q[..|q| - 1][..i] == q[..i];
    } else {
      assert q[..i] == q;
    }
  }

  /** What `clear` keeps: the spare nodes it found, every preallocated node, and all nodes in persistent mode. */
  ghost predicate Kept(before: seq<Node>, after: seq<Node>, S: set<Node>, n: int, persistent: bool)
  {
    && |before| <= |after| && after[|after| - |before|..] == before
    && (forall x :: x in S && (x.prealloc || persistent) ==> x in after)
    && (forall x :: x in after ==> x in before || x in S)
    && (persistent ==> |after| == |before| + n)
  }

  lemma KeptFrom(before: seq<Node>, after: seq<Node>, S: set<Node>, n: int, persistent: bool)
    requires Kept(before, after, S, n, persistent)
    ensures forall x :: x in after ==> x in before || x in S
    ensures persistent ==> |after| == |before| + n
  {}

  lemma KeptNone(q: seq<Node>, S: set<Node>, persistent: bool)
    requires S == {}
    ensures Kept(q, q, S, 0, persistent)
  {
  }

  lemma KeptAll(q0: seq<Node>, q1: seq<Node>, q2: seq<Node>, q3: seq<Node>, L: set<Node>, R: set<Node>, x: Node, l: int, r: int, persistent: bool)
    requires Kept(q0, q1, L, l, persistent) && Kept(q1, q2, R, r, persistent)
    requires q3 == if q2 == [] || x.prealloc || persistent then [x] + q2 else q2
    ensures Kept(q0, q3, L + R + {x}, l + r + 1, persistent)
  {
    KeptTail(q0, q1, q2);
    KeptTail(q0, q2, q3);
    assert q3[|q3| - |q2|..] == q2;
    KeptMembers(q1, q2);
    KeptMembers(q2, q3);
  }

  lemma KeptTail(q0: seq<Node>, q1: seq<Node>, q2: seq<Node>)
    ensures |q0| <= |q1| <= |q2| && q1[|q1| - |q0|..] == q0 && q2[|q2| - |q1|..] == q1 ==> q2[|q2| - |q0|..] == q0
  {
    if |q0| <= |q1| <= |q2| && q1[|q1| - |q0|..] == q0 && q2[|q2| - |q1|..] == q1 {
      assert q2[|q2| - |q0|..] == q2[|q2| - |q1|..][|q1| - |q0|..];
    }
  }

  lemma KeptMembers(q: seq<Node>, r: seq<Node>)
    ensures |q| <= |r| && r[|r| - |q|..] == q ==> forall y :: y in q ==> y in r
  {
    if |q| <= |r| && r[|r| - |q|..] == q {
      forall y | y in q ensures y in r { var i :| 0 <= i < |q| && q[i] == y; assert r[|r| - |q|..][i] == y; }
    }
  }

  /** `destroyNode`, seen from the spare nodes: which of them there are afterwards. */
  ghost function Destroyed(q: seq<Node>, x: Node, persistent: bool): seq<Node> {
    if q == [] || x.prealloc || persistent then [x] + q else q
  }

  ghost function DestroyAll(q: seq<Node>, v: seq<Node>, persistent: bool): seq<Node> {
    if v == [] then q else Destroyed(DestroyAll(q, v[..|v| - 1], persistent), v[|v| - 1], persistent)
  }

  lemma {:induction false} DestroyBoth(q: seq<Node>, v: seq<Node>, w: seq<Node>, persistent: bool)
    ensures DestroyAll(q, v + w, persistent) == DestroyAll(DestroyAll(q, v, persistent), w, persistent)
  {
    hide Destroyed;
    if w == [] {
      assert v + w == v;
    } else {
      assert (v + w)[..|v + w| - 1] == v + w[..|w| - 1];
      DestroyBoth(q, v, w[..|w| - 1], persistent);
    }
  }

  lemma {:induction false} DestroyKeeps(q: seq<Node>, v: seq<Node>, persistent: bool)
    ensures Kept(q, DestroyAll(q, v, persistent), NodesOf(v), |v|, persistent)
  {
    hide Kept;
    if v == [] {
      KeptNone(q, NodesOf(v), persistent);
    } else {
      var w, x := v[..|v| - 1], v[|v| - 1];
      var r := DestroyAll(q, w, persistent);
      DestroyKeeps(q, w, persistent);
      KeptNone(r, {}, persistent);
      KeptAll(q, r, r, Destroyed(r, x, persistent), NodesOf(w), {}, x, |w|, 0, persistent);
      assert NodesOf(w) + {} + {x} == NodesOf(v) by { assert v == w + [x]; }
    }
  }

  /** Which nodes came with a block. */
  ghost function Flags(q: seq<Node>): (r: seq<bool>)
    ensures |r| == |q|
  {
    seq(|q|, i requires 0 <= i < |q| => q[i].prealloc)
  }

  lemma FlagsJoin(a: seq<Node>, b: seq<Node>)
    ensures Flags(a + b) == Flags(a) + Flags(b)
  {}

  lemma FlagsSplit(q: seq<Node>, k: nat)
    requires k <= |q|
    ensures Flags(q[..k]) == Flags(q)[..k] && Flags(q[k..]) == Flags(q)[k..]
  {}

  /** The same on flags alone. */
  function Toss(flag: bool, spare: seq<bool>, persistent: bool): seq<bool> {
    if spare == [] || flag || persistent then [flag] + spare else spare
  }

  function TossAll(spare: seq<bool>, flags: seq<bool>, persistent: bool): seq<bool> {
    if flags == [] then spare else Toss(flags[|flags| - 1], TossAll(spare, flags[..|flags| - 1], persistent), persistent)
  }

  /** The node that the next insert takes: the first spare one, or one of its own. */
  function NextFlag(spare: seq<bool>): bool { spare != [] && spare[0] }

  function Trues(n: nat): seq<bool> { seq(n, _ => true) }

  lemma CutFlags(ns: seq<Node>, base: nat, index: nat, shares: seq<nat>)
    requires Cut(ns, base, index, shares)
    ensures Flags(ns) == Trues(|ns|)
  {}

  lemma FirstFlag(q: seq<Node>, n: Node)
    requires if q == [] then !n.prealloc else n == q[0]
    ensures n.prealloc == NextFlag(Flags(q)) && Rest(Flags(q)) == Flags(if q == [] then [] else q[1..])
  {}

  lemma RestFlags(q: seq<Node>)
    ensures Rest(Flags(q)) == Flags(if q == [] then [] else q[1..])
  {}

  lemma DestroyedSize(q: seq<Node>, x: Node, persistent: bool)
    ensures |q| <= |Destroyed(q, x, persistent)| <= |q| + 1 && forall y :: y in Destroyed(q, x, persistent) ==> y in q || y == x
  {}

  function Rest(spare: seq<bool>): seq<bool> { if spare == [] then [] else spare[1..] }

  lemma DestroyedFlags(q: seq<Node>, x: Node, persistent: bool)
    ensures Flags(Destroyed(q, x, persistent)) == Toss(x.prealloc, Flags(q), persistent)
  {
    FlagsJoin([x], q);
    assert Flags([x]) == [x.prealloc];
  }

  lemma {:induction false} DestroyAllFlags(q: seq<Node>, v: seq<Node>, persistent: bool)
    ensures Flags(DestroyAll(q, v, persistent)) == TossAll(Flags(q), Flags(v), persistent)
  {
    if v != [] {
      var w := v[..|v| - 1];
      DestroyAllFlags(q, w, persistent);
      DestroyedFlags(DestroyAll(q, w, persistent), v[|v| - 1], persistent);
      FlagsSplit(v, |v| - 1);
    }
  }

  lemma {:induction false} PreallocatedFlags(q: seq<Node>)
    ensures Flags(Preallocated(q)) == Only(Flags(q))
  {
    if q != [] {
      PreallocatedFlags(q[1..]);
      FlagsSplit(q, 1);
      FlagsJoin(if q[0].prealloc then [q[0]] else [], Preallocated(q[1..]));
      assert Flags(q)[0] == q[0].prealloc && (q[0].prealloc ==> Flags([q[0]]) == [true]);
    }
  }

  /** The preallocated ones. */
  function Only(spare: seq<bool>): seq<bool> {
    if spare == [] then [] else (if spare[0] then [true] else []) + Only(spare[1..])
  }

  ghost function Flagged(S: set<Node>, flag: bool): set<Node> { set x | x in S && x.prealloc == flag }

  lemma CountLast(f: seq<bool>)
    requires f != []
    ensures multiset(f) == multiset(f[..|f| - 1]) + multiset{f[|f| - 1]}
  {
    assert f == f[..|f| - 1] + [f[|f| - 1]];
  }

  lemma FlaggedLast(q: seq<Node>, flag: bool)
    requires Distinct(q) && q != []
    ensures var w, x := q[..|q| - 1], q[|q| - 1];
      Distinct(w) && |Flagged(NodesOf(q), flag)| == |Flagged(NodesOf(w), flag)| + if x.prealloc == flag then 1 else 0
  {
    var w, x := q[..|q| - 1], q[|q| - 1];
    assert q == w + [x] && x !in w;
    assert Flagged(NodesOf(q), flag) == Flagged(NodesOf(w), flag) + if x.prealloc == flag then {x} else {};
  }

  lemma {:induction false} FlagCount(q: seq<Node>, flag: bool)
    requires Distinct(q)
    ensures multiset(Flags(q))[flag] == |Flagged(NodesOf(q), flag)|
  {
    if q == [] {
      assert Flagged(NodesOf(q), flag) == {};
    } else {
      FlaggedLast(q, flag);
      FlagsSplit(q, |q| - 1);
      CountLast(Flags(q));
      var x := q[|q| - 1];
      assert Flags(q)[|q| - 1] == x.prealloc;
      hide *;
      FlagCount(q[..|q| - 1], flag);
    }
  }

  /** The same nodes in another order. */
  lemma FlagsTurned(a: seq<Node>, b: seq<Node>)
    requires Distinct(a) && Distinct(b) && NodesOf(a) == NodesOf(b)
    ensures multiset(Flags(a)) == multiset(Flags(b))
  {
    forall flag: bool ensures multiset(Flags(a))[flag] == multiset(Flags(b))[flag] {
      FlagCount(a, flag);
      FlagCount(b, flag);
    }
  }
}

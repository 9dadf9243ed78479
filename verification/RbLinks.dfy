/** What the steps of insertion, deletion and clearing say about the shape and the colours. */
module RbLinks {
  import opened RbNodes
  import opened RbShape
  import opened RbColour
  import opened RbFixup
  import opened RbEdit
  import opened RbWalk
  import opened RbOrder
  import opened RbHeight

  ghost function KeysOf(order: seq<Node>): (ks: seq<Key>)
    reads set x | x in order
    ensures |ks| == |order| && forall i :: 0 <= i < |ks| ==> ks[i] == order[i].key
  {
    seq(|order|, i requires 0 <= i < |order| reads set x | x in order => order[i].key)
  }

  function SideOf(isLeft: bool): Side { if isLeft then Left else Right }

  ghost function LinkIndex(s: Shape, parent: Node?, isLeft: bool): int
    requires parent == null || parent in s.span
  {
    if parent == null then 0 else Gap(s, parent, SideOf(isLeft))
  }

  /** The nodes of a stretch of the in-order list. */
  ghost function Part(s: Shape, lo: int, hi: int): set<Node>
  {
    set i | 0 <= i < |s.order| && lo <= i < hi :: s.order[i]
  }

  /** The downward links are those of the snapshot. */
  ghost predicate Sides(s: Shape)
    reads s.link.Keys`left, s.link.Keys`right
  {
    forall x {:trigger s.link[x]} :: x in s.link ==> x.left == s.link[x].left && x.right == s.link[x].right
  }

  ghost function LastWithout(order: seq<Node>, k: int): Node?
    requires 0 <= k < |order|
  {
    if |order| == 1 then null else if k == |order| - 1 then order[|order| - 2] else order[|order| - 1]
  }

  /** The header's ends are those of the list without its element `k`. */
  ghost predicate EndsWithout(s: Shape, k: int)
  {
    && s.head in s.link && 0 <= k < |s.order|
    && s.link[s.head].parent == (if |s.order| == 1 then null else if k == 0 then s.order[1] else s.order[0])
    && s.link[s.head].right == LastWithout(s.order, k)
  }

  ghost predicate SameButEnds(t: Shape, s: Shape, c: Colours)
  {
    && RbShape.Tree(t) && Balanced(t, c, null, null, null)
    && s.head in s.link && t.head == s.head && t.order == s.order && t.span == s.span && t.link.Keys == s.link.Keys
    && (forall w :: w in s.span && w in s.link ==> t.link[w] == s.link[w])
  }

  /** `t` is `s` without `y`, below the same header. */
  ghost predicate Shortened(s: Shape, t: Shape, y: Node)
  {
    && y in s.span && s.head in s.link && t.head == s.head && t.head in t.link
    && 0 <= s.span[y].pos < |s.order| && s.order[s.span[y].pos] == y
    && t.order == s.order[..s.span[y].pos] + s.order[s.span[y].pos + 1..]
    && t.link.Keys == s.link.Keys - {y} && t.span.Keys == s.span.Keys - {y}
    && t.link[t.head].parent == s.link[s.head].parent && t.link[t.head].right == s.link[s.head].right
  }

  /** `u` is `s` without `z`, below the same header. */
  ghost predicate Without(s: Shape, u: Shape, z: Node)
  {
    && u.head == s.head && s.head in s.link && u.head in u.link && z in s.span
    && 0 <= s.span[z].pos < |s.order| && s.order[s.span[z].pos] == z
    && u.order == s.order[..s.span[z].pos] + s.order[s.span[z].pos + 1..]
    && u.link.Keys == s.link.Keys - {z} && u.span.Keys == s.span.Keys - {z}
    && u.link[u.head].parent == s.link[s.head].parent && u.link[u.head].right == s.link[s.head].right
  }

  /** `z` is to go, `y` is the record that leaves its place, `x` is all that hangs below `y`. */
  ghost predicate Leavers(s: Shape, z: Node, y: Node, x: Node?)
  {
    && RbShape.Tree(s) && z in s.span && z in s.link && OnlyChild(s, y, x) && EndsWithout(s, s.span[z].pos)
    && (y == z || (s.span[y].pos == s.span[z].pos - 1 && s.link[z].left != null && s.link[z].right != null))
  }

  /** `u` is `t` with `y` at the place of `z`, below the same header. */
  ghost predicate Swapped(t: Shape, u: Shape, z: Node, y: Node)
  {
    && z in t.span && t.head in t.link && u.head == t.head && u.head in u.link
    && 0 <= t.span[z].pos < |t.order| && t.order[t.span[z].pos] == z
    && u.order == t.order[t.span[z].pos := y]
    && u.link.Keys == t.link.Keys - {z} + {y} && u.span.Keys == t.span.Keys - {z} + {y}
    && u.link[u.head].parent == t.link[t.head].parent && u.link[u.head].right == t.link[t.head].right
  }

  /** The leaf is weightless now, and `Remove` has not hung anything on it. */
  ghost predicate Weightless(s: Shape, c: Colours, y: Node, ph: Node?)
  {
    && RbShape.Tree(s) && Balanced(s, c, null, null, ph) && (ph == null || ph == y)
    && OnlyChild(s, y, null) && H(c, y) == 0
  }

  /** The tree with one node. */
  ghost predicate IsFirst(t: Shape, n: Node)
  {
    && n != t.head && t.order == [n] && t.span == map[n := Span(0, 0, 1)] && t.link.Keys == {t.head, n}
    && t.link[n] == Link(t.head, null, null) && t.link[t.head] == Link(n, n, n)
  }

  ghost function FirstShape(h: Node, n: Node): (t: Shape)
    reads h, n
    ensures Now(t) && t.head == h && t.order == [n] && t.span == map[n := Span(0, 0, 1)] && t.link.Keys == {h, n}
  {
    Shape(h, LinksOf({h, n}), [n], map[n := Span(0, 0, 1)])
  }

  ghost function GraftShape(s: Shape, n: Node, q: Node, d: Side): (t: Shape)
    requires RbShape.Tree(s) && EmptyLink(s, q, d)
    reads s.link.Keys, n
    ensures Now(t) && t.head == s.head && t.link.Keys == s.link.Keys + {n} && t.span.Keys == s.span.Keys + {n}
    ensures var k := Gap(s, q, d); 0 <= k <= |s.order| && t.order == s.order[..k] + [n] + s.order[k..] && t.span[n] == Span(k, k, k + 1)
    ensures forall x :: x in s.span && x != n ==> t.span[x] == Push(s.span[x], s.span[q].pos, Gap(s, q, d))
  {
    assert Linked(s, q);
    var k := Gap(s, q, d);
    Shape(s.head, LinksOf(s.link.Keys + {n}), s.order[..k] + [n] + s.order[k..],
          (map x | x in s.span :: Push(s.span[x], s.span[q].pos, k))[n := Span(k, k, k + 1)])
  }

  lemma KeysGrow(order: seq<Node>, n: Node, k: int)
    requires 0 <= k <= |order|
    ensures KeysOf(order[..k] + [n] + order[k..]) == KeysOf(order)[..k] + [n.key] + KeysOf(order)[k..]
  {
  }

  lemma KeysShrink(order: seq<Node>, k: int)
    requires 0 <= k < |order|
    ensures KeysOf(order[..k] + order[k + 1..]) == KeysOf(order)[..k] + KeysOf(order)[k + 1..]
  {
  }

  lemma SelfSame(less: Less, x: Key)
    requires StrictWeak(less)
    ensures Same(less, x, x)
  {
  }

  lemma SamePlaces(s: Shape, i: int, k: int)
    requires RbShape.Tree(s) && 0 <= i < |s.order| && 0 <= k < |s.order| && s.order[i] == s.order[k]
    ensures i == k
  {
    assert At(s, i) && At(s, k);
  }

  lemma InSpan(s: Shape, c: Colours)
    requires RbShape.Tree(s) && Balanced(s, c, null, null, null)
    ensures s.head in s.link && s.head !in s.span && s.span.Keys <= s.link.Keys && c.paint.Keys == s.link.Keys && c.bh.Keys == s.span.Keys
    ensures s.link.Keys == s.span.Keys + {s.head}
  {
  }

  lemma InLink(s: Shape)
    requires RbShape.Tree(s)
    ensures forall x :: x in s.order ==> x in s.link
  {
    forall x | x in s.order ensures x in s.link {
      var i :| 0 <= i < |s.order| && s.order[i] == x;
      assert At(s, i);
    }
  }

  lemma EmptyKeys(s: Shape)
    requires RbShape.Tree(s) && s.order == []
    ensures s.span.Keys == {} && s.link.Keys == {s.head}
  {
    forall x | x in s.span ensures Placed(s, x) { assert Linked(s, x); }
  }

  lemma EndsOf(s: Shape)
    requires RbShape.Tree(s) && Extremes(s) && Now(s)
    ensures s.order != [] ==> s.head.parent == s.order[0] && s.head.right == s.order[|s.order| - 1]
    ensures forall i :: 0 <= i < |s.order| ==> s.order[i] in s.span && s.span[s.order[i]].pos == i
  {
    forall i | 0 <= i < |s.order| ensures s.order[i] in s.span && s.span[s.order[i]].pos == i { assert At(s, i); }
  }

  lemma FirstAt(s: Shape)
    requires RbShape.Tree(s) && s.order != []
    ensures forall i :: 0 <= i < |s.order| ==> s.order[i] in s.span && s.order[i] != s.head && s.span[s.order[i]].pos == i
  {
    forall i | 0 <= i < |s.order| ensures s.order[i] in s.span && s.span[s.order[i]].pos == i { assert At(s, i); }
  }

  lemma BalancedDomains(s: Shape, c: Colours, x: Node?)
    requires RbShape.Tree(s) && Balanced(s, c, x, x, null)
    ensures s.head in s.link && s.span.Keys <= s.link.Keys && c.paint.Keys == s.link.Keys && c.bh.Keys == s.span.Keys
  {
  }

  lemma BudgetNonNegative(s: Shape, c: Colours, x: Node?)
    requires RbShape.Tree(s) && Balanced(s, c, null, null, null) && (x == null || x in s.span)
    ensures 0 <= Budget(c, x)
  {
    if x != null { assert Even(s, c, x, null); }
  }

  lemma ReorderedIs(s: Shape, t: Shape)
    requires s.head in s.link && Extremes(s) && Reordered(s, t)
    ensures t.head == s.head && t.order == s.order && t.link.Keys == s.link.Keys && t.span.Keys == s.span.Keys
    ensures t.head in t.link && Extremes(t)
  {}

  lemma FirstSeen(h: Node, n: Node) returns (t: Shape)
    requires n != h && Is(n, Link(h, null, null)) && Is(h, Link(n, n, n))
    ensures Now(t) && t.head == h && IsFirst(t, n) && RbShape.Tree(t) && Extremes(t)
  {
    t := FirstShape(h, n);
    assert At(t, 0) && Linked(t, n);
  }

  lemma GraftSeen(s: Shape, n: Node, q: Node, d: Side) returns (t: Shape)
    requires RbShape.Tree(s) && Extremes(s) && EmptyLink(s, q, d) && n !in s.link
    requires Is(n, Link(q, null, null)) && Is(q, SetChild(s.link[q], d, n))
    requires s.head.left == s.link[s.head].left
    requires s.head.parent == if d == Left && s.link[s.head].parent == q then n else s.link[s.head].parent
    requires s.head.right == if d == Right && s.link[s.head].right == q then n else s.link[s.head].right
    requires forall w {:trigger Is(w, s.link[w])} :: w in s.link && w != s.head && w != q ==> Is(w, s.link[w])
    ensures Now(t) && Grafted(s, t, n, q, d) && RbShape.Tree(t) && Extremes(t)
  {
    hide Linked, At, RootLinked, Extremes, GraftShape;
    t := GraftShape(s, n, q, d);
    forall x | x in s.span && x != q ensures t.link[x] == s.link[x] { assert Is(x, s.link[x]); }
    GraftKeepsTree(s, t, n, q, d);
    GraftExtremes(s, t, n, q, d);
  }

  lemma HungColours(s: Shape, t: Shape, c: Colours, n: Node, parent: Node?, d: Side)
    requires RbShape.Tree(s) && Balanced(s, c, null, null, null) && n !in s.link && RbShape.Tree(t) && t.head == s.head
    requires if s.order == [] then parent == null && IsFirst(t, n) else parent != null && EmptyLink(s, parent, d) && Grafted(s, t, n, parent, d)
    ensures Balanced(t, PaintLeaf(c, n), null, n, null)
  {
    if parent != null {
      GraftColours(s, t, c, n, parent, d);
    } else {
      EmptyKeys(s);
      LeafColours(t, PaintLeaf(c, n), n);
    }
  }

  lemma SameIn(t: Shape, s: Shape, c: Colours, z: Node)
    requires SameButEnds(t, s, c) && z in s.span
    ensures z in t.link && z in s.link && t.link[z] == s.link[z] && t.head == s.head && RbShape.Tree(t) && Balanced(t, c, null, null, null)
    ensures t.order == s.order && t.span == s.span && t.link.Keys == s.link.Keys
  {
  }

  lemma LastIsLast(order: seq<Node>, k: int)
    requires 0 <= k < |order|
    ensures k == 0 ==> LastWithout(order, k) == if |order| == 1 then null else order[|order| - 1]
  {
  }

  /** Only the ends in the header differ from the snapshot. */
  lemma HeaderSeen(s: Shape, c: Colours) returns (t: Shape)
    requires RbShape.Tree(s) && Balanced(s, c, null, null, null)
    requires s.head.left == s.link[s.head].left
    requires forall w {:trigger Is(w, s.link[w])} :: w in s.link && w != s.head ==> Is(w, s.link[w])
    ensures t == s.(link := s.link[s.head := Link(s.head.parent, s.head.left, s.head.right)])
    ensures RbShape.Tree(t) && Now(t) && Balanced(t, c, null, null, null)
  {
    t := s.(link := s.link[s.head := Link(s.head.parent, s.head.left, s.head.right)]);
    forall w | w in s.link && w != s.head ensures t.link[w] == Link(w.parent, w.left, w.right) { assert Is(w, s.link[w]); }
    forall x | x in t.span ensures Linked(t, x) && Even(t, c, x, null) && Calm(t, c, x, null) {
      assert Linked(s, x) && Even(s, c, x, null) && Calm(s, c, x, null);
    }
    forall i | 0 <= i < |t.order| ensures At(t, i) { assert At(s, i); }
  }

  lemma KeptEnds(s: Shape, c: Colours, z: Node)
    requires RbShape.Tree(s) && Extremes(s) && Balanced(s, c, null, null, null) && z in s.span && Now(s)
    requires z.left != null && z.right != null
    ensures SameButEnds(s, s, c) && EndsWithout(s, s.span[z].pos)
  {
    hide Balanced;
    Around(s, z);
    Around(s, z.left);
    Around(s, z.right);
  }

  lemma ChosenChild(s: Shape, t: Shape, c: Colours, y: Node, z: Node)
    requires SameButEnds(t, s, c) && Now(t) && y in s.span && z in s.span && z in s.link && s.span.Keys <= s.link.Keys
    requires y.left == null || y.right == null
    ensures OnlyChild(t, y, if y.left != null then y.left else y.right)
  {
  }

  lemma SamePlace(s: Shape, t: Shape, y: Node)
    requires RbShape.Tree(s) && RbShape.Tree(t) && t.order == s.order && y in t.span
    ensures y in s.span && s.span[y].pos == t.span[y].pos && 0 <= s.span[y].pos < |s.order| && s.order[s.span[y].pos] == y
    ensures s.head in s.link
  {
    hide Linked, RootLinked;
    PlacedOf(t, y);
    assert At(s, t.span[y].pos);
  }

  lemma LeafIn(s: Shape, c: Colours, y: Node)
    requires RbShape.Tree(s) && Balanced(s, c, null, null, null) && OnlyChild(s, y, null)
    ensures y in s.span && y in s.link && y in c.paint && s.head in s.link && H(c, y) == if c.paint[y] == Black then 1 else 0
    ensures 0 <= s.span[y].pos < |s.order| && s.order[s.span[y].pos] == y
  {
    hide Calm;
    assert Linked(s, y);
    assert Even(s, c, y, null);
  }

  lemma HauntNode(s: Shape, c: Colours, c0: Colours, y: Node, x: Node)
    requires y in c.bh && y in c.paint && c0 == c.(bh := c.bh[y := -1]) && c.bh[y] == 0 && c.paint[y] == Black
    requires Even(s, c, x, null) && Calm(s, c, x, null)
    ensures (x != y ==> Even(s, c0, x, y)) && Calm(s, c0, x, y)
  {
  }

  /** A black leaf becomes a phantom, which leaves its place one black node short. */
  lemma Haunt(s: Shape, c: Colours, y: Node) returns (c0: Colours)
    requires RbShape.Tree(s) && Balanced(s, c, null, null, null) && OnlyChild(s, y, null) && c.paint[y] == Black
    ensures c0.paint == c.paint && Balanced(s, c0, y, y, y) && Under(s, y, y) && y in s.span
  {
    LeafIn(s, c, y);
    c0 := c.(bh := c.bh[y := -1]);
    assert Linked(s, y);
    forall x | x in s.span ensures (x != y ==> Even(s, c0, x, y)) && Calm(s, c0, x, y) {
      assert Linked(s, x) && Even(s, c, x, null) && Calm(s, c, x, null);
      HauntNode(s, c, c0, y, x);
    }
  }

  lemma LeafStill(s: Shape, c: Colours, y: Node)
    requires RbShape.Tree(s) && Balanced(s, c, null, null, y)
    ensures Weightless(s, c, y, y)
  {
  }

  lemma CutColours(s: Shape, t: Shape, u: Shape, c: Colours, y: Node, ph: Node?)
    requires RbShape.Tree(s) && Reordered(s, t) && Weightless(t, c, y, ph) && Bypassed(t, u, y, null) && RbShape.Tree(u)
    requires u.head in u.link && u.link[u.head].parent == t.link[t.head].parent && u.link[u.head].right == t.link[t.head].right
    ensures Balanced(u, Forget(c, y), null, null, null) && Shortened(s, u, y)
  {
    hide Balanced, RbShape.Tree;
    BypassColours(t, u, c, y, null, ph);
    SamePlace(s, t, y);
  }

  lemma LoneIn(s: Shape, y: Node, x: Node)
    requires RbShape.Tree(s) && OnlyChild(s, y, x)
    ensures x in s.span && x in s.link && x != y && s.head in s.link
  {
    LeavingOf(s, y, x);
  }

  lemma AboveColours(s: Shape, t: Shape, c: Colours, y: Node, x: Node)
    requires RbShape.Tree(s) && Balanced(s, c, null, null, null) && OnlyChild(s, y, x) && Bypassed(s, t, y, x) && RbShape.Tree(t)
    requires t.head in t.link && t.link[t.head].parent == s.link[s.head].parent && t.link[t.head].right == s.link[s.head].right
    ensures Balanced(t, Forget(c, y), x, x, null) && Shortened(s, t, y)
    ensures x in t.span && x in Forget(c, y).paint && Forget(c, y).paint[x] == Red
  {
    hide Balanced, RbShape.Tree;
    LoneChild(s, c, y, x);
    BypassColours(s, t, c, y, x, null);
    LoneIn(s, y, x);
    PlacedOf(s, y);
  }

  lemma LeaversIn(s: Shape, z: Node, y: Node, x: Node?)
    requires Leavers(s, z, y, x)
    ensures y in s.span && y in s.link && s.head in s.link && z in s.link && OnlyChild(s, y, x) && RbShape.Tree(s)
    ensures x != null ==> x in s.span && x in s.link && x != y && (y != z ==> x != z)
  {
    hide EndsWithout;
    LeavingOf(s, y, x);
    assert Linked(s, y) && Linked(s, z);
    if x != null { assert Linked(s, x); }
    if y != z { assert Linked(s, s.link[z].left); }
  }

  lemma ShortenedIn(s: Shape, t: Shape, z: Node, y: Node, x: Node?)
    requires Leavers(s, z, y, x) && Shortened(s, t, y) && RbShape.Tree(t)
    ensures t.head == s.head && t.link.Keys == s.link.Keys - {y} && y !in t.link
    ensures if y == z then Without(s, t, z)
            else z in t.span && y !in t.link && t.span[z].pos == s.span[y].pos
  {
    hide Linked, RootLinked, OnlyChild, EndsWithout;
    PlacedOf(s, z);
    if y != z { assert At(t, s.span[y].pos); }
  }

  lemma SwappedOf(t: Shape, u: Shape, z: Node, y: Node)
    requires RbShape.Tree(t) && z in t.span && y !in t.link && Replaced(t, u, z, y)
    ensures Swapped(t, u, z, y)
  {
    hide LeftLinked, RightLinked;
    assert Linked(t, z);
    ReplaceableOf(t, z, y);
  }

  lemma SwapAfter(s: Shape, t: Shape, u: Shape, z: Node, y: Node)
    requires RbShape.Tree(s) && z in s.span && y in s.span && y != z && s.span[y].pos == s.span[z].pos - 1
    requires Shortened(s, t, y) && Swapped(t, u, z, y) && t.span[z].pos == s.span[y].pos
    ensures Without(s, u, z)
  {
    hide Linked, RootLinked;
    PlacedOf(s, z);
    PlacedOf(s, y);
    var k := s.span[y].pos;
    assert u.order == s.order[..k] + [y] + s.order[k + 2..];
    assert s.order[..k + 1] == s.order[..k] + [y];
  }

  lemma WithoutKept(s: Shape, t: Shape, u: Shape, z: Node)
    requires Without(s, t, z) && Reordered(t, u) && u.head in u.link
    ensures Without(s, u, z)
  {
  }

  lemma WithoutIs(s: Shape, u: Shape, z: Node)
    requires Without(s, u, z)
    ensures u.head == s.head && 0 <= s.span[z].pos < |s.order| && s.order[s.span[z].pos] == z
    ensures u.order == s.order[..s.span[z].pos] + s.order[s.span[z].pos + 1..]
    ensures u.link.Keys == s.link.Keys - {z} && u.span.Keys == s.span.Keys - {z}
  {
  }

  lemma WithoutEnds(s: Shape, u: Shape, z: Node)
    requires RbShape.Tree(s) && Without(s, u, z) && EndsWithout(s, s.span[z].pos)
    ensures Extremes(u)
  {
  }

  lemma SidesAt(s: Shape, x: Node)
    requires Sides(s) && RbShape.Tree(s) && x in s.span
    ensures x in s.link && x.left == s.link[x].left && x.right == s.link[x].right
  {
  }

  lemma PartSplit(s: Shape, x: Node) returns (sp: Span)
    requires RbShape.Tree(s) && x in s.span
    ensures x in s.link && sp == s.span[x] && 0 <= sp.lo <= sp.pos < sp.hi <= |s.order|
    ensures s.link[x].left != null ==> s.link[x].left in s.span && s.span[s.link[x].left].lo == sp.lo && s.span[s.link[x].left].hi == sp.pos
    ensures s.link[x].left == null ==> sp.lo == sp.pos && Part(s, sp.lo, sp.pos) == {}
    ensures s.link[x].right != null ==> s.link[x].right in s.span && s.span[s.link[x].right].lo == sp.pos + 1 && s.span[s.link[x].right].hi == sp.hi
    ensures s.link[x].right == null ==> sp.pos + 1 == sp.hi && Part(s, sp.pos + 1, sp.hi) == {}
    ensures Part(s, sp.lo, sp.hi) == Part(s, sp.lo, sp.pos) + {x} + Part(s, sp.pos + 1, sp.hi)
    ensures x !in Part(s, sp.lo, sp.pos) && x !in Part(s, sp.pos + 1, sp.hi) && Part(s, sp.lo, sp.pos) !! Part(s, sp.pos + 1, sp.hi)
  {
    assert Linked(s, x);
    sp := s.span[x];
    forall i | 0 <= i < |s.order| ensures s.order[i] in s.span && s.span[s.order[i]].pos == i { assert At(s, i); }
  }

  lemma Whole(s: Shape)
    requires RbShape.Tree(s) && Now(s)
    ensures Sides(s) && s.head in s.link && s.head.left == s.link[s.head].left
    ensures s.head.left == null ==> s.order == [] && s.span.Keys == {}
    ensures s.head.left != null ==> s.head.left in s.span && s.span[s.head.left].lo == 0 && s.span[s.head.left].hi == |s.order|
    ensures Part(s, 0, |s.order|) == s.span.Keys
  {
    if s.head.left == null { EmptyKeys(s); }
    forall i | 0 <= i < |s.order| ensures s.order[i] in s.span { assert At(s, i); }
    forall x | x in s.span ensures x in Part(s, 0, |s.order|) { PlacedOf(s, x); }
  }
}

module RbEdit {
  import opened RbNodes
  import opened RbShape
  import opened RbColour

  /* ---- a new leaf ---- */

  /** Where a span lands when a node is inserted at index `k`, next to the node at `pp`. */
  ghost function Push(a: Span, pp: int, k: int): Span {
    Span(if a.lo > pp then a.lo + 1 else a.lo, if a.pos >= k then a.pos + 1 else a.pos, if a.hi > pp then a.hi + 1 else a.hi)
  }

  /** `q` has no child on side `d`. */
  ghost predicate EmptyLink(s: Shape, q: Node, d: Side)
  {
    q in s.span && q in s.link && Child(s.link[q], d) == null
  }

  /** The in-order index a node gets when it is hung on the empty link. */
  ghost function Gap(s: Shape, q: Node, d: Side): int
    requires q in s.span
  {
    if d == Left then s.span[q].pos else s.span[q].pos + 1
  }

  /** A node before and a node behind one gap cannot both leave their inner link empty. */
  lemma {:induction false} NoTwoLinks(s: Shape, x: Node, a: Node, b: Node)
    requires Tree(s) && x in s.span && EmptyLink(s, a, Left) && EmptyLink(s, b, Right)
    requires s.span[a].pos == s.span[b].pos + 1
    requires s.span[x].lo <= s.span[b].pos && s.span[a].pos < s.span[x].hi
    ensures false
    decreases s.span[x].hi - s.span[x].lo
  {
    hide RootLinked, At;
    assert Linked(s, x) && Linked(s, a) && Linked(s, b);
    if s.span[x].pos > s.span[a].pos {
      assert Linked(s, s.link[x].left);
      NoTwoLinks(s, s.link[x].left, a, b);
    } else if s.span[x].pos < s.span[b].pos {
      assert Linked(s, s.link[x].right);
      NoTwoLinks(s, s.link[x].right, a, b);
    }
  }

  /** Every gap of the in-order list is served by at most one empty link. */
  lemma LinkUnique(s: Shape, q: Node, d: Side, r: Node, e: Side)
    requires Tree(s) && EmptyLink(s, q, d) && EmptyLink(s, r, e) && Gap(s, q, d) == Gap(s, r, e)
    ensures q == r && d == e
  {
    assert Linked(s, q) && Linked(s, r);
    assert At(s, s.span[q].pos) && At(s, s.span[r].pos);
    if d != e {
      if d == Left { NoTwoLinks(s, s.link[s.head].left, q, r); } else { NoTwoLinks(s, s.link[s.head].left, r, q); }
    }
  }

  ghost predicate Grafted(s: Shape, t: Shape, n: Node, q: Node, d: Side)
    requires q in s.span && q in s.link && s.head in s.link
  {
    var k := Gap(s, q, d);
    && s.span.Keys <= s.link.Keys
    && t.head == s.head && 0 <= k <= |s.order| && t.order == s.order[..k] + [n] + s.order[k..]
    && t.link.Keys == s.link.Keys + {n} && t.span.Keys == s.span.Keys + {n}
    && t.link[n] == Link(q, null, null) && t.span[n] == Span(k, k, k + 1)
    && t.link[q] == SetChild(s.link[q], d, n)
    && t.link[s.head].left == s.link[s.head].left
    && (forall x :: x in s.span && x != q ==> t.link[x] == s.link[x])
    && (forall x :: x in s.span ==> t.span[x] == Push(s.span[x], s.span[q].pos, k))
  }

  lemma GraftNode(s: Shape, t: Shape, n: Node, q: Node, d: Side, x: Node)
    requires EmptyLink(s, q, d) && s.head in s.link && Linked(s, q) && n !in s.link && n !in s.span && Grafted(s, t, n, q, d)
    requires x in s.span && Linked(s, x) && s.head !in s.span
    requires forall y :: y in s.span && y != q ==> s.span[y].pos != s.span[q].pos
    ensures Linked(t, x)
  {
    GraftAbove(s, t, n, q, d, x);
    hide ParentLinked;
  }

  lemma GraftAbove(s: Shape, t: Shape, n: Node, q: Node, d: Side, x: Node)
    requires EmptyLink(s, q, d) && s.head in s.link && n !in s.link && n !in s.span && Grafted(s, t, n, q, d)
    requires x in s.span && Linked(s, x) && s.head !in s.span
    ensures x in t.link && ParentLinked(t, x)
  {
    hide Placed, LeftLinked, RightLinked;
  }

  lemma GraftLeaf(s: Shape, t: Shape, n: Node, q: Node, d: Side)
    requires EmptyLink(s, q, d) && s.head in s.link && Linked(s, q) && n !in s.link && n !in s.span && Grafted(s, t, n, q, d)
    ensures Linked(t, n)
  {
  }

  lemma GraftKeepsOrder(s: Shape, t: Shape, n: Node, q: Node, d: Side, i: int)
    requires Tree(s) && EmptyLink(s, q, d) && n !in s.link && Grafted(s, t, n, q, d) && 0 <= i < |t.order|
    ensures At(t, i)
  {
    hide Linked, RootLinked;
    var k := Gap(s, q, d);
    assert Placed(s, q) by { PlacedOf(s, q); }
    if i < k {
      assert At(s, i);
      assert s.order[i] == t.order[i];
    } else if i > k {
      assert At(s, i - 1);
      assert s.order[i - 1] == t.order[i];
    }
  }

  lemma PlacedOf(s: Shape, x: Node)
    requires Tree(s) && x in s.span
    ensures Placed(s, x)
    ensures forall y :: y in s.span && y != x ==> s.span[y].pos != s.span[x].pos
  {
    hide LeftLinked, RightLinked, ParentLinked, RootLinked;
    assert Linked(s, x);
    forall y | y in s.span && y != x ensures s.span[y].pos != s.span[x].pos { assert Linked(s, y); }
  }

  lemma GraftKeepsTree(s: Shape, t: Shape, n: Node, q: Node, d: Side)
    requires Tree(s) && EmptyLink(s, q, d) && n !in s.link && Grafted(s, t, n, q, d)
    ensures Tree(t)
  {
    hide Linked, Placed, At;
    PlacedOf(s, q);
    assert Linked(s, q);
    GraftLeaf(s, t, n, q, d);
    forall x | x in t.span ensures Linked(t, x) {
      if x != n { assert Linked(s, x); GraftNode(s, t, n, q, d, x); }
    }
    forall i | 0 <= i < |t.order| ensures At(t, i) { GraftKeepsOrder(s, t, n, q, d, i); }
    GraftKeepsRoot(s, t, n, q, d);
  }

  lemma GraftKeepsRoot(s: Shape, t: Shape, n: Node, q: Node, d: Side)
    requires Tree(s) && EmptyLink(s, q, d) && n !in s.link && Grafted(s, t, n, q, d)
    ensures RootLinked(t)
  {
    PlacedOf(s, q);
  }

  /** `setleft` and `setright`: the header follows the new first or last node. */
  lemma GraftExtremes(s: Shape, t: Shape, n: Node, q: Node, d: Side)
    requires Tree(s) && Extremes(s) && EmptyLink(s, q, d) && n !in s.link && Grafted(s, t, n, q, d)
    requires t.link[s.head].parent == if d == Left && s.link[s.head].parent == q then n else s.link[s.head].parent
    requires t.link[s.head].right == if d == Right && s.link[s.head].right == q then n else s.link[s.head].right
    ensures Extremes(t)
  {
    hide Linked, RootLinked;
    PlacedOf(s, q);
    assert At(s, 0) && At(s, |s.order| - 1);
  }

  /* ---- a node with at most one child leaves ---- */

  /** Where a span lands when the node at index `k` leaves. */
  ghost function Pull(a: Span, k: int): Span {
    Span(if a.lo > k then a.lo - 1 else a.lo, if a.pos > k then a.pos - 1 else a.pos, if a.hi > k then a.hi - 1 else a.hi)
  }

  /** `x` is all that hangs below `y`. */
  ghost predicate OnlyChild(s: Shape, y: Node, x: Node?)
  {
    && y in s.span && y in s.link
    && ((s.link[y].left == null && s.link[y].right == x) || (s.link[y].right == null && s.link[y].left == x))
  }

  ghost predicate Bypassed(s: Shape, t: Shape, y: Node, x: Node?)
    requires y in s.span && y in s.link
  {
    var k := s.span[y].pos;
    var g := s.link[y].parent;
    && s.span.Keys <= s.link.Keys
    && t.head == s.head && 0 <= k < |s.order| && t.order == s.order[..k] + s.order[k + 1..]
    && t.link.Keys == s.link.Keys - {y} && t.span.Keys == s.span.Keys - {y}
    && g != null && g in s.link && g != y && t.link[g] == Redirected(s, g, y, x)
    && (x != null ==> x in s.link && x != y && x != g && t.link[x] == s.link[x].(parent := g))
    && (forall w :: w in s.link && w != y && w != g && w != x ==> t.link[w] == s.link[w])
    && (forall w :: w in s.span && w != y ==> t.span[w] == Pull(s.span[w], k))
  }

  /** The facts about the neighbourhood of the node that leaves. */
  ghost predicate Leaving(s: Shape, y: Node, x: Node?)
  {
    && s.head in s.link && s.head !in s.span && OnlyChild(s, y, x) && Linked(s, y)
    && var g := s.link[y].parent;
    && (if g == s.head then s.link[s.head].left == y else g in s.span && Linked(s, g) && g != y && g != x && s.link[s.head].left != y)
    && (x != null ==> x in s.span && Linked(s, x) && x != y && x != s.head)
  }

  lemma LeavingOf(s: Shape, y: Node, x: Node?)
    requires Tree(s) && OnlyChild(s, y, x)
    ensures Leaving(s, y, x)
  {
    assert Linked(s, y);
    var g := s.link[y].parent;
    if g != s.head { assert Linked(s, g); }
    if x != null { assert Linked(s, x); }
  }

  lemma BypassOther(s: Shape, t: Shape, y: Node, x: Node?, w: Node)
    requires Leaving(s, y, x) && Bypassed(s, t, y, x)
    requires w in s.span && Linked(s, w) && w != y && w != x && w != s.link[y].parent && s.span[w].pos != s.span[y].pos
    ensures Linked(t, w)
  {
    BypassPlaced(s, t, y, x, w);
    BypassOtherSides(s, t, y, x, w);
    BypassOtherParent(s, t, y, x, w);
  }

  lemma BypassOtherSides(s: Shape, t: Shape, y: Node, x: Node?, w: Node)
    requires Leaving(s, y, x) && Bypassed(s, t, y, x)
    requires w in s.span && Linked(s, w) && w != y && w != x && w != s.link[y].parent && s.span[w].pos != s.span[y].pos
    ensures LeftLinked(t, w) && RightLinked(t, w)
  {
  }

  lemma BypassOtherParent(s: Shape, t: Shape, y: Node, x: Node?, w: Node)
    requires Leaving(s, y, x) && Bypassed(s, t, y, x)
    requires w in s.span && Linked(s, w) && w != y && w != x && w != s.link[y].parent && s.span[w].pos != s.span[y].pos
    ensures ParentLinked(t, w)
  {
    hide Placed;
  }

  lemma BypassChild(s: Shape, t: Shape, y: Node, x: Node)
    requires Leaving(s, y, x) && Bypassed(s, t, y, x) && s.span[x].pos != s.span[y].pos
    ensures Linked(t, x)
  {
    BypassPlaced(s, t, y, x, x);
    BypassChildSides(s, t, y, x);
    BypassChildParent(s, t, y, x);
  }

  lemma BypassChildSides(s: Shape, t: Shape, y: Node, x: Node)
    requires Leaving(s, y, x) && Bypassed(s, t, y, x) && s.span[x].pos != s.span[y].pos
    ensures LeftLinked(t, x) && RightLinked(t, x)
  {
  }

  lemma BypassChildParent(s: Shape, t: Shape, y: Node, x: Node)
    requires Leaving(s, y, x) && Bypassed(s, t, y, x) && s.span[x].pos != s.span[y].pos
    ensures ParentLinked(t, x)
  {
    hide Placed;
  }

  lemma BypassPlaced(s: Shape, t: Shape, y: Node, x: Node?, w: Node)
    requires Leaving(s, y, x) && Bypassed(s, t, y, x)
    requires w in s.span && Placed(s, w) && w != y && s.span[w].pos != s.span[y].pos
    ensures Placed(t, w)
  {
    hide Linked;
  }

  lemma BypassParent(s: Shape, t: Shape, y: Node, x: Node?)
    requires Leaving(s, y, x) && Bypassed(s, t, y, x) && s.link[y].parent != s.head
    requires s.span[s.link[y].parent].pos != s.span[y].pos
    ensures Linked(t, s.link[y].parent)
  {
    BypassPlaced(s, t, y, x, s.link[y].parent);
    if s.link[s.link[y].parent].left == y { BypassParentLeft(s, t, y, x); } else { BypassParentRight(s, t, y, x); }
  }

  lemma SpanFits(s: Shape, x: Node)
    requires Linked(s, x)
    ensures x in s.span && s.span[x].lo <= s.span[x].pos < s.span[x].hi
  {
  }

  lemma BypassParentLeft(s: Shape, t: Shape, y: Node, x: Node?)
    requires Leaving(s, y, x) && Bypassed(s, t, y, x) && s.link[y].parent != s.head
    requires s.span[s.link[y].parent].pos != s.span[y].pos && s.link[s.link[y].parent].left == y
    ensures var g := s.link[y].parent; LeftLinked(t, g) && RightLinked(t, g) && ParentLinked(t, g)
  {
    hide Placed;
    SpanFits(s, y);
    SpanFits(s, s.link[y].parent);
  }

  lemma BypassParentRight(s: Shape, t: Shape, y: Node, x: Node?)
    requires Leaving(s, y, x) && Bypassed(s, t, y, x) && s.link[y].parent != s.head
    requires s.span[s.link[y].parent].pos != s.span[y].pos && s.link[s.link[y].parent].right == y
    ensures var g := s.link[y].parent; LeftLinked(t, g) && RightLinked(t, g) && ParentLinked(t, g)
  {
    hide Placed;
    SpanFits(s, y);
    SpanFits(s, s.link[y].parent);
  }

  lemma BypassKeepsOrder(s: Shape, t: Shape, y: Node, x: Node?, i: int)
    requires Tree(s) && Placed(s, y) && Bypassed(s, t, y, x) && 0 <= i < |t.order|
    ensures At(t, i)
  {
    hide Linked, RootLinked;
    var k := s.span[y].pos;
    if i < k {
      assert At(s, i);
      assert s.order[i] == t.order[i];
    } else {
      assert At(s, i + 1);
      assert s.order[i + 1] == t.order[i];
    }
  }

  lemma BypassKeepsRoot(s: Shape, t: Shape, y: Node, x: Node?)
    requires Leaving(s, y, x) && RootLinked(s) && Bypassed(s, t, y, x)
    ensures RootLinked(t)
  {
  }

  lemma BypassKeepsTree(s: Shape, t: Shape, y: Node, x: Node?)
    requires Tree(s) && OnlyChild(s, y, x) && Bypassed(s, t, y, x)
    ensures Tree(t)
  {
    hide Linked, Placed, At, RootLinked;
    LeavingOf(s, y, x);
    PlacedOf(s, y);
    forall w | w in t.span ensures Linked(t, w) {
      assert Linked(s, w);
      if w == x { BypassChild(s, t, y, x); }
      else if w == s.link[y].parent { BypassParent(s, t, y, x); }
      else { BypassOther(s, t, y, x, w); }
    }
    forall i | 0 <= i < |t.order| ensures At(t, i) { BypassKeepsOrder(s, t, y, x, i); }
    BypassKeepsRoot(s, t, y, x);
  }

  /* ---- one record takes the place of another ---- */

  ghost predicate Replaced(s: Shape, t: Shape, z: Node, y: Node)
    requires z in s.span && z in s.link
  {
    var k := s.span[z].pos;
    var g := s.link[z].parent;
    var l := s.link[z].left;
    var r := s.link[z].right;
    && s.span.Keys <= s.link.Keys
    && t.head == s.head && 0 <= k < |s.order| && t.order == s.order[k := y]
    && t.link.Keys == s.link.Keys - {z} + {y} && t.span.Keys == s.span.Keys - {z} + {y}
    && t.link[y] == s.link[z] && t.span[y] == s.span[z]
    && g != null && g in s.link && g != z && t.link[g] == Redirected(s, g, z, y)
    && (l != null ==> l in s.link && l != z && l != g && t.link[l] == s.link[l].(parent := y))
    && (r != null ==> r in s.link && r != z && r != g && t.link[r] == s.link[r].(parent := y))
    && (forall w :: w in s.link && w != z && w != g && w != l && w != r ==> t.link[w] == s.link[w])
    && (forall w :: w in s.span && w != z ==> t.span[w] == s.span[w])
  }

  ghost predicate Replaceable(s: Shape, z: Node, y: Node)
  {
    && s.head in s.link && s.head !in s.span && y !in s.link && y !in s.span && Linked(s, z)
    && var g := s.link[z].parent;
    && var l := s.link[z].left;
    && var r := s.link[z].right;
    && g != null && g in s.link && (l != null ==> l in s.link) && (r != null ==> r in s.link)
    && (if g == s.head then s.link[s.head].left == z else g in s.span && Linked(s, g) && g != z && g != l && g != r && s.link[s.head].left != z)
    && (l != null ==> l in s.span && Linked(s, l) && l != z && l != r && l != s.head)
    && (r != null ==> r in s.span && Linked(s, r) && r != z && r != s.head)
  }

  lemma ReplaceableOf(s: Shape, z: Node, y: Node)
    requires Tree(s) && z in s.span && y !in s.link
    ensures Replaceable(s, z, y)
  {
    assert Linked(s, z);
    var g := s.link[z].parent;
    if g != s.head { assert Linked(s, g); }
    if s.link[z].left != null { assert Linked(s, s.link[z].left); }
    if s.link[z].right != null { assert Linked(s, s.link[z].right); }
  }

  lemma ReplacePlaced(s: Shape, t: Shape, z: Node, y: Node, w: Node)
    requires Replaceable(s, z, y) && Replaced(s, t, z, y)
    requires w in s.span && Placed(s, w) && w != z && s.span[w].pos != s.span[z].pos
    ensures Placed(t, w) && Placed(t, y)
  {
    hide LeftLinked, RightLinked, ParentLinked;
  }

  lemma ReplaceSelf(s: Shape, t: Shape, z: Node, y: Node)
    requires Replaceable(s, z, y) && Replaced(s, t, z, y)
    ensures Linked(t, y)
  {
  }

  lemma ReplaceLinks(s: Shape, t: Shape, z: Node, y: Node, w: Node)
    requires Replaceable(s, z, y) && Replaced(s, t, z, y)
    requires w in s.span && Linked(s, w) && w != z
    ensures LeftLinked(t, w) && RightLinked(t, w)
  {
  }

  lemma ReplaceParent(s: Shape, t: Shape, z: Node, y: Node, w: Node)
    requires Replaceable(s, z, y) && Replaced(s, t, z, y)
    requires w in s.span && Linked(s, w) && w != z
    ensures ParentLinked(t, w)
  {
    hide Placed;
    SpanFits(s, w);
    SpanFits(s, z);
  }

  lemma ReplaceKeepsTree(s: Shape, t: Shape, z: Node, y: Node)
    requires Tree(s) && z in s.span && y !in s.link && Replaced(s, t, z, y)
    ensures Tree(t)
  {
    hide LeftLinked, RightLinked, ParentLinked, Placed, At, RootLinked, Replaceable, Replaced;
    ReplaceableOf(s, z, y);
    PlacedOf(s, z);
    ReplaceDomain(s, t, z, y);
    ReplaceSelf(s, t, z, y);
    forall w | w in t.span ensures Linked(t, w) {
      if w != y {
        assert Linked(s, w);
        ReplacePlaced(s, t, z, y, w);
        ReplaceLinks(s, t, z, y, w);
        ReplaceParent(s, t, z, y, w);
      }
    }
    forall i | 0 <= i < |t.order| ensures At(t, i) { assert At(s, i); ReplaceKeepsAt(s, t, z, y, i); }
    ReplaceKeepsRoot(s, t, z, y);
  }

  lemma ReplaceDomain(s: Shape, t: Shape, z: Node, y: Node)
    requires Replaceable(s, z, y) && Replaced(s, t, z, y)
    ensures t.head == s.head && |t.order| == |s.order| && t.link.Keys == s.link.Keys - {z} + {y} && t.span.Keys == s.span.Keys - {z} + {y}
    ensures y != s.head && z != s.head
  {
  }

  lemma ReplaceKeepsAt(s: Shape, t: Shape, z: Node, y: Node, i: int)
    requires Replaceable(s, z, y) && Replaced(s, t, z, y) && 0 <= i < |s.order| == |t.order| && At(s, i) && Placed(s, z)
    ensures At(t, i)
  {
    hide Linked;
  }

  lemma ReplaceKeepsRoot(s: Shape, t: Shape, z: Node, y: Node)
    requires Replaceable(s, z, y) && Replaced(s, t, z, y) && RootLinked(s)
    ensures RootLinked(t)
  {
  }

  /* ---- what the three edits do to the colours ---- */

  ghost function PaintLeaf(c: Colours, n: Node): Colours { Colours(c.paint[n := Red], c.bh[n := 0]) }

  lemma GraftColourNode(s: Shape, t: Shape, c: Colours, n: Node, q: Node, d: Side, x: Node)
    requires EmptyLink(s, q, d) && s.head in s.link && s.head !in s.span && n !in s.link && n !in s.span && Grafted(s, t, n, q, d)
    requires c.paint.Keys == s.link.Keys && c.bh.Keys == s.span.Keys
    requires x in s.span && Linked(s, x) && Even(s, c, x, null) && Calm(s, c, x, null)
    ensures Even(t, PaintLeaf(c, n), x, null) && Calm(t, PaintLeaf(c, n), x, n)
  {
    hide Linked, Grafted, EmptyLink;
    GraftChildren(s, t, n, q, d, x);
  }

  lemma GraftChildren(s: Shape, t: Shape, n: Node, q: Node, d: Side, x: Node)
    requires EmptyLink(s, q, d) && s.head in s.link && s.head !in s.span && n !in s.link && n !in s.span && Grafted(s, t, n, q, d)
    requires x in s.span && Linked(s, x)
    ensures x in s.link && x in t.link && x != n
    ensures if x == q && d == Left then s.link[x].left == null && t.link[x].left == n else t.link[x].left == s.link[x].left
    ensures if x == q && d == Right then s.link[x].right == null && t.link[x].right == n else t.link[x].right == s.link[x].right
    ensures s.link[x].left != null ==> s.link[x].left in s.link && s.link[x].left in s.span
    ensures s.link[x].right != null ==> s.link[x].right in s.link && s.link[x].right in s.span
  {
  }

  lemma GraftColours(s: Shape, t: Shape, c: Colours, n: Node, q: Node, d: Side)
    requires Tree(s) && Balanced(s, c, null, null, null) && EmptyLink(s, q, d) && n !in s.link && Grafted(s, t, n, q, d)
    ensures Balanced(t, PaintLeaf(c, n), null, n, null)
  {
    hide Linked, Even, Calm;
    var c2 := PaintLeaf(c, n);
    forall x | x in t.span ensures Even(t, c2, x, null) && Calm(t, c2, x, n) {
      if x == n {
        LeafColours(t, c2, n);
      } else {
        assert Linked(s, x) && Even(s, c, x, null) && Calm(s, c, x, null);
        GraftColourNode(s, t, c, n, q, d, x);
      }
    }
  }

  lemma LeafColours(t: Shape, c: Colours, n: Node)
    requires n in t.link && n in c.bh && t.link[n].left == null && t.link[n].right == null && c.bh[n] == 0
    ensures Even(t, c, n, null) && Calm(t, c, n, n)
  {
  }

  ghost function Forget(c: Colours, y: Node): Colours { Colours(c.paint - {y}, c.bh - {y}) }

  lemma BypassColourNode(s: Shape, t: Shape, c: Colours, y: Node, x: Node?, ph: Node?, w: Node)
    requires Leaving(s, y, x) && Bypassed(s, t, y, x)
    requires c.paint.Keys == s.link.Keys && c.bh.Keys == s.span.Keys
    requires if x == null then H(c, y) == 0 else x in c.paint && c.paint[y] == Black && c.paint[x] == Red && H(c, y) == H(c, x) + 1
    requires w in s.span && Linked(s, w) && w != y && Calm(s, c, w, null) && Even(s, c, w, null)
    ensures Calm(t, Forget(c, y), w, x) && Even(t, Forget(c, y), w, x)
  {
    hide Linked, Leaving, Bypassed;
    BypassChildren(s, t, y, x, w);
  }

  lemma BypassChildren(s: Shape, t: Shape, y: Node, x: Node?, w: Node)
    requires Leaving(s, y, x) && Bypassed(s, t, y, x) && w in s.span && Linked(s, w) && w != y
    ensures w in s.link && w in t.link
    ensures t.link[w].left == if s.link[w].left == y then x else s.link[w].left
    ensures t.link[w].right == if s.link[w].right == y then x else s.link[w].right
    ensures x != null ==> (s.link[w].left != x && s.link[w].right != x && x in s.link && x in s.span && x != y)
    ensures s.link[w].left != null ==> s.link[w].left in s.link && s.link[w].left in s.span
    ensures s.link[w].right != null ==> s.link[w].right in s.link && s.link[w].right in s.span
    ensures y in s.link && y in s.span
  {
  }

  /** A node that counts for nothing can be cut off; a node above a red child leaves that child one short. */
  lemma BypassColours(s: Shape, t: Shape, c: Colours, y: Node, x: Node?, ph: Node?)
    requires Tree(s) && Balanced(s, c, null, null, ph) && (ph != null ==> ph == y)
    requires OnlyChild(s, y, x) && Bypassed(s, t, y, x)
    requires if x == null then H(c, y) == 0 else x in c.paint && c.paint[y] == Black && c.paint[x] == Red && H(c, y) == H(c, x) + 1
    ensures Balanced(t, Forget(c, y), x, x, null)
  {
    hide Linked, Even, Calm;
    LeavingOf(s, y, x);
    forall w | w in t.span ensures Even(t, Forget(c, y), w, x) && Calm(t, Forget(c, y), w, x) {
      assert Linked(s, w) && Even(s, c, w, null) && Calm(s, c, w, null);
      BypassColourNode(s, t, c, y, x, ph, w);
    }
  }

  /** A node with exactly one child is black and that child is red. */
  lemma LoneChild(s: Shape, c: Colours, y: Node, x: Node)
    requires Tree(s) && Balanced(s, c, null, null, null) && OnlyChild(s, y, x)
    ensures x in c.paint && c.paint[y] == Black && c.paint[x] == Red && H(c, y) == H(c, x) + 1
  {
    assert Linked(s, y);
    assert Even(s, c, y, null) && Even(s, c, x, null) && Calm(s, c, y, null);
  }

  ghost function Recast(c: Colours, z: Node, y: Node): Colours
    requires z in c.paint && z in c.bh
  {
    Colours((c.paint - {z})[y := c.paint[z]], (c.bh - {z})[y := c.bh[z]])
  }

  lemma ReplaceColourNode(s: Shape, t: Shape, c: Colours, z: Node, y: Node, x: Node?, w: Node)
    requires Replaceable(s, z, y) && Replaced(s, t, z, y) && x != y && x != z
    requires c.paint.Keys == s.link.Keys && c.bh.Keys == s.span.Keys
    requires w in s.span && Linked(s, w) && w != z && Calm(s, c, w, x) && Even(s, c, w, x)
    ensures Calm(t, Recast(c, z, y), w, x) && Even(t, Recast(c, z, y), w, x)
  {
    hide Linked, Replaceable, Replaced;
    ReplaceChildren(s, t, z, y, w);
  }

  lemma ReplaceChildren(s: Shape, t: Shape, z: Node, y: Node, w: Node)
    requires Replaceable(s, z, y) && Replaced(s, t, z, y) && w in s.span && Linked(s, w) && w != z
    ensures w in s.link && w in t.link && w != y && z in s.link && z in s.span && y !in s.link && y !in s.span
    ensures t.link[w].left == if s.link[w].left == z then y else s.link[w].left
    ensures t.link[w].right == if s.link[w].right == z then y else s.link[w].right
    ensures s.link[w].left != null ==> s.link[w].left in s.link && s.link[w].left in s.span
    ensures s.link[w].right != null ==> s.link[w].right in s.link && s.link[w].right in s.span
  {
  }

  lemma ReplaceColourSelf(s: Shape, t: Shape, c: Colours, z: Node, y: Node, x: Node?)
    requires Replaceable(s, z, y) && Replaced(s, t, z, y) && x != y && x != z
    requires c.paint.Keys == s.link.Keys && c.bh.Keys == s.span.Keys
    requires Calm(s, c, z, x) && Even(s, c, z, x)
    ensures Calm(t, Recast(c, z, y), y, x) && Even(t, Recast(c, z, y), y, x)
  {
  }

  /** Everything of the balance but the nodes below the root. */
  lemma ReplaceColourTop(s: Shape, t: Shape, c: Colours, z: Node, y: Node, x: Node?)
    requires Tree(s) && Replaceable(s, z, y) && Replaced(s, t, z, y) && Balanced(s, c, x, x, null) && x != y && x != z
    ensures var m := Recast(c, z, y);
      && t.head in t.link && m.paint.Keys == t.link.Keys && m.bh.Keys == t.span.Keys && m.paint[t.head] == Black
      && (t.link[t.head].left == x || IsBlack(m, t.link[t.head].left))
    ensures t.span.Keys == s.span.Keys - {z} + {y}
  {
    hide Linked, Even, Calm, At;
    var root := s.link[s.head].left;
    if root != null {
      assert Linked(s, root);
    }
    assert t.link[t.head].left == if root == z then y else root by { ReplaceRoot(s, t, z, y); }
  }

  lemma ReplaceRoot(s: Shape, t: Shape, z: Node, y: Node)
    requires Tree(s) && Replaceable(s, z, y) && Replaced(s, t, z, y)
    ensures s.head in t.link && t.link[s.head].left == if s.link[s.head].left == z then y else s.link[s.head].left
  {
    hide At;
    assert Linked(s, z);
  }

  lemma ReplaceColours(s: Shape, t: Shape, c: Colours, z: Node, y: Node, x: Node?)
    requires Tree(s) && Balanced(s, c, x, x, null) && z in s.span && y !in s.link && Replaced(s, t, z, y) && x != y && x != z
    ensures Balanced(t, Recast(c, z, y), x, x, null)
  {
    hide Linked, Even, Calm, Replaced, Replaceable, RootLinked, At, Recast, IsBlack;
    ReplaceableOf(s, z, y);
    ReplaceColourTop(s, t, c, z, y, x);
    assert Even(s, c, z, x) && Calm(s, c, z, x);
    ReplaceColourSelf(s, t, c, z, y, x);
    forall w | w in t.span ensures Even(t, Recast(c, z, y), w, x) && Calm(t, Recast(c, z, y), w, x) {
      if w != y {
        assert Linked(s, w) && Even(s, c, w, x) && Calm(s, c, w, x);
        ReplaceColourNode(s, t, c, z, y, x, w);
      }
    }
  }
}

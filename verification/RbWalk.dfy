module RbWalk {
  import opened RbNodes
  import opened RbShape
  import opened RbColour
  import opened RbEdit
  import opened RbFixup

  /** What one record says about its surroundings in the in-order list. */
  lemma Around(s: Shape, x: Node)
    requires Tree(s) && x in s.span && Now(s)
    ensures x != s.head && 0 <= s.span[x].lo <= s.span[x].pos < s.span[x].hi <= |s.order| && s.order[s.span[x].pos] == x
    ensures x.left == null <==> s.span[x].lo == s.span[x].pos
    ensures x.left != null ==> x.left in s.span && s.span[x.left].lo == s.span[x].lo && s.span[x.left].hi == s.span[x].pos
    ensures x.right == null <==> s.span[x].pos + 1 == s.span[x].hi
    ensures x.right != null ==> x.right in s.span && s.span[x.right].lo == s.span[x].pos + 1 && s.span[x.right].hi == s.span[x].hi
    ensures x.parent != null && s.head.left != null && s.head.left in s.span
    ensures s.span[s.head.left].lo == 0 && s.span[s.head.left].hi == |s.order|
    ensures x.parent == s.head <==> s.head.left == x
    ensures x.parent != s.head ==> x.parent in s.span && (x.parent.left == x || x.parent.right == x)
  {
    assert Linked(s, x);
    if x.left != null { assert Linked(s, x.left); }
    if x.right != null { assert Linked(s, x.right); }
    if x.parent != s.head { assert Linked(s, x.parent); }
  }

  /** `NodeBase::increment`: the in-order successor, or the header after the last node. */
  method Increment(c0: Node, ghost s: Shape) returns (c: Node)
    requires Tree(s) && Now(s) && c0 in s.span
    requires s.head.right == null || (s.order != [] && s.head.right == s.order[|s.order| - 1])
    ensures var i := s.span[c0].pos + 1; 0 <= i <= |s.order| && c == if i < |s.order| then s.order[i] else s.head
  {
    hide Tree, Now;
    c := c0;
    ghost var i := s.span[c0].pos + 1;
    Around(s, c);
    if c.right != null {
      c := c.right;
      Around(s, c);
      while c.left != null
        invariant c in s.span && s.span[c].lo == i
        decreases s.span[c].hi - s.span[c].lo
      {
        Around(s, c);
        c := c.left;
        Around(s, c);
      }
      Around(s, c);
    } else {
      assert c.parent != null;
      if c.parent.left == c {
        if c.parent != s.head { Around(s, c.parent); }
        c := c.parent;
      } else {
        while c.parent != null && c.parent.right == c
          invariant c in s.span && s.span[c].hi == i && (c == c0 || s.span[c].pos < s.span[c0].pos)
          decreases |s.order| - (s.span[c].hi - s.span[c].lo)
        {
          Around(s, c);
          assert c.parent != s.head;
          Around(s, c.parent);
          c := c.parent;
        }
        Around(s, c);
        if c.parent != s.head { Around(s, c.parent); }
        c := c.parent;
      }
    }
  }

  /** `NodeBase::decrement`: the in-order predecessor; the header's predecessor is the last node. */
  method Decrement(c0: Node, ghost s: Shape) returns (c: Node)
    requires Tree(s) && Now(s) && s.order != []
    requires c0 == s.head || (c0 in s.span && s.span[c0].pos > 0)
    ensures var i := if c0 == s.head then |s.order| - 1 else s.span[c0].pos - 1; 0 <= i < |s.order| && c == s.order[i]
  {
    hide Tree, Now;
    c := c0;
    ghost var i := if c0 == s.head then |s.order| else s.span[c0].pos;
    if c0 == s.head { Ends(s); } else { Around(s, c); }
    if c.left != null {
      c := c.left;
      Around(s, c);
      while c.right != null
        invariant c in s.span && s.span[c].hi == i
        decreases s.span[c].hi - s.span[c].lo
      {
        Around(s, c);
        c := c.right;
        Around(s, c);
      }
      Around(s, c);
    } else {
      assert c.parent != null;
      if c.parent.right == c {
        Around(s, c.parent);
        c := c.parent;
      } else {
        while c.parent != null && c.parent.left == c
          invariant c in s.span && s.span[c].lo == i
          decreases |s.order| - (s.span[c].hi - s.span[c].lo)
        {
          Around(s, c);
          Around(s, c.parent);
          c := c.parent;
          Around(s, c);
        }
        Around(s, c);
        Around(s, c.parent);
        c := c.parent;
      }
    }
  }

  lemma Ends(s: Shape)
    requires Tree(s) && Now(s) && s.order != []
    ensures s.head.left != null && s.head.left in s.span && s.span[s.head.left].lo == 0 && s.span[s.head.left].hi == |s.order|
  {
  }

  ghost predicate Is(x: Node, k: Link)
    reads x
  {
    x.parent == k.parent && x.left == k.left && x.right == k.right
  }

  /** The link of the parent of `y` that led to `y` leads to `x`. */
  method Relink(g: Node, y: Node, x: Node?, ghost s: Shape)
    requires g in s.link && y in s.link && g == s.link[y].parent && Is(g, s.link[g])
    requires if g == s.head then s.link[g].left == y else (s.link[g].left == y || s.link[g].right == y) && !(s.link[g].left == y && s.link[g].right == y)
    modifies g`left, g`right
    ensures Link(g.parent, g.left, g.right) == Redirected(s, g, y, x)
  {
    if y == g.left { g.left := x; } else { g.right := x; }
  }

  /** The records after `n` took the place of `z`, against the snapshot from before. */
  ghost predicate Rewired(s: Shape, z: Node, n: Node)
    requires z in s.link
    reads s.link.Keys, n
  {
    var g := s.link[z].parent;
    var l := s.link[z].left;
    var r := s.link[z].right;
    && Is(n, s.link[z])
    && g in s.link && Is(g, Redirected(s, g, z, n))
    && (l != null ==> l in s.link && Is(l, s.link[l].(parent := n)))
    && (r != null ==> r in s.link && Is(r, s.link[r].(parent := n)))
    && (forall w {:trigger Is(w, s.link[w])} :: w in s.link && w != z && w != g && w != l && w != r ==> Is(w, s.link[w]))
  }

  /** `NodeBase::replace`: `n` takes the links and the colour of `z`. */
  method Replace(z: Node, n: Node, ghost s: Shape)
    requires Replaceable(s, z, n) && Now(s) && s.span.Keys <= s.link.Keys && z in s.span && Placed(s, z)
    modifies s.link.Keys`parent, s.link.Keys`left, s.link.Keys`right, n`parent, n`left, n`right, n`color
    ensures Is(n, s.link[z])
    ensures s.link[z].parent in s.link && Is(s.link[z].parent, Redirected(s, s.link[z].parent, z, n))
    ensures s.link[z].left != null ==> s.link[z].left in s.link && Is(s.link[z].left, s.link[s.link[z].left].(parent := n))
    ensures s.link[z].right != null ==> s.link[z].right in s.link && Is(s.link[z].right, s.link[s.link[z].right].(parent := n))
    ensures forall w {:trigger Is(w, s.link[w])} :: (
      w in s.link && w != z && w != s.link[z].parent && w != s.link[z].left && w != s.link[z].right ==> Is(w, s.link[w]))
    ensures n.color == z.color
  {
    hide Linked, Replaceable, Placed;
    Flat(s, z, n);
    n.left := z.left;
    n.right := z.right;
    n.color := z.color;
    n.parent := z.parent;
    if z.parent != null {
      Relink(z.parent, z, n, s);
    }
    // n has left the tree before, so it is neither child of z
    if z.left != null && z.left != n {
      z.left.parent := n;
    }
    if z.right != null && z.right != n {
      z.right.parent := n;
    }
  }

  /** The records `replace` writes are different records. */
  lemma Flat(s: Shape, z: Node, n: Node)
    requires Replaceable(s, z, n) && s.span.Keys <= s.link.Keys && z in s.span && Placed(s, z)
    ensures 0 <= s.span[z].pos < |s.order| && z in s.link && n !in s.link && n !in s.span
    ensures s.link[z].parent != null && s.link[z].parent in s.link && s.link[z].parent != z
    ensures s.link[z].left != null ==> s.link[z].left in s.link && s.link[z].left != z && s.link[z].left != s.link[z].parent
    ensures s.link[z].right != null ==> s.link[z].right in s.link && s.link[z].right != z && s.link[z].right != s.link[z].parent
    ensures s.link[z].right != null ==> s.link[z].right != s.link[z].left
    ensures var g := s.link[z].parent;
      if g == s.head then s.link[g].left == z else (s.link[g].left == z || s.link[g].right == z) && !(s.link[g].left == z && s.link[g].right == z)
  {
    RelinkReady(s, z);
  }

  lemma RelinkReady(s: Shape, y: Node)
    requires Linked(s, y) && s.head !in s.span
    requires s.link[y].parent != null && s.link[y].parent in s.link
    requires s.link[y].parent != s.head ==> Linked(s, s.link[y].parent)
    ensures var g := s.link[y].parent; g != s.head ==> !(s.link[g].left == y && s.link[g].right == y)
    ensures var g := s.link[y].parent; if g == s.head then s.link[g].left == y else s.link[g].left == y || s.link[g].right == y
  {
  }

  ghost function ReplacedShape(s: Shape, z: Node, n: Node): (t: Shape)
    requires z in s.span && 0 <= s.span[z].pos < |s.order|
    reads s.link.Keys, n
    ensures Now(t) && t.head == s.head && t.order == s.order[s.span[z].pos := n]
    ensures t.link.Keys == s.link.Keys - {z} + {n} && t.span.Keys == s.span.Keys - {z} + {n}
    ensures t.span[n] == s.span[z] && forall w :: w in s.span && w != z && w != n ==> t.span[w] == s.span[w]
  {
    Shape(s.head, LinksOf(s.link.Keys - {z} + {n}), s.order[s.span[z].pos := n], (s.span - {z})[n := s.span[z]])
  }

  lemma ReplaceSeen(s: Shape, z: Node, n: Node)
    requires Replaceable(s, z, n) && s.span.Keys <= s.link.Keys && z in s.span && Placed(s, z) && Rewired(s, z, n)
    ensures Replaced(s, ReplacedShape(s, z, n), z, n)
  {
    hide Linked, Replaceable, Placed, ReplacedShape;
    Flat(s, z, n);
    var t := ReplacedShape(s, z, n);
    forall w | w in s.link && w != z && w != s.link[z].parent && w != s.link[z].left && w != s.link[z].right
      ensures w in t.link && t.link[w] == s.link[w]
    {
      assert Is(w, s.link[w]);
    }
  }

  /* ---- the leaving node ---- */

  ghost function BypassShape(s: Shape, y: Node): (t: Shape)
    requires y in s.span && 0 <= s.span[y].pos < |s.order|
    reads s.link.Keys
    ensures Now(t) && t.head == s.head && t.link.Keys == s.link.Keys - {y} && t.span.Keys == s.span.Keys - {y}
    ensures t.order == s.order[..s.span[y].pos] + s.order[s.span[y].pos + 1..]
    ensures forall w :: w in s.span && w != y ==> t.span[w] == Pull(s.span[w], s.span[y].pos)
  {
    Shape(s.head, LinksOf(s.link.Keys - {y}), s.order[..s.span[y].pos] + s.order[s.span[y].pos + 1..],
          map w | w in s.span && w != y :: Pull(s.span[w], s.span[y].pos))
  }

  /** Both forms of the splice: the parent of `y` turns to its only child. */
  method Splice(y: Node, x: Node?, ghost s: Shape) returns (ghost t: Shape)
    requires Tree(s) && Now(s) && OnlyChild(s, y, x)
    modifies s.link.Keys`parent, s.link.Keys`left, s.link.Keys`right
    ensures Bypassed(s, t, y, x) && Now(t) && Tree(t) && t.head == s.head
    ensures s.head in s.link && s.head in t.link && t.link[s.head].parent == s.link[s.head].parent && t.link[s.head].right == s.link[s.head].right
    ensures y.parent == old(y.parent) && y.left == old(y.left) && y.right == old(y.right)
  {
    hide Linked, RootLinked, At, Leaving, OnlyChild;
    LeavingOf(s, y, x);
    SpliceFlat(s, y, x);
    if x != null { x.parent := y.parent; }
    Relink(y.parent, y, x, s);
    t := SpliceSeen(s, y, x);
  }

  lemma SpliceFlat(s: Shape, y: Node, x: Node?)
    requires Tree(s) && Leaving(s, y, x)
    ensures y in s.span && y in s.link && y != s.head && s.link[y].parent != null && s.link[y].parent in s.link && s.link[y].parent != y
    ensures 0 <= s.span[y].pos < |s.order|
    ensures x != null ==> x in s.link && x != y && x != s.link[y].parent && x != s.head
    ensures var g := s.link[y].parent;
      if g == s.head then s.link[g].left == y else (s.link[g].left == y || s.link[g].right == y) && !(s.link[g].left == y && s.link[g].right == y)
  {
    RelinkReady(s, y);
  }

  lemma SpliceSeen(s: Shape, y: Node, x: Node?) returns (t: Shape)
    requires Tree(s) && Leaving(s, y, x) && OnlyChild(s, y, x) && y in s.link
    requires var g := s.link[y].parent; g != null && g in s.link && Is(g, Redirected(s, g, y, x))
    requires x != null ==> x in s.link && Is(x, s.link[x].(parent := s.link[y].parent))
    requires forall w {:trigger Is(w, s.link[w])} :: w in s.link && w != y && w != s.link[y].parent && w != x ==> Is(w, s.link[w])
    ensures Bypassed(s, t, y, x) && Now(t) && Tree(t)
    ensures t.link[s.head].parent == s.link[s.head].parent && t.link[s.head].right == s.link[s.head].right
  {
    hide Linked, RootLinked, At, Leaving, BypassShape;
    SpliceFlat(s, y, x);
    t := BypassShape(s, y);
    forall w | w in s.link && w != y && w != s.link[y].parent && w != x ensures t.link[w] == s.link[w] { assert Is(w, s.link[w]); }
    BypassKeepsTree(s, t, y, x);
  }

  /** `while (y->right) y = y->right`: the last node of the subtree at `y0`. */
  method Rightmost(y0: Node, ghost s: Shape) returns (y: Node)
    requires Tree(s) && Now(s) && y0 in s.span
    ensures y in s.span && y.right == null && s.span[y].pos + 1 == s.span[y0].hi && s.span[y0].lo <= s.span[y].lo
  {
    hide Tree, Now;
    y := y0;
    Around(s, y);
    while y.right != null
      invariant y in s.span && s.span[y].hi == s.span[y0].hi && s.span[y0].lo <= s.span[y].lo
      decreases s.span[y].hi - s.span[y].lo
    {
      Around(s, y);
      y := y.right;
      Around(s, y);
    }
    Around(s, y);
  }

  /** A splice, with the colours it leaves alone. */
  method SplicePainted(y: Node, x: Node?, ghost s: Shape, ghost c: Colours) returns (ghost t: Shape)
    requires Tree(s) && Now(s) && OnlyChild(s, y, x) && Painted(c.paint)
    modifies s.link.Keys`parent, s.link.Keys`left, s.link.Keys`right
    ensures Bypassed(s, t, y, x) && Now(t) && Tree(t) && Painted(Forget(c, y).paint)
    ensures s.head in s.link && s.head in t.link && t.head == s.head
    ensures t.link[s.head].parent == s.link[s.head].parent && t.link[s.head].right == s.link[s.head].right
  {
    hide Tree, Now, Bypassed, OnlyChild;
    HeadIn(s);
    t := Splice(y, x, s);
    HeadIn(t);
  }

  lemma HeadIn(s: Shape)
    requires Tree(s)
    ensures s.head in s.link
  {
  }
}

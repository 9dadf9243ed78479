module RbColour {
  import opened RbNodes
  import opened RbShape

  /** Colours of all records and, for every node, the black nodes below it on any downward path. */
  datatype Colours = Colours(paint: Paint, bh: map<Node, int>)

  /** Black nodes on a downward path from `x`, counting `x`. */
  ghost function H(c: Colours, x: Node?): int {
    if x == null || x !in c.bh || x !in c.paint then 0
    else c.bh[x] + if c.paint[x] == Black then 1 else 0
  }

  ghost function Bump(def: Node?, x: Node?): int { if x != null && x == def then 1 else 0 }

  ghost predicate IsBlack(c: Colours, x: Node?) { x == null || (x in c.paint && c.paint[x] == Black) }

  /** Both children of `x` carry the same number of black nodes, where the subtree at `def` lacks one. */
  ghost predicate Even(s: Shape, c: Colours, x: Node, def: Node?)
  {
    && x in s.link && x in c.bh
    && c.bh[x] >= 0
    && c.bh[x] == H(c, s.link[x].left) + Bump(def, s.link[x].left)
    && c.bh[x] == H(c, s.link[x].right) + Bump(def, s.link[x].right)
  }

  /** A red node has no red child, except perhaps `ex`. */
  ghost predicate Calm(s: Shape, c: Colours, x: Node, ex: Node?)
  {
    && x in s.link
    && (IsBlack(c, x) || ((s.link[x].left == ex || IsBlack(c, s.link[x].left)) && (s.link[x].right == ex || IsBlack(c, s.link[x].right))))
  }

  /** `y` is a black leaf that counts as no node at all. */
  ghost predicate Phantom(s: Shape, c: Colours, y: Node) {
    && y in s.span && y in s.link && y in c.bh && y in c.paint
    && s.link[y].left == null && s.link[y].right == null
    && c.paint[y] == Black && c.bh[y] == -1
  }

  ghost predicate Balanced(s: Shape, c: Colours, def: Node?, ex: Node?, ph: Node?)
  {
    && s.head in s.link
    && c.paint.Keys == s.link.Keys && c.bh.Keys == s.span.Keys
    && c.paint[s.head] == Black
    && (ph != null ==> Phantom(s, c, ph))
    && (s.link[s.head].left == ex || IsBlack(c, s.link[s.head].left))
    && (forall x {:trigger Even(s, c, x, def)} :: x in s.span && x != ph ==> Even(s, c, x, def))
    && (forall x {:trigger Calm(s, c, x, ex)} :: x in s.span ==> Calm(s, c, x, ex))
  }

  lemma Domains(s: Shape, c: Colours, def: Node?, ex: Node?, ph: Node?)
    requires Balanced(s, c, def, ex, ph)
    ensures s.head in s.link && c.paint.Keys == s.link.Keys && c.bh.Keys == s.span.Keys && c.paint[s.head] == Black
    ensures s.link[s.head].left == ex || IsBlack(c, s.link[s.head].left)
  {
  }

  lemma Loosen(s: Shape, c: Colours, ex: Node?)
    requires Balanced(s, c, null, null, null)
    ensures Balanced(s, c, null, ex, null)
  {
    forall x | x in s.span ensures Calm(s, c, x, ex) { assert Calm(s, c, x, null); }
  }

  /* ---- insertion ---- */


  /** `n`, its parent, its grandparent and its uncle are four linked records. */
  ghost predicate Kin(s: Shape, n: Node, p: Node, g: Node, u: Node?, d: Side)
  {
    && s.head in s.link
    && n in s.span && p in s.span && g in s.span && Linked(s, n) && Linked(s, p) && Linked(s, g)
    && s.link[n].parent == p && s.link[p].parent == g
    && Child(s.link[g], d) == p && Child(s.link[g], Other(d)) == u
    && n != p && n != g && p != g && u != p && u != n && u != g
    && (u != null ==> u in s.span && Linked(s, u))
  }

  lemma KinApart(s: Shape, n: Node, p: Node, g: Node, u: Node?, d: Side)
    requires Kin(s, n, p, g, u, d)
    ensures n in s.link && p in s.link && g in s.link && (u != null ==> u in s.link && u in s.span && u != s.head)
    ensures n in s.span && p in s.span && g in s.span
    ensures n != p && n != g && p != g && u != p && u != n && u != g && n != s.head && p != s.head && g != s.head
    ensures s.link[n].parent == p && s.link[p].parent == g && Child(s.link[g], d) == p && Child(s.link[g], Other(d)) == u
    ensures s.span[n].hi - s.span[n].lo < s.span[g].hi - s.span[g].lo <= |s.order|
    ensures Child(s.link[p], Left) == n || Child(s.link[p], Right) == n
  {
  }

  /** A red node below a red parent has a grandparent inside the tree. */
  lemma KinOf(s: Shape, c: Colours, n: Node, p: Node, g: Node, u: Node?, d: Side)
    requires Tree(s) && Balanced(s, c, null, n, null) && n in s.span
    requires p == s.link[n].parent && p in s.link && c.paint[p] == Red
    requires g == s.link[p].parent && g in s.link && (d == Left <==> s.link[g].left == p) && u == Child(s.link[g], Other(d))
    ensures Kin(s, n, p, g, u, d)
  {
    hide Even, Calm;
    assert Linked(s, n) && Linked(s, p);
    assert g != s.head;
    assert Linked(s, g);
    if u != null { assert Linked(s, u); }
  }

  lemma UncleRedNode(s: Shape, c: Colours, c2: Colours, n: Node, p: Node, g: Node, u: Node, d: Side, x: Node)
    requires Kin(s, n, p, g, u, d)
    requires c.paint.Keys == s.link.Keys && c.bh.Keys == s.span.Keys
    requires c.paint[n] == Red && c.paint[p] == Red && c.paint[u] == Red
    requires c2 == Colours(c.paint[p := Black][u := Black][g := Red], c.bh[g := c.bh[g] + 1])
    requires x in s.span && Linked(s, x) && Even(s, c, x, null) && Calm(s, c, x, n) && Calm(s, c, g, n)
    ensures Even(s, c2, x, null) && Calm(s, c2, x, g)
  {
  }

  /** The uncle is red: the two reds and the black grandparent swap colours. */
  lemma UncleRed(s: Shape, c: Colours, n: Node, p: Node, g: Node, u: Node, d: Side) returns (c2: Colours)
    requires Tree(s) && Balanced(s, c, null, n, null) && Kin(s, n, p, g, u, d)
    requires c.paint[n] == Red && c.paint[p] == Red && c.paint[u] == Red
    ensures c2.paint == c.paint[p := Black][u := Black][g := Red]
    ensures Balanced(s, c2, null, g, null)
  {
    hide Linked, Even, Calm;
    c2 := Colours(c.paint[p := Black][u := Black][g := Red], c.bh[g := c.bh[g] + 1]);
    assert Calm(s, c, g, n);
    forall x | x in s.span ensures Even(s, c2, x, null) && Calm(s, c2, x, g) {
      hide Kin;
      assert Linked(s, x);
      assert Even(s, c, x, null) && Calm(s, c, x, n);
      UncleRedNode(s, c, c2, n, p, g, u, d, x);
    }
  }

  lemma InnerTurnNode(s: Shape, t: Shape, c: Colours, n: Node, p: Node, g: Node, u: Node?, d: Side, x: Node)
    requires Kin(s, n, p, g, u, d)
    requires Turnable(s, n, p, d) && Turned(s, t, n, p, d)
    requires c.paint.Keys == s.link.Keys && c.bh.Keys == s.span.Keys
    requires c.paint[n] == Red && c.paint[p] == Red
    requires Even(s, c, n, null) && Even(s, c, p, null) && Calm(s, c, n, n) && Calm(s, c, p, n)
    requires x in s.span && Linked(s, x) && Even(s, c, x, null) && Calm(s, c, x, n)
    ensures Even(t, c, x, null) && Calm(t, c, x, p)
  {
  }

  /** A red inner grandchild is turned outward; `p` becomes the lower of the two reds. */
  lemma InnerTurn(s: Shape, t: Shape, c: Colours, n: Node, p: Node, g: Node, u: Node?, d: Side)
    requires Tree(s) && Balanced(s, c, null, n, null) && Kin(s, n, p, g, u, d) && Child(s.link[p], Other(d)) == n
    requires c.paint[n] == Red && c.paint[p] == Red
    requires Turned(s, t, n, p, d)
    ensures Tree(t) && Balanced(t, c, null, p, null) && Kin(t, p, n, g, u, d) && Child(t.link[n], d) == p
  {
    hide Linked, Even, Calm;
    TurnKeepsTree(s, t, n, p, d);
    ChildTurnable(s, n, p, d);
    assert Even(s, c, n, null) && Even(s, c, p, null) && Calm(s, c, n, n) && Calm(s, c, p, n);
    forall x | x in s.span ensures Even(t, c, x, null) && Calm(t, c, x, p) {
      hide Kin;
      assert Linked(s, x);
      assert Even(s, c, x, null) && Calm(s, c, x, n);
      InnerTurnNode(s, t, c, n, p, g, u, d, x);
    }
    assert Linked(t, n) && Linked(t, p) && Linked(t, g);
    if u != null { assert Linked(t, u); }
  }




  /** Away from the two turned nodes a rotation only replaces `p` by `n` below the old parent of `p`. */
  lemma TurnChildren(s: Shape, t: Shape, n: Node, p: Node, d: Side, x: Node)
    requires Turnable(s, n, p, d) && Turned(s, t, n, p, d)
    requires x in s.span && x != n && x != p && Linked(s, x)
    ensures x in t.link && x in s.link && s.link[x].left != n && s.link[x].right != n
    ensures t.link[x].left == if s.link[x].left == p then n else s.link[x].left
    ensures t.link[x].right == if s.link[x].right == p then n else s.link[x].right
  {
  }

  lemma TurnEnds(s: Shape, t: Shape, n: Node, p: Node, d: Side, ph: Node?)
    requires s.head in s.link && RootLinked(s) && Turnable(s, n, p, d) && Turned(s, t, n, p, d)
    ensures t.head == s.head && t.link.Keys == s.link.Keys && t.span.Keys == s.span.Keys && t.order == s.order
    ensures t.link[s.head].parent == s.link[s.head].parent && t.link[s.head].right == s.link[s.head].right
    ensures t.link[s.head].left == if s.link[s.head].left == p then n else s.link[s.head].left
    ensures ph != null && ph in s.span && ph in s.link && s.link[ph].left == null && s.link[ph].right == null && ph != n
      ==> t.link[ph].left == null && t.link[ph].right == null
  {
  }

  /** Only `n` and `p` change, and perhaps the colour of `z`. */
  ghost predicate SameBut(c: Colours, c2: Colours, n: Node, p: Node, z: Node?)
  {
    && c2.paint.Keys == c.paint.Keys && c2.bh.Keys == c.bh.Keys
    && (forall y :: y in c.paint && y != n && y != p && y != z ==> c2.paint[y] == c.paint[y])
    && (forall y :: y in c.bh && y != n && y != p ==> c2.bh[y] == c.bh[y])
  }

  /** Away from the two turned nodes a rotation keeps evenness if the pair weighs what it weighed. */
  lemma TurnEvenOther(s: Shape, t: Shape, c: Colours, c2: Colours, n: Node, p: Node, d: Side, z: Node?, def: Node?, x: Node)
    requires Turnable(s, n, p, d) && Turned(s, t, n, p, d)
    requires SameBut(c, c2, n, p, z)
    requires z != null ==> x in s.link && s.link[x].left != z && s.link[x].right != z
    requires n != def && p != def && H(c2, n) == H(c, p)
    requires x in s.span && x != n && x != p && Linked(s, x) && Even(s, c, x, def)
    ensures Even(t, c2, x, def)
  {
    hide Turnable, Turned, Linked;
    TurnChildren(s, t, n, p, d, x);
  }

  /** The same for red pairs, if the node that comes up is no redder than the one that goes down. */
  lemma TurnCalmOther(s: Shape, t: Shape, c: Colours, c2: Colours, n: Node, p: Node, d: Side, z: Node?, ex: Node?, x: Node)
    requires Turnable(s, n, p, d) && Turned(s, t, n, p, d)
    requires SameBut(c, c2, n, p, z) && (z != null ==> IsBlack(c2, z))
    requires p != ex && (IsBlack(c, p) ==> IsBlack(c2, n))
    requires x in s.span && x != n && x != p && Linked(s, x) && Calm(s, c, x, ex)
    ensures Calm(t, c2, x, ex)
  {
    hide Turnable, Turned, Linked;
    TurnChildren(s, t, n, p, d, x);
  }

  lemma OuterTurnEven(s: Shape, t: Shape, c: Colours, c2: Colours, n: Node, p: Node, g: Node, u: Node?, d: Side)
    requires Kin(s, n, p, g, u, d) && Child(s.link[p], d) == n
    requires Turnable(s, p, g, Other(d)) && Turned(s, t, p, g, Other(d))
    requires c.paint.Keys == s.link.Keys && c.bh.Keys == s.span.Keys
    requires c.paint[n] == Red && c.paint[p] == Red && Calm(s, c, g, n)
    requires Even(s, c, g, null) && Even(s, c, p, null)
    requires c2 == c.(paint := c.paint[p := Black][g := Red])
    ensures Even(t, c2, p, null) && Even(t, c2, g, null) && H(c2, p) == H(c, g)
  {
  }

  lemma OuterTurnCalm(s: Shape, t: Shape, c: Colours, c2: Colours, n: Node, p: Node, g: Node, u: Node?, d: Side, x: Node)
    requires Kin(s, n, p, g, u, d) && Child(s.link[p], d) == n
    requires Turnable(s, p, g, Other(d)) && Turned(s, t, p, g, Other(d))
    requires c.paint.Keys == s.link.Keys && c.bh.Keys == s.span.Keys
    requires c.paint[n] == Red && c.paint[p] == Red && IsBlack(c, u)
    requires Calm(s, c, g, n) && Calm(s, c, p, n)
    requires c2 == c.(paint := c.paint[p := Black][g := Red])
    requires x in s.span && Linked(s, x) && Calm(s, c, x, n)
    ensures Calm(t, c2, x, null)
  {
  }

  lemma OuterTurnChild(s: Shape, t: Shape, n: Node, p: Node, g: Node, u: Node?, d: Side)
    requires Kin(s, n, p, g, u, d) && Child(s.link[p], d) == n
    requires Turnable(s, p, g, Other(d)) && Turned(s, t, p, g, Other(d))
    ensures n in t.link && t.link[n].parent == p && t.link[p].parent != n
  {
    var gg := s.link[g].parent;
  }

  /** The red parent turns black and takes the place of the grandparent. */
  lemma OuterTurn(s: Shape, t: Shape, c: Colours, c2: Colours, n: Node, p: Node, g: Node, u: Node?, d: Side)
    requires Tree(s) && Balanced(s, c, null, n, null) && Kin(s, n, p, g, u, d) && Child(s.link[p], d) == n
    requires c.paint[n] == Red && c.paint[p] == Red && IsBlack(c, u)
    requires Turned(s, t, p, g, Other(d))
    requires c2 == c.(paint := c.paint[p := Black][g := Red])
    ensures Tree(t) && Balanced(t, c2, null, null, null) && t.link[n].parent == p
  {
    hide Linked, Even, Calm, Turned, Turnable, At;
    TurnKeepsTree(s, t, p, g, Other(d));
    ChildTurnable(s, p, g, Other(d));
    TurnEnds(s, t, p, g, Other(d), null);
    assert Even(s, c, g, null) && Even(s, c, p, null) && Calm(s, c, g, n) && Calm(s, c, p, n);
    OuterTurnEven(s, t, c, c2, n, p, g, u, d);
    forall x | x in s.span ensures Even(t, c2, x, null) && Calm(t, c2, x, null) {
      hide Kin;
      assert Linked(s, x);
      assert Even(s, c, x, null) && Calm(s, c, x, n);
      if x != p && x != g { TurnEvenOther(s, t, c, c2, p, g, Other(d), null, null, x); }
      OuterTurnCalm(s, t, c, c2, n, p, g, u, d, x);
    }
    OuterTurnChild(s, t, n, p, g, u, d);
  }

  lemma RootBlackNode(s: Shape, c: Colours, c2: Colours, n: Node, r: Node, x: Node)
    requires r in s.span && Linked(s, r) && s.link[r].parent == s.head
    requires n in s.span && Linked(s, n) && (n == r || IsBlack(c, s.link[n].parent))
    requires c.paint.Keys == s.link.Keys && c.bh.Keys == s.span.Keys
    requires c2 == c.(paint := c.paint[r := Black])
    requires x in s.span && Linked(s, x) && Even(s, c, x, null) && Calm(s, c, x, n)
    ensures Even(s, c2, x, null) && Calm(s, c2, x, null)
  {
  }

  /** Insertion ends by painting the root black. */
  lemma RootBlack(s: Shape, c: Colours, c2: Colours, n: Node)
    requires Tree(s) && Balanced(s, c, null, n, null) && n in s.span
    requires var r := s.link[s.head].left; n == r || IsBlack(c, s.link[n].parent)
    requires s.link[s.head].left in s.link && c2 == c.(paint := c.paint[s.link[s.head].left := Black])
    ensures Balanced(s, c2, null, null, null)
  {
    hide Linked, Even, Calm;
    var r := s.link[s.head].left;
    assert Linked(s, r) && Linked(s, n);
    forall x | x in s.span ensures Even(s, c2, x, null) && Calm(s, c2, x, null) {
      assert Linked(s, x) && Even(s, c, x, null) && Calm(s, c, x, n);
      RootBlackNode(s, c, c2, n, r, x);
    }
  }

  /* ---- removal ---- */

  /** `n` on side `d` of `p` opposite its sibling `b`. */
  ghost predicate Pair(s: Shape, n: Node, p: Node, b: Node, d: Side)
  {
    && s.head in s.link
    && n in s.span && p in s.span && b in s.span && Linked(s, n) && Linked(s, p) && Linked(s, b)
    && Child(s.link[p], d) == n && Child(s.link[p], Other(d)) == b
    && s.link[n].parent == p && s.link[b].parent == p
    && n != p && b != p && n != b
  }

  lemma PairApart(s: Shape, n: Node, p: Node, b: Node, d: Side)
    requires Pair(s, n, p, b, d)
    ensures n != b && n != p && b != p
    ensures n in s.span && p in s.span && b in s.span && n in s.link && p in s.link && b in s.link
    ensures p != s.head && b != s.head && n != s.head
    ensures Child(s.link[p], d) == n && Child(s.link[p], Other(d)) == b && s.link[n].parent == p
  {
  }

  /** The phantom lies below `n`. */
  ghost predicate Under(s: Shape, n: Node, ph: Node?)
  {
    ph != null ==> n in s.span && ph in s.span && s.span[n].lo <= s.span[ph].pos < s.span[n].hi
  }

  /** A subtree that lacks a black node always has a sibling, and that sibling is no phantom. */
  lemma SiblingExists(s: Shape, c: Colours, n: Node, p: Node, d: Side, ph: Node?) returns (b: Node)
    requires Tree(s) && Balanced(s, c, n, n, ph) && Under(s, n, ph)
    requires n in s.span && p in s.span && Child(s.link[p], d) == n && c.paint[n] == Black
    ensures Pair(s, n, p, b, d) && p != ph && b != ph
    ensures Even(s, c, p, n) && Even(s, c, b, n) && Calm(s, c, p, n) && Calm(s, c, b, n)
    ensures H(c, b) >= 1
  {
    hide Calm;
    assert Linked(s, n) && Linked(s, p);
    assert Even(s, c, p, n);
    if n != ph { assert Even(s, c, n, n); }
    b := Child(s.link[p], Other(d));
    assert Linked(s, b);
    assert Even(s, c, b, n);
    assert Calm(s, c, p, n) && Calm(s, c, b, n);
  }

  /* A red sibling is turned over the parent: the new sibling is black and the parent red. */

  lemma SiblingRedPair(s: Shape, t: Shape, c: Colours, c2: Colours, n: Node, p: Node, b: Node, d: Side)
    requires Pair(s, n, p, b, d) && Turnable(s, b, p, d) && Turned(s, t, b, p, d)
    requires c.paint.Keys == s.link.Keys && c.bh.Keys == s.span.Keys
    requires Even(s, c, p, n) && Even(s, c, b, n) && Calm(s, c, p, n) && Calm(s, c, b, n)
    requires c.paint[n] == Black && c.paint[b] == Red
    requires c2 == c.(paint := c.paint[p := Red][b := Black])
    ensures Even(t, c2, p, n) && Even(t, c2, b, n) && H(c2, b) == H(c, p)
    ensures Calm(t, c2, p, n) && Calm(t, c2, b, n)
    ensures Child(t.link[p], d) == n
  {
  }

  lemma SiblingRed(s: Shape, t: Shape, c: Colours, c2: Colours, n: Node, p: Node, b: Node, d: Side, ph: Node?)
    requires Tree(s) && Balanced(s, c, n, n, ph) && Pair(s, n, p, b, d) && p != ph && b != ph
    requires Even(s, c, p, n) && Even(s, c, b, n) && Calm(s, c, p, n) && Calm(s, c, b, n)
    requires c.paint[n] == Black && c.paint[b] == Red
    requires Turned(s, t, b, p, d)
    requires c2 == c.(paint := c.paint[p := Red][b := Black])
    ensures Tree(t) && Balanced(t, c2, n, n, ph)
    ensures Child(t.link[p], d) == n && c2.paint[p] == Red && c2.paint[n] == Black
  {
    hide Linked, Even, Calm, Turned, Turnable;
    TurnKeepsTree(s, t, b, p, d);
    ChildTurnable(s, b, p, d);
    TurnEnds(s, t, b, p, d, ph);
    SiblingRedPair(s, t, c, c2, n, p, b, d);
    forall x | x in s.span ensures (x != ph ==> Even(t, c2, x, n)) && Calm(t, c2, x, n) {
      hide Pair;
      assert Linked(s, x);
      assert Calm(s, c, x, n);
      if x != ph { assert Even(s, c, x, n); }
      if x != p && x != b {
        if x != ph { TurnEvenOther(s, t, c, c2, b, p, d, null, n, x); }
        TurnCalmOther(s, t, c, c2, b, p, d, null, n, x);
      }
    }
  }

  /* A black sibling with two black children turns red: the pair as a whole now lacks one, unless `p` can turn black. */

  lemma SiblingPaleNode(s: Shape, c: Colours, c2: Colours, n: Node, p: Node, b: Node, d: Side, def: Node?, x: Node)
    requires Pair(s, n, p, b, d)
    requires c.paint.Keys == s.link.Keys && c.bh.Keys == s.span.Keys
    requires Even(s, c, p, n) && Even(s, c, b, n) && Calm(s, c, p, n) && H(c, b) >= 1
    requires c.paint[n] == Black && c.paint[b] == Black
    requires c2.bh == c.bh[p := c.bh[p] - 1]
    requires if c.paint[p] == Red then c2.paint == c.paint[b := Red][p := Black] && def == null
             else c2.paint == c.paint[b := Red] && def == p
    requires x in s.span && Linked(s, x) && Even(s, c, x, n)
    ensures Even(s, c2, x, def)
  {
  }

  lemma SiblingPale(s: Shape, c: Colours, c2: Colours, n: Node, p: Node, b: Node, d: Side, def: Node?, ph: Node?)
    requires Tree(s) && Balanced(s, c, n, n, ph) && Pair(s, n, p, b, d) && p != ph && b != ph
    requires Even(s, c, p, n) && Even(s, c, b, n) && Calm(s, c, p, n) && Calm(s, c, b, n) && H(c, b) >= 1
    requires c.paint[n] == Black && c.paint[b] == Black
    requires IsBlack(c, s.link[b].left) && IsBlack(c, s.link[b].right)
    requires c2.bh == c.bh[p := c.bh[p] - 1]
    requires if c.paint[p] == Red then c2.paint == c.paint[b := Red][p := Black] && def == null
             else c2.paint == c.paint[b := Red] && def == p
    ensures Balanced(s, c2, def, def, ph)
  {
    hide Linked, Even, Calm;
    forall x | x in s.span ensures x != ph ==> Even(s, c2, x, def) {
      hide Pair;
      assert Linked(s, x);
      if x != ph { assert Even(s, c, x, n); SiblingPaleNode(s, c, c2, n, p, b, d, def, x); }
    }
    forall x | x in s.span ensures Calm(s, c2, x, def) {
      assert Linked(s, x);
      assert Calm(s, c, x, n);
      SiblingPaleCalm(s, c, c2, n, p, b, d, x);
      CalmWith(s, c2, x, def);
    }
    SiblingPaleRoot(s, n, p, b, d);
  }

  lemma SiblingPaleRoot(s: Shape, n: Node, p: Node, b: Node, d: Side)
    requires Tree(s) && Pair(s, n, p, b, d)
    ensures s.link[s.head].left != b
  {
  }

  lemma SiblingPaleCalm(s: Shape, c: Colours, c2: Colours, n: Node, p: Node, b: Node, d: Side, x: Node)
    requires Pair(s, n, p, b, d)
    requires c.paint.Keys == s.link.Keys && c.paint[n] == Black && c.paint[b] == Black
    requires IsBlack(c, s.link[b].left) && IsBlack(c, s.link[b].right)
    requires if c.paint[p] == Red then c2.paint == c.paint[b := Red][p := Black] else c2.paint == c.paint[b := Red]
    requires x in s.span && Linked(s, x) && Calm(s, c, x, n)
    ensures Calm(s, c2, x, null)
  {
  }

  lemma CalmWith(s: Shape, c: Colours, x: Node, ex: Node?)
    requires Calm(s, c, x, null)
    ensures Calm(s, c, x, ex)
  {
  }

  /* A red near nephew is turned over a black sibling: the far nephew is red afterwards. */

  lemma NearRedPair(s: Shape, t: Shape, c: Colours, c2: Colours, n: Node, p: Node, b: Node, e: Node, d: Side)
    requires Pair(s, n, p, b, d) && Turnable(s, e, b, Other(d)) && Turned(s, t, e, b, Other(d))
    requires c.paint.Keys == s.link.Keys && c.bh.Keys == s.span.Keys
    requires Even(s, c, e, n) && Even(s, c, b, n) && Calm(s, c, e, n)
    requires c.paint[n] == Black && c.paint[b] == Black && c.paint[e] == Red && IsBlack(c, Child(s.link[b], Other(d)))
    requires c2 == c.(paint := c.paint[b := Red][e := Black])
    ensures Even(t, c2, e, n) && Even(t, c2, b, n) && H(c2, e) == H(c, b)
    ensures Calm(t, c2, e, n) && Calm(t, c2, b, n)
  {
  }

  lemma NearRedLinks(s: Shape, t: Shape, n: Node, p: Node, b: Node, e: Node, d: Side)
    requires Tree(s) && Pair(s, n, p, b, d) && Turnable(s, e, b, Other(d)) && Turned(s, t, e, b, Other(d))
    requires Tree(t)
    ensures Pair(t, n, p, e, d) && Child(t.link[e], Other(d)) == b
  {
    hide LeftLinked, RightLinked, ParentLinked;
    assert Linked(s, p) && Linked(s, n) && Linked(s, b);
    assert Linked(t, n) && Linked(t, p) && Linked(t, e);
    NearRedDistinct(s, n, p, b, e, d);
  }

  lemma NearRedDistinct(s: Shape, n: Node, p: Node, b: Node, e: Node, d: Side)
    requires Pair(s, n, p, b, d) && Turnable(s, e, b, Other(d))
    ensures e != n && e != p && Child(s.link[e], Other(d)) != n && Child(s.link[e], Other(d)) != p
    ensures p != s.head
  {
  }

  lemma NearRedNode(s: Shape, t: Shape, c: Colours, c2: Colours, b: Node, e: Node, d: Side, n: Node, ph: Node?, x: Node)
    requires Turnable(s, e, b, d) && Turned(s, t, e, b, d) && SameBut(c, c2, e, b, null)
    requires n != e && n != b && H(c2, e) == H(c, b) && IsBlack(c2, e)
    requires Even(t, c2, e, n) && Even(t, c2, b, n) && Calm(t, c2, e, n) && Calm(t, c2, b, n)
    requires x in s.span && Linked(s, x) && Calm(s, c, x, n) && (x != ph ==> Even(s, c, x, n))
    ensures (x != ph ==> Even(t, c2, x, n)) && Calm(t, c2, x, n)
  {
    hide Linked, Even, Calm, Turned, Turnable, SameBut;
    if x != e && x != b {
      if x != ph { TurnEvenOther(s, t, c, c2, e, b, d, null, n, x); }
      TurnCalmOther(s, t, c, c2, e, b, d, null, n, x);
    }
  }

  lemma NearRed(s: Shape, t: Shape, c: Colours, c2: Colours, n: Node, p: Node, b: Node, e: Node, d: Side, ph: Node?)
    requires Tree(s) && Balanced(s, c, n, n, ph) && Pair(s, n, p, b, d) && p != ph && b != ph
    requires Even(s, c, b, n)
    requires c.paint[n] == Black && c.paint[b] == Black && Child(s.link[b], d) == e && c.paint[e] == Red
    requires IsBlack(c, Child(s.link[b], Other(d)))
    requires Turned(s, t, e, b, Other(d))
    requires c2 == c.(paint := c.paint[b := Red][e := Black])
    ensures Tree(t) && Balanced(t, c2, n, n, ph)
    ensures Pair(t, n, p, e, d) && Child(t.link[e], Other(d)) == b && c2.paint[e] == Black && c2.paint[b] == Red && e != ph
    ensures c2.paint[n] == Black
  {
    hide Linked, Even, Calm, Turned, Turnable, Pair, RootLinked, At;
    PairApart(s, n, p, b, d);
    ChildTurnable(s, e, b, Other(d));
    TurnKeepsTree(s, t, e, b, Other(d));
    TurnEnds(s, t, e, b, Other(d), ph);
    assert Even(s, c, e, n) && Calm(s, c, e, n);
    NearRedPair(s, t, c, c2, n, p, b, e, d);
    NearRedDistinct(s, n, p, b, e, d);
    NearRedLinks(s, t, n, p, b, e, d);
    assert SameBut(c, c2, e, b, null);
    forall x | x in s.span ensures (x != ph ==> Even(t, c2, x, n)) && Calm(t, c2, x, n) {
      assert Linked(s, x);
      assert Calm(s, c, x, n);
      if x != ph { assert Even(s, c, x, n); }
      NearRedNode(s, t, c, c2, b, e, Other(d), n, ph, x);
    }
  }


  /* A red far nephew: the sibling takes the parent's colour and place, parent and nephew turn black. */

  lemma FarRedPair(s: Shape, t: Shape, c: Colours, c2: Colours, n: Node, p: Node, b: Node, f: Node, d: Side)
    requires Pair(s, n, p, b, d) && Turnable(s, b, p, d) && Turned(s, t, b, p, d)
    requires c.paint.Keys == s.link.Keys && c.bh.Keys == s.span.Keys
    requires Even(s, c, p, n) && Even(s, c, b, n) && f in s.span && f != n && f != p && f != b
    requires c.paint[n] == Black && c.paint[b] == Black && Child(s.link[b], Other(d)) == f && c.paint[f] == Red
    requires c2 == Colours(c.paint[b := c.paint[p]][p := Black][f := Black], c.bh[p := c.bh[p] - 1][b := c.bh[b] + 1])
    ensures Even(t, c2, p, null) && Even(t, c2, b, null) && H(c2, b) == H(c, p)
    ensures Calm(t, c2, p, n) && Calm(t, c2, b, n)
  {
  }

  lemma NotChild(s: Shape, x: Node, y: Node)
    requires Linked(s, x) && y in s.link && s.link[y].parent != x
    ensures x in s.link && s.link[x].left != y && s.link[x].right != y
  {
  }

  lemma Settle(s: Shape, c: Colours, x: Node, n: Node)
    requires Calm(s, c, x, n) && IsBlack(c, n)
    ensures Calm(s, c, x, null)
    ensures Even(s, c, x, n) && s.link[x].left != n && s.link[x].right != n ==> Even(s, c, x, null)
  {
  }

  lemma FarRedNode(s: Shape, t: Shape, c: Colours, c2: Colours, n: Node, p: Node, b: Node, f: Node, d: Side, x: Node)
    requires Turnable(s, b, p, d) && Turned(s, t, b, p, d) && n in s.link && f in s.link
    requires s.link[n].parent == p && s.link[f].parent == b && n != b
    requires SameBut(c, c2, b, p, f) && IsBlack(c2, f) && IsBlack(c2, n) && n != p
    requires H(c2, b) == H(c, p) && (IsBlack(c, p) ==> IsBlack(c2, b))
    requires x in s.span && Linked(s, x) && x != b && x != p && Calm(s, c, x, n)
    ensures Calm(t, c2, x, null)
    ensures Even(s, c, x, n) ==> Even(t, c2, x, null)
  {
    hide Linked, Even, Calm, Turned, Turnable, SameBut;
    NotChild(s, x, n);
    NotChild(s, x, f);
    TurnChildren(s, t, b, p, d, x);
    TurnCalmOther(s, t, c, c2, b, p, d, f, n, x);
    if Even(s, c, x, n) { TurnEvenOther(s, t, c, c2, b, p, d, f, n, x); }
    Settle(t, c2, x, n);
  }

  lemma FarRed(s: Shape, t: Shape, c: Colours, c2: Colours, n: Node, p: Node, b: Node, f: Node, d: Side, ph: Node?)
    requires Tree(s) && Balanced(s, c, n, n, ph) && Pair(s, n, p, b, d) && p != ph && b != ph
    requires Even(s, c, p, n) && Even(s, c, b, n)
    requires c.paint[n] == Black && c.paint[b] == Black && Child(s.link[b], Other(d)) == f && c.paint[f] == Red
    requires Turned(s, t, b, p, d)
    requires c2 == Colours(c.paint[b := c.paint[p]][p := Black][f := Black], c.bh[p := c.bh[p] - 1][b := c.bh[b] + 1])
    ensures Tree(t) && Balanced(t, c2, null, null, ph)
  {
    hide Linked, Even, Calm, Turned, Turnable, Pair, RootLinked, At, Phantom, IsBlack;
    PairApart(s, n, p, b, d);
    ChildTurnable(s, b, p, d);
    TurnKeepsTree(s, t, b, p, d);
    FarRedTop(s, t, c, c2, n, p, b, f, d, ph);
    forall x | x in s.span ensures (x != ph ==> Even(t, c2, x, null)) && Calm(t, c2, x, null) {
      FarRedAt(s, t, c, c2, n, p, b, f, d, ph, x);
    }
  }

  /** Everything of the balance but the nodes below the root. */
  lemma FarRedTop(s: Shape, t: Shape, c: Colours, c2: Colours, n: Node, p: Node, b: Node, f: Node, d: Side, ph: Node?)
    requires Tree(s) && Balanced(s, c, n, n, ph) && Pair(s, n, p, b, d) && p != ph && b != ph
    requires c.paint[n] == Black && c.paint[b] == Black && Child(s.link[b], Other(d)) == f && c.paint[f] == Red
    requires Turned(s, t, b, p, d) && Turnable(s, b, p, d)
    requires c2 == Colours(c.paint[b := c.paint[p]][p := Black][f := Black], c.bh[p := c.bh[p] - 1][b := c.bh[b] + 1])
    ensures t.head == s.head && t.head in t.link && t.span.Keys == s.span.Keys
    ensures c2.paint.Keys == t.link.Keys && c2.bh.Keys == t.span.Keys && c2.paint[t.head] == Black
    ensures (ph != null ==> Phantom(t, c2, ph)) && IsBlack(c2, t.link[t.head].left)
  {
    hide Linked, Even, Calm, Turned, Turnable, Pair, At;
    PairApart(s, n, p, b, d);
    TurnEnds(s, t, b, p, d, ph);
    FarApart(s, n, p, b, f, d);
  }

  /** Every node of the turned tree is even and calm. */
  lemma FarRedAt(s: Shape, t: Shape, c: Colours, c2: Colours, n: Node, p: Node, b: Node, f: Node, d: Side, ph: Node?, x: Node)
    requires Tree(s) && Balanced(s, c, n, n, ph) && Pair(s, n, p, b, d) && p != ph && b != ph
    requires Even(s, c, p, n) && Even(s, c, b, n) && x in s.span
    requires c.paint[n] == Black && c.paint[b] == Black && Child(s.link[b], Other(d)) == f && c.paint[f] == Red
    requires Turned(s, t, b, p, d)
    requires c2 == Colours(c.paint[b := c.paint[p]][p := Black][f := Black], c.bh[p := c.bh[p] - 1][b := c.bh[b] + 1])
    ensures (x != ph ==> Even(t, c2, x, null)) && Calm(t, c2, x, null)
  {
    hide Linked, Even, Calm, Turned, Turnable, Pair, RootLinked, At;
    PairApart(s, n, p, b, d);
    ChildTurnable(s, b, p, d);
    FarApart(s, n, p, b, f, d);
    FarRedPair(s, t, c, c2, n, p, b, f, d);
    Settle(t, c2, p, n);
    Settle(t, c2, b, n);
    assert Linked(s, x);
    assert Calm(s, c, x, n);
    if x != ph { assert Even(s, c, x, n); }
    if x != p && x != b { FarRedNode(s, t, c, c2, n, p, b, f, d, x); }
  }

  lemma FarApart(s: Shape, n: Node, p: Node, b: Node, f: Node, d: Side)
    requires Tree(s) && Pair(s, n, p, b, d) && Child(s.link[b], Other(d)) == f
    ensures f in s.span && f in s.link && f != n && f != p && f != b && s.link[f].parent == b && f != s.head
    ensures s.link[s.head].left != b
  {
    assert Linked(s, b) && Linked(s, f);
  }

  /** The last step: a node that is red, or the root, turns black. */
  lemma FinishNode(s: Shape, c: Colours, c2: Colours, n: Node, x: Node)
    requires n in s.span && Linked(s, n)
    requires c.paint.Keys == s.link.Keys && c.bh.Keys == s.span.Keys
    requires c.paint[n] == Red || (s.link[s.head].left == n && s.link[n].parent == s.head)
    requires c2 == c.(paint := c.paint[n := Black])
    requires x in s.span && Linked(s, x) && Calm(s, c, x, n)
    ensures Calm(s, c2, x, null)
    ensures Even(s, c, x, n) ==> Even(s, c2, x, null)
  {
  }

  lemma Finish(s: Shape, c: Colours, c2: Colours, n: Node, ph: Node?)
    requires Tree(s) && n in s.span && Balanced(s, c, n, n, ph)
    requires s.link[s.head].left == n || c.paint[n] == Red
    requires c2 == c.(paint := c.paint[n := Black])
    ensures Balanced(s, c2, null, null, ph)
  {
    hide Linked, Even, Calm;
    assert Linked(s, n);
    forall x | x in s.span ensures (x != ph ==> Even(s, c2, x, null)) && Calm(s, c2, x, null) {
      assert Linked(s, x) && Calm(s, c, x, n);
      if x != ph { assert Even(s, c, x, n); }
      FinishNode(s, c, c2, n, x);
    }
  }
}

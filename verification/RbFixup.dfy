module RbFixup {
  import opened RbNodes
  import opened RbShape
  import opened RbColour

  /** `s` is what the records say now. */
  ghost predicate Now(s: Shape)
    reads s.link.Keys
  {
    forall x {:trigger s.link[x]} :: x in s.link ==> s.link[x] == Link(x.parent, x.left, x.right)
  }

  ghost function Reread(s: Shape, span: map<Node, Span>): (t: Shape)
    reads s.link.Keys
    ensures Now(t) && t.link.Keys == s.link.Keys && t.head == s.head && t.order == s.order && t.span == span
  {
    Shape(s.head, LinksOf(s.link.Keys), s.order, span)
  }

  ghost function TurnedSpan(sp: map<Node, Span>, n: Node, p: Node, d: Side): (q: map<Node, Span>)
    requires n in sp && p in sp && n != p
    ensures q.Keys == sp.Keys
    ensures q[n] == if d == Left then sp[n].(lo := sp[p].lo) else sp[n].(hi := sp[p].hi)
    ensures q[p] == if d == Left then sp[p].(hi := sp[n].pos) else sp[p].(lo := sp[n].pos + 1)
    ensures forall x :: x in sp && x != n && x != p ==> q[x] == sp[x]
  {
    if d == Left then sp[n := sp[n].(lo := sp[p].lo)][p := sp[p].(hi := sp[n].pos)]
    else sp[n := sp[n].(hi := sp[p].hi)][p := sp[p].(lo := sp[n].pos + 1)]
  }



  ghost predicate Painted(m: Paint)
    reads m.Keys
  {
    forall x {:trigger m[x]} :: x in m ==> m[x] == x.color
  }

  /** The same nodes in the same order below the same header. */
  ghost predicate Reordered(s: Shape, t: Shape)
    requires s.head in s.link
  {
    && t.head == s.head && t.order == s.order && t.link.Keys == s.link.Keys && t.span.Keys == s.span.Keys
    && t.link[s.head].parent == s.link[s.head].parent && t.link[s.head].right == s.link[s.head].right
  }

  /** What the snapshots say about one record is what its fields say. */
  lemma Sees(s: Shape, c: Colours, x: Node)
    requires Now(s) && Painted(c.paint)
    ensures x in s.link ==> s.link[x] == Link(x.parent, x.left, x.right)
    ensures x in c.paint ==> c.paint[x] == x.color
  {
  }

  method SetColor(x: Node, v: Color, ghost s: Shape, ghost c: Colours) returns (ghost c2: Colours)
    requires Now(s) && Painted(c.paint) && x in c.paint
    modifies x`color
    ensures c2 == c.(paint := c.paint[x := v]) && Now(s) && Painted(c2.paint)
  {
    x.color := v;
    c2 := c.(paint := c.paint[x := v]);
  }

  /** The first half of both rotations: whoever leads to `p` leads to `n` afterwards. */
  method Redirect(head: Node, p: Node, n: Node, ghost s: Shape)
    requires s.head == head && p in s.link && p.parent != null && p.parent in s.link && head in s.link && Now(s)
    requires p.parent == head <==> head.left == p
    modifies p.parent`left, p.parent`right
    ensures p.parent in s.link
    ensures Link(p.parent.parent, p.parent.left, p.parent.right) == Redirected(s, p.parent, p, n)
  {
    if p == head.left {
      head.left := n;
    } else {
      if p.parent.right == p {
        p.parent.right := n;
      } else {
        p.parent.left := n;
      }
    }
  }

  method RotateLeft(head: Node, n: Node, p: Node, ghost s: Shape) returns (ghost t: Shape)
    requires s.head == head && head in s.link && Turnable(s, n, p, Left) && Now(s)
    modifies s.link.Keys`parent, s.link.Keys`left, s.link.Keys`right
    ensures Now(t) && Turned(s, t, n, p, Left)
  {
    hide Linked, TurnedSpan, LinksOf, Reread;
    var tmp := n.left;
    Redirect(head, p, n, s);
    n.parent := p.parent;
    p.parent := n;
    n.left := p;
    if tmp != null { tmp.parent := p; }
    p.right := tmp;
    t := Reread(s, TurnedSpan(s.span, n, p, Left));
  }

  method RotateRight(head: Node, n: Node, p: Node, ghost s: Shape) returns (ghost t: Shape)
    requires s.head == head && head in s.link && Turnable(s, n, p, Right) && Now(s)
    modifies s.link.Keys`parent, s.link.Keys`left, s.link.Keys`right
    ensures Now(t) && Turned(s, t, n, p, Right)
  {
    hide Linked, TurnedSpan, LinksOf, Reread;
    var tmp := n.right;
    Redirect(head, p, n, s);
    n.parent := p.parent;
    p.parent := n;
    n.right := p;
    if tmp != null { tmp.parent := p; }
    p.left := tmp;
    t := Reread(s, TurnedSpan(s.span, n, p, Right));
  }

  /** A rotation, with the colours it leaves alone. */
  method TurnLeft(head: Node, n: Node, p: Node, ghost s: Shape, ghost c: Colours) returns (ghost t: Shape)
    requires s.head == head && head in s.link && Turnable(s, n, p, Left) && Now(s) && Painted(c.paint)
    modifies s.link.Keys`parent, s.link.Keys`left, s.link.Keys`right
    ensures Now(t) && Painted(c.paint) && Turned(s, t, n, p, Left)
  {
    hide Linked, Turned, Turnable, Now;
    t := RotateLeft(head, n, p, s);
  }

  /** A rotation, with the colours it leaves alone. */
  method TurnRight(head: Node, n: Node, p: Node, ghost s: Shape, ghost c: Colours) returns (ghost t: Shape)
    requires s.head == head && head in s.link && Turnable(s, n, p, Right) && Now(s) && Painted(c.paint)
    modifies s.link.Keys`parent, s.link.Keys`left, s.link.Keys`right
    ensures Now(t) && Painted(c.paint) && Turned(s, t, n, p, Right)
  {
    hide Linked, Turned, Turnable, Now;
    t := RotateRight(head, n, p, s);
  }

  /** A red inner grandchild is turned outward, so that the lower red hangs on the left. */
  method TurnOutLeft(head: Node, n0: Node, p0: Node, g: Node, ghost u: Node?, ghost s: Shape, ghost c: Colours)
    returns (n: Node, p: Node, ghost t: Shape)
    requires Tree(s) && Balanced(s, c, null, n0, null) && Now(s) && Painted(c.paint) && s.head == head
    requires Kin(s, n0, p0, g, u, Left) && c.paint[n0] == Red && c.paint[p0] == Red
    modifies s.link.Keys`parent, s.link.Keys`left, s.link.Keys`right
    ensures Tree(t) && Balanced(t, c, null, n, null) && Now(t) && Painted(c.paint) && Reordered(s, t)
    ensures Kin(t, n, p, g, u, Left) && Child(t.link[p], Left) == n && c.paint[n] == Red && c.paint[p] == Red
  {
    hide Linked, Even, Calm, Kin, Turned, Turnable, Painted, Now;
    KinApart(s, n0, p0, g, u, Left);
    n, p, t := n0, p0, s;
    Sees(s, c, p);
    if n == p.right {
      ChildTurnable(s, n, p, Left);
      t := TurnLeft(head, n, p, s, c);
      TurnEnds(s, t, n, p, Left, null);
      InnerTurn(s, t, c, n, p, g, u, Left);
      KinApart(t, p, n, g, u, Left);
      Sees(t, c, n);
      Sees(t, c, p);
      n := n.left;
      p := n.parent;
    }
  }

  method TurnOverLeft(head: Node, p: Node, g: Node, ghost n: Node, ghost u: Node?, ghost s: Shape, ghost c: Colours)
    returns (ghost t: Shape, ghost c2: Colours)
    requires Tree(s) && Balanced(s, c, null, n, null) && Now(s) && Painted(c.paint) && s.head == head
    requires Kin(s, n, p, g, u, Left) && Child(s.link[p], Left) == n
    requires c.paint[n] == Red && c.paint[p] == Red && IsBlack(c, u)
    modifies s.link.Keys`parent, s.link.Keys`left, s.link.Keys`right, s.link.Keys`color
    ensures Tree(t) && Balanced(t, c2, null, null, null) && Now(t) && Painted(c2.paint) && Reordered(s, t)
    ensures n in t.span && n in c2.paint && n in t.link && t.link[n].parent == p && IsBlack(c2, p) && c2.paint[n] == Red
  {
    hide Linked, Even, Calm, Kin, Turned, Turnable, Painted, Now, Balanced, RootLinked, At;
    Domains(s, c, null, n, null);
    KinApart(s, n, p, g, u, Left);
    ChildTurnable(s, p, g, Right);
    c2 := SetColor(p, Black, s, c);
    c2 := SetColor(g, Red, s, c2);
    t := TurnRight(head, p, g, s, c2);
    TurnEnds(s, t, p, g, Right, null);
    OuterTurn(s, t, c, c2, n, p, g, u, Left);
  }

  /** A red inner grandchild is turned outward, so that the lower red hangs on the right. */
  method TurnOutRight(head: Node, n0: Node, p0: Node, g: Node, ghost u: Node?, ghost s: Shape, ghost c: Colours)
    returns (n: Node, p: Node, ghost t: Shape)
    requires Tree(s) && Balanced(s, c, null, n0, null) && Now(s) && Painted(c.paint) && s.head == head
    requires Kin(s, n0, p0, g, u, Right) && c.paint[n0] == Red && c.paint[p0] == Red
    modifies s.link.Keys`parent, s.link.Keys`left, s.link.Keys`right
    ensures Tree(t) && Balanced(t, c, null, n, null) && Now(t) && Painted(c.paint) && Reordered(s, t)
    ensures Kin(t, n, p, g, u, Right) && Child(t.link[p], Right) == n && c.paint[n] == Red && c.paint[p] == Red
  {
    hide Linked, Even, Calm, Kin, Turned, Turnable, Painted, Now;
    KinApart(s, n0, p0, g, u, Right);
    n, p, t := n0, p0, s;
    Sees(s, c, p);
    if n == p.left {
      ChildTurnable(s, n, p, Right);
      t := TurnRight(head, n, p, s, c);
      TurnEnds(s, t, n, p, Right, null);
      InnerTurn(s, t, c, n, p, g, u, Right);
      KinApart(t, p, n, g, u, Right);
      Sees(t, c, n);
      Sees(t, c, p);
      n := n.right;
      p := n.parent;
    }
  }

  method TurnOverRight(head: Node, p: Node, g: Node, ghost n: Node, ghost u: Node?, ghost s: Shape, ghost c: Colours)
    returns (ghost t: Shape, ghost c2: Colours)
    requires Tree(s) && Balanced(s, c, null, n, null) && Now(s) && Painted(c.paint) && s.head == head
    requires Kin(s, n, p, g, u, Right) && Child(s.link[p], Right) == n
    requires c.paint[n] == Red && c.paint[p] == Red && IsBlack(c, u)
    modifies s.link.Keys`parent, s.link.Keys`left, s.link.Keys`right, s.link.Keys`color
    ensures Tree(t) && Balanced(t, c2, null, null, null) && Now(t) && Painted(c2.paint) && Reordered(s, t)
    ensures n in t.span && n in c2.paint && n in t.link && t.link[n].parent == p && IsBlack(c2, p) && c2.paint[n] == Red
  {
    hide Linked, Even, Calm, Kin, Turned, Turnable, Painted, Now, Balanced, RootLinked, At;
    Domains(s, c, null, n, null);
    KinApart(s, n, p, g, u, Right);
    ChildTurnable(s, p, g, Left);
    c2 := SetColor(p, Black, s, c);
    c2 := SetColor(g, Red, s, c2);
    t := TurnLeft(head, p, g, s, c2);
    TurnEnds(s, t, p, g, Left, null);
    OuterTurn(s, t, c, c2, n, p, g, u, Right);
  }



  ghost function Room(s: Shape, n: Node, climbing: bool): int
    requires n in s.span
  {
    if climbing then |s.order| - (s.span[n].hi - s.span[n].lo) else -1
  }

  /** What the loop of `Insert` reads. */
  lemma InsertSees(s: Shape, c: Colours, n: Node)
    requires Tree(s) && Balanced(s, c, null, n, null) && Now(s) && Painted(c.paint) && n in s.span
    ensures n.parent != null && n.parent in s.link && n.parent in c.paint && s.link[n].parent == n.parent && c.paint[n.parent] == n.parent.color
    ensures s.head.left == s.link[s.head].left && s.head.left != null && s.head.left in s.link
    ensures 0 <= Room(s, n, true)
    ensures n.parent.color == Red ==> n.parent.parent != null && n.parent.parent in s.link && s.link[n.parent].parent == n.parent.parent
    ensures n.parent.color == Red ==> var p := n.parent; var g := p.parent;
      && g.left == s.link[g].left && g.right == s.link[g].right && g in s.span
      && s.span[n].hi - s.span[n].lo < s.span[g].hi - s.span[g].lo <= |s.order|
      && (if p == g.left then Kin(s, n, p, g, g.right, Left) else Kin(s, n, p, g, g.left, Right))
      && (g.right != null && g.right in c.paint ==> g.right.color == c.paint[g.right])
      && (g.left != null && g.left in c.paint ==> g.left.color == c.paint[g.left])
  {
    hide Even, Calm, Kin;
    assert Linked(s, n);
    var p := n.parent;
    if p.color == Red {
      assert Linked(s, p);
      var g := p.parent;
      if p == g.left {
        KinOf(s, c, n, p, g, g.right, Left);
        KinApart(s, n, p, g, g.right, Left);
      } else {
        KinOf(s, c, n, p, g, g.left, Right);
        KinApart(s, n, p, g, g.left, Right);
      }
    }
  }

  method PaintUncle(p: Node, u: Node, g: Node, ghost n: Node, ghost s: Shape, ghost c: Colours, ghost d: Side)
    returns (ghost c2: Colours)
    requires Tree(s) && Balanced(s, c, null, n, null) && Kin(s, n, p, g, u, d) && Now(s) && Painted(c.paint)
    requires c.paint[n] == Red && c.paint[p] == Red && c.paint[u] == Red
    modifies p`color, u`color, g`color
    ensures Balanced(s, c2, null, g, null) && Now(s) && Painted(c2.paint) && g in c2.paint && c2.paint[g] == Red
  {
    hide Linked, Even, Calm, Kin, Painted, Now, Balanced;
    Domains(s, c, null, n, null);
    KinApart(s, n, p, g, u, d);
    var c1 := SetColor(p, Black, s, c);
    c1 := SetColor(u, Black, s, c1);
    c1 := SetColor(g, Red, s, c1);
    c2 := UncleRed(s, c, n, p, g, u, d);
  }

  /** The loop body of `Insert` for a parent on the left. */
  method ClimbLeft(head: Node, n0: Node, p0: Node, g: Node, ghost s: Shape, ghost c: Colours)
    returns (n: Node, ghost t: Shape, ghost c2: Colours)
    requires Tree(s) && Balanced(s, c, null, n0, null) && Now(s) && Painted(c.paint) && s.head == head
    requires Kin(s, n0, p0, g, g.right, Left) && n0 in c.paint && c.paint[n0] == Red && p0 in c.paint && c.paint[p0] == Red
    requires g.right != null && g.right in c.paint ==> g.right.color == c.paint[g.right]
    modifies s.link.Keys`parent, s.link.Keys`left, s.link.Keys`right, s.link.Keys`color
    ensures Tree(t) && Balanced(t, c2, null, n, null) && Now(t) && Painted(c2.paint) && Reordered(s, t)
    ensures n in t.span && n in c2.paint && c2.paint[n] == Red
    ensures (n == g && t == s) || IsBlack(c2, t.link[n].parent)
  {
    hide Linked, Even, Calm, Kin, Turned, Turnable, Painted, Now, Balanced, Tree;
    Domains(s, c, null, n0, null);
    KinApart(s, n0, p0, g, g.right, Left);
    n, t, c2 := n0, s, c;
    var p := p0;
    var u := g.right;
    if u != null && u.color == Red {
      c2 := PaintUncle(p, u, g, n, t, c2, Left);
      n := g;
    } else {
      n, p, t := TurnOutLeft(head, n, p, g, u, t, c2);
      t, c2 := TurnOverLeft(head, p, g, n, u, t, c2);
      Loosen(t, c2, n);
    }
  }

  /** The loop body of `Insert` for a parent on the right. */
  method ClimbRight(head: Node, n0: Node, p0: Node, g: Node, ghost s: Shape, ghost c: Colours)
    returns (n: Node, ghost t: Shape, ghost c2: Colours)
    requires Tree(s) && Balanced(s, c, null, n0, null) && Now(s) && Painted(c.paint) && s.head == head
    requires Kin(s, n0, p0, g, g.left, Right) && n0 in c.paint && c.paint[n0] == Red && p0 in c.paint && c.paint[p0] == Red
    requires g.left != null && g.left in c.paint ==> g.left.color == c.paint[g.left]
    modifies s.link.Keys`parent, s.link.Keys`left, s.link.Keys`right, s.link.Keys`color
    ensures Tree(t) && Balanced(t, c2, null, n, null) && Now(t) && Painted(c2.paint) && Reordered(s, t)
    ensures n in t.span && n in c2.paint && c2.paint[n] == Red
    ensures (n == g && t == s) || IsBlack(c2, t.link[n].parent)
  {
    hide Linked, Even, Calm, Kin, Turned, Turnable, Painted, Now, Balanced, Tree;
    Domains(s, c, null, n0, null);
    KinApart(s, n0, p0, g, g.left, Right);
    n, t, c2 := n0, s, c;
    var p := p0;
    var u := g.left;
    if u != null && u.color == Red {
      c2 := PaintUncle(p, u, g, n, t, c2, Right);
      n := g;
    } else {
      n, p, t := TurnOutRight(head, n, p, g, u, t, c2);
      t, c2 := TurnOverRight(head, p, g, n, u, t, c2);
      Loosen(t, c2, n);
    }
  }

  /** `NodeBase::insert`: repairs the colours above the new red node. */
  method Insert(head: Node, n0: Node, ghost s: Shape, ghost c: Colours) returns (ghost t: Shape, ghost c2: Colours)
    requires Tree(s) && Balanced(s, c, null, n0, null) && Now(s) && Painted(c.paint) && s.head == head
    requires n0 in s.span && c.paint[n0] == Red
    modifies s.link.Keys`parent, s.link.Keys`left, s.link.Keys`right, s.link.Keys`color
    ensures Tree(t) && Balanced(t, c2, null, null, null) && Now(t) && Painted(c2.paint) && Reordered(s, t)
  {
    hide Linked, Even, Calm, Kin, Turned, Turnable, Painted, Now, Balanced;
    var n := n0;
    t, c2 := s, c;
    Domains(s, c, null, n, null);
    InsertSees(t, c2, n);
    while n != head.left && n.parent.color == Red
      invariant Tree(t) && Balanced(t, c2, null, n, null) && Now(t) && Painted(c2.paint) && Reordered(s, t)
      invariant n in t.span && n in c2.paint && c2.paint[n] == Red && n.parent != null
      decreases Room(t, n, n != head.left && n.parent.color == Red)
    {
      InsertSees(t, c2, n);
      var p := n.parent;
      var g := n.parent.parent;
      if p == g.left {
        n, t, c2 := ClimbLeft(head, n, p, g, t, c2);
      } else {
        n, t, c2 := ClimbRight(head, n, p, g, t, c2);
      }
      Domains(t, c2, null, n, null);
      InsertSees(t, c2, n);
    }
    Domains(t, c2, null, n, null);
    InsertSees(t, c2, n);
    ghost var c3 := SetColor(head.left, Black, t, c2);
    RootBlack(t, c2, c3, n);
    c2 := c3;
  }

  /** `n` lacks one black node; `p` is its parent and `b` its sibling. */
  ghost predicate Lacking(s: Shape, c: Colours, n: Node, p: Node, b: Node, d: Side, ph: Node?)
  {
    && Tree(s) && Balanced(s, c, n, n, ph) && Under(s, n, ph) && n in c.paint && c.paint[n] == Black
    && Pair(s, n, p, b, d) && p != ph && b != ph
    && Even(s, c, p, n) && Even(s, c, b, n) && Calm(s, c, p, n) && Calm(s, c, b, n) && H(c, b) >= 1
  }

  lemma LackingApart(s: Shape, c: Colours, n: Node, p: Node, b: Node, d: Side, ph: Node?)
    requires Lacking(s, c, n, p, b, d, ph)
    ensures Tree(s) && Balanced(s, c, n, n, ph) && Under(s, n, ph) && n in c.paint && c.paint[n] == Black
    ensures c.paint.Keys == s.link.Keys && c.bh.Keys == s.span.Keys
    ensures s.head in s.link && n in s.link && p in s.link && b in s.link && n in s.span && p in s.span && b in s.span
    ensures n != p && n != b && p != b && s.link[n].parent == p
    ensures Child(s.link[p], d) == n && Child(s.link[p], Other(d)) == b
  {
    hide Linked, Even, Calm;
  }

  lemma SiblingRedAgain(s: Shape, t: Shape, c: Colours, c2: Colours, n: Node, p: Node, b: Node, d: Side, ph: Node?)
    requires Lacking(s, c, n, p, b, d, ph) && c.paint[b] == Red
    requires Turned(s, t, b, p, d) && c2 == c.(paint := c.paint[p := Red][b := Black])
    ensures t.link.Keys == s.link.Keys && Reordered(s, t)
    ensures Child(t.link[p], Other(d)) != null && t.link[n].parent == p
    ensures Lacking(t, c2, n, p, Child(t.link[p], Other(d)), d, ph)
    ensures c2.paint[Child(t.link[p], Other(d))] == Black && c2.paint[p] == Red
  {
    hide Linked, Even;
    SiblingRed(s, t, c, c2, n, p, b, d, ph);
    TurnEnds(s, t, b, p, d, ph) by { ChildTurnable(s, b, p, d); }
    assert Under(t, n, ph);
    var e := SiblingExists(t, c2, n, p, d, ph);
  }

  lemma NephewsSeen(s: Shape, c: Colours, b: Node)
    requires Tree(s) && b in s.span && c.paint.Keys == s.link.Keys && Now(s) && Painted(c.paint)
    ensures b.left == s.link[b].left && b.right == s.link[b].right
    ensures b.left != null ==> b.left in c.paint && b.left.color == c.paint[b.left]
    ensures b.right != null ==> b.right in c.paint && b.right.color == c.paint[b.right]
  {
    assert Linked(s, b);
  }

  lemma NearTurnable(s: Shape, c: Colours, n: Node, p: Node, b: Node, e: Node, d: Side, ph: Node?)
    requires Lacking(s, c, n, p, b, d, ph) && e == Child(s.link[b], d)
    ensures Turnable(s, e, b, Other(d)) && e in c.paint && e != b
  {
    hide Linked, Even, Calm;
    ChildTurnable(s, e, b, Other(d));
  }

  lemma NearRedAgain(s: Shape, t: Shape, c: Colours, c2: Colours, n: Node, p: Node, b: Node, e: Node, d: Side, ph: Node?)
    requires Lacking(s, c, n, p, b, d, ph) && c.paint[b] == Black && e == Child(s.link[b], d) && e in c.paint && c.paint[e] == Red
    requires IsBlack(c, Child(s.link[b], Other(d)))
    requires Turned(s, t, e, b, Other(d)) && c2 == c.(paint := c.paint[b := Red][e := Black])
    ensures t.link.Keys == s.link.Keys && Reordered(s, t) && t.link[n].parent == p
    ensures Child(t.link[p], Other(d)) == e && Lacking(t, c2, n, p, e, d, ph)
    ensures c2.paint[e] == Black && !IsBlack(c2, Child(t.link[e], Other(d)))
  {
    hide Linked, Even, Calm;
    NearRed(s, t, c, c2, n, p, b, e, d, ph);
    TurnEnds(s, t, e, b, Other(d), ph) by { ChildTurnable(s, e, b, Other(d)); }
    assert Under(t, n, ph);
    var again := SiblingExists(t, c2, n, p, d, ph);
  }

  lemma FarTurnable(s: Shape, c: Colours, n: Node, p: Node, b: Node, d: Side, ph: Node?)
    requires Lacking(s, c, n, p, b, d, ph) && !IsBlack(c, Child(s.link[b], Other(d)))
    ensures Turnable(s, b, p, d)
    ensures var f := Child(s.link[b], Other(d)); f != null && f in c.paint && f in s.link && f != b && f != p && f != n
  {
    hide Linked, Even, Calm;
    ChildTurnable(s, b, p, d);
    FarApart(s, n, p, b, Child(s.link[b], Other(d)), d);
  }

  lemma FarRedEnd(s: Shape, t: Shape, c: Colours, m: Paint, n: Node, p: Node, b: Node, d: Side, ph: Node?) returns (c2: Colours)
    requires Lacking(s, c, n, p, b, d, ph) && c.paint[b] == Black && !IsBlack(c, Child(s.link[b], Other(d)))
    requires Turned(s, t, b, p, d)
    requires var f := Child(s.link[b], Other(d)); f != null && m == c.paint[b := c.paint[p]][p := Black][f := Black]
    ensures Tree(t) && Balanced(t, c2, null, null, ph) && Reordered(s, t) && c2.paint == m && n in m && m[n] == Black
  {
    hide Linked, Even, Calm;
    var f := Child(s.link[b], Other(d));
    FarApart(s, n, p, b, f, d);
    c2 := Colours(m, c.bh[p := c.bh[p] - 1][b := c.bh[b] + 1]);
    FarRed(s, t, c, c2, n, p, b, f, d, ph);
    TurnEnds(s, t, b, p, d, ph) by { ChildTurnable(s, b, p, d); }
  }

  /** A red sibling on the right is turned over the parent; the new sibling is black. */
  method SiblingTurnLeft(head: Node, n: Node, b0: Node, ghost p: Node, ghost ph: Node?, ghost s: Shape, ghost c: Colours)
    returns (b: Node, ghost t: Shape, ghost c2: Colours)
    requires Lacking(s, c, n, p, b0, Left, ph) && Now(s) && Painted(c.paint) && s.head == head
    modifies s.link.Keys`parent, s.link.Keys`left, s.link.Keys`right, s.link.Keys`color
    ensures Lacking(t, c2, n, p, b, Left, ph) && Now(t) && Painted(c2.paint) && Reordered(s, t)
    ensures b in c2.paint && c2.paint[b] == Black
    ensures t == s || (p in c2.paint && c2.paint[p] == Red)
  {
    hide Linked, Even, Calm, Pair, Turned, Turnable, Painted, Now, Balanced, Tree, Under;
    LackingApart(s, c, n, p, b0, Left, ph);
    Sees(s, c, n);
    Sees(s, c, b0);
    b, t, c2 := b0, s, c;
    if b.color == Red {
      ChildTurnable(s, b, p, Left);
      c2 := SetColor(n.parent, Red, s, c2);
      c2 := SetColor(b, Black, s, c2);
      t := TurnLeft(head, b, n.parent, s, c2);
      SiblingRedAgain(s, t, c, c2, n, p, b, Left, ph);
      Sees(t, c2, n);
      Sees(t, c2, p);
      b := n.parent.right;
    }
  }

  /** A red near nephew is turned over the black sibling, so that the far nephew is red. */
  method NearTurnLeft(head: Node, n: Node, b0: Node, ghost p: Node, ghost ph: Node?, ghost s: Shape, ghost c: Colours)
    returns (b: Node, ghost t: Shape, ghost c2: Colours)
    requires Lacking(s, c, n, p, b0, Left, ph) && Now(s) && Painted(c.paint) && s.head == head
    requires c.paint[b0] == Black && !(IsBlack(c, s.link[b0].left) && IsBlack(c, s.link[b0].right))
    modifies s.link.Keys`parent, s.link.Keys`left, s.link.Keys`right, s.link.Keys`color
    ensures Lacking(t, c2, n, p, b, Left, ph) && Now(t) && Painted(c2.paint) && Reordered(s, t)
    ensures b in c2.paint && c2.paint[b] == Black && b in t.link
    ensures !IsBlack(c2, t.link[b].right)
  {
    hide Linked, Even, Calm, Pair, Turned, Turnable, Painted, Now, Balanced, Tree, Under, Lacking;
    LackingApart(s, c, n, p, b0, Left, ph);
    Sees(s, c, n);
    Sees(s, c, b0);
    NephewsSeen(s, c, b0);
    b, t, c2 := b0, s, c;
    if (b.right == null || b.right.color == Black) && (b.left != null && b.left.color == Red) {
      ghost var e := b.left;
      NearTurnable(s, c, n, p, b, e, Left, ph);
      c2 := SetColor(b, Red, s, c2);
      c2 := SetColor(b.left, Black, s, c2);
      t := TurnRight(head, b.left, b, s, c2);
      NearRedAgain(s, t, c, c2, n, p, b, e, Left, ph);
      Sees(t, c2, n);
      Sees(t, c2, p);
      b := n.parent.right;
    }
  }

  /** A red far nephew: the sibling takes over the parent's place and colour and nothing is lacking any more. */
  method FarTurnLeft(head: Node, n: Node, b: Node, ghost p: Node, ghost ph: Node?, ghost s: Shape, ghost c: Colours)
    returns (ghost t: Shape, ghost c2: Colours)
    requires Lacking(s, c, n, p, b, Left, ph) && Now(s) && Painted(c.paint) && s.head == head
    requires c.paint[b] == Black && !IsBlack(c, s.link[b].right)
    modifies s.link.Keys`parent, s.link.Keys`left, s.link.Keys`right, s.link.Keys`color
    ensures Tree(t) && Balanced(t, c2, null, null, ph) && Now(t) && Painted(c2.paint) && Reordered(s, t)
    ensures n in c2.paint && c2.paint[n] == Black
  {
    hide Linked, Even, Calm, Pair, Turned, Turnable, Painted, Now, Balanced, Tree, Under, Lacking;
    LackingApart(s, c, n, p, b, Left, ph);
    Sees(s, c, n);
    Sees(s, c, p);
    Sees(s, c, b);
    FarTurnable(s, c, n, p, b, Left, ph);
    c2 := SetColor(b, n.parent.color, s, c);
    c2 := SetColor(n.parent, Black, s, c2);
    if b.right != null { c2 := SetColor(b.right, Black, s, c2); }
    t := TurnLeft(head, b, n.parent, s, c2);
    c2 := FarRedEnd(s, t, c, c2.paint, n, p, b, Left, ph);
  }

  /** A red sibling on the left is turned over the parent; the new sibling is black. */
  method SiblingTurnRight(head: Node, n: Node, b0: Node, ghost p: Node, ghost ph: Node?, ghost s: Shape, ghost c: Colours)
    returns (b: Node, ghost t: Shape, ghost c2: Colours)
    requires Lacking(s, c, n, p, b0, Right, ph) && Now(s) && Painted(c.paint) && s.head == head
    modifies s.link.Keys`parent, s.link.Keys`left, s.link.Keys`right, s.link.Keys`color
    ensures Lacking(t, c2, n, p, b, Right, ph) && Now(t) && Painted(c2.paint) && Reordered(s, t)
    ensures b in c2.paint && c2.paint[b] == Black
    ensures t == s || (p in c2.paint && c2.paint[p] == Red)
  {
    hide Linked, Even, Calm, Pair, Turned, Turnable, Painted, Now, Balanced, Tree, Under;
    LackingApart(s, c, n, p, b0, Right, ph);
    Sees(s, c, n);
    Sees(s, c, b0);
    b, t, c2 := b0, s, c;
    if b.color == Red {
      ChildTurnable(s, b, p, Right);
      c2 := SetColor(n.parent, Red, s, c2);
      c2 := SetColor(b, Black, s, c2);
      t := TurnRight(head, b, n.parent, s, c2);
      SiblingRedAgain(s, t, c, c2, n, p, b, Right, ph);
      Sees(t, c2, n);
      Sees(t, c2, p);
      b := n.parent.left;
    }
  }

  /** A red near nephew is turned over the black sibling, so that the far nephew is red. */
  method NearTurnRight(head: Node, n: Node, b0: Node, ghost p: Node, ghost ph: Node?, ghost s: Shape, ghost c: Colours)
    returns (b: Node, ghost t: Shape, ghost c2: Colours)
    requires Lacking(s, c, n, p, b0, Right, ph) && Now(s) && Painted(c.paint) && s.head == head
    requires c.paint[b0] == Black && !(IsBlack(c, s.link[b0].left) && IsBlack(c, s.link[b0].right))
    modifies s.link.Keys`parent, s.link.Keys`left, s.link.Keys`right, s.link.Keys`color
    ensures Lacking(t, c2, n, p, b, Right, ph) && Now(t) && Painted(c2.paint) && Reordered(s, t)
    ensures b in c2.paint && c2.paint[b] == Black && b in t.link
    ensures !IsBlack(c2, t.link[b].left)
  {
    hide Linked, Even, Calm, Pair, Turned, Turnable, Painted, Now, Balanced, Tree, Under, Lacking;
    LackingApart(s, c, n, p, b0, Right, ph);
    Sees(s, c, n);
    Sees(s, c, b0);
    NephewsSeen(s, c, b0);
    b, t, c2 := b0, s, c;
    if (b.left == null || b.left.color == Black) && (b.right != null && b.right.color == Red) {
      ghost var e := b.right;
      NearTurnable(s, c, n, p, b, e, Right, ph);
      c2 := SetColor(b, Red, s, c2);
      c2 := SetColor(b.right, Black, s, c2);
      t := TurnLeft(head, b.right, b, s, c2);
      NearRedAgain(s, t, c, c2, n, p, b, e, Right, ph);
      Sees(t, c2, n);
      Sees(t, c2, p);
      b := n.parent.left;
    }
  }

  /** A red far nephew: the sibling takes over the parent's place and colour and nothing is lacking any more. */
  method FarTurnRight(head: Node, n: Node, b: Node, ghost p: Node, ghost ph: Node?, ghost s: Shape, ghost c: Colours)
    returns (ghost t: Shape, ghost c2: Colours)
    requires Lacking(s, c, n, p, b, Right, ph) && Now(s) && Painted(c.paint) && s.head == head
    requires c.paint[b] == Black && !IsBlack(c, s.link[b].left)
    modifies s.link.Keys`parent, s.link.Keys`left, s.link.Keys`right, s.link.Keys`color
    ensures Tree(t) && Balanced(t, c2, null, null, ph) && Now(t) && Painted(c2.paint) && Reordered(s, t)
    ensures n in c2.paint && c2.paint[n] == Black
  {
    hide Linked, Even, Calm, Pair, Turned, Turnable, Painted, Now, Balanced, Tree, Under, Lacking;
    LackingApart(s, c, n, p, b, Right, ph);
    Sees(s, c, n);
    Sees(s, c, p);
    Sees(s, c, b);
    FarTurnable(s, c, n, p, b, Right, ph);
    c2 := SetColor(b, n.parent.color, s, c);
    c2 := SetColor(n.parent, Black, s, c2);
    if b.left != null { c2 := SetColor(b.left, Black, s, c2); }
    t := TurnRight(head, b, n.parent, s, c2);
    c2 := FarRedEnd(s, t, c, c2.paint, n, p, b, Right, ph);
  }


  /** A black sibling without red children turns red: either a red parent makes up for it, or the parent lacks one. */
  method PalePair(n: Node, b: Node, ghost p: Node, ghost d: Side, ghost ph: Node?, ghost s: Shape, ghost c: Colours)
    returns (m: Node, stop: bool, ghost c2: Colours)
    requires Lacking(s, c, n, p, b, d, ph) && Now(s) && Painted(c.paint)
    requires c.paint[b] == Black && IsBlack(c, s.link[b].left) && IsBlack(c, s.link[b].right)
    modifies s.link.Keys`color
    ensures Now(s) && Painted(c2.paint)
    ensures if stop then m == n && Balanced(s, c2, null, null, ph) && n in c2.paint && c2.paint[n] == Black
            else m == p && Balanced(s, c2, p, p, ph) && Under(s, p, ph) && p in c.paint && c.paint[p] == Black
  {
    hide Linked, Even, Calm, Pair, Painted, Now, Balanced, Tree, Lacking, Under;
    LackingApart(s, c, n, p, b, d, ph);
    Sees(s, c, n);
    Sees(s, c, b);
    Sees(s, c, p);
    PaleEnd(s, c, n, p, b, d, ph);
    ghost var bh := c.bh[p := c.bh[p] - 1];
    c2 := SetColor(b, Red, s, c);
    if b.parent.color == Red {
      c2 := SetColor(b.parent, Black, s, c2);
      m, stop := n, true;
    } else {
      m, stop := n.parent, false;
    }
    c2 := c2.(bh := bh);
  }

  lemma PaleEnd(s: Shape, c: Colours, n: Node, p: Node, b: Node, d: Side, ph: Node?)
    requires Lacking(s, c, n, p, b, d, ph)
    requires c.paint[b] == Black && IsBlack(c, s.link[b].left) && IsBlack(c, s.link[b].right)
    ensures s.link[b].parent == p
    ensures c.paint[p] == Red ==> Balanced(s, Colours(c.paint[b := Red][p := Black], c.bh[p := c.bh[p] - 1]), null, null, ph)
    ensures c.paint[p] == Black ==> Balanced(s, Colours(c.paint[b := Red], c.bh[p := c.bh[p] - 1]), p, p, ph) && Under(s, p, ph)
  {
    hide Even, Calm, Balanced;
    LackingApart(s, c, n, p, b, d, ph);
    if c.paint[p] == Red {
      SiblingPale(s, c, Colours(c.paint[b := Red][p := Black], c.bh[p := c.bh[p] - 1]), n, p, b, d, null, ph);
    } else {
      SiblingPale(s, c, Colours(c.paint[b := Red], c.bh[p := c.bh[p] - 1]), n, p, b, d, p, ph);
    }
  }

  /** The loop body of `Remove` for a node on the left. */
  method FixLeft(head: Node, n: Node, ghost p: Node, ghost b0: Node, ghost ph: Node?, ghost s: Shape, ghost c: Colours)
    returns (m: Node, stop: bool, ghost t: Shape, ghost c2: Colours)
    requires Lacking(s, c, n, p, b0, Left, ph) && Now(s) && Painted(c.paint) && s.head == head
    modifies s.link.Keys`parent, s.link.Keys`left, s.link.Keys`right, s.link.Keys`color
    ensures Tree(t) && Now(t) && Painted(c2.paint) && Reordered(s, t)
    ensures if stop then m == n && Balanced(t, c2, null, null, ph) && n in c2.paint && c2.paint[n] == Black
            else Balanced(t, c2, m, m, ph) && Under(t, m, ph) && t == s && m == p
  {
    hide Linked, Even, Calm, Pair, Painted, Now, Balanced, Tree, Lacking, Under;
    LackingApart(s, c, n, p, b0, Left, ph);
    Sees(s, c, n);
    Sees(s, c, p);
    var b := n.parent.right;
    b, t, c2 := SiblingTurnLeft(head, n, b, p, ph, s, c);
    LackingApart(t, c2, n, p, b, Left, ph);
    Sees(t, c2, b);
    NephewsSeen(t, c2, b);
    if b.color == Black && (b.left == null || b.left.color == Black) && (b.right == null || b.right.color == Black) {
      m, stop, c2 := PalePair(n, b, p, Left, ph, t, c2);
    } else {
      b, t, c2 := NearTurnLeft(head, n, b, p, ph, t, c2);
      t, c2 := FarTurnLeft(head, n, b, p, ph, t, c2);
      m, stop := n, true;
    }
  }

  /** The loop body of `Remove` for a node on the right. */
  method FixRight(head: Node, n: Node, ghost p: Node, ghost b0: Node, ghost ph: Node?, ghost s: Shape, ghost c: Colours)
    returns (m: Node, stop: bool, ghost t: Shape, ghost c2: Colours)
    requires Lacking(s, c, n, p, b0, Right, ph) && Now(s) && Painted(c.paint) && s.head == head
    modifies s.link.Keys`parent, s.link.Keys`left, s.link.Keys`right, s.link.Keys`color
    ensures Tree(t) && Now(t) && Painted(c2.paint) && Reordered(s, t)
    ensures if stop then m == n && Balanced(t, c2, null, null, ph) && n in c2.paint && c2.paint[n] == Black
            else Balanced(t, c2, m, m, ph) && Under(t, m, ph) && t == s && m == p
  {
    hide Linked, Even, Calm, Pair, Painted, Now, Balanced, Tree, Lacking, Under;
    LackingApart(s, c, n, p, b0, Right, ph);
    Sees(s, c, n);
    Sees(s, c, p);
    var b := n.parent.left;
    b, t, c2 := SiblingTurnRight(head, n, b, p, ph, s, c);
    LackingApart(t, c2, n, p, b, Right, ph);
    Sees(t, c2, b);
    NephewsSeen(t, c2, b);
    if b.color == Black && (b.left == null || b.left.color == Black) && (b.right == null || b.right.color == Black) {
      m, stop, c2 := PalePair(n, b, p, Right, ph, t, c2);
    } else {
      b, t, c2 := NearTurnRight(head, n, b, p, ph, t, c2);
      t, c2 := FarTurnRight(head, n, b, p, ph, t, c2);
      m, stop := n, true;
    }
  }

  /** What the loop of `Remove` reads. */
  lemma RemoveSees(s: Shape, c: Colours, n: Node, ph: Node?) returns (p: Node?, b: Node?, d: Side)
    requires Tree(s) && Balanced(s, c, n, n, ph) && Under(s, n, ph) && n in s.span && Now(s) && Painted(c.paint)
    ensures n in s.link && n in c.paint && n.color == c.paint[n] && s.head in s.link && s.head.left == s.link[s.head].left
    ensures n != s.head.left && n.color == Black ==> (
      && p != null && b != null && n.parent == p && p in s.span && p in s.link && p.left == s.link[p].left
      && (d == Left <==> n == p.left) && Lacking(s, c, n, p, b, d, ph) && 0 <= Room(s, p, true) < Room(s, n, true))
  {
    hide Even, Calm;
    assert Linked(s, n);
    p, b, d := n.parent, null, Left;
    if n != s.head.left && n.color == Black {
      assert Linked(s, p);
      d := if n == s.link[p].left then Left else Right;
      b := SiblingExists(s, c, n, p, d, ph);
    }
  }

  /** `NodeBase::remove`: repairs the tree when the subtree at `n0` lacks one black node. */
  method Remove(head: Node, n0: Node, ghost ph: Node?, ghost s: Shape, ghost c: Colours) returns (ghost t: Shape, ghost c2: Colours)
    requires Tree(s) && Balanced(s, c, n0, n0, ph) && Now(s) && Painted(c.paint) && s.head == head
    requires n0 in s.span && Under(s, n0, ph)
    modifies s.link.Keys`parent, s.link.Keys`left, s.link.Keys`right, s.link.Keys`color
    ensures Tree(t) && Balanced(t, c2, null, null, ph) && Now(t) && Painted(c2.paint) && Reordered(s, t)
  {
    hide Linked, Even, Calm, Pair, Painted, Now, Balanced, Tree, Lacking, Under;
    var n, stop := n0, false;
    t, c2 := s, c;
    ghost var p, b, d := RemoveSees(t, c2, n, ph);
    while n != head.left && n.color == Black
      invariant Tree(t) && Now(t) && Painted(c2.paint) && Reordered(s, t) && n in t.span && n in t.link
      invariant !stop && Balanced(t, c2, n, n, ph) && Under(t, n, ph)
      decreases Room(t, n, true)
    {
      p, b, d := RemoveSees(t, c2, n, ph);
      if n == n.parent.left {
        n, stop, t, c2 := FixLeft(head, n, p, b, ph, t, c2);
      } else {
        n, stop, t, c2 := FixRight(head, n, p, b, ph, t, c2);
      }
      if stop { break; }
    }
    ghost var c1 := c2;
    if !stop { p, b, d := RemoveSees(t, c1, n, ph); }
    c2 := SetColor(n, Black, t, c1);
    if stop {
      assert c1.paint[n := Black] == c1.paint;
    } else {
      Finish(t, c1, c2, n, ph);
    }
  }
}

/** The records of the tree and the in-order reading of their links. */
module RbNodes {
  type Key(!new, ==, 0)

  datatype Color = Red | Black

  /** `NodeBase`: three links and the colour bit next to the stored key; the other flags are written once, with the memory. */
  class Node {
    const addr: nat
    const prealloc: bool
    const index: nat
    const bytes: nat
    var parent: Node?
    var left: Node?
    var right: Node?
    var color: Color
    var key: Key

    constructor (addr: nat, prealloc: bool, index: nat, bytes: nat, c: Color)
      ensures parent == null && left == null && right == null && color == c
      ensures this.addr == addr && this.prealloc == prealloc && this.index == index && this.bytes == bytes
    {
      this.addr, this.prealloc, this.index, this.bytes := addr, prealloc, index, bytes;
      parent, left, right, color := null, null, null, c;
    }
  }

  /** The links of one record, read at one moment. */
  datatype Link = Link(parent: Node?, left: Node?, right: Node?)

  type Links = map<Node, Link>
  type Paint = map<Node, Color>

  ghost function LinksOf(S: set<Node>): (m: Links)
    reads S
  {
    map x | x in S :: Link(x.parent, x.left, x.right)
  }
}

module RbShape {
  import opened RbNodes

  /** The nodes below and including a node fill `[lo, hi)` of the in-order list; the node itself is at `pos`. */
  datatype Span = Span(lo: int, pos: int, hi: int)

  datatype Shape = Shape(head: Node, link: Links, order: seq<Node>, span: map<Node, Span>)

  ghost predicate Placed(s: Shape, x: Node)
  {
    && x in s.span && x in s.link && x != s.head
    && 0 <= s.span[x].lo <= s.span[x].pos < s.span[x].hi <= |s.order|
    && s.order[s.span[x].pos] == x
  }

  ghost predicate LeftLinked(s: Shape, x: Node)
    requires x in s.span && x in s.link
  {
    var l := s.link[x].left;
    if l == null then s.span[x].lo == s.span[x].pos
    else
      && l in s.span && l in s.link
      && s.span[l].lo == s.span[x].lo && s.span[l].hi == s.span[x].pos
      && s.link[l].parent == x
  }

  ghost predicate RightLinked(s: Shape, x: Node)
    requires x in s.span && x in s.link
  {
    var r := s.link[x].right;
    if r == null then s.span[x].pos + 1 == s.span[x].hi
    else
      && r in s.span && r in s.link
      && s.span[r].lo == s.span[x].pos + 1 && s.span[r].hi == s.span[x].hi
      && s.link[r].parent == x
  }

  ghost predicate ParentLinked(s: Shape, x: Node)
    requires x in s.link
  {
    var p := s.link[x].parent;
    && p != null && s.head in s.link
    && (if p == s.head then s.link[s.head].left == x
        else p in s.span && p in s.link && (s.link[p].left == x || s.link[p].right == x))
  }

  ghost predicate Linked(s: Shape, x: Node)
  {
    Placed(s, x) && LeftLinked(s, x) && RightLinked(s, x) && ParentLinked(s, x)
  }

  ghost predicate RootLinked(s: Shape)
    requires s.head in s.link
  {
    var r := s.link[s.head].left;
    if r == null then s.order == []
    else r in s.span && r in s.link && s.span[r].lo == 0 && s.span[r].hi == |s.order| && s.link[r].parent == s.head
  }

  ghost predicate At(s: Shape, i: int)
    requires 0 <= i < |s.order|
  {
    s.order[i] in s.span && s.span[s.order[i]].pos == i
  }

  /** The links form one binary tree below the header whose in-order reading is `order`. */
  ghost predicate Tree(s: Shape)
  {
    && s.head in s.link && s.head !in s.span
    && s.link.Keys == s.span.Keys + {s.head}
    && RootLinked(s)
    && (forall i {:trigger At(s, i)} :: 0 <= i < |s.order| ==> At(s, i))
    && (forall x {:trigger Linked(s, x)} :: x in s.span ==> Linked(s, x))
  }

  /** The header's `parent` and `right` name the first and the last node. */
  ghost predicate Extremes(s: Shape)
    requires s.head in s.link
  {
    if s.order == [] then s.link[s.head].parent == null && s.link[s.head].right == null
    else s.link[s.head].parent == s.order[0] && s.link[s.head].right == s.order[|s.order| - 1]
  }

  /* ---- rotation ---- */

  datatype Side = Left | Right

  function Other(d: Side): Side { if d == Left then Right else Left }

  function Child(k: Link, d: Side): Node? { if d == Left then k.left else k.right }

  function SetChild(k: Link, d: Side, x: Node?): Link { if d == Left then k.(left := x) else k.(right := x) }

  /** The link of `g` that led to `p` leads to `n`. */
  function Redirected(s: Shape, g: Node, p: Node, n: Node?): Link
    requires g in s.link
  {
    if g != s.head && s.link[g].right == p then s.link[g].(right := n) else s.link[g].(left := n)
  }

  /** What a rotation writes, field by field. */
  ghost predicate Turned(s: Shape, t: Shape, n: Node, p: Node, d: Side)
    requires p in s.link && n in s.link && n in s.span && p in s.span
  {
    var g := s.link[p].parent;
    var tmp := Child(s.link[n], d);
    && t.head == s.head && t.order == s.order && t.link.Keys == s.link.Keys
    && t.span.Keys == s.span.Keys
    && t.span[n] == (if d == Left then s.span[n].(lo := s.span[p].lo) else s.span[n].(hi := s.span[p].hi))
    && t.span[p] == (if d == Left then s.span[p].(hi := s.span[n].pos) else s.span[p].(lo := s.span[n].pos + 1))
    && (forall x :: x in s.span && x != n && x != p ==> t.span[x] == s.span[x])
    && t.link[n] == SetChild(s.link[n], d, p).(parent := g)
    && t.link[p] == SetChild(s.link[p], Other(d), tmp).(parent := n)
    && (tmp != null && tmp in s.link ==> t.link[tmp] == s.link[tmp].(parent := p))
    && (g != null && g in s.link ==> t.link[g] == Redirected(s, g, p, n))
    && (forall x :: x in s.link && x != n && x != p && x != tmp && x != g ==> t.link[x] == s.link[x])
  }


  /** The records a rotation of `n` over `p` meets, and why they differ. */
  ghost predicate Turnable(s: Shape, n: Node, p: Node, d: Side)
  {
    && s.head in s.link
    && n in s.span && p in s.span && n in s.link && p in s.link
    && n != p && n != s.head && p != s.head && Linked(s, n) && Linked(s, p)
    && Child(s.link[p], Other(d)) == n
    && var g := s.link[p].parent;
    && var tmp := Child(s.link[n], d);
    && g in s.link && g != n && g != p && (g == s.head <==> s.link[s.head].left == p)
    && (g != s.head ==> Linked(s, g))
    && (tmp != null ==> tmp in s.link && Linked(s, tmp) && tmp != n && tmp != p && tmp != g && tmp != s.head)
  }

  lemma ChildTurnable(s: Shape, n: Node, p: Node, d: Side)
    requires Tree(s) && p in s.span && Child(s.link[p], Other(d)) == n
    ensures Turnable(s, n, p, d)
  {
    assert Linked(s, p);
    assert Linked(s, n);
    var g := s.link[p].parent;
    var tmp := Child(s.link[n], d);
    if tmp != null { assert Linked(s, tmp); }
    if g != s.head { assert Linked(s, g); }
  }

  lemma TurnKeepsOther(s: Shape, t: Shape, n: Node, p: Node, d: Side, x: Node)
    requires Turnable(s, n, p, d) && Turned(s, t, n, p, d)
    requires x in s.span && Linked(s, x) && x != n && x != p && x != Child(s.link[n], d) && x != s.link[p].parent
    ensures Linked(t, x)
  {
  }

  lemma TurnKeepsGrand(s: Shape, t: Shape, n: Node, p: Node, d: Side)
    requires Turnable(s, n, p, d) && Turned(s, t, n, p, d)
    ensures var g := s.link[p].parent; g != s.head ==> Linked(t, g)
  {
  }

  lemma TurnKeepsInner(s: Shape, t: Shape, n: Node, p: Node, d: Side)
    requires Turnable(s, n, p, d) && Turned(s, t, n, p, d)
    ensures var tmp := Child(s.link[n], d); tmp != null ==> Linked(t, tmp)
  {
  }

  lemma TurnKeepsPair(s: Shape, t: Shape, n: Node, p: Node, d: Side)
    requires Turnable(s, n, p, d) && Turned(s, t, n, p, d)
    ensures Linked(t, n) && Linked(t, p)
  {
  }


  lemma TurnKeepsNode(s: Shape, t: Shape, n: Node, p: Node, d: Side, x: Node)
    requires Turnable(s, n, p, d) && Turned(s, t, n, p, d)
    requires x in s.span && Linked(s, x)
    ensures Linked(t, x)
  {
    hide LeftLinked, RightLinked, ParentLinked;
    if x == n || x == p { TurnKeepsPair(s, t, n, p, d); }
    else if x == Child(s.link[n], d) { TurnKeepsInner(s, t, n, p, d); }
    else if x == s.link[p].parent { TurnKeepsGrand(s, t, n, p, d); }
    else { TurnKeepsOther(s, t, n, p, d, x); }
  }

  lemma TurnKeepsTree(s: Shape, t: Shape, n: Node, p: Node, d: Side)
    requires Tree(s) && p in s.span && Child(s.link[p], Other(d)) == n && n in s.span
    requires Turned(s, t, n, p, d)
    ensures Tree(t)
  {
    ChildTurnable(s, n, p, d);
    forall x | x in t.span ensures Linked(t, x) {
      hide *;
      assert Linked(s, x);
      TurnKeepsNode(s, t, n, p, d, x);
    }
    forall i | 0 <= i < |t.order| ensures At(t, i) { assert At(s, i); }
  }

  /* ---- the links read from the root ---- */

  /** The in-order walk over the links: left subtree, node, right subtree. */
  ghost function InOrder(s: Shape, x: Node?): seq<Node>
    requires Tree(s) && (x == null || x in s.span)
    decreases if x == null then 0 else s.span[x].hi - s.span[x].lo
  {
    if x == null then []
    else
      assert Linked(s, x) && (s.link[x].left != null ==> Linked(s, s.link[x].left)) && (s.link[x].right != null ==> Linked(s, s.link[x].right));
      InOrder(s, s.link[x].left) + [x] + InOrder(s, s.link[x].right)
  }

  /** The list kept beside the records is what the walk over the links reads. */
  lemma {:induction false} InOrderIs(s: Shape, x: Node)
    requires Tree(s) && x in s.span
    ensures 0 <= s.span[x].lo <= s.span[x].hi <= |s.order| && InOrder(s, x) == s.order[s.span[x].lo..s.span[x].hi]
    decreases s.span[x].hi - s.span[x].lo
  {
    hide RootLinked, ParentLinked;
    assert Linked(s, x);
    var sp, l, r := s.span[x], s.link[x].left, s.link[x].right;
    if l != null { assert Linked(s, l); InOrderIs(s, l); }
    if r != null { assert Linked(s, r); InOrderIs(s, r); }
    PosSplits(s.order, sp.lo, sp.pos, sp.hi);
    hide Linked, Tree;
  }

  lemma PosSplits(order: seq<Node>, lo: int, pos: int, hi: int)
    requires 0 <= lo <= pos < hi <= |order|
    ensures order[lo..hi] == order[lo..pos] + [order[pos]] + order[pos + 1..hi]
  {}

  lemma InOrderWhole(s: Shape)
    requires Tree(s)
    ensures s.link[s.head].left == null || s.link[s.head].left in s.span
    ensures InOrder(s, s.link[s.head].left) == s.order
  {
    hide Linked;
    if s.link[s.head].left != null {
      InOrderIs(s, s.link[s.head].left);
    }
  }
}

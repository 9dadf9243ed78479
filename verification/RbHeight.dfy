/** How deep a search can go, and the validator of the repository as an independent reading of the colours. */
module RbHeight {
  import opened RbNodes
  import opened RbShape
  import opened RbColour

  function Pow2(k: nat): nat { if k == 0 then 1 else 2 * Pow2(k - 1) }

  lemma {:induction false} Pow2Grows(a: nat, b: nat)
    requires a <= b
    ensures Pow2(a) <= Pow2(b)
    decreases b
  {
    if a < b { Pow2Grows(a, b - 1); }
  }

  /** An upper bound for the nodes on a downward path from `x`. */
  ghost function Budget(c: Colours, x: Node?): int {
    2 * H(c, x) + if x != null && x in c.paint && c.paint[x] == Red then 1 else 0
  }

  lemma BudgetStep(s: Shape, c: Colours, x: Node)
    requires Tree(s) && Balanced(s, c, null, null, null) && x in s.span
    ensures 0 <= Budget(c, s.link[x].left) + 1 <= Budget(c, x)
    ensures 0 <= Budget(c, s.link[x].right) + 1 <= Budget(c, x)
  {
    hide RootLinked;
    assert Linked(s, x) && Even(s, c, x, null) && Calm(s, c, x, null);
    if s.link[x].left != null { assert Even(s, c, s.link[x].left, null); }
    if s.link[x].right != null { assert Even(s, c, s.link[x].right, null); }
  }

  /** A subtree with `h` black nodes on each path has at least 2^h - 1 nodes. */
  lemma {:induction false} Bushy(s: Shape, c: Colours, x: Node)
    requires Tree(s) && Balanced(s, c, null, null, null) && x in s.span
    ensures 0 <= H(c, x) && Pow2(H(c, x)) <= s.span[x].hi - s.span[x].lo + 1
    decreases s.span[x].hi - s.span[x].lo
  {
    hide Calm, RootLinked;
    assert Linked(s, x) && Even(s, c, x, null);
    var l, r := s.link[x].left, s.link[x].right;
    if l != null { assert Linked(s, l); Bushy(s, c, l); }
    if r != null { assert Linked(s, r); Bushy(s, c, r); }
  }

  /** The root's budget is at most twice the logarithm of the size plus one. */
  lemma RootBudget(s: Shape, c: Colours)
    requires Tree(s) && Balanced(s, c, null, null, null)
    ensures 0 <= H(c, s.link[s.head].left) && Budget(c, s.link[s.head].left) == 2 * H(c, s.link[s.head].left)
    ensures Pow2(H(c, s.link[s.head].left)) <= |s.order| + 1
  {
    hide Even, Calm;
    var r := s.link[s.head].left;
    if r != null { Bushy(s, c, r); }
  }

  /* ---- TreeDebug::validate ---- */

  datatype Validation = Valid | RootIsNotBlack | RedChildIntoRedNode | DifferentBlackNodeCount

  function ValidateFrom(s: Shape, paint: Paint, counter: int, x: Node?, path: int): Validation
    requires Tree(s) && paint.Keys == s.link.Keys && (x == null || x in s.span)
    decreases if x == null then 0 else s.span[x].hi - s.span[x].lo
  {
    if x == null then if counter != path then DifferentBlackNodeCount else Valid
    else
      assert Linked(s, x) && (s.link[x].left != null ==> Linked(s, s.link[x].left)) && (s.link[x].right != null ==> Linked(s, s.link[x].right));
      var l, r := s.link[x].left, s.link[x].right;
      if paint[x] == Black then
        var res := ValidateFrom(s, paint, counter, l, path + 1);
        if res == Valid then ValidateFrom(s, paint, counter, r, path + 1) else res
      else if (l != null && paint[l] == Red) || (r != null && paint[r] == Red) then RedChildIntoRedNode
      else
        var res := ValidateFrom(s, paint, counter, l, path);
        if res == Valid then ValidateFrom(s, paint, counter, r, path) else res
  }

  /** The black nodes on the way down to the left, which the validator counts first. */
  function LeftBlacks(s: Shape, paint: Paint, x: Node?): nat
    requires Tree(s) && paint.Keys == s.link.Keys && (x == null || x in s.span)
    decreases if x == null then 0 else s.span[x].hi - s.span[x].lo
  {
    if x == null then 0
    else
      assert Linked(s, x) && (s.link[x].left != null ==> Linked(s, s.link[x].left));
      LeftBlacks(s, paint, s.link[x].left) + if paint[x] == Black then 1 else 0
  }

  function Validate(s: Shape, paint: Paint): Validation
    requires Tree(s) && paint.Keys == s.link.Keys
  {
    var root := s.link[s.head].left;
    if root != null && paint[root] == Red then RootIsNotBlack
    else ValidateFrom(s, paint, LeftBlacks(s, paint, root), root, 0)
  }

  lemma {:induction false} BalancedValidates(s: Shape, c: Colours, counter: int, x: Node?, path: int)
    requires Tree(s) && Balanced(s, c, null, null, null) && (x == null || x in s.span)
    requires counter == path + H(c, x)
    ensures ValidateFrom(s, c.paint, counter, x, path) == Valid && LeftBlacks(s, c.paint, x) == H(c, x)
    decreases if x == null then 0 else s.span[x].hi - s.span[x].lo
  {
    if x != null {
      hide RootLinked;
      assert Linked(s, x) && Even(s, c, x, null) && Calm(s, c, x, null);
      var l, r := s.link[x].left, s.link[x].right;
      if l != null { assert Linked(s, l); }
      if r != null { assert Linked(s, r); }
      var below := path + if c.paint[x] == Black then 1 else 0;
      BalancedValidates(s, c, counter, l, below);
      BalancedValidates(s, c, counter, r, below);
    }
  }

  /** The labels the validator implies. */
  ghost function Labels(s: Shape, paint: Paint): (c: Colours)
    requires Tree(s) && paint.Keys == s.link.Keys
    ensures c.paint == paint && c.bh.Keys == s.span.Keys
  {
    assert forall x :: x in s.span ==> Linked(s, x);
    Colours(paint, map x | x in s.span :: LeftBlacks(s, paint, s.link[x].left))
  }

  lemma {:induction false} ValidatesBalanced(s: Shape, paint: Paint, counter: int, x: Node?, path: int, y: Node)
    requires Tree(s) && paint.Keys == s.link.Keys && (x == null || x in s.span)
    requires ValidateFrom(s, paint, counter, x, path) == Valid
    ensures counter == path + LeftBlacks(s, paint, x)
    ensures x != null && y in s.span && s.span[x].lo <= s.span[y].pos < s.span[x].hi
      ==> Even(s, Labels(s, paint), y, null) && Calm(s, Labels(s, paint), y, null)
    decreases if x == null then 0 else s.span[x].hi - s.span[x].lo
  {
    if x != null {
      hide RootLinked;
      assert Linked(s, x);
      var l, r := s.link[x].left, s.link[x].right;
      if l != null { assert Linked(s, l); }
      if r != null { assert Linked(s, r); }
      var below := path + if paint[x] == Black then 1 else 0;
      ValidatesBalanced(s, paint, counter, l, below, y);
      ValidatesBalanced(s, paint, counter, r, below, y);
      if y in s.span { assert Linked(s, y); }
    }
  }

  /** The validator accepts exactly the trees whose colours can be labelled evenly. */
  lemma ValidateIffBalanced(s: Shape, paint: Paint)
    requires Tree(s) && paint.Keys == s.link.Keys && paint[s.head] == Black
    ensures Validate(s, paint) == Valid <==> exists bh :: Balanced(s, Colours(paint, bh), null, null, null)
  {
    var root := s.link[s.head].left;
    if Validate(s, paint) == Valid {
      var c := Labels(s, paint);
      forall y | y in s.span ensures Even(s, c, y, null) && Calm(s, c, y, null) {
        assert Linked(s, y);
        ValidatesBalanced(s, paint, LeftBlacks(s, paint, root), root, 0, y);
      }
      assert Balanced(s, Colours(paint, c.bh), null, null, null);
    }
    if bh :| Balanced(s, Colours(paint, bh), null, null, null) {
      BalancedValidates(s, Colours(paint, bh), H(Colours(paint, bh), root), root, 0);
    }
  }
}

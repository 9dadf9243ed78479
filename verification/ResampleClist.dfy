/** `make_clist`: the contributor lists of one axis. */
module ResampleClist {
  import opened ResampleSum

  datatype BoundaryOp = Wrap | Reflect | Clamp

  /** `posmod`, with the `%` of the source, whose operands are never negative there: the remainder below a multiple of `y`. */
  function PosMod(x: int, y: int): (r: int)
    requires y > 0
    ensures 0 <= r < y && Multiple(x - r, y)
  {
    if x >= 0 then
      assert x - x % y == (x / y) * y;
      x % y
    else
      var m := (-x) % y;
      assert x + m == -((-x) / y) * y;
      if m != 0 then
        assert x - (y - m) == (-((-x) / y) - 1) * y;
        y - m
      else m
  }

  ghost predicate Multiple(x: int, y: int) { exists q {:trigger q * y} :: x == q * y }

  /** `Resampler::reflect` */
  function Mirror(j: int, n: int, op: BoundaryOp): (r: int)
    requires n > 0
    ensures 0 <= r < n
  {
    if j < 0 then
      if op == Reflect then
        if -j >= n then n - 1 else -j
      else if op == Wrap then PosMod(j, n)
      else 0
    else if j >= n then
      if op == Reflect then
        var m := (n - j) + (n - 1);
        if m < 0 then 0 else m
      else if op == Wrap then PosMod(j, n)
      else n - 1
    else j
  }

  /** Indices inside the source are kept; outside, wrapping moves by whole source widths and clamping takes the nearest sample. */
  lemma MirrorMeans(j: int, n: int)
    requires n > 0
    ensures Multiple(j - Mirror(j, n, Wrap), n)
    ensures forall k :: 0 <= k < n ==> Distance(Mirror(j, n, Clamp), j) <= Distance(k, j)
    ensures 0 <= j < n ==> Mirror(j, n, Reflect) == j && Mirror(j, n, Wrap) == j
    ensures 0 <= j < n ==> Mirror(-j, n, Reflect) == j && Mirror(2 * n - 1 - j, n, Reflect) == j
    ensures (j <= -n ==> Mirror(j, n, Reflect) == n - 1) && (j >= 2 * n ==> Mirror(j, n, Reflect) == 0)
  {
    if 0 <= j < n { assert j - Mirror(j, n, Wrap) == 0 * n; }
  }

  function Distance(x: int, y: int): int { if x < y then y - x else x - y }

  const LOWEST: real := -100000000000000000000.0

  /** The contributors `[left, right)` with a weight, before the correction. */
  function Raw(left: int, right: int, n: int, op: BoundaryOp, w: int -> real): (cl: Clist)
    requires n > 0
    ensures forall k :: 0 <= k < |cl| ==> cl[k].pixel < n && cl[k].weight != 0.0
    decreases right - left
  {
    if left >= right then []
    else
      var rest := Raw(left, right - 1, n, op, w);
      if w(right - 1) == 0.0 then rest else rest + [Contrib(Mirror(right - 1, n, op), w(right - 1))]
  }

  /** The list goes over the positions from left to right; one without weight is left out, and the others keep their weights. */
  lemma {:induction false} RawJoins(left: int, mid: int, right: int, n: int, op: BoundaryOp, w: int -> real)
    requires n > 0 && left <= mid <= right
    ensures Raw(left, right, n, op, w) == Raw(left, mid, n, op, w) + Raw(mid, right, n, op, w)
    ensures right <= left ==> Raw(left, right, n, op, w) == []
    ensures right == left + 1 ==>
      Raw(left, right, n, op, w) == if w(left) == 0.0 then [] else [Contrib(Mirror(left, n, op), w(left))]
    decreases right - mid
  {
    hide Mirror;
    if mid < right {
      RawJoins(left, mid, right - 1, n, op, w);
    }
    if right == left + 1 {
      assert Raw(left, left, n, op, w) == [];
    }
  }

  /** The first heaviest contributor, if one weighs more than the start value of the search. */
  ghost predicate Heaviest(cl: Clist, k: int)
  {
    if k == -1 then forall m :: 0 <= m < |cl| ==> cl[m].weight <= LOWEST
    else
      && 0 <= k < |cl| && cl[k].weight > LOWEST
      && (forall m :: 0 <= m < |cl| ==> cl[m].weight <= cl[k].weight)
      && (forall m :: 0 <= m < k ==> cl[m].weight < cl[k].weight)
  }

  lemma {:induction false} WeightSumPrefix(a: Clist, b: Clist, n: nat)
    requires n <= |a| && n <= |b| && forall k :: 0 <= k < n ==> a[k].weight == b[k].weight
    ensures WeightSum(a, n) == WeightSum(b, n)
  {
    if n > 0 { WeightSumPrefix(a, b, n - 1); }
  }

  lemma {:induction false} WeightSumChanged(a: Clist, i: nat, c: Contrib, n: nat)
    requires i < n <= |a|
    ensures WeightSum(a[i := c], n) == WeightSum(a, n) - a[i].weight + c.weight
  {
    if i == n - 1 {
      WeightSumPrefix(a, a[i := c], n - 1);
    } else {
      WeightSumChanged(a, i, c, n - 1);
    }
  }

  lemma Nothing()
    ensures WeightSum([], 0) == 0.0 && Heaviest([], -1)
  {
  }

  lemma HeaviestIn(cl: Clist, k: int)
    requires Heaviest(cl, k)
    ensures if Heaviest(cl, -1) then k == -1 else 0 <= k < |cl|
  {
  }

  lemma HeaviestPush(cl: Clist, k: int, c: Contrib)
    requires Heaviest(cl, k)
    ensures k == -1 || 0 <= k < |cl|
    ensures Heaviest(cl + [c], if c.weight > (if k == -1 then LOWEST else cl[k].weight) then |cl| else k)
    ensures WeightSum(cl + [c], |cl| + 1) == WeightSum(cl, |cl|) + c.weight
  {
    WeightSumPrefix(cl, cl + [c], |cl|);
  }

  /**
   * The list of one destination sample. `w(j)` is the weight the source computes for source position `j`;
   * it may be any number, so that whatever rounding did to it, the heaviest contributor makes the sum one.
   */
  method MakeList(left: int, right: int, n: int, op: BoundaryOp, w: int -> real) returns (r: Option<Clist>, ghost k: int)
    requires n > 0
    ensures r.None? <==> Heaviest(Raw(left, right + 1, n, op, w), -1)
    ensures r.Some? ==> Proper(r.value, n) && WeightSum(r.value, |r.value|) == 1.0
    ensures r.Some? ==> Heaviest(Raw(left, right + 1, n, op, w), k) && Corrected(Raw(left, right + 1, n, op, w), r.value, k)
  {
    hide Heaviest, WeightSum, Mirror;
    assert WeightSum([], 0) == 0.0 && Heaviest([], -1) by { Nothing(); }
    var cl: Clist, total, maxK, maxW := [], 0.0, -1, LOWEST;
    var j := left;
    while j <= right
      invariant left <= j && (j <= right + 1 || j == left)
      invariant cl == Raw(left, j, n, op, w) && total == WeightSum(cl, |cl|)
      invariant Heaviest(cl, maxK) && (maxK == -1 || 0 <= maxK < |cl|) && maxW == if maxK == -1 then LOWEST else cl[maxK].weight
    {
      var weight := w(j);
      if weight != 0.0 {
        HeaviestPush(cl, maxK, Contrib(Mirror(j, n, op), weight));
        cl := cl + [Contrib(Mirror(j, n, op), weight)];
        total := total + weight;
        if weight > maxW { maxW, maxK := weight, |cl| - 1; }
      }
      j := j + 1;
    }
    RawEmpty(left, j, right + 1, n, op, w);
    HeaviestIn(cl, maxK);
    if maxK == -1 || cl == [] { return None, -1; }
    ghost var raw := cl;
    if total != 1.0 {
      WeightSumChanged(cl, maxK, cl[maxK].(weight := cl[maxK].weight + (1.0 - total)), |cl|);
      cl := cl[maxK := cl[maxK].(weight := cl[maxK].weight + (1.0 - total))];
    }
    assert Corrected(raw, cl, maxK);
    return Some(cl), maxK;
  }

  lemma RawEmpty(left: int, j: int, end: int, n: int, op: BoundaryOp, w: int -> real)
    requires n > 0 && (j == end || (j == left && end <= left))
    ensures Raw(left, j, n, op, w) == Raw(left, end, n, op, w)
  {
  }

  /** Only the weight of contributor `k` may differ, and it makes the sum one. */
  ghost predicate Corrected(raw: Clist, cl: Clist, k: int)
  {
    0 <= k < |raw| == |cl| && cl == raw[k := raw[k].(weight := raw[k].weight + 1.0 - WeightSum(raw, |raw|))]
  }

  ghost predicate Normal(cls: seq<Clist>, n: nat)
  {
    forall i :: 0 <= i < |cls| ==> Proper(cls[i], n) && WeightSum(cls[i], |cls[i]|) == 1.0
  }

  /** `make_clist`: one list for each destination sample, or none at all. */
  method MakeClist(n: int, op: BoundaryOp, bounds: seq<(int, int)>, w: (int, int) -> real) returns (r: Option<seq<Clist>>)
    requires n > 0
    ensures r.Some? ==> |r.value| == |bounds| && Normal(r.value, n)
    ensures r.Some? ==> forall i :: 0 <= i < |bounds| ==> ListFor(r.value[i], bounds[i], i, n, op, w)
    ensures r.None? <==> exists i :: 0 <= i < |bounds| && Weightless(bounds[i], i, n, op, w)
  {
    var cls := [];
    for i := 0 to |bounds|
      invariant |cls| == i && Normal(cls, n)
      invariant forall k :: 0 <= k < i ==> !Weightless(bounds[k], k, n, op, w) && ListFor(cls[k], bounds[k], k, n, op, w)
    {
      var one, k := MakeList(bounds[i].0, bounds[i].1, n, op, j => w(i, j));
      if one.None? {
        assert Weightless(bounds[i], i, n, op, w);
        return None;
      }
      assert CorrectedAt(bounds[i], i, n, op, w, one.value, k);
      cls := cls + [one.value];
    }
    return Some(cls);
  }

  /** The list of destination sample `i`, whose first heaviest contributor `k` makes the sum one. */
  ghost predicate CorrectedAt(b: (int, int), i: int, n: int, op: BoundaryOp, w: (int, int) -> real, cl: Clist, k: int)
    requires n > 0
  {
    var raw := Raw(b.0, b.1 + 1, n, op, j => w(i, j));
    Heaviest(raw, k) && Corrected(raw, cl, k)
  }

  ghost predicate ListFor(cl: Clist, b: (int, int), i: int, n: int, op: BoundaryOp, w: (int, int) -> real)
    requires n > 0
  {
    exists k :: CorrectedAt(b, i, n, op, w, cl, k)
  }

  /** No source position within the bounds has a weight that the search for the heaviest accepts. */
  ghost predicate Weightless(b: (int, int), i: int, n: int, op: BoundaryOp, w: (int, int) -> real)
    requires n > 0
  {
    Heaviest(Raw(b.0, b.1 + 1, n, op, j => w(i, j)), -1)
  }
}

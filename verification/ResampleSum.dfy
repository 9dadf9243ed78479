/** Contributor lists and the double sum a separable resampler computes. */
module ResampleSum {
  datatype Contrib = Contrib(pixel: nat, weight: real)

  /** A `Contrib_List`: the source samples of one destination sample, in the order they are added up. */
  type Clist = seq<Contrib>

  type Line = seq<real>

  datatype Option<T> = None | Some(value: T)

  /** What `make_clist` promises about every list: it is not empty and names only samples of the source. */
  ghost predicate Proper(cl: Clist, n: nat) { cl != [] && forall k :: 0 <= k < |cl| ==> cl[k].pixel < n }

  ghost predicate AllProper(cls: seq<Clist>, n: nat) { forall i :: 0 <= i < |cls| ==> Proper(cls[i], n) }

  function WeightSum(cl: Clist, n: nat): real
    requires n <= |cl|
  {
    if n == 0 then 0.0 else WeightSum(cl, n - 1) + cl[n - 1].weight
  }

  /** The first `n` contributions to one sample of a row. */
  function Dot(row: Line, cl: Clist, n: nat): real
    requires n <= |cl| && forall k :: 0 <= k < |cl| ==> cl[k].pixel < |row|
  {
    if n == 0 then 0.0 else Dot(row, cl, n - 1) + row[cl[n - 1].pixel] * cl[n - 1].weight
  }

  function ResampledRow(row: Line, clx: seq<Clist>): (r: Line)
    requires AllProper(clx, |row|)
    ensures |r| == |clx|
  {
    seq(|clx|, i requires 0 <= i < |clx| => assert Proper(clx[i], |row|); Dot(row, clx[i], |clx[i]|))
  }

  /** `n` samples of a row, each weighted along X and then by the weight `wy` of the row. */
  function Inner(row: Line, cx: Clist, wy: real, n: nat): real
    requires n <= |cx| && Proper(cx, |row|)
  {
    if n == 0 then 0.0 else Inner(row, cx, wy, n - 1) + row[cx[n - 1].pixel] * cx[n - 1].weight * wy
  }

  ghost predicate Rows(img: seq<Line>, cy: Clist, width: nat)
  {
    forall k :: 0 <= k < |cy| ==> cy[k].pixel < |img| && |img[cy[k].pixel]| == width
  }

  /** The reference: the direct double sum over the first `m` rows and all their samples. */
  function DoubleSum(img: seq<Line>, cy: Clist, cx: Clist, width: nat, m: nat): real
    requires m <= |cy| && Rows(img, cy, width) && Proper(cx, width)
  {
    if m == 0 then 0.0
    else DoubleSum(img, cy, cx, width, m - 1) + Inner(img[cy[m - 1].pixel], cx, cy[m - 1].weight, |cx|)
  }

  /* ---- X first ---- */

  lemma {:induction false} InnerIsDot(row: Line, cx: Clist, wy: real, n: nat)
    requires n <= |cx| && Proper(cx, |row|)
    ensures Inner(row, cx, wy, n) == Dot(row, cx, n) * wy
  {
    if n > 0 {
      InnerIsDot(row, cx, wy, n - 1);
      assert (Dot(row, cx, n - 1) + row[cx[n - 1].pixel] * cx[n - 1].weight) * wy
          == Dot(row, cx, n - 1) * wy + row[cx[n - 1].pixel] * cx[n - 1].weight * wy;
    }
  }

  /** What `resample_y` has added up after `m` contributors, from lines that were resampled along X before. */
  function XFirst(img: seq<Line>, cy: Clist, cx: Clist, width: nat, m: nat): real
    requires m <= |cy| && Rows(img, cy, width) && Proper(cx, width)
  {
    if m == 0 then 0.0
    else XFirst(img, cy, cx, width, m - 1) + Dot(img[cy[m - 1].pixel], cx, |cx|) * cy[m - 1].weight
  }

  lemma {:induction false} XFirstIsDirect(img: seq<Line>, cy: Clist, cx: Clist, width: nat, m: nat)
    requires m <= |cy| && Rows(img, cy, width) && Proper(cx, width)
    ensures XFirst(img, cy, cx, width, m) == DoubleSum(img, cy, cx, width, m)
  {
    if m > 0 {
      XFirstIsDirect(img, cy, cx, width, m - 1);
      InnerIsDot(img[cy[m - 1].pixel], cx, cy[m - 1].weight, |cx|);
    }
  }

  /* ---- Y first ---- */

  /** Sample `p` of the line that `resample_y` mixes from the first `m` contributors when X comes later. */
  function Column(img: seq<Line>, cy: Clist, width: nat, p: nat, m: nat): real
    requires m <= |cy| && Rows(img, cy, width) && p < width
  {
    if m == 0 then 0.0 else Column(img, cy, width, p, m - 1) + img[cy[m - 1].pixel][p] * cy[m - 1].weight
  }

  function MixedRow(img: seq<Line>, cy: Clist, width: nat, m: nat): (r: Line)
    requires m <= |cy| && Rows(img, cy, width)
    ensures |r| == width
  {
    seq(width, p requires 0 <= p < width => Column(img, cy, width, p, m))
  }

  /** A row plus a weighted row is resampled to the sum of both. */
  lemma {:induction false} DotLinear(a: Line, b: Line, c: Line, wy: real, cx: Clist, n: nat)
    requires |a| == |b| == |c| && n <= |cx| && Proper(cx, |a|)
    requires forall p :: 0 <= p < |a| ==> c[p] == a[p] + b[p] * wy
    ensures Dot(c, cx, n) == Dot(a, cx, n) + Inner(b, cx, wy, n)
  {
    if n > 0 {
      DotLinear(a, b, c, wy, cx, n - 1);
      var p, w := cx[n - 1].pixel, cx[n - 1].weight;
      assert c[p] == a[p] + b[p] * wy;
      assert (a[p] + b[p] * wy) * w == a[p] * w + b[p] * w * wy;
    }
  }

  lemma {:induction false} DotZero(a: Line, cx: Clist, n: nat)
    requires n <= |cx| && Proper(cx, |a|) && forall p :: 0 <= p < |a| ==> a[p] == 0.0
    ensures Dot(a, cx, n) == 0.0
  {
    if n > 0 { DotZero(a, cx, n - 1); }
  }

  lemma {:induction false} YFirstIsDirect(img: seq<Line>, cy: Clist, cx: Clist, width: nat, m: nat)
    requires m <= |cy| && Rows(img, cy, width) && Proper(cx, width)
    ensures Dot(MixedRow(img, cy, width, m), cx, |cx|) == DoubleSum(img, cy, cx, width, m)
  {
    if m == 0 {
      DotZero(MixedRow(img, cy, width, 0), cx, |cx|);
    } else {
      YFirstIsDirect(img, cy, cx, width, m - 1);
      DotLinear(MixedRow(img, cy, width, m - 1), img[cy[m - 1].pixel], MixedRow(img, cy, width, m), cy[m - 1].weight, cx, |cx|);
    }
  }

  /* ---- a constant image stays constant ---- */

  lemma {:induction false} InnerConstant(row: Line, cx: Clist, wy: real, n: nat, v: real)
    requires n <= |cx| && Proper(cx, |row|) && forall p :: 0 <= p < |row| ==> row[p] == v
    ensures Inner(row, cx, wy, n) == v * WeightSum(cx, n) * wy
  {
    if n > 0 {
      InnerConstant(row, cx, wy, n - 1, v);
      assert v * (WeightSum(cx, n - 1) + cx[n - 1].weight) * wy == v * WeightSum(cx, n - 1) * wy + v * cx[n - 1].weight * wy;
    }
  }

  /** Weights that sum to one on both axes keep the value of a constant image. */
  lemma {:induction false} ConstantKept(img: seq<Line>, cy: Clist, cx: Clist, width: nat, m: nat, v: real)
    requires m <= |cy| && Rows(img, cy, width) && Proper(cx, width) && WeightSum(cx, |cx|) == 1.0
    requires forall y, p :: 0 <= y < |img| && 0 <= p < |img[y]| ==> img[y][p] == v
    ensures DoubleSum(img, cy, cx, width, m) == v * WeightSum(cy, m)
  {
    if m > 0 {
      ConstantKept(img, cy, cx, width, m - 1, v);
      InnerConstant(img[cy[m - 1].pixel], cx, cy[m - 1].weight, |cx|, v);
      assert v * (WeightSum(cy, m - 1) + cy[m - 1].weight) == v * WeightSum(cy, m - 1) + v * cy[m - 1].weight;
    }
  }

  /** Lines that come later do not change a sum. */
  lemma {:induction false} DoubleSumStable(img: seq<Line>, more: seq<Line>, cy: Clist, cx: Clist, width: nat, m: nat)
    requires m <= |cy| && Rows(img, cy, width) && Rows(more, cy, width) && Proper(cx, width) && img <= more
    ensures DoubleSum(img, cy, cx, width, m) == DoubleSum(more, cy, cx, width, m)
  {
    if m > 0 { DoubleSumStable(img, more, cy, cx, width, m - 1); }
  }
}

/** The bookkeeping of the resampler: how often a source line is still needed. */
module ResampleCount {
  import opened ResampleSum

  /** Contributors from `i` on that use source line `y`. */
  function CountFrom(cl: Clist, i: nat, y: int): nat
    requires i <= |cl|
    decreases |cl| - i
  {
    if i == |cl| then 0 else (if cl[i].pixel == y then 1 else 0) + CountFrom(cl, i + 1, y)
  }

  /** Contributions of source line `y` to the destination lines from `d` on. */
  function Uses(cly: seq<Clist>, d: nat, y: int): nat
    requires d <= |cly|
    decreases |cly| - d
  {
    if d == |cly| then 0 else CountFrom(cly[d], 0, y) + Uses(cly, d + 1, y)
  }

  /** The same when the first `i` contributors of line `d` are done. */
  function Pending(cly: seq<Clist>, d: nat, i: nat, y: int): nat
    requires d <= |cly| && i <= (if d < |cly| then |cly[d]| else 0)
  {
    if d == |cly| then 0 else CountFrom(cly[d], i, y) + Uses(cly, d + 1, y)
  }

  lemma PendingLine(cly: seq<Clist>, d: nat, y: int)
    requires d <= |cly|
    ensures Pending(cly, d, 0, y) == Uses(cly, d, y)
    ensures d < |cly| ==> Pending(cly, d, |cly[d]|, y) == Pending(cly, d + 1, 0, y)
  {
  }

  lemma PendingEnd(cly: seq<Clist>, y: int)
    ensures Pending(cly, |cly|, 0, y) == 0
  {
  }

  lemma PendingStep(cly: seq<Clist>, d: nat, i: nat, y: int)
    requires d < |cly| && i < |cly[d]|
    ensures Pending(cly, d, i, y) == Pending(cly, d, i + 1, y) + if cly[d][i].pixel == y then 1 else 0
  {
  }

  /** A contributor that is still to come keeps its line in use. */
  lemma {:induction false} CountPositive(cl: Clist, i: nat, k: nat)
    requires i <= k < |cl|
    ensures CountFrom(cl, i, cl[k].pixel) > 0
    decreases k - i
  {
    if i < k { CountPositive(cl, i + 1, k); }
  }

  ghost predicate Injective(f: seq<int>, m: nat)
  {
    (forall j :: 0 <= j < |f| ==> 0 <= f[j] < m) && forall j, k :: 0 <= j < k < |f| ==> f[j] != f[k]
  }

  /** Pairwise different slots cannot outnumber the lines they hold. */
  lemma {:induction false} Pigeonhole(f: seq<int>, m: nat)
    requires Injective(f, m)
    ensures |f| <= m
    decreases m
  {
    if f != [] {
      assert 0 <= f[0] < m;
      if j :| 0 <= j < |f| && f[j] == m - 1 {
        Pigeonhole(f[..j] + f[j + 1..], m - 1);
      } else {
        Pigeonhole(f, m - 1);
      }
    }
  }

  /** The lines as a slot keeps them: as they came, or already resampled along X. */
  function Stored(img: seq<Line>, clx: seq<Clist>, srcX: nat, delayX: bool): (r: seq<Line>)
    requires AllProper(clx, srcX) && forall y :: 0 <= y < |img| ==> |img[y]| == srcX
    ensures |r| == |img| && forall y :: 0 <= y < |r| ==> |r[y]| == if delayX then srcX else |clx|
  {
    if delayX then img else seq(|img|, y requires 0 <= y < |img| => ResampledRow(img[y], clx))
  }

  function ClampSample(f: real, lo: real, hi: real): real { if f < lo then lo else if f > hi then hi else f }

  function Clamped(f: real, lo: real, hi: real): real { if lo < hi then ClampSample(f, lo, hi) else f }

  ghost predicate Image(img: seq<Line>, srcX: nat) { forall y :: 0 <= y < |img| ==> |img[y]| == srcX }

  ghost predicate Present(img: seq<Line>, cl: Clist) { forall k :: 0 <= k < |cl| ==> cl[k].pixel < |img| }

  /** What destination line must come out: every sample is the clamped direct double sum. */
  ghost predicate Emitted(out: Line, img: seq<Line>, cl: Clist, clx: seq<Clist>, srcX: nat, lo: real, hi: real)
    requires AllProper(clx, srcX) && Image(img, srcX) && Present(img, cl)
  {
    && |out| == |clx|
    && forall p :: 0 <= p < |out| ==> Proper(clx[p], srcX) && out[p] == Clamped(DoubleSum(img, cl, clx[p], srcX, |cl|), lo, hi)
  }

  /** One sample of the mixed line, when X was resampled first. */
  lemma {:induction false} ColumnIsXFirst(img: seq<Line>, cl: Clist, clx: seq<Clist>, srcX: nat, p: nat, m: nat)
    requires AllProper(clx, srcX) && Image(img, srcX) && Present(img, cl) && p < |clx| && m <= |cl|
    ensures Proper(clx[p], srcX)
    ensures Column(Stored(img, clx, srcX, false), cl, |clx|, p, m) == XFirst(img, cl, clx[p], srcX, m)
  {
    if m > 0 { ColumnIsXFirst(img, cl, clx, srcX, p, m - 1); }
  }

  /** The mixed line of the X-first order is the double sum. */
  lemma XFirstLine(img: seq<Line>, cl: Clist, clx: seq<Clist>, srcX: nat, p: nat)
    requires AllProper(clx, srcX) && Image(img, srcX) && Present(img, cl) && p < |clx|
    ensures Proper(clx[p], srcX) && MixedRow(Stored(img, clx, srcX, false), cl, |clx|, |cl|)[p] == DoubleSum(img, cl, clx[p], srcX, |cl|)
  {
    ColumnIsXFirst(img, cl, clx, srcX, p, |cl|);
    XFirstIsDirect(img, cl, clx[p], srcX, |cl|);
  }

  /** The mixed line of the Y-first order, resampled along X, is the same double sum. */
  lemma YFirstLine(img: seq<Line>, cl: Clist, clx: seq<Clist>, srcX: nat, p: nat)
    requires AllProper(clx, srcX) && Image(img, srcX) && Present(img, cl) && p < |clx|
    ensures Proper(clx[p], srcX)
    ensures ResampledRow(MixedRow(Stored(img, clx, srcX, true), cl, srcX, |cl|), clx)[p] == DoubleSum(img, cl, clx[p], srcX, |cl|)
  {
    YFirstIsDirect(img, cl, clx[p], srcX, |cl|);
  }

  /** Both orders emit the same line. */
  lemma OrdersAgree(img: seq<Line>, cl: Clist, clx: seq<Clist>, srcX: nat)
    requires AllProper(clx, srcX) && Image(img, srcX) && Present(img, cl)
    ensures MixedRow(Stored(img, clx, srcX, false), cl, |clx|, |cl|) == ResampledRow(MixedRow(Stored(img, clx, srcX, true), cl, srcX, |cl|), clx)
  {
    var a, b := MixedRow(Stored(img, clx, srcX, false), cl, |clx|, |cl|), ResampledRow(MixedRow(Stored(img, clx, srcX, true), cl, srcX, |cl|), clx);
    forall p | 0 <= p < |clx| ensures a[p] == b[p] {
      XFirstLine(img, cl, clx, srcX, p);
      YFirstLine(img, cl, clx, srcX, p);
    }
  }
}

/** What resampling does to bytes, in terms of nothing but the bytes and the contributor lists. */
module ResampleBytes {
  import opened ResampleSum
  import opened ResampleCount
  import opened ResampleClist
  import opened Resampling
  import opened ResampleDriver
  import opened Arithmetic

  function Total(q: seq<real>): real { if q == [] then 0.0 else Total(q[..|q| - 1]) + q[|q| - 1] }

  /** The sum of a list, which these three laws fix. */
  lemma {:induction false} TotalMeans(a: seq<real>, b: seq<real>, x: real)
    ensures Total([]) == 0.0 && Total([x]) == x && Total(a + b) == Total(a) + Total(b)
    decreases |b|
  {
    if b == [] {
      assert a + b == a;
    } else {
      TotalMeans(a, b[..|b| - 1], x);
      assert (a + b)[..|a + b| - 1] == a + b[..|b| - 1];
    }
  }

  lemma TotalLast(q: seq<real>)
    ensures Total(q) == if q == [] then 0.0 else Total(q[..|q| - 1]) + q[|q| - 1]
  {}

  /** A sample, and the weights of its column and its line. */
  function Product(sample: real, wx: real, wy: real): real { sample * wx * wy }

  lemma {:induction false} InnerIsTotal(row: Line, cx: Clist, wy: real, n: nat, terms: seq<real>)
    requires n <= |cx| == |terms| && Proper(cx, |row|)
    requires forall i :: 0 <= i < |cx| ==> terms[i] == Product(row[cx[i].pixel], cx[i].weight, wy)
    ensures Inner(row, cx, wy, n) == Total(terms[..n])
  {
    if n > 0 {
      InnerIsTotal(row, cx, wy, n - 1, terms);
      assert terms[..n][..n - 1] == terms[..n - 1];
    }
  }

  lemma {:induction false} DoubleSumIsTotal(img: seq<Line>, cy: Clist, cx: Clist, width: nat, m: nat, terms: seq<seq<real>>, sums: seq<real>)
    requires m <= |cy| == |terms| == |sums| && Rows(img, cy, width) && Proper(cx, width)
    requires forall j :: 0 <= j < |terms| ==> |terms[j]| == |cx| && sums[j] == Total(terms[j])
    requires forall j, i :: 0 <= j < |terms| && 0 <= i < |terms[j]| ==>
      terms[j][i] == Product(img[cy[j].pixel][cx[i].pixel], cx[i].weight, cy[j].weight)
    ensures DoubleSum(img, cy, cx, width, m) == Total(sums[..m])
  {
    hide Product, Inner, Total;
    TotalLast(sums[..m]);
    if m > 0 {
      DoubleSumIsTotal(img, cy, cx, width, m - 1, terms, sums);
      InnerIsTotal(img[cy[m - 1].pixel], cx, cy[m - 1].weight, |cx|, terms[m - 1]);
      assert terms[m - 1][..|cx|] == terms[m - 1] && sums[..m][..m - 1] == sums[..m - 1];
    }
  }

  /**
   * Every byte of the target is the rounded and clamped sum, over the contributors of its line and of its column, of the
   * source bytes of the same component, each times both weights. `terms` are these products, `sums` their sums by lines.
   */
  lemma ResampledByte(k: Job, src: seq<int>, srcPitch: nat, dst: seq<int>, dstPitch: nat, y: nat, x: nat, c: nat,
      terms: seq<seq<real>>, sums: seq<real>)
    requires Sensible(k) && k.width * k.bpp <= srcPitch && k.height * srcPitch <= |src| && Resampled(dst, k, src, srcPitch, dstPitch)
    requires y < k.targetHeight && x < k.targetWidth && c < k.bpp && |terms| == |sums| == |k.cly[y]|
    requires forall j :: 0 <= j < |terms| ==> |terms[j]| == |k.clx[x]| && sums[j] == Total(terms[j])
    requires forall j, i :: 0 <= j < |terms| && 0 <= i < |terms[j]| ==>
      var p := k.cly[y][j].pixel * srcPitch + k.clx[x][i].pixel * k.bpp + c;
      0 <= p < |src| ==> terms[j][i] == src[p] as real / 255.0 * k.clx[x][i].weight * k.cly[y][j].weight
    ensures 0 <= y * dstPitch + x * k.bpp + c < |dst|
    ensures var v := Total(sums);
      dst[y * dstPitch + x * k.bpp + c] == if v < 0.0 then 0 else if v > 1.0 then 255 else (255.0 * v + 0.5).Floor
  {
    hide DoubleSum, Total, Plane, Resampled, Rows, AllProper, Product;
    RowsOf(k, src, srcPitch, y, x, c);
    ByteIs(k, src, srcPitch, dst, dstPitch, y, x, c);
    TermsAre(k, src, srcPitch, y, x, c, terms);
    SumIs(Plane(k, src, srcPitch, c), k.cly[y], k.clx[x], k.width, terms, sums);
  }

  lemma TermsAre(k: Job, src: seq<int>, srcPitch: nat, y: nat, x: nat, c: nat, terms: seq<seq<real>>)
    requires Sensible(k) && k.width * k.bpp <= srcPitch && k.height * srcPitch <= |src|
    requires y < k.targetHeight && x < k.targetWidth && c < k.bpp && |terms| == |k.cly[y]|
    requires Proper(k.cly[y], k.height) && Proper(k.clx[x], k.width)
    requires forall j :: 0 <= j < |terms| ==> |terms[j]| == |k.clx[x]|
    requires forall j, i :: 0 <= j < |terms| && 0 <= i < |terms[j]| ==>
      var p := k.cly[y][j].pixel * srcPitch + k.clx[x][i].pixel * k.bpp + c;
      0 <= p < |src| ==> terms[j][i] == src[p] as real / 255.0 * k.clx[x][i].weight * k.cly[y][j].weight
    ensures var img, cy, cx := Plane(k, src, srcPitch, c), k.cly[y], k.clx[x];
      forall j, i :: 0 <= j < |terms| && 0 <= i < |terms[j]| ==>
        terms[j][i] == Product(img[cy[j].pixel][cx[i].pixel], cx[i].weight, cy[j].weight)
  {
    hide Plane;
    forall j, i | 0 <= j < |terms| && 0 <= i < |terms[j]|
      ensures terms[j][i] == Product(Plane(k, src, srcPitch, c)[k.cly[y][j].pixel][k.clx[x][i].pixel], k.clx[x][i].weight, k.cly[y][j].weight)
    {
      SampleIs(k, src, srcPitch, c, k.cly[y][j].pixel, k.clx[x][i].pixel);
    }
  }

  lemma SumIs(img: seq<Line>, cy: Clist, cx: Clist, width: nat, terms: seq<seq<real>>, sums: seq<real>)
    requires |cy| == |terms| == |sums| && Rows(img, cy, width) && Proper(cx, width)
    requires forall j :: 0 <= j < |terms| ==> |terms[j]| == |cx| && sums[j] == Total(terms[j])
    requires forall j, i :: 0 <= j < |terms| && 0 <= i < |terms[j]| ==>
      terms[j][i] == Product(img[cy[j].pixel][cx[i].pixel], cx[i].weight, cy[j].weight)
    ensures DoubleSum(img, cy, cx, width, |cy|) == Total(sums)
  {
    hide DoubleSum, Total, Product;
    DoubleSumIsTotal(img, cy, cx, width, |cy|, terms, sums);
    assert sums[..|cy|] == sums;
  }

  lemma RowsOf(k: Job, src: seq<int>, srcPitch: nat, y: nat, x: nat, c: nat)
    requires Sensible(k) && k.width * k.bpp <= srcPitch && k.height * srcPitch <= |src|
    requires y < k.targetHeight && x < k.targetWidth && c < k.bpp
    ensures |k.cly| == k.targetHeight && |k.clx| == k.targetWidth && Proper(k.cly[y], k.height) && Proper(k.clx[x], k.width)
    ensures Rows(Plane(k, src, srcPitch, c), k.cly[y], k.width)
  {
    hide Plane;
    assert Proper(k.cly[y], k.height) && Proper(k.clx[x], k.width);
  }

  /** The byte of a target sample. */
  lemma ByteIs(k: Job, src: seq<int>, srcPitch: nat, dst: seq<int>, dstPitch: nat, y: nat, x: nat, c: nat)
    requires Sensible(k) && k.width * k.bpp <= srcPitch && k.height * srcPitch <= |src| && Resampled(dst, k, src, srcPitch, dstPitch)
    requires y < k.targetHeight && x < k.targetWidth && c < k.bpp
    ensures Proper(k.cly[y], k.height) && Proper(k.clx[x], k.width) && 0 <= y * dstPitch + x * k.bpp + c < |dst|
    ensures var v := DoubleSum(Plane(k, src, srcPitch, c), k.cly[y], k.clx[x], k.width, |k.cly[y]|);
      dst[y * dstPitch + x * k.bpp + c] == if v < 0.0 then 0 else if v > 1.0 then 255 else (255.0 * v + 0.5).Floor
  {
    hide DoubleSum, Plane;
    var img := Plane(k, src, srcPitch, c);
    assert RowIs(dst, k, img, dstPitch, y, c);
    assert dst[At(dstPitch, k.bpp, y, x, c)] == Target(k, img, y, x);
  }

  /** The source byte of a sample. */
  lemma SampleIs(k: Job, src: seq<int>, srcPitch: nat, c: nat, q: nat, p: nat)
    requires k.width * k.bpp <= srcPitch && k.height * srcPitch <= |src| && c < k.bpp && q < k.height && p < k.width
    ensures 0 <= q * srcPitch + p * k.bpp + c < |src|
    ensures Plane(k, src, srcPitch, c)[q][p] == src[q * srcPitch + p * k.bpp + c] as real / 255.0
  {
    AtBounds(srcPitch, k.bpp, k.height, k.width, q, p, c);
  }

  /** One contributor of weight one on each axis: the target byte is the source byte there, of the same component. */
  lemma PickedByte(k: Job, src: seq<int>, srcPitch: nat, dst: seq<int>, dstPitch: nat, y: nat, x: nat, c: nat, q: nat, p: nat)
    requires Sensible(k) && k.width * k.bpp <= srcPitch && k.height * srcPitch <= |src| && Resampled(dst, k, src, srcPitch, dstPitch)
    requires y < k.targetHeight && x < k.targetWidth && c < k.bpp && forall i :: 0 <= i < |src| ==> 0 <= src[i] <= 255
    requires k.cly[y] == [Contrib(q, 1.0)] && k.clx[x] == [Contrib(p, 1.0)]
    ensures 0 <= y * dstPitch + x * k.bpp + c < |dst| && 0 <= q * srcPitch + p * k.bpp + c < |src|
    ensures dst[y * dstPitch + x * k.bpp + c] == src[q * srcPitch + p * k.bpp + c]
  {
    hide Resampled, Total;
    assert Proper(k.cly[y], k.height) && Proper(k.clx[x], k.width);
    assert k.cly[y][0].pixel == q && k.clx[x][0].pixel == p;
    AtBounds(srcPitch, k.bpp, k.height, k.width, q, p, c);
    var b := src[q * srcPitch + p * k.bpp + c];
    var v := b as real / 255.0;
    TotalMeans([], [], v);
    ResampledByte(k, src, srcPitch, dst, dstPitch, y, x, c, [[v]], [v]);
    assert 255.0 * v == b as real;
  }

  /** A target of the same size, where every sample is its own only contributor, is a copy. */
  lemma SameSizeIsCopy(k: Job, src: seq<int>, srcPitch: nat, dst: seq<int>, dstPitch: nat, y: nat, x: nat, c: nat)
    requires Sensible(k) && k.width * k.bpp <= srcPitch && k.height * srcPitch <= |src| && Resampled(dst, k, src, srcPitch, dstPitch)
    requires k.targetWidth == k.width && k.targetHeight == k.height && forall i :: 0 <= i < |src| ==> 0 <= src[i] <= 255
    requires forall i :: 0 <= i < |k.clx| ==> k.clx[i] == [Contrib(i, 1.0)]
    requires forall i :: 0 <= i < |k.cly| ==> k.cly[i] == [Contrib(i, 1.0)]
    requires y < k.height && x < k.width && c < k.bpp
    ensures 0 <= y * dstPitch + x * k.bpp + c < |dst| && 0 <= y * srcPitch + x * k.bpp + c < |src|
    ensures dst[y * dstPitch + x * k.bpp + c] == src[y * srcPitch + x * k.bpp + c]
  {
    hide Resampled;
    PickedByte(k, src, srcPitch, dst, dstPitch, y, x, c, y, x);
  }

  /** Bytes behind the last pixel of a line, and behind the last line, keep their values. */
  lemma PaddingStays(k: Job, before: seq<int>, after: seq<int>, pitch: nat, i: nat)
    requires Sensible(k) && k.targetWidth * k.bpp <= pitch && Padding(before, after, k, pitch) && i < |before|
    requires i % pitch >= k.targetWidth * k.bpp || i / pitch >= k.targetHeight
    ensures i < |after| && after[i] == before[i]
  {
    forall y: nat, x: nat, c: nat {:trigger At(pitch, k.bpp, y, x, c)} | y < k.targetHeight && x < k.targetWidth && c < k.bpp
      ensures i != At(pitch, k.bpp, y, x, c)
    {
      NotPadding(pitch, k.bpp, k.targetHeight, k.targetWidth, y, x, c);
    }
  }

  /** The line and the place within it of a byte that belongs to a pixel. */
  lemma NotPadding(pitch: nat, bpp: nat, height: nat, width: nat, y: nat, x: nat, c: nat)
    requires y < height && x < width && c < bpp && width * bpp <= pitch
    ensures pitch > 0 && At(pitch, bpp, y, x, c) / pitch == y && At(pitch, bpp, y, x, c) % pitch < width * bpp
  {
    Scaled(bpp, x + 1, width);
    var z := x * bpp;
    assert (x + 1) * bpp == z + bpp;
    ModOf(y, pitch, z + c);
  }
}

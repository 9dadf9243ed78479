/** The driver: all components of a bitmap go through resamplers of their own, line by line. */
module ResampleDriver {
  import opened ResampleSum
  import opened ResampleCount
  import opened ResampleClist
  import opened Resampling
  import opened Arithmetic

  /** The cast of the source, which truncates toward zero. */
  function Truncated(x: real): int { if x >= 0.0 then x.Floor else -((-x).Floor) }

  function Quantised(v: real): int
  {
    var c := Truncated(255.0 * v + 0.5);
    if c < 0 then 0 else if c > 255 then 255 else c
  }

  function Sampled(b: int): real { b as real * (1.0 / 255.0) }

  /** A clamped sample becomes the nearest byte, without any further clamping. */
  lemma QuantisedIsNearest(v: real)
    requires 0.0 <= v <= 1.0
    ensures 0 <= Truncated(255.0 * v + 0.5) <= 255 && Quantised(v) == Truncated(255.0 * v + 0.5)
    ensures -0.5 <= Quantised(v) as real - 255.0 * v <= 0.5
  {
  }

  /** Bytes survive the way to a sample and back. */
  lemma BytesSurvive(b: int)
    requires 0 <= b <= 255
    ensures 0.0 <= Sampled(b) <= 1.0 && Quantised(Sampled(b)) == b
  {
    assert 255.0 * Sampled(b) == b as real;
  }

  /** Where the bytes of a pixel lie. */
  function At(pitch: nat, bpp: nat, y: nat, x: nat, c: nat): nat { y * pitch + x * bpp + c }

  lemma AtBounds(pitch: nat, bpp: nat, h: nat, w: nat, y: nat, x: nat, c: nat)
    requires y < h && x < w && c < bpp && w * bpp <= pitch
    ensures At(pitch, bpp, y, x, c) < h * pitch && x * bpp + c < pitch
  {
    assert (x + 1) * bpp <= w * bpp by { Scaled(bpp, x + 1, w); }
    assert (y + 1) * pitch <= h * pitch by { Scaled(pitch, y + 1, h); }
    assert (x + 1) * bpp == x * bpp + bpp && (y + 1) * pitch == y * pitch + pitch;
  }

  /** Different pixels and components have different bytes. */
  lemma AtOnce(pitch: nat, bpp: nat, w: nat, y: nat, x: nat, c: nat, y2: nat, x2: nat, c2: nat)
    requires x < w && c < bpp && x2 < w && c2 < bpp && w * bpp <= pitch
    requires At(pitch, bpp, y, x, c) == At(pitch, bpp, y2, x2, c2)
    ensures y == y2 && x == x2 && c == c2
  {
    AtBounds(pitch, bpp, y + 1, w, y, x, c);
    AtBounds(pitch, bpp, y2 + 1, w, y2, x2, c2);
    Digits(pitch, y, x * bpp + c, y2, x2 * bpp + c2);
    Digits(bpp, x, c, x2, c2);
  }

  /** The sizes and lists that all components share. */
  datatype Job = Job(width: nat, height: nat, targetWidth: nat, targetHeight: nat, bpp: nat, clx: seq<Clist>, cly: seq<Clist>)

  ghost predicate Sensible(k: Job)
  {
    && k.width > 0 && k.height > 0 && k.targetWidth > 0 && k.targetHeight > 0 && k.bpp > 0
    && |k.clx| == k.targetWidth && |k.cly| == k.targetHeight && AllProper(k.clx, k.width) && AllProper(k.cly, k.height)
  }

  /** Component `c` of the source, as samples. */
  ghost function Plane(k: Job, src: seq<int>, pitch: nat, c: nat): (img: seq<Line>)
    requires k.width * k.bpp <= pitch && k.height * pitch <= |src| && c < k.bpp
    ensures |img| == k.height && Image(img, k.width)
  {
    seq(k.height, y requires 0 <= y < k.height => seq(k.width, x requires 0 <= x < k.width =>
      AtBounds(pitch, k.bpp, k.height, k.width, y, x, c); Sampled(src[At(pitch, k.bpp, y, x, c)])))
  }

  ghost predicate Full(k: Job, img: seq<Line>) { |img| == k.height && Image(img, k.width) }

  /** The byte that belongs to sample `x` of line `y`: the clamped double sum over the whole image, rounded. */
  ghost function Target(k: Job, img: seq<Line>, y: nat, x: nat): int
    requires Sensible(k) && Full(k, img) && y < k.targetHeight && x < k.targetWidth
  {
    assert Proper(k.cly[y], k.height) && Proper(k.clx[x], k.width);
    Quantised(Clamped(DoubleSum(img, k.cly[y], k.clx[x], k.width, |k.cly[y]|), 0.0, 1.0))
  }

  /** Line `y` of component `c` is in place. */
  ghost predicate RowIs(dst: seq<int>, k: Job, img: seq<Line>, pitch: nat, y: nat, c: nat)
    requires Sensible(k) && Full(k, img) && y < k.targetHeight
  {
    forall x {:trigger At(pitch, k.bpp, y, x, c)} :: 0 <= x < k.targetWidth
      ==> At(pitch, k.bpp, y, x, c) < |dst| && dst[At(pitch, k.bpp, y, x, c)] == Target(k, img, y, x)
  }

  ghost predicate InRow(i: int, k: Job, pitch: nat, y: nat, c: nat)
  {
    exists x {:trigger At(pitch, k.bpp, y, x, c)} :: 0 <= x < k.targetWidth && i == At(pitch, k.bpp, y, x, c)
  }

  /** Only the bytes of one line of one component may differ. */
  ghost predicate OnlyRow(before: seq<int>, after: seq<int>, k: Job, pitch: nat, y: nat, c: nat)
  {
    |after| == |before| && forall i {:trigger after[i]} :: 0 <= i < |after| && !InRow(i, k, pitch, y, c) ==> after[i] == before[i]
  }

  lemma RowKept(before: seq<int>, after: seq<int>, k: Job, img: seq<Line>, pitch: nat, y: nat, c: nat, y2: nat, c2: nat)
    requires Sensible(k) && Full(k, img) && y2 < k.targetHeight && k.targetWidth * k.bpp <= pitch && c < k.bpp && c2 < k.bpp
    requires RowIs(before, k, img, pitch, y2, c2) && OnlyRow(before, after, k, pitch, y, c) && (y2 != y || c2 != c)
    ensures RowIs(after, k, img, pitch, y2, c2)
  {
    hide At, Target;
    forall x {:trigger At(pitch, k.bpp, y2, x, c2)} | 0 <= x < k.targetWidth
      ensures At(pitch, k.bpp, y2, x, c2) < |after| && after[At(pitch, k.bpp, y2, x, c2)] == Target(k, img, y2, x)
    {
      var i := At(pitch, k.bpp, y2, x, c2);
      assert i < |before| && before[i] == Target(k, img, y2, x);
      forall z {:trigger At(pitch, k.bpp, y, z, c)} | 0 <= z < k.targetWidth ensures i != At(pitch, k.bpp, y, z, c) {
        if i == At(pitch, k.bpp, y, z, c) { AtOnce(pitch, k.bpp, k.targetWidth, y2, x, c2, y, z, c); }
      }
      assert !InRow(i, k, pitch, y, c);
    }
  }

  /** The pixel loop of the driver for one line of one component. */
  method WriteRow(dst: array<int>, out: array<real>, k: Job, ghost img: seq<Line>, pitch: nat, y: nat, c: nat)
    requires Sensible(k) && Full(k, img) && y < k.targetHeight && c < k.bpp && out.Length == k.targetWidth
    requires k.targetWidth * k.bpp <= pitch && k.targetHeight * pitch <= dst.Length
    requires forall x :: 0 <= x < k.targetWidth ==> Quantised(out[x]) == Target(k, img, y, x)
    modifies dst
    ensures RowIs(dst[..], k, img, pitch, y, c) && OnlyRow(old(dst[..]), dst[..], k, pitch, y, c)
  {
    hide At, Target, Quantised;
    forall x {:trigger At(pitch, k.bpp, y, x, c)} | 0 <= x < k.targetWidth ensures At(pitch, k.bpp, y, x, c) < dst.Length {
      AtBounds(pitch, k.bpp, k.targetHeight, k.targetWidth, y, x, c);
    }
    for x := 0 to k.targetWidth
      invariant forall z {:trigger At(pitch, k.bpp, y, z, c)} :: 0 <= z < x ==> dst[At(pitch, k.bpp, y, z, c)] == Target(k, img, y, z)
      invariant OnlyRow(old(dst[..]), dst[..], k, pitch, y, c)
    {
      ghost var before := dst[..];
      dst[At(pitch, k.bpp, y, x, c)] := Quantised(out[x]);
      forall z {:trigger At(pitch, k.bpp, y, z, c)} | 0 <= z < x ensures At(pitch, k.bpp, y, z, c) != At(pitch, k.bpp, y, x, c) {
        if At(pitch, k.bpp, y, z, c) == At(pitch, k.bpp, y, x, c) { AtOnce(pitch, k.bpp, k.targetWidth, y, z, c, y, x, c); }
      }
      assert InRow(At(pitch, k.bpp, y, x, c), k, pitch, y, c);
    }
  }

  /** One component after `n` source lines and `d` emitted lines of its image. */
  ghost predicate Unit(r: Resampler, k: Job, img: seq<Line>, n: nat, d: nat)
    reads r, r.count, r.flag, r.scanY, r.scanL, r.bufs
  {
    && r.Valid() && r.srcX == k.width && r.srcY == k.height && r.dstX == k.targetWidth && r.dstY == k.targetHeight
    && r.clx == k.clx && r.cly == k.cly && r.lo == 0.0 && r.hi == 1.0
    && n <= |img| && r.img == img[..n] && r.curSrcY == n && r.curDstY == d
  }

  /** No two components share memory, and none of them uses `dst`. */
  ghost predicate Separate(reprs: seq<set<object>>, dst: array<int>)
  {
    && (forall a, b {:trigger reprs[a], reprs[b]} :: 0 <= a < |reprs| && 0 <= b < |reprs| && a != b ==> reprs[a] !! reprs[b])
    && (forall a {:trigger reprs[a]} :: 0 <= a < |reprs| ==> dst !in reprs[a])
  }

  ghost function Union(reprs: seq<set<object>>): set<object> { set S, o | S in reprs && o in S :: o }

  ghost predicate Own(rs: seq<Resampler>, reprs: seq<set<object>>)
    reads rs
  {
    |reprs| == |rs| && forall a {:trigger rs[a]} :: 0 <= a < |rs| ==> rs[a].Repr() == reprs[a]
  }

  /** All contributors of line `d` are among the first `n` lines. */
  ghost predicate Here(k: Job, n: nat, d: nat) { d < |k.cly| && forall j :: 0 <= j < |k.cly[d]| ==> k.cly[d][j].pixel < n }

  /** One component is asked for its next line, which goes to its place. */
  method Pull(r: Resampler, k: Job, ghost img: seq<Line>, ghost n: nat, d: nat, dst: array<int>, pitch: nat, c: nat) returns (ok: bool)
    requires Sensible(k) && Full(k, img) && Unit(r, k, img, n, d) && c < k.bpp && dst !in r.Repr()
    requires k.targetWidth * k.bpp <= pitch && k.targetHeight * pitch <= dst.Length
    modifies r`curDstY, r.dstBuf, r.tmpBuf, r.count, r.flag, r.scanY, dst
    ensures ok <==> Here(k, n, d)
    ensures Unit(r, k, img, n, if ok then d + 1 else d) && r.bufs == old(r.bufs)
    ensures if ok then RowIs(dst[..], k, img, pitch, d, c) && OnlyRow(old(dst[..]), dst[..], k, pitch, d, c) else dst[..] == old(dst[..])
  {
    hide RowIs, OnlyRow, Target;
    var out := r.GetLine();
    ok := out != null;
    if ok {
      OutIsTarget(k, img, n, d, out[..]);
      WriteRow(dst, out, k, img, pitch, d, c);
    }
  }

  /** A line made from the lines that are here is the line made from the whole image. */
  lemma OutIsTarget(k: Job, img: seq<Line>, n: nat, d: nat, out: Line)
    requires Sensible(k) && Full(k, img) && n <= |img| && d < k.targetHeight && Present(img[..n], k.cly[d])
    requires AllProper(k.clx, k.width) && Image(img[..n], k.width) && Emitted(out, img[..n], k.cly[d], k.clx, k.width, 0.0, 1.0)
    ensures |out| == k.targetWidth && forall x :: 0 <= x < k.targetWidth ==> Quantised(out[x]) == Target(k, img, d, x)
  {
    hide DoubleSum, Quantised, Clamped;
    assert Proper(k.cly[d], k.height);
    forall x | 0 <= x < k.targetWidth ensures Quantised(out[x]) == Target(k, img, d, x) {
      assert Proper(k.clx[x], k.width);
      DoubleSumStable(img[..n], img, k.cly[d], k.clx[x], k.width, |k.cly[d]|);
    }
  }

  /** All components have the same lines; the first `e` are one line ahead with theirs. */
  ghost predicate Group(rs: seq<Resampler>, reprs: seq<set<object>>, k: Job, imgs: seq<seq<Line>>, n: nat, d: nat, e: nat)
    requires |rs| <= |imgs|
    reads rs, Union(reprs)
  {
    && Own(rs, reprs)
    && (forall a {:trigger rs[a]} :: 0 <= a < |rs| ==> (InUnion(reprs, a); Unit(rs[a], k, imgs[a], n, if a < e then d + 1 else d)))
  }

  lemma InUnion(reprs: seq<set<object>>, a: nat)
    requires a < |reprs|
    ensures reprs[a] <= Union(reprs)
  {
  }

  ghost predicate Planes(k: Job, imgs: seq<seq<Line>>) { |imgs| == k.bpp && forall a {:trigger imgs[a]} :: 0 <= a < |imgs| ==> Full(k, imgs[a]) }

  /** Lines before `d` are in place, and line `d` of the first `e` components. */
  ghost predicate Done(dst: seq<int>, k: Job, imgs: seq<seq<Line>>, pitch: nat, d: nat, e: nat)
    requires Sensible(k) && Planes(k, imgs)
  {
    forall y: nat, c: nat {:trigger RowIs(dst, k, imgs[c], pitch, y, c)} :: c < k.bpp && y < k.targetHeight && (y < d || (y == d && c < e)) ==> RowIs(dst, k, imgs[c], pitch, y, c)
  }

  ghost predicate Outside(i: int, k: Job, pitch: nat)
  {
    forall y: nat, c: nat {:trigger InRow(i, k, pitch, y, c)} :: y < k.targetHeight && c < k.bpp ==> !InRow(i, k, pitch, y, c)
  }

  /** Bytes outside all lines, such as the padding of the stride, keep their values. */
  ghost predicate Padding(before: seq<int>, after: seq<int>, k: Job, pitch: nat)
  {
    && |before| == |after|
    && (forall i {:trigger after[i]} :: 0 <= i < |after| && Outside(i, k, pitch) ==> after[i] == before[i])
  }

  lemma DoneStep(before: seq<int>, after: seq<int>, k: Job, imgs: seq<seq<Line>>, pitch: nat, d: nat, e: nat)
    requires Sensible(k) && Planes(k, imgs) && Done(before, k, imgs, pitch, d, e) && e < k.bpp && d < k.targetHeight && k.targetWidth * k.bpp <= pitch
    requires RowIs(after, k, imgs[e], pitch, d, e) && OnlyRow(before, after, k, pitch, d, e)
    ensures Done(after, k, imgs, pitch, d, e + 1)
  {
    hide RowIs, OnlyRow;
    forall y: nat, c: nat | c < k.bpp && y < k.targetHeight && (y < d || (y == d && c < e + 1)) ensures RowIs(after, k, imgs[c], pitch, y, c) {
      if y != d || c != e {
        assert RowIs(before, k, imgs[c], pitch, y, c);
        RowKept(before, after, k, imgs[c], pitch, d, e, y, c);
      }
    }
  }

  lemma DoneLine(dst: seq<int>, k: Job, imgs: seq<seq<Line>>, pitch: nat, d: nat)
    requires Sensible(k) && Planes(k, imgs) && Done(dst, k, imgs, pitch, d, k.bpp)
    ensures Done(dst, k, imgs, pitch, d + 1, 0)
  {
    hide RowIs;
  }

  lemma PaddingStep(first: seq<int>, before: seq<int>, after: seq<int>, k: Job, pitch: nat, d: nat, e: nat)
    requires Padding(first, before, k, pitch) && OnlyRow(before, after, k, pitch, d, e) && d < k.targetHeight && e < k.bpp
    ensures Padding(first, after, k, pitch)
  {
    hide InRow;
    forall i {:trigger after[i]} | 0 <= i < |after| && Outside(i, k, pitch) ensures after[i] == first[i]
    {
      assert !InRow(i, k, pitch, d, e) && before[i] == first[i];
    }
  }

  /** What one component does leaves the others alone. */
  method PullOne(rs: seq<Resampler>, ghost reprs: seq<set<object>>, k: Job, ghost imgs: seq<seq<Line>>, ghost n: nat, d: nat, dst: array<int>, pitch: nat, c: nat) returns (ok: bool)
    requires Sensible(k) && Planes(k, imgs) && |rs| == k.bpp && c < k.bpp && Group(rs, reprs, k, imgs, n, d, c) && Separate(reprs, dst)
    requires k.targetWidth * k.bpp <= pitch && k.targetHeight * pitch <= dst.Length
    modifies Union(reprs), dst
    ensures (ok <==> Here(k, n, d))
    ensures Group(rs, reprs, k, imgs, n, d, if ok then c + 1 else c)
    ensures if ok then RowIs(dst[..], k, imgs[c], pitch, d, c) && OnlyRow(old(dst[..]), dst[..], k, pitch, d, c) else dst[..] == old(dst[..])
  {
    hide Unit, RowIs, OnlyRow, Here;
    InUnion(reprs, c);
    ok := Pull(rs[c], k, imgs[c], n, d, dst, pitch, c);
  }

  /** Once around the components: either none has a line, or all have one. */
  method EmitLine(rs: seq<Resampler>, ghost reprs: seq<set<object>>, k: Job, ghost imgs: seq<seq<Line>>, ghost n: nat, d: nat, dst: array<int>, pitch: nat, ghost first: seq<int>) returns (complete: bool)
    requires Sensible(k) && Planes(k, imgs) && |rs| == k.bpp && Group(rs, reprs, k, imgs, n, d, 0) && Separate(reprs, dst)
    requires k.targetWidth * k.bpp <= pitch && k.targetHeight * pitch <= dst.Length
    requires Done(dst[..], k, imgs, pitch, d, 0) && Padding(first, dst[..], k, pitch)
    modifies Union(reprs), dst
    ensures complete == !Here(k, n, d) && Padding(first, dst[..], k, pitch)
    ensures Group(rs, reprs, k, imgs, n, if complete then d else d + 1, 0) && Done(dst[..], k, imgs, pitch, if complete then d else d + 1, 0)
  {
    hide Unit, RowIs, OnlyRow, Here, Done, Padding;
    for c := 0 to k.bpp
      invariant Group(rs, reprs, k, imgs, n, d, c)
      invariant c > 0 ==> Here(k, n, d)
      invariant Done(dst[..], k, imgs, pitch, d, c) && Padding(first, dst[..], k, pitch)
    {
      ghost var before := dst[..];
      var ok := PullOne(rs, reprs, k, imgs, n, d, dst, pitch, c);
      if !ok { return true; }
      HereLine(k, n, d);
      DoneStep(before, dst[..], k, imgs, pitch, d, c);
      PaddingStep(first, before, dst[..], k, pitch, d, c);
    }
    DoneLine(dst[..], k, imgs, pitch, d);
    return false;
  }

  lemma HereLine(k: Job, n: nat, d: nat)
    requires Here(k, n, d)
    ensures d < |k.cly|
  {
  }

  /** The inner loop of the driver: lines come out as long as all their contributors are here. */
  method EmitLines(rs: seq<Resampler>, ghost reprs: seq<set<object>>, k: Job, ghost imgs: seq<seq<Line>>, ghost n: nat, d0: nat, dst: array<int>, pitch: nat, ghost first: seq<int>) returns (d: nat)
    requires Sensible(k) && Planes(k, imgs) && |rs| == k.bpp && Group(rs, reprs, k, imgs, n, d0, 0) && Separate(reprs, dst)
    requires k.targetWidth * k.bpp <= pitch && k.targetHeight * pitch <= dst.Length && d0 <= k.targetHeight
    requires Done(dst[..], k, imgs, pitch, d0, 0) && Padding(first, dst[..], k, pitch)
    modifies Union(reprs), dst
    ensures d <= k.targetHeight && !Here(k, n, d) && Group(rs, reprs, k, imgs, n, d, 0)
    ensures Done(dst[..], k, imgs, pitch, d, 0) && Padding(first, dst[..], k, pitch)
  {
    hide Unit, RowIs, Here, Done, Padding;
    d := d0;
    while true
      invariant d <= k.targetHeight && Group(rs, reprs, k, imgs, n, d, 0)
      invariant Done(dst[..], k, imgs, pitch, d, 0) && Padding(first, dst[..], k, pitch)
      decreases k.targetHeight - d
    {
      var complete := EmitLine(rs, reprs, k, imgs, n, d, dst, pitch, first);
      if complete { break; }
      HereLine(k, n, d);
      d := d + 1;
    }
  }

  /** The first `p` components have one source line more. */
  ghost predicate Putting(rs: seq<Resampler>, reprs: seq<set<object>>, k: Job, imgs: seq<seq<Line>>, n: nat, d: nat, p: nat)
    requires |rs| <= |imgs|
    reads rs, Union(reprs)
  {
    && Own(rs, reprs)
    && (forall a {:trigger rs[a]} :: 0 <= a < |rs| ==> (InUnion(reprs, a); Unit(rs[a], k, imgs[a], if a < p then n + 1 else n, d)))
  }

  /** The line buffers of the components are apart from everything else. */
  ghost predicate Buffers(samples: seq<array<real>>, reprs: seq<set<object>>, k: Job)
  {
    && |samples| == |reprs|
    && (forall a, b {:trigger samples[a], reprs[b]} :: 0 <= a < |samples| && 0 <= b < |reprs| ==> samples[a] !in reprs[b])
    && (forall a {:trigger samples[a]} :: 0 <= a < |samples| ==> samples[a].Length == k.width)
    && (forall a, b {:trigger samples[a], samples[b]} :: 0 <= a < b < |samples| ==> samples[a] != samples[b])
  }

  /** `put_line` for one component. */
  method PutUnit(r: Resampler, k: Job, ghost img: seq<Line>, ghost n: nat, ghost d: nat, sample: array<real>) returns (ok: bool)
    requires Sensible(k) && Full(k, img) && n < k.height && Unit(r, k, img, n, d) && sample.Length == k.width && sample !in r.Repr() && sample[..] == img[n]
    modifies r`curSrcY, r`img, r`place, r`bufs, r`status, r.flag, r.scanY, r.scanL, r.bufs
    ensures ok ==> Unit(r, k, img, n + 1, d)
    ensures k.height <= MAX_SCAN_BUF_SIZE ==> ok
    ensures sample[..] == old(sample[..]) && fresh(r.Repr() - old(r.Repr())) && r.Repr() >= {r}
  {
    ok := r.PutLine(sample);
    assert img[..n] + [img[n]] == img[..n + 1];
  }

  method PutOne(rs: seq<Resampler>, ghost reprs: seq<set<object>>, k: Job, ghost imgs: seq<seq<Line>>, ghost n: nat, ghost d: nat, samples: seq<array<real>>, c: nat) returns (ok: bool)
    requires Sensible(k) && Planes(k, imgs) && |rs| == k.bpp && c < k.bpp && n < k.height
    requires Putting(rs, reprs, k, imgs, n, d, c) && Buffers(samples, reprs, k) && samples[c][..] == imgs[c][n]
    requires forall a, b {:trigger reprs[a], reprs[b]} :: 0 <= a < |reprs| && 0 <= b < |reprs| && a != b ==> reprs[a] !! reprs[b]
    modifies Union(reprs)
    ensures fresh(rs[c].Repr() - reprs[c])
    ensures ok ==> Putting(rs, reprs[c := rs[c].Repr()], k, imgs, n, d, c + 1)
    ensures k.height <= MAX_SCAN_BUF_SIZE ==> ok
    ensures forall a {:trigger samples[a]} :: 0 <= a < |samples| ==> samples[a][..] == old(samples[a][..])
  {
    hide Unit;
    InUnion(reprs, c);
    ok := PutUnit(rs[c], k, imgs[c], n, d, samples[c]);
  }

  lemma Regrown(reprs: seq<set<object>>, c: nat, S: set<object>, samples: seq<array<real>>, k: Job, dst: array<int>)
    requires c < |reprs| && Separate(reprs, dst) && Buffers(samples, reprs, k)
    requires (forall b {:trigger reprs[b]} :: 0 <= b < |reprs| ==> reprs[b] !! S - reprs[c]) && dst !in S - reprs[c]
    requires forall a {:trigger samples[a]} :: 0 <= a < |samples| ==> samples[a] !in S - reprs[c]
    ensures Separate(reprs[c := S], dst) && Buffers(samples, reprs[c := S], k) && Union(reprs[c := S]) <= Union(reprs) + S
  {
  }

  /** One source line goes into all components. */
  method PutAll(rs: seq<Resampler>, ghost reprs0: seq<set<object>>, k: Job, ghost imgs: seq<seq<Line>>, ghost n: nat, ghost d: nat, samples: seq<array<real>>, ghost dst: array<int>)
    returns (ok: bool, ghost reprs: seq<set<object>>)
    requires Sensible(k) && Planes(k, imgs) && |rs| == k.bpp && n < k.height
    requires Group(rs, reprs0, k, imgs, n, d, 0) && Buffers(samples, reprs0, k) && Separate(reprs0, dst)
    requires forall a {:trigger samples[a]} :: 0 <= a < |samples| ==> samples[a][..] == imgs[a][n]
    modifies Union(reprs0)
    ensures ok ==> Group(rs, reprs, k, imgs, n + 1, d, 0) && Buffers(samples, reprs, k) && Separate(reprs, dst) && fresh(Union(reprs) - Union(reprs0))
    ensures k.height <= MAX_SCAN_BUF_SIZE ==> ok
  {
    hide Unit, Union;
    reprs := reprs0;
    for c := 0 to k.bpp
      invariant Putting(rs, reprs, k, imgs, n, d, c) && Buffers(samples, reprs, k) && Separate(reprs, dst)
      invariant fresh(Union(reprs) - Union(reprs0))
      invariant forall a {:trigger samples[a]} :: 0 <= a < |samples| ==> samples[a][..] == imgs[a][n]
    {
      ok := PutOne(rs, reprs, k, imgs, n, d, samples, c);
      if !ok { return; }
      Regrown(reprs, c, rs[c].Repr(), samples, k, dst);
      InUnion(reprs, c);
      reprs := reprs[c := rs[c].Repr()];
    }
    ok := true;
  }

  /** The pixel loop over one source line, which deals the bytes out to the components. */
  method FillSamples(samples: seq<array<real>>, ghost reprs: seq<set<object>>, k: Job, ghost imgs: seq<seq<Line>>, src: seq<int>, pitch: nat, n: nat)
    requires Sensible(k) && Planes(k, imgs) && n < k.height && Buffers(samples, reprs, k) && |samples| == k.bpp
    requires k.width * k.bpp <= pitch && k.height * pitch <= |src|
    requires forall c :: 0 <= c < k.bpp ==> imgs[c] == Plane(k, src, pitch, c)
    modifies samples
    ensures forall a {:trigger samples[a]} :: 0 <= a < |samples| ==> samples[a][..] == imgs[a][n]
  {
    hide At, Sampled;
    for x := 0 to k.width
      invariant forall c {:trigger samples[c]} :: 0 <= c < k.bpp ==> forall z :: 0 <= z < x ==> samples[c][z] == imgs[c][n][z]
    {
      for c := 0 to k.bpp
        invariant forall a {:trigger samples[a]} :: 0 <= a < k.bpp ==> forall z :: 0 <= z < (if a < c then x + 1 else x) ==> samples[a][z] == imgs[a][n][z]
      {
        AtBounds(pitch, k.bpp, k.height, k.width, n, x, c);
        samples[c][x] := Sampled(src[At(pitch, k.bpp, n, x, c)]);
      }
    }
  }

  /** One more component, with memory of its own. */
  lemma Joined(reprs: seq<set<object>>, S: set<object>, samples: seq<array<real>>, sample: array<real>, k: Job, dst: array<int>)
    requires Separate(reprs, dst) && Buffers(samples, reprs, k)
    requires S !! Union(reprs) && dst !in S && (forall a {:trigger samples[a]} :: 0 <= a < |samples| ==> samples[a] !in S && samples[a] != sample)
    requires sample !in Union(reprs) && sample !in S && sample.Length == k.width
    ensures Separate(reprs + [S], dst) && Buffers(samples + [sample], reprs + [S], k) && Union(reprs + [S]) == Union(reprs) + S
  {
    forall a | 0 <= a < |reprs| ensures reprs[a] <= Union(reprs) { InUnion(reprs, a); }
  }

  lemma NoneYet(k: Job, imgs: seq<seq<Line>>, dst: array<int>)
    ensures Separate([], dst) && Buffers([], [], k) && Union([]) == {} && Group([], [], k, imgs, 0, 0, 0)
  {
  }

  /** One more resampler with its line buffer. */
  method MakeNode(k: Job, ghost imgs: seq<seq<Line>>, ghost dst: array<int>, rs: seq<Resampler>, ghost reprs: seq<set<object>>, samples: seq<array<real>>)
    returns (r: Resampler, sample: array<real>)
    requires Sensible(k) && Planes(k, imgs) && |rs| < k.bpp && Group(rs, reprs, k, imgs, 0, 0, 0)
    ensures Unit(r, k, imgs[|rs|], 0, 0) && fresh(r.Repr()) && r in r.Repr() && fresh(sample) && sample.Length == k.width
    ensures r.Repr() !! Union(reprs) && sample !in Union(reprs) && dst !in r.Repr() && sample !in r.Repr()
    ensures forall a {:trigger samples[a]} :: 0 <= a < |samples| ==> samples[a] !in r.Repr() && samples[a] != sample
    ensures Group(rs, reprs, k, imgs, 0, 0, 0)
  {
    hide Unit;
    assert forall a {:trigger samples[a]} :: 0 <= a < |samples| ==> allocated(samples[a]);
    r := MakeUnit(k, imgs[|rs|]);
    sample := new real[k.width];
  }

  lemma GroupJoined(rs: seq<Resampler>, reprs: seq<set<object>>, k: Job, imgs: seq<seq<Line>>, r: Resampler)
    requires Planes(k, imgs) && |rs| < k.bpp && Group(rs, reprs, k, imgs, 0, 0, 0) && Unit(r, k, imgs[|rs|], 0, 0)
    ensures Group(rs + [r], reprs + [r.Repr()], k, imgs, 0, 0, 0)
  {
    hide Unit;
  }

  /** The components are made one after another, all with the lists of the first one. */
  method MakeNodes(k: Job, ghost imgs: seq<seq<Line>>, ghost dst: array<int>) returns (rs: seq<Resampler>, samples: seq<array<real>>, ghost reprs: seq<set<object>>)
    requires Sensible(k) && Planes(k, imgs)
    ensures |rs| == |samples| == k.bpp && Group(rs, reprs, k, imgs, 0, 0, 0) && Buffers(samples, reprs, k) && Separate(reprs, dst)
    ensures fresh(Union(reprs)) && fresh(samples)
  {
    hide Unit, Union, Separate, Buffers, Group;
    rs, samples, reprs := [], [], [];
    NoneYet(k, imgs, dst);
    for c := 0 to k.bpp
      invariant |rs| == |samples| == c && fresh(Union(reprs)) && fresh(samples) && Separate(reprs, dst) && Buffers(samples, reprs, k)
      invariant Group(rs, reprs, k, imgs, 0, 0, 0)
    {
      var r, sample := MakeNode(k, imgs, dst, rs, reprs, samples);
      Joined(reprs, r.Repr(), samples, sample, k, dst);
      GroupJoined(rs, reprs, k, imgs, r);
      rs, samples, reprs := rs + [r], samples + [sample], reprs + [r.Repr()];
    }
  }

  method MakeUnit(k: Job, ghost img: seq<Line>) returns (r: Resampler)
    requires Sensible(k) && Full(k, img)
    ensures Unit(r, k, img, 0, 0) && fresh(r.Repr()) && r in r.Repr()
  {
    r := new Resampler(k.width, k.height, k.targetWidth, k.targetHeight, 0.0, 1.0, k.clx, k.cly);
  }

  /** One turn of the outer loop: a source line goes in, and whatever is complete comes out. */
  method LineIn(rs: seq<Resampler>, ghost reprs0: seq<set<object>>, samples: seq<array<real>>, k: Job, ghost imgs: seq<seq<Line>>, src: seq<int>, srcPitch: nat, n: nat, d0: nat, dst: array<int>, dstPitch: nat, ghost first: seq<int>)
    returns (ok: bool, d: nat, ghost reprs: seq<set<object>>)
    requires Sensible(k) && Planes(k, imgs) && |rs| == |samples| == k.bpp && n < k.height && d0 <= k.targetHeight
    requires k.width * k.bpp <= srcPitch && k.height * srcPitch <= |src| && k.targetWidth * k.bpp <= dstPitch && k.targetHeight * dstPitch <= dst.Length
    requires forall c :: 0 <= c < k.bpp ==> imgs[c] == Plane(k, src, srcPitch, c)
    requires Group(rs, reprs0, k, imgs, n, d0, 0) && Buffers(samples, reprs0, k) && Separate(reprs0, dst)
    requires Done(dst[..], k, imgs, dstPitch, d0, 0) && Padding(first, dst[..], k, dstPitch)
    modifies Union(reprs0), samples, dst
    ensures Padding(first, dst[..], k, dstPitch)
    ensures ok ==> Group(rs, reprs, k, imgs, n + 1, d, 0) && Buffers(samples, reprs, k) && Separate(reprs, dst) && fresh(Union(reprs) - Union(reprs0))
    ensures ok ==> d <= k.targetHeight && !Here(k, n + 1, d) && Done(dst[..], k, imgs, dstPitch, d, 0)
    ensures k.height <= MAX_SCAN_BUF_SIZE ==> ok
  {
    hide Unit, Done, Padding, Plane, RowIs;
    FillSamples(samples, reprs0, k, imgs, src, srcPitch, n);
    ok, reprs := PutAll(rs, reprs0, k, imgs, n, d0, samples, dst);
    d := d0;
    if ok {
      d := EmitLines(rs, reprs, k, imgs, n + 1, d0, dst, dstPitch, first);
    }
  }

  /**
   * `ResamplerData::resample`. Every byte of the target is the rounded, clamped double sum over the source;
   * lines come out in order, each of them once, and all of them.
   */
  method Resample(k: Job, src: seq<int>, srcPitch: nat, dst: array<int>, dstPitch: nat) returns (ok: bool)
    requires Sensible(k) && k.width * k.bpp <= srcPitch && k.height * srcPitch <= |src|
    requires k.targetWidth * k.bpp <= dstPitch && k.targetHeight * dstPitch <= dst.Length
    modifies dst
    ensures k.height <= 16384 ==> ok
    ensures ok ==> Resampled(dst[..], k, src, srcPitch, dstPitch)
    ensures Padding(old(dst[..]), dst[..], k, dstPitch)
  {
    hide Unit, Done, Padding, Plane, RowIs, Group, Buffers, Separate, Resampled;
    ghost var imgs := seq(k.bpp, c requires 0 <= c < k.bpp => Plane(k, src, srcPitch, c));
    ghost var first := dst[..];
    Start(first, k, imgs, dstPitch);
    var rs, samples;
    ghost var reprs;
    rs, samples, reprs := MakeNodes(k, imgs, dst);
    var d: nat := 0;
    for n := 0 to k.height
      invariant Group(rs, reprs, k, imgs, n, d, 0) && Buffers(samples, reprs, k) && Separate(reprs, dst) && fresh(Union(reprs)) && fresh(samples)
      invariant d <= k.targetHeight && (n > 0 ==> !Here(k, n, d))
      invariant Done(dst[..], k, imgs, dstPitch, d, 0) && Padding(first, dst[..], k, dstPitch)
    {
      ok, d, reprs := LineIn(rs, reprs, samples, k, imgs, src, srcPitch, n, d, dst, dstPitch, first);
      if !ok { return; }
    }
    AllHere(k);
    AllDone(dst[..], k, imgs, src, srcPitch, dstPitch);
    ok := true;
  }

  /** Every line of every component is in place. */
  ghost predicate Resampled(dst: seq<int>, k: Job, src: seq<int>, srcPitch: nat, dstPitch: nat)
    requires Sensible(k) && k.width * k.bpp <= srcPitch && k.height * srcPitch <= |src|
  {
    forall y: nat, c: nat {:trigger RowIs(dst, k, Plane(k, src, srcPitch, c), dstPitch, y, c)} :: c < k.bpp && y < k.targetHeight
      ==> RowIs(dst, k, Plane(k, src, srcPitch, c), dstPitch, y, c)
  }

  lemma AllDone(dst: seq<int>, k: Job, imgs: seq<seq<Line>>, src: seq<int>, srcPitch: nat, dstPitch: nat)
    requires Sensible(k) && Planes(k, imgs) && k.width * k.bpp <= srcPitch && k.height * srcPitch <= |src|
    requires forall c :: 0 <= c < k.bpp ==> imgs[c] == Plane(k, src, srcPitch, c)
    requires Done(dst, k, imgs, dstPitch, k.targetHeight, 0)
    ensures Resampled(dst, k, src, srcPitch, dstPitch)
  {
    hide RowIs, Plane;
    forall y: nat, c: nat | c < k.bpp && y < k.targetHeight ensures RowIs(dst, k, Plane(k, src, srcPitch, c), dstPitch, y, c) {
      assert RowIs(dst, k, imgs[c], dstPitch, y, c);
    }
  }

  lemma Start(dst: seq<int>, k: Job, imgs: seq<seq<Line>>, pitch: nat)
    requires Sensible(k) && Planes(k, imgs)
    ensures Done(dst, k, imgs, pitch, 0, 0) && Padding(dst, dst, k, pitch)
  {
  }

  /** When all source lines are in, no line has to wait for a contributor. */
  lemma AllHere(k: Job)
    requires Sensible(k)
    ensures forall d {:trigger Here(k, k.height, d)} :: 0 <= d < k.targetHeight ==> Here(k, k.height, d)
  {
    forall d {:trigger Here(k, k.height, d)} | 0 <= d < k.targetHeight ensures Here(k, k.height, d) { assert Proper(k.cly[d], k.height); }
  }

  /** A component of one colour keeps exactly that colour, at every size and with every filter. */
  lemma ConstantStays(k: Job, img: seq<Line>, b: int, y: nat, x: nat)
    requires Sensible(k) && Normal(k.clx, k.width) && Normal(k.cly, k.height) && Full(k, img) && 0 <= b <= 255
    requires forall v, p :: 0 <= v < |img| && 0 <= p < |img[v]| ==> img[v][p] == Sampled(b)
    requires y < k.targetHeight && x < k.targetWidth
    ensures Target(k, img, y, x) == b
  {
    hide Sampled, Quantised, DoubleSum, WeightSum;
    assert Proper(k.cly[y], k.height) && Proper(k.clx[x], k.width);
    ConstantKept(img, k.cly[y], k.clx[x], k.width, |k.cly[y]|, Sampled(b));
    BytesSurvive(b);
  }
}

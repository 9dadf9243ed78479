/** The resampler: lines go in one by one, lines come out as soon as all their contributors are there. */
module Resampling {
  import opened ResampleSum
  import opened ResampleCount

  const MAX_SCAN_BUF_SIZE: nat := 16384

  datatype Status = Okay | ScanBufferFull

  function Ops(cls: seq<Clist>, k: nat): nat
    requires k <= |cls|
  {
    if k == 0 then 0 else Ops(cls, k - 1) + |cls[k - 1]|
  }

  /** The contributors of a list of lists are all of them. */
  lemma {:induction false} OpsJoin(a: seq<Clist>, b: seq<Clist>, cl: Clist)
    ensures Ops([], 0) == 0 && Ops([cl], 1) == |cl| && Ops(a + b, |a| + |b|) == Ops(a, |a|) + Ops(b, |b|)
    decreases |b|
  {
    if b == [] {
      assert a + b == a;
    } else {
      var n := |b| - 1;
      OpsJoin(a, b[..n], cl);
      assert (a + b)[|a| + n] == b[n];
      OpsPrefix(a + b, a + b[..n], |a| + n);
      OpsPrefix(b, b[..n], n);
    }
    assert Ops([cl], 1) == Ops([cl], 0) + |[cl][0]|;
  }

  lemma {:induction false} OpsPrefix(a: seq<Clist>, b: seq<Clist>, k: nat)
    requires k <= |a| && k <= |b| && a[..k] == b[..k]
    ensures Ops(a, k) == Ops(b, k)
  {
    if k > 0 {
      assert a[k - 1] == a[..k][k - 1] == b[..k][k - 1] == b[k - 1];
      assert a[..k - 1] == a[..k][..k - 1] == b[..k][..k - 1] == b[..k - 1];
      OpsPrefix(a, b, k - 1);
    }
  }

  /** X comes last if that takes fewer multiplications, or as many and less memory. */
  predicate LaterX(xOps: int, yOps: int, srcX: nat, srcY: nat, dstX: nat, dstY: nat)
  {
    var xyOps := xOps * srcY + (4 * yOps * dstX) / 3;
    var yxOps := (4 * yOps * srcX) / 3 + xOps * dstY;
    xyOps > yxOps || (xyOps == yxOps && srcX < dstX)
  }

  /** A multiplication in Y counts four thirds of one in X, each axis on the lines or columns that it has to go over. */
  lemma LaterMeans(xOps: int, yOps: int, srcX: nat, srcY: nat, dstX: nat, dstY: nat)
    ensures var xFirst, yFirst := xOps * srcY + (4 * yOps * dstX) / 3, (4 * yOps * srcX) / 3 + xOps * dstY;
      LaterX(xOps, yOps, srcX, srcY, dstX, dstY) <==> yFirst < xFirst || (yFirst == xFirst && srcX < dstX)
  {}

  class Resampler {
    const srcX: nat
    const srcY: nat
    const dstX: nat
    const dstY: nat
    const lo: real
    const hi: real
    const clx: seq<Clist>
    const cly: seq<Clist>
    const delayX: bool
    const intermediate: nat
    const dstBuf: array<real>
    const tmpBuf: array<real>
    const count: array<int>
    const flag: array<bool>
    const scanY: array<int>
    const scanL: array<array?<real>>
    var curSrcY: nat
    var curDstY: nat
    var status: Status
    ghost var img: seq<Line>
    ghost var place: seq<nat>
    ghost var bufs: set<array<real>>

    /* ---- the invariant ---- */

    ghost predicate Sized()
    {
      && |clx| == dstX && |cly| == dstY && AllProper(clx, srcX) && AllProper(cly, srcY)
      && intermediate == (if delayX then srcX else dstX)
      && dstBuf.Length == dstX && tmpBuf.Length == (if delayX then intermediate else 0) && dstBuf != tmpBuf
      && count.Length == srcY && flag.Length == srcY && count != scanY
      && scanY.Length == MAX_SCAN_BUF_SIZE && scanL.Length == MAX_SCAN_BUF_SIZE
    }

    ghost predicate Cursors()
      reads this`curSrcY, this`curDstY, this`img
    {
      Sized() && |img| == curSrcY <= srcY && curDstY <= dstY && Image(img, srcX)
    }

    /** `count[y]` is the number of contributions of line `y` that are still to come. */
    ghost predicate Counted(d: nat, i: nat)
      requires Sized() && d <= dstY && i <= (if d < dstY then |cly[d]| else 0)
      reads count
    {
      forall y {:trigger count[y]} :: 0 <= y < srcY ==> count[y] == Pending(cly, d, i, y)
    }

    /** A line is flagged as long as it is here and still needed. */
    ghost predicate Flagged()
      requires Sized()
      reads this`curSrcY, count, flag
    {
      forall y {:trigger flag[y]} :: 0 <= y < srcY ==> (flag[y] <==> y < curSrcY && count[y] > 0)
    }

    /** A flagged line is in exactly one slot, and a slot that is not free holds a flagged line. */
    ghost predicate Placed()
      requires Sized()
      reads this`place, flag, scanY
    {
      && |place| == srcY
      && (forall y {:trigger flag[y]} :: 0 <= y < srcY && flag[y] ==> place[y] < MAX_SCAN_BUF_SIZE && scanY[place[y]] == y)
      && (forall j {:trigger scanY[j]} :: 0 <= j < MAX_SCAN_BUF_SIZE && scanY[j] != -1 ==> 0 <= scanY[j] < srcY && flag[scanY[j]] && place[scanY[j]] == j)
    }

    /** The buffers of the slots are the resampler's own and all different. */
    ghost predicate Owned()
      requires Sized()
      reads this`bufs, scanL
    {
      && dstBuf !in bufs && tmpBuf !in bufs
      && (forall j {:trigger scanL[j]} :: 0 <= j < MAX_SCAN_BUF_SIZE && scanL[j] != null ==> scanL[j] in bufs && scanL[j].Length == intermediate)
      && (forall j, k {:trigger scanL[j], scanL[k]} :: 0 <= j < k < MAX_SCAN_BUF_SIZE && scanL[j] != null ==> scanL[j] != scanL[k])
    }

    /** A slot in use holds its line, as it came or resampled along X. */
    ghost predicate Holds(j: nat)
      requires Sized() && j < MAX_SCAN_BUF_SIZE
      reads this`img, scanY, scanL, scanL[j]
    {
      scanY[j] != -1 ==>
        && scanL[j] != null && 0 <= scanY[j] < |img| && Image(img, srcX)
        && scanL[j][..] == Stored(img, clx, srcX, delayX)[scanY[j]]
    }

    ghost predicate Filled()
      requires Sized() && Owned()
      reads this`img, this`bufs, scanY, scanL, bufs
    {
      forall j {:trigger Holds(j)} :: 0 <= j < MAX_SCAN_BUF_SIZE ==> Holds(j)
    }

    ghost predicate Valid()
      reads this, count, flag, scanY, scanL, bufs
    {
      Cursors() && Counted(curDstY, 0) && Flagged() && Placed() && Owned() && Filled()
    }

    /* ---- set-up ---- */

    /** `count_ops` */
    static method CountOps(cls: seq<Clist>, k: nat) returns (t: int)
      requires k <= |cls|
      ensures t == Ops(cls, k)
    {
      t := 0;
      for i := 0 to k
        invariant t == Ops(cls, i)
      {
        t := t + |cls[i]|;
      }
    }

    /** The lists come from `make_clist`, or from a resampler of the same size. */
    constructor (srcX: nat, srcY: nat, dstX: nat, dstY: nat, lo: real, hi: real, clx: seq<Clist>, cly: seq<Clist>)
      requires srcX > 0 && srcY > 0 && dstX > 0 && dstY > 0
      requires |clx| == dstX && |cly| == dstY && AllProper(clx, srcX) && AllProper(cly, srcY)
      ensures Valid() && Initial() && fresh(Repr()) && this.srcX == srcX && this.srcY == srcY && this.dstX == dstX && this.dstY == dstY
      ensures this.clx == clx && this.cly == cly && this.lo == lo && this.hi == hi
      ensures delayX <==> LaterX(Ops(clx, dstX), Ops(cly, dstY), srcX, srcY, dstX, dstY)
    {
      hide Counted, Valid, LaterX, Ops, AllProper;
      this.srcX, this.srcY, this.dstX, this.dstY, this.lo, this.hi := srcX, srcY, dstX, dstY, lo, hi;
      this.clx, this.cly := clx, cly;
      dstBuf := new real[dstX];
      count := new int[srcY];
      flag := new bool[srcY];
      scanY := new int[MAX_SCAN_BUF_SIZE];
      scanL := new array?<real>[MAX_SCAN_BUF_SIZE];
      status := Okay;
      curSrcY, curDstY, img, bufs, place := 0, 0, [], {}, [];
      var xOps := CountOps(clx, dstX);
      var yOps := CountOps(cly, dstY);
      var later := LaterX(xOps, yOps, srcX, srcY, dstX, dstY);
      delayX := later;
      intermediate := if later then srcX else dstX;
      tmpBuf := new real[if later then srcX else 0];
      new;
      CountUses();
      ClearSlots();
    }

    ghost predicate Initial()
      reads this`curSrcY, this`curDstY, this`img, this`status
    {
      curSrcY == 0 && curDstY == 0 && img == [] && status == Okay
    }

    ghost function Repr(): set<object>
      reads this`bufs
    {
      {this, dstBuf, tmpBuf, count, flag, scanY, scanL} + bufs
    }

    /** Counts how many times each source line contributes. */
    method CountUses()
      requires Sized()
      modifies count, flag
      ensures Counted(0, 0) && forall y :: 0 <= y < srcY ==> !flag[y]
    {
      hide Pending, Uses;
      for y := 0 to srcY
        invariant forall x :: 0 <= x < y ==> count[x] == 0 && !flag[x]
      {
        count[y] := 0;
        flag[y] := false;
      }
      for i := 0 to dstY
        invariant forall x {:trigger count[x]} :: 0 <= x < srcY ==> count[x] + Pending(cly, i, 0, x) == Pending(cly, 0, 0, x)
        invariant forall x :: 0 <= x < srcY ==> !flag[x]
      {
        assert Proper(cly[i], srcY);
        for j := 0 to |cly[i]|
          invariant forall x {:trigger count[x]} :: 0 <= x < srcY ==> count[x] + Pending(cly, i, j, x) == Pending(cly, 0, 0, x)
          invariant forall x :: 0 <= x < srcY ==> !flag[x]
        {
          forall x | 0 <= x < srcY ensures Pending(cly, i, j, x) == Pending(cly, i, j + 1, x) + if cly[i][j].pixel == x then 1 else 0 {
            PendingStep(cly, i, j, x);
          }
          count[cly[i][j].pixel] := count[cly[i][j].pixel] + 1;
        }
        forall x | 0 <= x < srcY ensures Pending(cly, i, |cly[i]|, x) == Pending(cly, i + 1, 0, x) { PendingLine(cly, i, x); }
      }
      forall x | 0 <= x < srcY ensures Pending(cly, dstY, 0, x) == 0 { PendingEnd(cly, x); }
    }

    /** All slots are free and without memory. */
    method ClearSlots()
      requires Sized() && Counted(0, 0) && curSrcY == 0 && curDstY == 0 && forall y :: 0 <= y < srcY ==> !flag[y]
      modifies this`img, this`place, this`bufs, scanY, scanL
      ensures Valid() && img == [] && bufs == {}
    {
      hide Pending, Stored;
      for i := 0 to MAX_SCAN_BUF_SIZE
        invariant forall j :: 0 <= j < i ==> scanY[j] == -1 && scanL[j] == null
      {
        scanY[i] := -1;
        scanL[i] := null;
      }
      img, bufs, place := [], {}, seq(srcY, _ => 0);
    }

    /** `restart`: ready for another frame, unless something went wrong. */
    method Restart()
      requires Valid()
      modifies this, count, flag, scanY, scanL
      ensures Valid() && (old(status) == Okay ==> Initial()) && status == old(status) && bufs <= old(bufs)
      ensures old(status) != Okay ==> curSrcY == old(curSrcY) && curDstY == old(curDstY) && img == old(img)
    {
      if status != Okay { return; }
      curSrcY, curDstY := 0, 0;
      CountUses();
      ClearSlots();
    }

    /* ---- arithmetic on lines ---- */

    /** `resample_x` */
    method ResampleX(dst: array<real>, src: array<real>)
      requires Sized() && dst.Length == dstX && src.Length == srcX && dst != src
      modifies dst
      ensures dst[..] == ResampledRow(old(src[..]), clx)
    {
      hide Dot;
      ghost var row := src[..];
      for i := 0 to dstX
        invariant src[..] == row && forall p :: 0 <= p < i ==> dst[p] == ResampledRow(row, clx)[p]
      {
        assert Proper(clx[i], srcX);
        dst[i] := Sample(src, clx[i]);
      }
    }

    /** The inner loop of `resample_x`. */
    method Sample(src: array<real>, cl: Clist) returns (total: real)
      requires Proper(cl, src.Length)
      ensures total == Dot(src[..], cl, |cl|)
    {
      total := 0.0;
      for j := 0 to |cl|
        invariant total == Dot(src[..], cl, j)
      {
        total := total + src[cl[j].pixel] * cl[j].weight;
      }
    }

    /** `scale_y_mov` */
    method ScaleYMov(tmp: array<real>, src: array<real>, weight: real, n: nat)
      requires tmp.Length == src.Length == n && tmp != src
      modifies tmp
      ensures forall p {:trigger tmp[p]} :: 0 <= p < n ==> tmp[p] == src[p] * weight
    {
      for i := 0 to n
        invariant forall p {:trigger tmp[p]} :: 0 <= p < i ==> tmp[p] == src[p] * weight
      {
        tmp[i] := src[i] * weight;
      }
    }

    /** `scale_y_add` */
    method ScaleYAdd(tmp: array<real>, src: array<real>, weight: real, n: nat)
      requires tmp.Length == src.Length == n && tmp != src
      modifies tmp
      ensures forall p {:trigger tmp[p]} :: 0 <= p < n ==> tmp[p] == old(tmp[p]) + src[p] * weight
    {
      for i := 0 to n
        invariant forall p {:trigger tmp[p]} :: 0 <= p < n ==> tmp[p] == if p < i then old(tmp[p]) + src[p] * weight else old(tmp[p])
      {
        tmp[i] := tmp[i] + src[i] * weight;
      }
    }

    /** `clamp` */
    method ClampLine(dst: array<real>, n: nat)
      requires dst.Length == n
      modifies dst
      ensures forall p {:trigger dst[p]} :: 0 <= p < n ==> dst[p] == ClampSample(old(dst[p]), lo, hi)
    {
      var i := 0;
      while i < n
        invariant 0 <= i <= n
        invariant forall p {:trigger dst[p]} :: 0 <= p < n ==> dst[p] == if p < i then ClampSample(old(dst[p]), lo, hi) else old(dst[p])
      {
        dst[i] := ClampSample(dst[i], lo, hi);
        i := i + 1;
      }
    }

    /** One contributor of the mixed line. */
    method Mix(tmp: array<real>, src: array<real>, ghost rows: seq<Line>, cl: Clist, i: nat)
      requires i < |cl| && tmp.Length == src.Length == intermediate && tmp != src
      requires Rows(rows, cl, intermediate) && src[..] == rows[cl[i].pixel]
      requires i > 0 ==> tmp[..] == MixedRow(rows, cl, intermediate, i)
      modifies tmp
      ensures tmp[..] == MixedRow(rows, cl, intermediate, i + 1)
    {
      assert forall p :: 0 <= p < intermediate ==> src[p] == rows[cl[i].pixel][p];
      ghost var before := MixedRow(rows, cl, intermediate, i);
      assert i > 0 ==> forall p :: 0 <= p < intermediate ==> tmp[p] == before[p];
      if i == 0 {
        ScaleYMov(tmp, src, cl[i].weight, intermediate);
      } else {
        ScaleYAdd(tmp, src, cl[i].weight, intermediate);
      }
      forall p | 0 <= p < intermediate ensures tmp[p] == MixedRow(rows, cl, intermediate, i + 1)[p] {
        assert Column(rows, cl, intermediate, p, i + 1) == Column(rows, cl, intermediate, p, i) + rows[cl[i].pixel][p] * cl[i].weight;
        if i > 0 { assert before[p] == Column(rows, cl, intermediate, p, i); }
      }
    }

    /** The search of `resample_y` for a contributor. */
    method FindSlot(y: int) returns (j: nat)
      requires Sized() && Placed() && 0 <= y < srcY && flag[y]
      ensures j == place[y] < MAX_SCAN_BUF_SIZE && scanY[j] == y
    {
      assert flag[y] ==> place[y] < MAX_SCAN_BUF_SIZE && scanY[place[y]] == y;
      j := 0;
      while j < MAX_SCAN_BUF_SIZE
        invariant j <= place[y]
      {
        if scanY[j] == y { break; }
        j := j + 1;
      }
    }

    /** The contributor is done; its line makes room when nobody needs it any more. */
    method Release(i: nat, j: nat)
      requires Cursors() && curDstY < dstY && i < |cly[curDstY]| && var y := cly[curDstY][i].pixel; y < curSrcY
      requires Counted(curDstY, i) && Flagged() && Placed() && flag[cly[curDstY][i].pixel] && j == place[cly[curDstY][i].pixel]
      modifies count, flag, scanY
      requires Owned() && Filled()
      ensures Counted(curDstY, i + 1) && Flagged() && Placed() && Owned() && Filled()
    {
      hide Pending;
      var d := curDstY;
      var y := cly[d][i].pixel;
      forall x | 0 <= x < srcY ensures Pending(cly, d, i, x) == Pending(cly, d, i + 1, x) + if y == x then 1 else 0 {
        PendingStep(cly, d, i, x);
      }
      count[y] := count[y] - 1;
      if count[y] == 0 {
        flag[y] := false;
        scanY[j] := -1;
      }
      forall k | 0 <= k < MAX_SCAN_BUF_SIZE ensures Holds(k) { assert old(Holds(k)); }
    }

    /** A contributor that is still to come is flagged. */
    lemma Needed(i: nat)
      requires Cursors() && Ready() && i < |cly[curDstY]| && Counted(curDstY, i) && Flagged()
      ensures var y := cly[curDstY][i].pixel; y < curSrcY && flag[y]
    {
      var y := cly[curDstY][i].pixel;
      assert count[y] == Pending(cly, curDstY, i, y);
      PendingStep(cly, curDstY, i, y);
      assert flag[y] <==> y < curSrcY && count[y] > 0;
    }

    /** The contributors of the current destination line are all here. */
    ghost predicate Ready()
      requires Sized()
      reads this`curDstY, this`img
    {
      curDstY < dstY && Present(img, cly[curDstY])
    }

    /** The loop of `resample_y`: the contributor is always found. */
    method MixLine(tmp: array<real>)
      requires Valid() && Ready() && tmp.Length == intermediate && tmp == (if delayX then tmpBuf else dstBuf)
      modifies tmp, count, flag, scanY
      ensures Cursors() && Counted(curDstY + 1, 0) && Flagged() && Placed() && Owned() && Filled()
      ensures tmp[..] == MixedRow(Stored(img, clx, srcX, delayX), cly[curDstY], intermediate, |cly[curDstY]|)
    {
      hide Pending, Stored, MixedRow;
      var cl := cly[curDstY];
      ghost var rows := Stored(img, clx, srcX, delayX);
      assert Proper(cl, srcY);
      for i := 0 to |cl|
        invariant Cursors() && Counted(curDstY, i) && Flagged() && Placed() && Owned() && Filled()
        invariant i > 0 ==> tmp[..] == MixedRow(rows, cl, intermediate, i)
      {
        Needed(i);
        var j := FindSlot(cl[i].pixel);
        assert Holds(j);
        var src := scanL[j];
        Mix(tmp, src, rows, cl, i);
        Release(i, j);
      }
      LineDone();
    }

    lemma LineDone()
      requires Cursors() && curDstY < dstY && Counted(curDstY, |cly[curDstY]|)
      ensures Counted(curDstY + 1, 0)
    {
      forall y | 0 <= y < srcY ensures count[y] == Pending(cly, curDstY + 1, 0, y) {
        PendingLine(cly, curDstY, y);
      }
    }

    /** `resample_y` */
    method ResampleY()
      requires Valid() && Ready()
      modifies dstBuf, tmpBuf, count, flag, scanY
      ensures Cursors() && Counted(curDstY + 1, 0) && Flagged() && Placed() && Owned() && Filled()
      ensures AllProper(clx, srcX) && Emitted(dstBuf[..], img, cly[curDstY], clx, srcX, lo, hi)
    {
      hide Counted, Flagged, Placed, Filled, MixedRow, Stored, ResampledRow, DoubleSum;
      var tmp := if delayX then tmpBuf else dstBuf;
      MixLine(tmp);
      if delayX {
        ResampleX(dstBuf, tmp);
      }
      Unclamped(img, cly[curDstY], clx, srcX, delayX, dstBuf[..]);
      ghost var sums := dstBuf[..];
      if lo < hi {
        ClampLine(dstBuf, dstX);
      }
      assert forall p {:trigger dstBuf[p]} :: 0 <= p < dstX ==> dstBuf[p] == Clamped(sums[p], lo, hi);
    }

    /** `get_line`: the next line, if all its contributors are here. */
    method GetLine() returns (r: array?<real>)
      requires Valid()
      modifies this`curDstY, dstBuf, tmpBuf, count, flag, scanY
      ensures Valid() && AllProper(clx, srcX)
      ensures r != null <==> old(Ready())
      ensures r == null ==> curDstY == old(curDstY)
      ensures r != null ==> r == dstBuf && curDstY == old(curDstY) + 1 && Emitted(dstBuf[..], img, cly[old(curDstY)], clx, srcX, lo, hi)
    {
      hide Placed, Filled, Owned, Emitted, Pending;
      if curDstY == dstY { return null; }
      var cl := cly[curDstY];
      for i := 0 to |cl|
        invariant forall k :: 0 <= k < i ==> cl[k].pixel < curSrcY
        modifies {}
      {
        Seen(i);
        if !flag[cl[i].pixel] { return null; }
      }
      ResampleY();
      curDstY := curDstY + 1;
      return dstBuf;
    }

    /** The flag of a contributor says whether its line has been put. */
    lemma Seen(k: nat)
      requires Valid() && curDstY < dstY && k < |cly[curDstY]|
      ensures var y := cly[curDstY][k].pixel; y < srcY && (flag[y] <==> y < curSrcY)
    {
      hide Placed, Filled, Owned;
      assert Proper(cly[curDstY], srcY);
      var y := cly[curDstY][k].pixel;
      CountPositive(cly[curDstY], 0, k);
      assert count[y] == Pending(cly, curDstY, 0, y);
      assert flag[y] <==> y < curSrcY && count[y] > 0;
    }

    /* ---- putting lines ---- */

    /** The search of `put_line` for an empty slot. */
    method FindFree() returns (j: nat)
      requires Sized()
      ensures j <= MAX_SCAN_BUF_SIZE && (j < MAX_SCAN_BUF_SIZE ==> scanY[j] == -1)
      ensures j == MAX_SCAN_BUF_SIZE ==> forall k :: 0 <= k < MAX_SCAN_BUF_SIZE ==> scanY[k] != -1
    {
      j := 0;
      while j < MAX_SCAN_BUF_SIZE
        invariant j <= MAX_SCAN_BUF_SIZE && forall k :: 0 <= k < j ==> scanY[k] != -1
      {
        if scanY[j] == -1 { return; }
        j := j + 1;
      }
    }

    /** With at most as many source lines as slots the buffer is never full when a line comes. */
    lemma NeverFull()
      requires Valid() && curSrcY < srcY <= MAX_SCAN_BUF_SIZE
      ensures exists k :: 0 <= k < MAX_SCAN_BUF_SIZE && scanY[k] == -1
    {
      hide Filled, Owned;
      if forall k :: 0 <= k < MAX_SCAN_BUF_SIZE ==> scanY[k] != -1 {
        forall k | 0 <= k < MAX_SCAN_BUF_SIZE ensures 0 <= scanY[..][k] < curSrcY && place[scanY[..][k]] == k {
          assert scanY[k] != -1;
          assert flag[scanY[k]];
        }
        Pigeonhole(scanY[..], curSrcY);
      }
    }

    /** A slot without memory gets some. */
    method Provide(j: nat)
      requires Valid() && j < MAX_SCAN_BUF_SIZE
      modifies this`bufs, scanL
      ensures Valid() && scanL[j] != null && bufs >= old(bufs) && fresh(bufs - old(bufs))
      ensures scanL[j] in bufs && scanL[j].Length == intermediate && scanL[j] != tmpBuf && scanL[j] != dstBuf
    {
      hide Counted, Flagged, Placed, Stored;
      if scanL[j] == null {
        assert scanY[j] == -1 by { assert Holds(j); }
        scanL[j] := new real[intermediate];
        bufs := bufs + {scanL[j]};
        forall k | 0 <= k < MAX_SCAN_BUF_SIZE ensures Holds(k) { assert old(Holds(k)); }
      }
    }

    /** The line is copied into a free slot, as it is or resampled along X. */
    method Write(psrc: array<real>, j: nat)
      requires Valid() && j < MAX_SCAN_BUF_SIZE && scanY[j] == -1 && scanL[j] != null
      requires psrc.Length == srcX && psrc !in bufs && scanL[j] in bufs && scanL[j].Length == intermediate
      modifies scanL[j]
      ensures Valid() && scanL[j][..] == Row(old(psrc[..])) && psrc[..] == old(psrc[..])
    {
      hide Counted, Flagged, Placed, Stored, ResampledRow;
      if delayX {
        CopyLine(scanL[j], psrc);
      } else {
        ResampleX(scanL[j], psrc);
      }
      forall k | 0 <= k < MAX_SCAN_BUF_SIZE ensures Holds(k) { assert old(Holds(k)); }
    }

    /** One line as a slot keeps it. */
    ghost function Row(line: Line): Line
      requires Sized() && |line| == srcX
    {
      if delayX then line else ResampledRow(line, clx)
    }

    lemma StoredGrows(img: seq<Line>, line: Line)
      requires Sized() && Image(img, srcX) && |line| == srcX
      ensures Image(img + [line], srcX) && Stored(img + [line], clx, srcX, delayX) == Stored(img, clx, srcX, delayX) + [Row(line)]
    {
    }

    /** The slot is taken for the current line. */
    method Take(j: nat, ghost line: Line)
      requires Valid() && curSrcY < srcY && |line| == srcX && count[curSrcY] > 0
      requires j < MAX_SCAN_BUF_SIZE && scanY[j] == -1 && scanL[j] != null && scanL[j][..] == Row(line)
      modifies this`curSrcY, this`img, this`place, flag, scanY
      ensures Valid() && curSrcY == old(curSrcY) + 1 && img == old(img) + [line]
    {
      hide Pending, Stored, Owned, Row, Image;
      StoredGrows(img, line);
      flag[curSrcY] := true;
      scanY[j] := curSrcY;
      place := place[curSrcY := j];
      img := img + [line];
      curSrcY := curSrcY + 1;
      forall k | 0 <= k < MAX_SCAN_BUF_SIZE ensures Holds(k) { assert old(Holds(k)); }
    }

    /** `put_line`: false when there are enough lines or no slot is free. */
    method PutLine(psrc: array<real>) returns (ok: bool)
      requires Valid() && psrc.Length == srcX && psrc !in bufs
      modifies this`curSrcY, this`img, this`place, this`bufs, this`status, flag, scanY, scanL, bufs
      ensures Valid() && psrc[..] == old(psrc[..]) && fresh(bufs - old(bufs))
      ensures if ok then old(curSrcY) < srcY && curSrcY == old(curSrcY) + 1 && img == old(img) + [psrc[..]] && status == old(status)
              else curSrcY == old(curSrcY) && img == old(img) && (curSrcY < srcY ==> status == ScanBufferFull)
      ensures old(curSrcY) < srcY <= MAX_SCAN_BUF_SIZE ==> ok
    {
      hide Counted, Flagged, Placed, Owned, Filled, Row;
      if curSrcY >= srcY { return false; }
      if count[curSrcY] == 0 {
        Skip(psrc[..]);
        return true;
      }
      var j := FindFree();
      if j == MAX_SCAN_BUF_SIZE {
        if srcY <= MAX_SCAN_BUF_SIZE { NeverFull(); }
        status := ScanBufferFull;
        return false;
      }
      StillNeeded();
      Provide(j);
      Write(psrc, j);
      Take(j, psrc[..]);
      return true;
    }

    lemma StillNeeded()
      requires Valid() && curSrcY < srcY && count[curSrcY] != 0
      ensures count[curSrcY] > 0
    {
    }

    /** A line that no destination line uses is passed over. */
    method Skip(ghost line: Line)
      requires Valid() && curSrcY < srcY && count[curSrcY] == 0 && |line| == srcX
      modifies this`curSrcY, this`img
      ensures Valid() && curSrcY == old(curSrcY) + 1 && img == old(img) + [line]
    {
      hide Pending, Stored, Owned, Row;
      StoredGrows(img, line);
      img := img + [line];
      curSrcY := curSrcY + 1;
      forall k | 0 <= k < MAX_SCAN_BUF_SIZE ensures Holds(k) { assert old(Holds(k)); }
    }

    /** `memcpy` of one line. */
    method CopyLine(dst: array<real>, src: array<real>)
      requires dst.Length == src.Length && dst != src
      modifies dst
      ensures dst[..] == old(src[..])
    {
      for i := 0 to src.Length
        invariant src[..] == old(src[..]) && forall p :: 0 <= p < i ==> dst[p] == src[p]
      {
        dst[i] := src[i];
      }
    }
  }

  /** What `resample_y` has before it clamps. */
  lemma Unclamped(img: seq<Line>, cl: Clist, clx: seq<Clist>, srcX: nat, delayX: bool, out: Line)
    requires AllProper(clx, srcX) && Image(img, srcX) && Present(img, cl)
    requires out == if delayX then ResampledRow(MixedRow(Stored(img, clx, srcX, true), cl, srcX, |cl|), clx) else MixedRow(Stored(img, clx, srcX, false), cl, |clx|, |cl|)
    ensures |out| == |clx| && forall p :: 0 <= p < |clx| ==> Proper(clx[p], srcX) && out[p] == DoubleSum(img, cl, clx[p], srcX, |cl|)
  {
    forall p | 0 <= p < |clx| ensures Proper(clx[p], srcX) && out[p] == DoubleSum(img, cl, clx[p], srcX, |cl|) {
      if delayX { YFirstLine(img, cl, clx, srcX, p); } else { XFirstLine(img, cl, clx, srcX, p); }
    }
  }
}

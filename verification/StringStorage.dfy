/** Storage of byte strings: a small form inside the object, and a large form in a block of its own. */
module StringStorages {
  newtype byte = x: int | 0 <= x < 256

  const BYTE_COUNT: nat := 24
  const SMALL_CAPACITY: nat := 23
  const EXTRA: nat := 1

  /** `memmove`: all cells are read before the first one is written. */
  method MemMove(dst: array<byte>, d: nat, src: array<byte>, s: nat, n: nat)
    requires d + n <= dst.Length && s + n <= src.Length
    modifies dst
    ensures forall i {:trigger dst[i]} :: 0 <= i < dst.Length ==> dst[i] == if d <= i < d + n then old(src[s + (i - d)]) else old(dst[i])
  {
    forall k | 0 <= k < n { dst[d + k] := src[s + k]; }
  }

  /** `memset` with zero. */
  method MemZero(dst: array<byte>, d: nat, n: nat)
    requires d + n <= dst.Length
    modifies dst
    ensures forall i {:trigger dst[i]} :: 0 <= i < dst.Length ==> dst[i] == if d <= i < d + n then 0 else old(dst[i])
  {
    forall k | d <= k < d + n { dst[k] := 0; }
  }

  /** `Allocator::copy` from another string. */
  method MemCopy(dst: array<byte>, d: nat, src: seq<byte>)
    requires d + |src| <= dst.Length
    modifies dst
    ensures forall i {:trigger dst[i]} :: 0 <= i < dst.Length ==> dst[i] == if d <= i < d + |src| then src[i - d] else old(dst[i])
  {
    forall k | 0 <= k < |src| { dst[d + k] := src[k]; }
  }

  function Min(a: int, b: int): (r: int)
    ensures r <= a && r <= b && (r == a || r == b)
  {
    if a < b then a else b
  }

  function Max(a: int, b: int): (r: int)
    ensures r >= a && r >= b && (r == a || r == b)
  {
    if a < b then b else a
  }

  ghost predicate Zero(a: seq<byte>) { forall i :: 0 <= i < |a| ==> a[i] == 0 }

  class StringStorage {
    /** The bytes of the object. In the large form they are those of `_ptr`, `_used` and `_allocated`. */
    const storage: array<byte>
    var small: bool
    var ptr: array?<byte>
    var used: nat
    var room: nat

    constructor ()
      ensures Valid() && ZeroTail() && Contents() == [] && Capacity() == 0 && fresh(Repr())
    {
      storage := new byte[BYTE_COUNT];
      small, ptr, used, room := false, null, 0, 0;
    }

    ghost function Repr(): set<object>
      reads this`ptr
    {
      {this, storage} + Block()
    }

    ghost function Block(): set<object>
      reads this`ptr
    {
      if ptr == null then {} else {ptr}
    }

    /** The large block is none, or larger than the small form. */
    ghost predicate Valid()
      reads this, storage
    {
      && storage.Length == BYTE_COUNT
      && (if small then storage[BYTE_COUNT - 1] as int <= SMALL_CAPACITY && ptr == null
          else if ptr == null then used == 0 && room == 0
          else room > SMALL_CAPACITY && ptr.Length == room + EXTRA && used <= room && ptr != storage)
    }

    function Size(): nat
      requires Valid()
      reads this, storage
    {
      if small then SMALL_CAPACITY - storage[BYTE_COUNT - 1] as int else used
    }

    function Capacity(): nat
      requires Valid()
      reads this, storage
    {
      if small then SMALL_CAPACITY else room
    }

    function Data(): array?<byte>
      reads this
    {
      if small then storage else ptr
    }

    /** The cells for contents: all but the size byte of the small form, or all of the block. */
    ghost function Cells(): (r: seq<byte>)
      requires Valid()
      reads this, storage, Block()
      ensures Size() <= Capacity() <= |r|
    {
      if small then storage[..SMALL_CAPACITY] else if ptr == null then [] else ptr[..]
    }

    /** What a plain sequence would hold. */
    ghost function Contents(): (r: seq<byte>)
      requires Valid()
      reads this, storage, Block()
    {
      Cells()[..Size()]
    }

    /** All cells behind the contents are zero, up to the capacity and, in a block, the extra cell. */
    ghost predicate ZeroTail()
      requires Valid()
      reads this, storage, Block()
    {
      Zero(Cells()[Size()..])
    }

    lemma ContentsAre()
      requires Valid()
      ensures Contents() == Cells()[..Size()] && |Contents()| == Size()
    {}

    lemma TailIs()
      requires Valid()
      ensures ZeroTail() <==> Zero(Cells()[Size()..])
    {}

    /** The bytes from `pos` on without the first `len0`, or none if there are not so many. */
    static lemma Behind(text: seq<byte>, pos: nat, len0: nat, len: int)
      requires pos <= |text| && len <= len0 && len <= |text| - pos && (len == len0 || len == |text| - pos)
      ensures text[pos + len..] == if pos + len0 <= |text| then text[pos + len0..] else []
    {}

    /** Byte `i` of the contents is where a caller reads it. */
    lemma ContentsAt(i: nat)
      requires Valid() && i < Size()
      ensures |Contents()| == Size() && Data() != null && i < Data().Length && Contents()[i] == Data()[i]
    {}

    /** A zero tail makes the cell behind the contents zero, even where the small form keeps its size. */
    lemma Terminated()
      requires Valid() && ZeroTail() && Data() != null
      ensures Size() < Data().Length && Data()[Size()] == 0
    {
      assert Size() < |Cells()| ==> Cells()[Size()] == Cells()[Size()..][0];
    }

    /** `modify_size` */
    method ModifySize(diff: int)
      requires Valid() && 0 <= Size() + diff <= Capacity()
      modifies this`used, storage
      ensures Valid() && Size() == old(Size()) + diff && Capacity() == old(Capacity()) && Cells() == old(Cells()) && Repr() == old(Repr()) && small == old(small)
    {
      if !small {
        used := used + diff;
      } else {
        storage[BYTE_COUNT - 1] := (SMALL_CAPACITY - (Size() + diff)) as byte;
      }
    }

    /** `mem_small::set_size`, with its `drop_unused`, which does nothing when all cells are unused. */
    method SetSizeSmall(s: nat)
      requires Valid() && small && s <= SMALL_CAPACITY
      modifies storage
      ensures Valid() && Size() == s && storage[..s] == old(storage[..s])
      ensures forall i :: s <= i < SMALL_CAPACITY ==> storage[i] == if s == 0 then old(storage[i]) else 0
    {
      storage[BYTE_COUNT - 1] := (SMALL_CAPACITY - s) as byte;
      var unused := storage[BYTE_COUNT - 1] as int;
      if unused < SMALL_CAPACITY {
        MemZero(storage, SMALL_CAPACITY - unused, unused);
      }
    }

    /** `mem_large::drop_unused` */
    method DropUnused()
      requires Valid() && !small
      modifies Block()
      ensures Valid() && ZeroTail() && Contents() == old(Contents())
    {
      if room > 0 && room >= used && ptr != null {
        MemZero(ptr, used, room - used + EXTRA);
      }
    }

    /** `mem_large::set_size` */
    method SetSizeLarge(s: nat)
      requires Valid() && !small && s <= room
      modifies this`used, Block()
      ensures Valid() && Size() == s && Capacity() == old(Capacity())
      ensures ptr != null ==> ptr[..s] == old(ptr[..s]) && forall i :: s <= i < ptr.Length ==> ptr[i] == if s < old(used) then 0 else old(ptr[i])
    {
      if s < used {
        used := s;
        DropUnused();
      } else {
        used := s;
      }
    }

    /** `mem_large::grow_alloc`; the allocator answers with `slack` cells more than it was asked for. */
    method GrowAlloc(newsize: nat, slack: nat)
      requires Valid() && !small && newsize > SMALL_CAPACITY && newsize >= used
      modifies this`ptr, this`room
      ensures Valid() && !small && fresh(ptr) && room == newsize + slack && Contents() == old(Contents())
    {
      var cells := newsize + EXTRA + slack;
      var block := new byte[cells];
      if used > 0 && ptr != null {
        MemMove(block, 0, ptr, 0, used);
      }
      ghost var before := Contents();
      ptr := block;
      room := cells - EXTRA;
      assert ptr[..used] == before;
    }

    /** `mem_large::reserve` */
    method ReserveLarge(s: nat, slack: nat)
      requires Valid() && !small && s > SMALL_CAPACITY && s >= used
      modifies this`ptr, this`room
      ensures Valid() && !small && fresh(ptr) && room == s + slack && Contents() == old(Contents()) && ZeroTail()
    {
      GrowAlloc(s, slack);
      DropUnused();
    }

    /** The union is read as the small form: the bytes of a block that is none are all zero. */
    method SetSmallFlag()
      requires Valid() && !small && ptr == null
      modifies this`small, storage
      ensures small && storage.Length == BYTE_COUNT && ptr == null && forall i :: 0 <= i < BYTE_COUNT ==> storage[i] == 0
    {
      forall k | 0 <= k < storage.Length { storage[k] := 0; }
      small := true;
    }

    /** The small form moves into a block of its own, and the union is read as the large form. */
    method SpillOver(newmem: nat, slack: nat)
      requires Valid() && small && newmem > SMALL_CAPACITY
      modifies this`small, this`ptr, this`used, this`room
      ensures Valid() && !small && fresh(ptr) && room == newmem + slack && Contents() == old(Contents()) && ZeroTail()
    {
      ghost var before := Contents();
      var size := Size();
      var block := new byte[newmem + EXTRA + slack];
      MemMove(block, 0, storage, 0, size);
      MemZero(block, size, newmem + slack - size + EXTRA);
      small, ptr, used, room := false, block, size, newmem + slack;
      assert Contents() == before;
    }

    /** `reserve`: the contents stay, and a zero tail is never lost. */
    method Reserve(s: nat, grow: bool, slack: nat)
      requires Valid()
      modifies this, storage
      ensures Valid() && Capacity() >= s && Contents() == old(Contents()) && fresh(Repr() - old(Repr()))
      ensures old(ZeroTail()) ==> ZeroTail()
      ensures old(Capacity()) == 0 && 0 < s <= 23 ==> small && Capacity() == 23
      ensures old(small) && s <= SMALL_CAPACITY ==> small && Cells() == old(Cells())
      ensures s > old(Capacity()) && s > 23 ==>
        !small && Capacity() == slack + if grow && s < 2 * old(Capacity()) then 2 * old(Capacity()) else s
      ensures s <= old(Capacity()) ==> Data() == old(Data()) && Capacity() == old(Capacity()) && storage[..] == old(storage[..]) && small == old(small)
    {
      var capacity := Capacity();
      var size := Size();
      if s > capacity {
        if s <= SMALL_CAPACITY && size <= SMALL_CAPACITY {
          SetSmallFlag();
          SetSizeSmall(0);
        } else {
          var newmem := if grow then Max(s, capacity * 2) else s;
          if small && newmem > SMALL_CAPACITY {
            SpillOver(newmem, slack);
          } else {
            ReserveLarge(newmem, slack);
          }
        }
      }
    }

    /** `clear`: a block is kept, the small form turns into no block. */
    method Clear()
      requires Valid()
      modifies this, Block()
      ensures Valid() && Contents() == [] && (old(small) ==> !small && ptr == null && ZeroTail())
      ensures old(ZeroTail()) ==> ZeroTail()
      ensures !old(small) ==> Data() == old(Data()) && Capacity() == old(Capacity()) && !small
    {
      if !small {
        SetSizeLarge(0);
      } else {
        small, ptr, used, room := false, null, 0, 0;
      }
    }

    /* ---- cells ---- */

    static lemma Moved(c: seq<byte>, m: seq<byte>, d: nat, s: nat, n: nat)
      requires d + n <= |c| && s + n <= |c| == |m|
      requires forall i {:trigger m[i]} :: 0 <= i < |m| ==> m[i] == if d <= i < d + n then c[s + i - d] else c[i]
      ensures m == c[..d] + c[s..s + n] + c[d + n..]
    {}

    static lemma Copied(c: seq<byte>, m: seq<byte>, d: nat, src: seq<byte>)
      requires d + |src| <= |c| == |m|
      requires forall i {:trigger m[i]} :: 0 <= i < |m| ==> m[i] == if d <= i < d + |src| then src[i - d] else c[i]
      ensures m == c[..d] + src + c[d + |src|..]
    {}

    /** `Allocator::move` within the string. */
    method MoveCells(d: nat, s: nat, n: nat)
      requires Valid() && d + n <= |Cells()| && s + n <= |Cells()|
      modifies Block(), storage
      ensures Valid() && Size() == old(Size()) && Capacity() == old(Capacity())
      ensures Cells() == old(Cells()[..d] + Cells()[s..s + n] + Cells()[d + n..]) && Repr() == old(Repr())
    {
      var p := Data();
      ghost var c := Cells();
      if p != null {
        assert forall i :: 0 <= i < |c| ==> c[i] == p[i];
        MemMove(p, d, p, s, n);
        assert forall i :: 0 <= i < |c| ==> Cells()[i] == p[i];
      }
      Moved(c, Cells(), d, s, n);
    }

    /** `Allocator::copy` into the string. */
    method CopyCells(d: nat, src: seq<byte>)
      requires Valid() && d + |src| <= |Cells()|
      modifies Block(), storage
      ensures Valid() && Size() == old(Size()) && Capacity() == old(Capacity())
      ensures Cells() == old(Cells())[..d] + src + old(Cells())[d + |src|..] && Repr() == old(Repr())
    {
      var p := Data();
      ghost var c := Cells();
      if p != null {
        assert forall i :: 0 <= i < |c| ==> c[i] == p[i];
        MemCopy(p, d, src);
        assert forall i :: 0 <= i < |c| ==> Cells()[i] == p[i];
      }
      Copied(c, Cells(), d, src);
    }

    /** `memset` in the string. */
    method ZeroCells(d: nat, n: nat)
      requires Valid() && d + n <= |Cells()|
      modifies Block(), storage
      ensures Valid() && Size() == old(Size()) && Capacity() == old(Capacity())
      ensures |Cells()| == |old(Cells())| && Cells()[..d] == old(Cells())[..d] && Zero(Cells()[d..d + n]) && Cells()[d + n..] == old(Cells())[d + n..] && Repr() == old(Repr())
    {
      var p := Data();
      if p != null { MemZero(p, d, n); }
    }

    /* ---- the sequence operations ---- */

    /** `emplace_back` */
    method EmplaceBack(b: byte, slack: nat)
      requires Valid()
      modifies this, storage, Block()
      ensures Valid() && Contents() == old(Contents()) + [b] && (old(ZeroTail()) ==> ZeroTail())
      ensures fresh(Repr() - old(Repr())) && (old(Size()) < old(Capacity()) ==> small == old(small))
    {
      hide Valid, Cells;
      Reserve(Size() + 1, true, slack);
      ghost var c, size := Cells(), Size();
      var s := Size();
      ModifySize(1);
      CopyCells(s, [b]);
      assert Cells()[..size + 1] == c[..size] + [b] && Cells()[size + 1..] == c[size..][1..];
    }

    /** `pop_back` */
    method PopBack()
      requires Valid()
      modifies this, storage, Block()
      ensures Valid() && Contents() == (if old(Contents()) == [] then [] else old(Contents())[..|old(Contents())| - 1]) && (old(ZeroTail()) ==> ZeroTail())
      ensures Repr() == old(Repr())
    {
      hide Valid, Cells;
      if Size() > 0 {
        ghost var c, size := Cells(), Size();
        ModifySize(-1);
        ZeroCells(Size(), 1);
        PopTail(c, Cells(), size);
      }
    }

    /** `insert` of the bytes of another string. */
    method Insert(pos: nat, src: seq<byte>, slack: nat)
      requires Valid() && pos <= Size()
      modifies this, storage, Block()
      ensures Valid() && Contents() == old(Contents())[..pos] + src + old(Contents())[pos..] && (old(ZeroTail()) ==> ZeroTail())
      ensures fresh(Repr() - old(Repr()))
    {
      hide Valid, Cells, Zero;
      var used := Size();
      Reserve(used + |src|, true, slack);
      InsertCells(pos, src);
    }

    /** Within the capacity: the cells from `pos` on move up, and the bytes are copied to where they were. */
    method InsertCells(pos: nat, src: seq<byte>)
      requires Valid() && pos <= Size() && Size() + |src| <= Capacity()
      modifies this`used, storage, Block()
      ensures Valid() && Contents() == old(Contents())[..pos] + src + old(Contents())[pos..] && (old(ZeroTail()) ==> ZeroTail())
      ensures Repr() == old(Repr())
    {
      hide Valid, Cells, Zero;
      var used := Size();
      ghost var c := Cells();
      assert Contents() == c[..used] && (ZeroTail() ==> Zero(c[used..]));
      MoveCells(pos + |src|, pos, used - pos);
      ghost var m := Cells();
      CopyCells(pos, src);
      ghost var d := Cells();
      Inserted(c, m, d, used, pos, src);
      ModifySize(|src|);
      assert Contents() == d[..used + |src|] && Size() == used + |src|;
    }

    /** `insert_back` */
    method InsertBack(src: seq<byte>, slack: nat)
      requires Valid()
      modifies this, storage, Block()
      ensures Valid() && Contents() == old(Contents()) + src && (old(ZeroTail()) ==> ZeroTail())
      ensures fresh(Repr() - old(Repr()))
    {
      hide Valid, Cells, Zero;
      var used := Size();
      Reserve(used + |src|, true, slack);
      ghost var c := Cells();
      CopyCells(used, src);
      ModifySize(|src|);
      Appended(c, Cells(), used, src);
    }

    /** `emplace`: at the end like `emplace_back`, elsewhere the rest moves up by one. */
    method Emplace(pos: nat, b: byte, slack: nat)
      requires Valid() && pos <= Size()
      modifies this, storage, Block()
      ensures Valid() && Contents() == old(Contents())[..pos] + [b] + old(Contents())[pos..] && (old(ZeroTail()) ==> ZeroTail())
      ensures fresh(Repr() - old(Repr()))
    {
      hide Valid, Cells, Zero;
      var used := Size();
      if used == 0 || pos == used {
        EmplaceBack(b, slack);
      } else {
        Reserve(used + 1, true, slack);
        InsertCells(pos, [b]);
      }
    }

    /** What follows the erased cells moves down over them. */
    method MoveDown(pos: nat, len: nat)
      requires Valid() && pos + len <= Size()
      modifies Block(), storage
      ensures Valid() && Size() == old(Size()) && Capacity() == old(Capacity()) && Repr() == old(Repr())
      ensures Cells() == var c := old(Cells()); if pos + len < Size() then c[..pos] + c[pos + len..Size()] + c[Size() - len..] else c
    {
      hide Valid, Cells;
      var used := Size();
      if pos + len < used {
        MoveCells(pos, pos + len, used - pos - len);
      }
    }

    /** `erase` of at most `len0` cells. */
    method Erase(pos: nat, len0: nat)
      requires Valid() && pos <= Size()
      modifies this, storage, Block()
      ensures Valid() && pos <= |old(Contents())| && Repr() == old(Repr()) && (old(ZeroTail()) ==> ZeroTail())
      ensures Contents() == old(Contents())[..pos] + if pos + len0 <= |old(Contents())| then old(Contents())[pos + len0..] else []
    {
      hide Valid, Cells, Zero;
      var used := Size();
      ghost var c := Cells();
      ghost var text, zero := Contents(), ZeroTail();
      var len := Min(len0, used - pos);
      MoveDown(pos, len);
      ModifySize(-len);
      ZeroCells(Size(), len);
      ghost var d := Cells();
      Erased(c, d, used, pos, len);
      assert Contents() == d[..used - len] == text[..pos] + text[pos + len..];
      assert zero ==> Zero(d[used - len..]);
      Behind(text, pos, len0, len);
    }

    /** What follows the replaced cells moves to where the replacement ends. */
    method MoveRest(pos: nat, len: nat, nlen: nat)
      requires Valid() && pos + len <= Size() && Size() - len + nlen <= Capacity()
      modifies Block(), storage
      ensures Valid() && Size() == old(Size()) && Capacity() == old(Capacity()) && Repr() == old(Repr())
      ensures Cells() == var c := old(Cells());
        if pos + len < Size() then c[..pos + nlen] + c[pos + len..Size()] + c[Size() - len + nlen..] else c
    {
      hide Valid, Cells;
      var used := Size();
      if pos + len < used {
        MoveCells(pos + nlen, pos + len, used - pos - len);
      }
    }

    /** `prepare_replace`: room for `nlen` cells in the place of `len`. */
    method PrepareReplace(pos: nat, len: nat, nlen: nat, slack: nat)
      requires Valid() && pos + len <= Size()
      modifies this, storage, Block()
      ensures Valid() && Size() == old(Size()) && Capacity() >= Size() - len + nlen && fresh(Repr() - old(Repr()))
      ensures Cells()[..pos] == old(Contents())[..pos] && Cells()[pos + nlen..Size() - len + nlen] == old(Contents())[pos + len..]
      ensures old(ZeroTail()) ==> Zero(Cells()[Max(Size(), Size() - len + nlen)..])
    {
      hide Valid, Cells, Zero, Contents;
      ContentsAre();
      var used := Size();
      Reserve(used - len + nlen, true, slack);
      ContentsAre();
      ghost var c := Cells();
      MoveRest(pos, len, nlen);
      Replacing(c, Cells(), used, pos, len, nlen);
    }

    /** Zeroes the cells that were in use before and are no longer. */
    method ClearRest(was: nat)
      requires Valid() && was <= Capacity()
      modifies Block(), storage
      ensures Valid() && Size() == old(Size()) && Capacity() == old(Capacity()) && Repr() == old(Repr())
      ensures var c, d, n := old(Cells()), Cells(), Size();
        |d| == |c| && if n < was then d[..n] == c[..n] && Zero(d[n..was]) && d[was..] == c[was..] else d == c
    {
      hide Valid, Cells, Zero;
      if Size() < was {
        ZeroCells(Size(), was - Size());
      }
    }

    /** `replace` of at most `len0` cells by the bytes of another string. */
    method Replace(pos: nat, len0: nat, src: seq<byte>, slack: nat)
      requires Valid() && pos <= Size()
      modifies this, storage, Block()
      ensures Valid() && pos <= |old(Contents())| && (old(ZeroTail()) ==> ZeroTail())
      ensures Contents() == old(Contents())[..pos] + src + if pos + len0 <= |old(Contents())| then old(Contents())[pos + len0..] else []
      ensures fresh(Repr() - old(Repr()))
    {
      hide Valid, Cells, Zero, Contents, ZeroTail;
      ContentsAre();
      ghost var text := Contents();
      var used := Size();
      var len := Min(len0, used - pos);
      ReplaceExactly(pos, len, src, slack);
      Behind(text, pos, len0, len);
    }

    /** The bytes go where room has been made for them, and the size becomes that of the whole. */
    method PutIn(pos: nat, len: nat, src: seq<byte>)
      requires Valid() && pos + len <= Size() && Size() - len + |src| <= Capacity()
      modifies this`used, Block(), storage
      ensures Valid() && Size() == old(Size()) - len + |src| && Repr() == old(Repr())
      ensures var c, d, n := old(Cells()), Cells(), Size();
        && pos + |src| <= n <= |c| && old(Size()) <= |c| && n <= |d| && d[..n] == c[..pos] + src + c[pos + |src|..n]
        && (Zero(c[Max(old(Size()), n)..]) ==> Zero(d[n..]))
    {
      hide Valid, Cells, Zero;
      var used := Size();
      ghost var c := Cells();
      CopyCells(pos, src);
      ghost var c1 := Cells();
      ModifySize(|src| - len);
      ClearRest(used);
      Replaced(c, c1, Cells(), used, pos, len, src);
    }

    /** `replace`, once its length has been cut. */
    method ReplaceExactly(pos: nat, len: nat, src: seq<byte>, slack: nat)
      requires Valid() && pos + len <= Size()
      modifies this, storage, Block()
      ensures Valid() && pos + len <= |old(Contents())| && (old(ZeroTail()) ==> ZeroTail())
      ensures Contents() == old(Contents())[..pos] + src + old(Contents())[pos + len..]
      ensures fresh(Repr() - old(Repr()))
    {
      hide Valid, Cells, Zero, Contents, ZeroTail;
      ContentsAre();
      TailIs();
      PrepareReplace(pos, len, |src|, slack);
      PutIn(pos, len, src);
      ContentsAre();
      TailIs();
    }

    /** `set_size`: the small form forgets to clear its cells when none of them stays in use. */
    method SetSize(s: nat)
      requires Valid() && s <= Capacity()
      modifies this`used, storage, Block()
      ensures Valid() && Size() == s && Capacity() == old(Capacity()) && small == old(small) && Repr() == old(Repr())
      ensures |Cells()| == |old(Cells())| && Cells()[..s] == old(Cells())[..s]
      ensures small && s == 0 ==> Cells() == old(Cells())
      ensures if s < old(Size()) then (small && s == 0) || Zero(Cells()[s..]) else Zero(old(Cells())[s..]) ==> Zero(Cells()[s..])
    {
      if small {
        assert storage[..SMALL_CAPACITY][..s] == storage[..s];
        SetSizeSmall(s);
        assert storage[..SMALL_CAPACITY][..s] == storage[..s];
      } else {
        SetSizeLarge(s);
      }
    }

    /** The loop of `resize` and `fill`. */
    method Construct(from: nat, n: nat, b: byte)
      requires Valid() && from <= n <= Capacity()
      modifies storage, Block()
      ensures Valid() && Size() == old(Size()) && Capacity() == old(Capacity()) && small == old(small) && Repr() == old(Repr())
      ensures Cells() == old(Cells())[..from] + Copies(n - from, b) + old(Cells())[n..]
    {
      hide Valid, Cells;
      ghost var c := Cells();
      for i := from to n
        invariant Valid() && Size() == old(Size()) && Capacity() == old(Capacity()) && small == old(small) && Repr() == old(Repr())
        invariant Cells() == c[..from] + Copies(i - from, b) + c[i..]
      {
        CopyCells(i, [b]);
        OneMore(c, from, i, b);
      }
    }

    /** `resize`. A small string keeps old bytes behind its end exactly if it shrinks to nothing and has any byte but zero. */
    method Resize(n: nat, b: byte, slack: nat)
      requires Valid()
      modifies this, storage, Block()
      ensures Valid() && Contents() == if n <= |old(Contents())| then old(Contents())[..n] else old(Contents()) + Copies(n - |old(Contents())|, b)
      ensures old(ZeroTail()) ==> (ZeroTail() <==> !(n == 0 && old(small) && !Zero(old(Contents()))))
      ensures n == 0 && old(small) ==> small && Cells() == old(Cells())
      ensures fresh(Repr() - old(Repr()))
    {
      hide Valid, Cells, Zero;
      Reserve(n, true, slack);
      var used := Size();
      ghost var c, s := Cells(), small;
      if n > used {
        Construct(used, n, b);
      }
      ghost var m := Cells();
      SetSize(n);
      Shrunk(c, m, Cells(), used, n, b, s);
    }

    /** `fill` */
    method Fill(n: nat, b: byte, slack: nat)
      requires Valid()
      modifies this, storage, Block()
      ensures Valid() && Contents() == Copies(n, b) && (old(ZeroTail()) ==> ZeroTail())
      ensures fresh(Repr() - old(Repr()))
    {
      hide Valid, Cells, Zero;
      Clear();
      Reserve(n, true, slack);
      ghost var c := Cells();
      Construct(0, n, b);
      ghost var m := Cells();
      SetSize(n);
      Filled(c, m, Cells(), n, b);
    }
  }

  /** A run of operations on one string. */
  datatype Op =
    | Push(b: byte)
    | Pop
    | EmplaceAt(pos: nat, b: byte)
    | InsertAt(pos: nat, src: seq<byte>)
    | InsertEnd(src: seq<byte>)
    | EraseAt(pos: nat, len: nat)
    | ReplaceAt(pos: nat, len: nat, src: seq<byte>)
    | ResizeTo(n: nat, b: byte)
    | FillWith(n: nat, b: byte)
    | ClearAll
    | ReserveFor(n: nat)

  /** What the operation asks of its position. */
  predicate Allowed(op: Op, s: seq<byte>)
  {
    match op
    case EmplaceAt(pos, _) => pos <= |s|
    case InsertAt(pos, _) => pos <= |s|
    case EraseAt(pos, _) => pos <= |s|
    case ReplaceAt(pos, _, _) => pos <= |s|
    case _ => true
  }

  /** The same operation on a plain sequence. */
  function Apply(op: Op, s: seq<byte>): seq<byte>
    requires Allowed(op, s)
  {
    match op
    case Push(b) => s + [b]
    case Pop => if s == [] then [] else s[..|s| - 1]
    case EmplaceAt(pos, b) => s[..pos] + [b] + s[pos..]
    case InsertAt(pos, src) => s[..pos] + src + s[pos..]
    case InsertEnd(src) => s + src
    case EraseAt(pos, len) => s[..pos] + if pos + len <= |s| then s[pos + len..] else []
    case ReplaceAt(pos, len, src) => s[..pos] + src + if pos + len <= |s| then s[pos + len..] else []
    case ResizeTo(n, b) => if n <= |s| then s[..n] else s + Copies(n - |s|, b)
    case FillWith(n, b) => Copies(n, b)
    case ClearAll => []
    case ReserveFor(_) => s
  }

  predicate AllAllowed(ops: seq<Op>, s: seq<byte>)
    decreases |ops|, 0
  {
    ops == [] || (AllAllowed(ops[..|ops| - 1], s) && Allowed(ops[|ops| - 1], ApplyAll(ops[..|ops| - 1], s)))
  }

  function ApplyAll(ops: seq<Op>, s: seq<byte>): seq<byte>
    requires AllAllowed(ops, s)
    decreases |ops|, 1
  {
    if ops == [] then s else Apply(ops[|ops| - 1], ApplyAll(ops[..|ops| - 1], s))
  }

  lemma {:induction false} AllowedBefore(ops: seq<Op>, s: seq<byte>, i: nat)
    requires AllAllowed(ops, s) && i <= |ops|
    ensures AllAllowed(ops[..i], s)
    decreases |ops|
  {
    if i == |ops| {
      assert ops[..i] == ops;
    } else {
      assert ops[..|ops| - 1][..i] == ops[..i];
      AllowedBefore(ops[..|ops| - 1], s, i);
    }
  }

  /** The operation leaves old bytes behind the end of the text. */
  ghost predicate Loses(op: Op, s: seq<byte>, small: bool) { op.ResizeTo? && op.n == 0 && small && !Zero(s) }

  /** Operation `i` of the run does; `smalls` says where the string was small. */
  ghost predicate LosesAt(ops: seq<Op>, smalls: seq<bool>, i: nat)
    requires AllAllowed(ops, []) && i < |ops| && i < |smalls|
  {
    AllowedBefore(ops, [], i);
    Loses(ops[i], ApplyAll(ops[..i], []), smalls[i])
  }

  /** One operation at a position. */
  method DoAt(t: StringStorage, op: Op, slack: nat)
    requires t.Valid() && Allowed(op, t.Contents()) && (op.EmplaceAt? || op.InsertAt? || op.EraseAt? || op.ReplaceAt?)
    modifies t, t.storage, t.Block()
    ensures t.Valid() && t.Contents() == Apply(op, old(t.Contents())) && fresh(t.Repr() - old(t.Repr()))
    ensures old(t.ZeroTail()) ==> t.ZeroTail()
  {
    hide StringStorage.Valid, StringStorage.Cells, StringStorage.ZeroTail, StringStorage.Contents, Zero;
    t.ContentsAre();
    match op
    case EmplaceAt(pos, b) => t.Emplace(pos, b, slack);
    case InsertAt(pos, src) => t.Insert(pos, src, slack);
    case EraseAt(pos, len) => t.Erase(pos, len);
    case ReplaceAt(pos, len, src) => t.Replace(pos, len, src, slack);
  }

  /** One operation, with whatever the allocator gives beyond the request. */
  method Do(t: StringStorage, op: Op, slack: nat)
    requires t.Valid() && Allowed(op, t.Contents())
    modifies t, t.storage, t.Block()
    ensures t.Valid() && t.Contents() == Apply(op, old(t.Contents())) && fresh(t.Repr() - old(t.Repr()))
    ensures old(t.ZeroTail()) ==> (t.ZeroTail() <==> !Loses(op, old(t.Contents()), old(t.small)))
  {
    hide StringStorage.Valid, StringStorage.Cells, StringStorage.ZeroTail, StringStorage.Contents, Zero, Copies;
    match op
    case Push(b) => t.EmplaceBack(b, slack);
    case Pop => t.PopBack();
    case InsertEnd(src) => t.InsertBack(src, slack);
    case ResizeTo(n, b) => t.Resize(n, b, slack);
    case FillWith(n, b) => t.Fill(n, b, slack);
    case ClearAll => t.Clear();
    case ReserveFor(n) => t.Reserve(n, false, slack);
    case _ => DoAt(t, op, slack);
  }

  /**
   * Every run from an empty string agrees with the plain sequence, and the tail is zero after each of its operations
   * exactly if none of them resizes a small string with any byte but zero to nothing. `smalls` and `tails` say of each
   * operation whether the string was small before it and whether its tail was zero after it.
   */
  method Run(ops: seq<Op>, slacks: seq<nat>) returns (t: StringStorage, ghost smalls: seq<bool>, ghost tails: seq<bool>)
    requires AllAllowed(ops, []) && |slacks| == |ops|
    ensures fresh(t) && t.Valid() && t.Contents() == ApplyAll(ops, [])
    ensures |smalls| == |tails| == |ops| && if ops == [] then t.ZeroTail() else tails[|ops| - 1] == t.ZeroTail()
    ensures (forall i :: 0 <= i < |ops| ==> tails[i]) <==> forall i :: 0 <= i < |ops| ==> !LosesAt(ops, smalls, i)
  {
    hide Loses, Apply, Allowed, StringStorage.Valid, StringStorage.ZeroTail, StringStorage.Contents;
    t := new StringStorage();
    smalls, tails := [], [];
    ghost var kept := true;
    assert ops[..|ops|] == ops;
    for i := 0 to |ops|
      invariant t.Valid() && fresh(t.Repr())
      invariant AllAllowed(ops[..i], []) && t.Contents() == ApplyAll(ops[..i], [])
      invariant |smalls| == |tails| == i && (kept ==> t.ZeroTail()) && (i > 0 ==> tails[i - 1] == t.ZeroTail())
      invariant kept <==> forall j :: 0 <= j < i ==> tails[j]
      invariant kept <==> forall j :: 0 <= j < i ==> !LosesAt(ops, smalls, j)
    {
      AllowedBefore(ops, [], i + 1);
      assert ops[..i + 1][..i] == ops[..i];
      ghost var small, lost := t.small, Loses(ops[i], t.Contents(), t.small);
      Do(t, ops[i], slacks[i]);
      LosesMore(ops, smalls, small);
      AllMore(tails, t.ZeroTail());
      smalls, tails := smalls + [small], tails + [t.ZeroTail()];
      kept := kept && !lost;
    }
  }

  lemma AllMore(q: seq<bool>, x: bool)
    ensures (forall j :: 0 <= j < |q + [x]| ==> (q + [x])[j]) <==> (forall j :: 0 <= j < |q| ==> q[j]) && x
  {
    if forall j :: 0 <= j < |q + [x]| ==> (q + [x])[j] {
      forall j | 0 <= j < |q| ensures q[j] { assert (q + [x])[j] == q[j]; }
      assert (q + [x])[|q|] == x;
    }
  }

  lemma LosesMore(ops: seq<Op>, smalls: seq<bool>, small: bool)
    requires AllAllowed(ops, []) && |smalls| < |ops| && AllAllowed(ops[..|smalls|], [])
    ensures var more := smalls + [small];
      (forall j :: 0 <= j < |more| ==> !LosesAt(ops, more, j)) <==>
        (forall j :: 0 <= j < |smalls| ==> !LosesAt(ops, smalls, j)) && !Loses(ops[|smalls|], ApplyAll(ops[..|smalls|], []), small)
  {
    hide Loses, AllAllowed, ApplyAll;
    var more := smalls + [small];
    var last := |smalls|;
    assert LosesAt(ops, more, last) == Loses(ops[last], ApplyAll(ops[..last], []), small);
    forall j | 0 <= j < last ensures LosesAt(ops, more, j) == LosesAt(ops, smalls, j) { assert more[j] == smalls[j]; }
    if forall j :: 0 <= j < |more| ==> !LosesAt(ops, more, j) {
      forall j | 0 <= j < last ensures !LosesAt(ops, smalls, j) { assert !LosesAt(ops, more, j); }
    }
  }

  /** A run and its text, written out: "hello" loses "el", "l" becomes "XY", "a" goes in front, and "z" comes and goes. */
  function SampleOps(): seq<Op> {
    [InsertEnd([104, 101, 108, 108, 111]), EraseAt(1, 2), ReplaceAt(1, 1, [88, 89]), EmplaceAt(0, 97), Push(122), Pop]
  }

  lemma ApplyStep(ops: seq<Op>, op: Op, s: seq<byte>, t: seq<byte>)
    requires AllAllowed(ops, []) && ApplyAll(ops, []) == s && Allowed(op, s) && Apply(op, s) == t
    ensures AllAllowed(ops + [op], []) && ApplyAll(ops + [op], []) == t
  {
    assert (ops + [op])[..|ops|] == ops;
  }

  lemma SampleText()
    ensures AllAllowed(SampleOps(), []) && ApplyAll(SampleOps(), []) == [97, 104, 88, 89, 111]
  {
    var ops := SampleOps();
    hide AllAllowed, ApplyAll;
    SampleStart();
    ApplyStep([], ops[0], [], [104, 101, 108, 108, 111]);
    assert ops[..1] == [] + [ops[0]];
    ApplyStep(ops[..1], ops[1], [104, 101, 108, 108, 111], [104, 108, 111]);
    assert ops[..2] == ops[..1] + [ops[1]];
    ApplyStep(ops[..2], ops[2], [104, 108, 111], [104, 88, 89, 111]);
    assert ops[..3] == ops[..2] + [ops[2]];
    ApplyStep(ops[..3], ops[3], [104, 88, 89, 111], [97, 104, 88, 89, 111]);
    assert ops[..4] == ops[..3] + [ops[3]];
    ApplyStep(ops[..4], ops[4], [97, 104, 88, 89, 111], [97, 104, 88, 89, 111, 122]);
    assert ops[..5] == ops[..4] + [ops[4]];
    ApplyStep(ops[..5], ops[5], [97, 104, 88, 89, 111, 122], [97, 104, 88, 89, 111]);
    assert ops == ops[..5] + [ops[5]];
  }

  lemma SampleStart()
    ensures AllAllowed([], []) && ApplyAll([], []) == []
  {}

  method Sample() returns (t: StringStorage)
    ensures fresh(t) && t.Valid() && t.Contents() == [97, 104, 88, 89, 111]
  {
    hide StringStorage.Valid, StringStorage.Contents, AllAllowed, ApplyAll;
    SampleText();
    ghost var smalls, tails;
    t, smalls, tails := Run(SampleOps(), [0, 0, 0, 0, 0, 0]);
  }

  /** One byte pushed, then a resize to nothing: the byte is still there, where the end of the text should be. */
  method OldByteStays() returns (t: StringStorage)
    ensures fresh(t) && t.Valid() && t.Contents() == [] && t.Data() != null && t.Data().Length > 0
    ensures t.Size() == 0 && t.Data()[0] == 97 && !t.ZeroTail()
  {
    t := new StringStorage();
    t.Reserve(1, false, 0);
    assert |t.Contents()| == t.Size() == 0;
    t.EmplaceBack(97, 0);
    ghost var cells := t.Cells();
    assert cells[..1] == t.Contents() == [97];
    assert t.Contents()[0] == 97 && !Zero(t.Contents());
    t.Resize(0, 0, 0);
    assert cells[..1][0] == cells[0];
  }

  lemma Erased(c: seq<byte>, d: seq<byte>, used: nat, pos: nat, len: nat)
    requires pos + len <= used <= |c| == |d|
    requires var m := if pos + len < used then c[..pos] + c[pos + len..used] + c[used - len..] else c;
      d[..used - len] == m[..used - len] && Zero(d[used - len..used]) && d[used..] == m[used..]
    ensures d[..used - len] == c[..used][..pos] + c[..used][pos + len..] && (Zero(c[used..]) ==> Zero(d[used - len..]))
  {
    assert d[used - len..] == d[used - len..used] + d[used..];
    if pos + len < used {
      assert (c[..pos] + c[pos + len..used] + c[used - len..])[used..] == c[used..];
    }
    assert d[used..] == c[used..];
  }

  lemma Replacing(c: seq<byte>, m: seq<byte>, used: nat, pos: nat, len: nat, nlen: nat)
    requires pos + len <= used <= |c| && used - len + nlen <= |c|
    requires m == if pos + len < used then c[..pos + nlen] + c[pos + len..used] + c[used - len + nlen..] else c
    ensures |m| == |c| && m[..pos] == c[..used][..pos] && m[pos + nlen..used - len + nlen] == c[..used][pos + len..]
    ensures m[Max(used, used - len + nlen)..] == c[used..][Max(used, used - len + nlen) - used..]
    ensures Zero(c[used..]) ==> Zero(m[Max(used, used - len + nlen)..])
  {
  }

  lemma TailOf(a: seq<byte>, c: seq<byte>, n: nat)
    requires |a| <= n <= |c|
    ensures (a + c[|a|..])[n..] == c[n..]
  {}

  lemma Replaced(c: seq<byte>, c1: seq<byte>, d: seq<byte>, used: nat, pos: nat, len: nat, src: seq<byte>)
    requires pos + len <= used <= |c| && used - len + |src| <= |c| == |d|
    requires c1 == c[..pos] + src + c[pos + |src|..]
    requires var n := used - len + |src|;
      if |src| < len then d[..n] == c1[..n] && Zero(d[n..used]) && d[used..] == c1[used..] else d == c1
    ensures d[..used - len + |src|] == c[..pos] + src + c[pos + |src|..used - len + |src|]
    ensures Zero(c[Max(used, used - len + |src|)..]) ==> Zero(d[used - len + |src|..])
  {
    var n := used - len + |src|;
    if |src| < len {
      assert d[n..] == d[n..used] + d[used..];
      assert c1[used..] == c[pos + |src|..][used - pos - |src|..] == c[used..];
    } else {
      TailOf(c[..pos] + src, c, n);
    }
  }

  function Copies(n: nat, b: byte): (r: seq<byte>)
    ensures |r| == n && forall i :: 0 <= i < n ==> r[i] == b
  {
    seq(n, _ => b)
  }

  lemma OneMore(c: seq<byte>, from: nat, i: nat, b: byte)
    requires from <= i < |c|
    ensures var d := c[..from] + Copies(i - from, b) + c[i..]; d[..i] + [b] + d[i + 1..] == c[..from] + Copies(i + 1 - from, b) + c[i + 1..]
  {
  }

  lemma Shrunk(c: seq<byte>, m: seq<byte>, d: seq<byte>, used: nat, n: nat, b: byte, small: bool)
    requires used <= |c| && n <= |c| == |d| && m == (if n > used then c[..used] + Copies(n - used, b) + c[n..] else c) && d[..n] == m[..n]
    requires if n < used then if small && n == 0 then d == m else Zero(d[n..]) else Zero(m[n..]) ==> Zero(d[n..])
    ensures d[..n] == if n <= used then c[..used][..n] else c[..used] + Copies(n - used, b)
    ensures Zero(c[used..]) ==> (Zero(d[n..]) <==> !(n == 0 && small && !Zero(c[..used])))
  {
    if n > used { assert m[n..] == c[used..][n - used..]; }
    if n == 0 && small && used > 0 { assert c == c[..used] + c[used..] && d[0..] == c; }
  }

  lemma Filled(c: seq<byte>, m: seq<byte>, d: seq<byte>, n: nat, b: byte)
    requires n <= |c| == |d| && m == c[..0] + Copies(n, b) + c[n..] && d[..n] == m[..n] && (Zero(m[n..]) ==> Zero(d[n..]))
    ensures d[..n] == Copies(n, b) && (Zero(c[0..]) ==> Zero(d[n..]))
  {
    assert m[n..] == c[0..][n..];
  }

  lemma Appended(c: seq<byte>, d: seq<byte>, used: nat, src: seq<byte>)
    requires used + |src| <= |c| && d == c[..used] + src + c[used + |src|..]
    ensures d[..used + |src|] == c[..used] + src && (Zero(c[used..]) ==> Zero(d[used + |src|..]))
  {
    assert d[used + |src|..] == c[used..][|src|..];
  }

  lemma PopTail(c: seq<byte>, d: seq<byte>, size: nat)
    requires 0 < size <= |c| == |d| && d[..size - 1] == c[..size - 1] && Zero(d[size - 1..size]) && d[size..] == c[size..]
    ensures d[..size - 1] == c[..size][..size - 1] && (Zero(c[size..]) ==> Zero(d[size - 1..]))
  {
    assert d[size - 1..] == d[size - 1..size] + d[size..];
  }

  lemma Inserted(c: seq<byte>, m: seq<byte>, d: seq<byte>, used: nat, pos: nat, src: seq<byte>)
    requires pos <= used && used + |src| <= |c|
    requires m == c[..pos + |src|] + c[pos..pos + (used - pos)] + c[pos + |src| + (used - pos)..]
    requires d == m[..pos] + src + m[pos + |src|..]
    ensures |d| == |c| && d[..used + |src|] == c[..used][..pos] + src + c[..used][pos..] && d[used + |src|..] == c[used + |src|..]
    ensures Zero(c[used..]) ==> Zero(d[used + |src|..])
  {
    assert c[used + |src|..] == c[used..][|src|..];
  }
}

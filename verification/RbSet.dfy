/** The reference for whole runs: a finite set of keys, kept as a sorted list. */
module RbSet {
  import opened RbNodes
  import opened RbOrder

  function InsertKey(less: Less, ks: seq<Key>, x: Key): seq<Key>
  {
    if ks == [] then [x]
    else if less(x, ks[0]) then [x] + ks
    else if less(ks[0], x) then [ks[0]] + InsertKey(less, ks[1..], x)
    else ks
  }

  function EraseKey(less: Less, ks: seq<Key>, x: Key): seq<Key>
  {
    if ks == [] then []
    else if Same(less, ks[0], x) then ks[1..]
    else [ks[0]] + EraseKey(less, ks[1..], x)
  }

  function InsertAll(less: Less, ks: seq<Key>, data: seq<Key>): seq<Key>
  {
    if data == [] then ks else InsertKey(less, InsertAll(less, ks, data[..|data| - 1]), data[|data| - 1])
  }

  lemma InsertAllStep(less: Less, ks: seq<Key>, data: seq<Key>, i: nat)
    requires i <= |data|
    ensures InsertAll(less, ks, data[..0]) == ks && data[..|data|] == data
    ensures i < |data| ==> InsertAll(less, ks, data[..i + 1]) == InsertKey(less, InsertAll(less, ks, data[..i]), data[i])
  {
    hide InsertKey;
    assert i < |data| ==> data[..i + 1][..i] == data[..i];
  }

  function EraseAll(less: Less, ks: seq<Key>, data: seq<Key>): seq<Key>
  {
    if data == [] then ks else EraseKey(less, EraseAll(less, ks, data[..|data| - 1]), data[|data| - 1])
  }

  ghost predicate Has(less: Less, ks: seq<Key>, x: Key) { exists i :: 0 <= i < |ks| && Same(less, ks[i], x) }

  lemma {:induction false} InsertKeyAt(less: Less, ks: seq<Key>, x: Key, k: nat)
    requires StrictWeak(less) && Fits(less, ks, x, k)
    ensures InsertKey(less, ks, x) == ks[..k] + [x] + ks[k..]
  {
    if k > 0 {
      assert less(ks[0], x);
      InsertKeyAt(less, ks[1..], x, k - 1);
      assert ks[..k] == [ks[0]] + ks[1..][..k - 1] && ks[k..] == ks[1..][k - 1..];
    } else if ks != [] {
      assert less(x, ks[0]);
    }
  }

  lemma FitsNone(less: Less, ks: seq<Key>, x: Key, k: nat)
    requires StrictWeak(less) && Fits(less, ks, x, k)
    ensures !Has(less, ks, x)
  {
    forall i | 0 <= i < |ks| ensures !Same(less, ks[i], x) { FitsNoSame(less, ks, x, k, i); }
  }

  lemma HasAt(less: Less, ks: seq<Key>, x: Key, k: nat)
    requires k < |ks| && Same(less, ks[k], x)
    ensures Has(less, ks, x)
  {}

  lemma {:induction false} InsertKeyHas(less: Less, ks: seq<Key>, x: Key, i: nat)
    requires StrictWeak(less) && Sorted(less, ks) && i < |ks| && Same(less, ks[i], x)
    ensures InsertKey(less, ks, x) == ks
  {
    if i > 0 {
      assert less(ks[0], ks[i]);
      InsertKeyHas(less, ks[1..], x, i - 1);
    }
  }

  lemma {:induction false} EraseKeyAt(less: Less, ks: seq<Key>, x: Key, i: nat)
    requires StrictWeak(less) && Sorted(less, ks) && i < |ks| && Same(less, ks[i], x)
    ensures EraseKey(less, ks, x) == ks[..i] + ks[i + 1..]
  {
    hide StrictWeak, Sorted;
    if i == 0 {
      assert ks[..0] + ks[1..] == ks[1..];
    } else {
      EarlierDiffers(less, ks, x, i);
      EraseKeyAt(less, ks[1..], x, i - 1);
      assert ks[..i] + ks[i + 1..] == [ks[0]] + (ks[1..][..i - 1] + ks[1..][i..]);
    }
  }

  lemma EarlierDiffers(less: Less, ks: seq<Key>, x: Key, i: nat)
    requires StrictWeak(less) && Sorted(less, ks) && 0 < i < |ks| && Same(less, ks[i], x)
    ensures !Same(less, ks[0], x) && Sorted(less, ks[1..])
  {
    assert less(ks[0], ks[i]);
  }

  lemma HasTail(less: Less, ks: seq<Key>, x: Key)
    requires ks != []
    ensures Has(less, ks, x) <==> Same(less, ks[0], x) || Has(less, ks[1..], x)
  {
    if Has(less, ks, x) && !Same(less, ks[0], x) {
      var i :| 0 <= i < |ks| && Same(less, ks[i], x);
      assert Same(less, ks[1..][i - 1], x);
    }
    if Has(less, ks[1..], x) {
      var i :| 0 <= i < |ks| - 1 && Same(less, ks[1..][i], x);
      assert Same(less, ks[i + 1], x);
    }
  }

  lemma {:induction false} EraseKeyNone(less: Less, ks: seq<Key>, x: Key)
    requires !Has(less, ks, x)
    ensures EraseKey(less, ks, x) == ks
  {
    if ks != [] {
      HasTail(less, ks, x);
      EraseKeyNone(less, ks[1..], x);
    }
  }

  /** Inserting adds one class of equal keys to the set and keeps the list sorted. */
  lemma {:induction false} InsertKeyMembers(less: Less, ks: seq<Key>, x: Key, y: Key)
    requires StrictWeak(less) && Sorted(less, ks)
    ensures Has(less, InsertKey(less, ks, x), y) <==> Has(less, ks, y) || Same(less, x, y)
    ensures Sorted(less, InsertKey(less, ks, x))
    ensures forall z :: (forall i :: 0 <= i < |ks| ==> less(z, ks[i])) && less(z, x) ==> forall i :: 0 <= i < |InsertKey(less, ks, x)| ==> less(z, InsertKey(less, ks, x)[i])
  {
    var r := InsertKey(less, ks, x);
    HasTail(less, r, y);
    if ks != [] {
      HasTail(less, ks, y);
      if less(ks[0], x) {
        InsertKeyMembers(less, ks[1..], x, y);
        assert forall i :: 0 <= i < |ks[1..]| ==> less(ks[0], ks[1..][i]);
        assert r[1..] == InsertKey(less, ks[1..], x);
      } else if less(x, ks[0]) {
        assert r[1..] == ks;
      }
    }
  }

  lemma SameAlike(less: Less, a: Key, b: Key, y: Key)
    requires StrictWeak(less) && Same(less, a, b)
    ensures Same(less, a, y) <==> Same(less, b, y)
  {
  }

  lemma RemoveMembers(less: Less, ks: seq<Key>, i: nat, y: Key)
    requires StrictWeak(less) && Sorted(less, ks) && i < |ks|
    ensures Has(less, ks[..i] + ks[i + 1..], y) <==> Has(less, ks, y) && !Same(less, ks[i], y)
  {
    hide Sorted, StrictWeak, Same;
    var r := ks[..i] + ks[i + 1..];
    if Has(less, r, y) {
      var j :| 0 <= j < |r| && Same(less, r[j], y);
      var m := if j < i then j else j + 1;
      assert Same(less, ks[m], y);
      if Same(less, ks[i], y) { SameOnce(less, ks, y, i, m); }
    }
    if Has(less, ks, y) && !Same(less, ks[i], y) {
      var j :| 0 <= j < |ks| && Same(less, ks[j], y);
      assert Same(less, r[if j < i then j else j - 1], y);
    }
  }

  /** Erasing removes one class of equal keys and keeps the list sorted. */
  lemma EraseKeyMembers(less: Less, ks: seq<Key>, x: Key, y: Key)
    requires StrictWeak(less) && Sorted(less, ks)
    ensures Has(less, EraseKey(less, ks, x), y) <==> Has(less, ks, y) && !Same(less, x, y)
    ensures Sorted(less, EraseKey(less, ks, x))
  {
    hide Sorted, StrictWeak, Same, EraseKey;
    if i :| 0 <= i < |ks| && Same(less, ks[i], x) {
      EraseKeyAt(less, ks, x, i);
      RemoveSorted(less, ks, i);
      RemoveMembers(less, ks, i, y);
      SameAlike(less, ks[i], x, y);
    } else {
      EraseKeyNone(less, ks, x);
      if j :| 0 <= j < |ks| && Same(less, ks[j], y) { AlikeTurned(less, ks[j], x, y); }
    }
  }

  lemma AlikeTurned(less: Less, a: Key, x: Key, y: Key)
    requires StrictWeak(less) && Same(less, a, y) && !Same(less, a, x)
    ensures !Same(less, x, y)
  {
  }

  /** After any run of inserts the set has what it had and what was inserted. */
  lemma {:induction false} InsertAllMembers(less: Less, ks: seq<Key>, data: seq<Key>, y: Key)
    requires StrictWeak(less) && Sorted(less, ks)
    ensures Has(less, InsertAll(less, ks, data), y) <==> Has(less, ks, y) || Has(less, data, y)
    ensures Sorted(less, InsertAll(less, ks, data))
  {
    hide InsertKey, Sorted, StrictWeak;
    if data != [] {
      var n := |data| - 1;
      InsertAllMembers(less, ks, data[..n], y);
      InsertKeyMembers(less, InsertAll(less, ks, data[..n]), data[n], y);
      HasLast(less, data, y);
    }
  }

  /** After any run of erasures the set has exactly the keys that were not erased. */
  lemma {:induction false} EraseAllMembers(less: Less, ks: seq<Key>, data: seq<Key>, y: Key)
    requires StrictWeak(less) && Sorted(less, ks)
    ensures Has(less, EraseAll(less, ks, data), y) <==> Has(less, ks, y) && !Has(less, data, y)
    ensures Sorted(less, EraseAll(less, ks, data))
  {
    hide EraseKey, Sorted, StrictWeak;
    if data != [] {
      var n := |data| - 1;
      EraseAllMembers(less, ks, data[..n], y);
      EraseKeyMembers(less, EraseAll(less, ks, data[..n]), data[n], y);
      HasLast(less, data, y);
    }
  }

  lemma HasLast(less: Less, ks: seq<Key>, x: Key)
    requires ks != []
    ensures Has(less, ks, x) <==> Has(less, ks[..|ks| - 1], x) || Same(less, ks[|ks| - 1], x)
  {
    if Has(less, ks, x) && !Same(less, ks[|ks| - 1], x) {
      var i :| 0 <= i < |ks| && Same(less, ks[i], x);
      assert Same(less, ks[..|ks| - 1][i], x);
    }
    if Has(less, ks[..|ks| - 1], x) {
      var i :| 0 <= i < |ks| - 1 && Same(less, ks[..|ks| - 1][i], x);
      assert Same(less, ks[i], x);
    }
  }
}

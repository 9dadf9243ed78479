/** The comparator and what a search in a sorted list of keys may conclude. */
module RbOrder {
  import opened RbNodes

  type Less = (Key, Key) -> bool

  ghost predicate StrictWeak(less: Less)
  {
    && (forall a :: !less(a, a))
    && (forall a, b, c :: less(a, b) && less(b, c) ==> less(a, c))
    && (forall a, b, c :: less(a, c) ==> less(a, b) || less(b, c))
  }

  ghost predicate Sorted(less: Less, ks: seq<Key>)
  {
    forall i, j :: 0 <= i < j < |ks| ==> less(ks[i], ks[j])
  }

  predicate Same(less: Less, a: Key, b: Key) { !less(a, b) && !less(b, a) }

  /** All keys before `k` are less than `x`. */
  ghost predicate Below(less: Less, ks: seq<Key>, x: Key, k: int)
  {
    0 <= k <= |ks| && forall i :: 0 <= i < k ==> less(ks[i], x)
  }

  /** `x` is less than all keys from `k` on. */
  ghost predicate Above(less: Less, ks: seq<Key>, x: Key, k: int)
  {
    0 <= k <= |ks| && forall i :: k <= i < |ks| ==> less(x, ks[i])
  }

  /** `x` can be inserted at `k`, and nowhere else. */
  ghost predicate Fits(less: Less, ks: seq<Key>, x: Key, k: int) { Below(less, ks, x, k) && Above(less, ks, x, k) }

  lemma FitsOnce(less: Less, ks: seq<Key>, x: Key, k: int, m: int)
    requires StrictWeak(less) && Fits(less, ks, x, k) && Fits(less, ks, x, m)
    ensures k == m
  {
    assert k < |ks| ==> less(x, ks[k]);
    assert m < |ks| ==> less(x, ks[m]);
  }

  lemma FitsNoSame(less: Less, ks: seq<Key>, x: Key, k: int, i: int)
    requires StrictWeak(less) && Fits(less, ks, x, k) && 0 <= i < |ks|
    ensures !Same(less, ks[i], x)
  {
  }

  lemma SameOnce(less: Less, ks: seq<Key>, x: Key, i: int, j: int)
    requires StrictWeak(less) && Sorted(less, ks) && 0 <= i < |ks| && 0 <= j < |ks| && Same(less, ks[i], x) && Same(less, ks[j], x)
    ensures i == j
  {
  }

  lemma GoLeft(less: Less, ks: seq<Key>, x: Key, i: int)
    requires StrictWeak(less) && Sorted(less, ks) && 0 <= i < |ks| && less(x, ks[i])
    ensures Above(less, ks, x, i)
  {
    forall j | i <= j < |ks| ensures less(x, ks[j]) { if i < j { assert less(ks[i], ks[j]); } }
  }

  lemma GoRight(less: Less, ks: seq<Key>, x: Key, i: int)
    requires StrictWeak(less) && Sorted(less, ks) && 0 <= i < |ks| && less(ks[i], x)
    ensures Below(less, ks, x, i + 1)
  {
    forall j | 0 <= j < i + 1 ensures less(ks[j], x) { if j < i { assert less(ks[j], ks[i]); } }
  }

  /** None of the keys from `k` on is less than `x`. */
  ghost predicate NotBelow(less: Less, ks: seq<Key>, x: Key, k: int)
  {
    0 <= k <= |ks| && forall i :: k <= i < |ks| ==> !less(ks[i], x)
  }

  lemma StayLeft(less: Less, ks: seq<Key>, x: Key, i: int)
    requires StrictWeak(less) && Sorted(less, ks) && 0 <= i < |ks| && !less(ks[i], x)
    ensures NotBelow(less, ks, x, i)
  {
    forall j | i <= j < |ks| ensures !less(ks[j], x) { if i < j { assert less(ks[i], ks[j]); } }
  }

  lemma InsertSorted(less: Less, ks: seq<Key>, x: Key, k: int)
    requires Sorted(less, ks) && Fits(less, ks, x, k)
    ensures Sorted(less, ks[..k] + [x] + ks[k..])
  {
  }

  lemma RemoveSorted(less: Less, ks: seq<Key>, k: int)
    requires Sorted(less, ks) && 0 <= k < |ks|
    ensures Sorted(less, ks[..k] + ks[k + 1..])
  {
  }

  lemma BelowLess(less: Less, ks: seq<Key>, x: Key, k: int, m: int)
    requires Below(less, ks, x, k) && 0 <= m <= k
    ensures Below(less, ks, x, m)
  {
  }

  lemma AboveMore(less: Less, ks: seq<Key>, x: Key, k: int, m: int)
    requires Above(less, ks, x, k) && k <= m <= |ks|
    ensures Above(less, ks, x, m)
  {
  }

  lemma BelowStart(less: Less, ks: seq<Key>, x: Key)
    ensures Below(less, ks, x, 0)
  {
  }

  lemma AboveEnd(less: Less, ks: seq<Key>, x: Key)
    ensures Above(less, ks, x, |ks|)
  {
  }
}

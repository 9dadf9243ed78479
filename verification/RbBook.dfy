/** The reference for runs that mix the operations of a tree: its keys, its spare nodes, and the calls of the allocator. */
module RbBook {
  import opened RbNodes
  import opened RbOrder
  import opened RbSet
  import opened RbPool

  /** One operation, with what the allocator answers if it is asked; positions are places in the list, or behind it. */
  datatype Op =
    | Insertion(x: Key, answer: Answer)
    | HintedInsertion(hint: nat, x: Key, answer: Answer)
    | Removal(x: Key)
    | RemovalAt(pos: nat)
    | Reservation(c: nat, base: nat, slack: nat)
    | Clearing
    | Shrinking

  /**
   * A finite ordered set, which of its nodes came with a block, which of the spare ones did, and how often the allocator
   * was asked.
   */
  datatype Book = Book(keys: seq<Key>, held: seq<bool>, spare: seq<bool>, asked: nat)

  predicate Inserts(op: Op) { op.Insertion? || op.HintedInsertion? }

  function KeysNext(less: Less, ks: seq<Key>, op: Op): seq<Key> {
    match op
    case Insertion(x, _) => InsertKey(less, ks, x)
    case HintedInsertion(_, x, _) => InsertKey(less, ks, x)
    case Removal(x) => EraseKey(less, ks, x)
    case RemovalAt(i) => if i < |ks| then ks[..i] + ks[i + 1..] else ks
    case Clearing => []
    case _ => ks
  }

  /** The first place whose key is not less. */
  function PlaceOf(less: Less, ks: seq<Key>, x: Key): (k: nat)
    ensures k <= |ks|
  {
    if ks == [] || !less(ks[0], x) then 0 else 1 + PlaceOf(less, ks[1..], x)
  }

  predicate Present(less: Less, ks: seq<Key>, x: Key) {
    var k := PlaceOf(less, ks, x);
    k < |ks| && !less(x, ks[k])
  }

  /** How often the operation asks the allocator. */
  function Asks(op: Op, size: nat, spare: nat): nat {
    if (Inserts(op) && spare == 0) || (op.Reservation? && op.c > size + spare) then 1 else 0
  }

  /** How many nodes the allocator gives then. */
  function Given(op: Op, size: nat, spare: nat): nat {
    if Asks(op, size, spare) == 0 then 0 else if Inserts(op) then 1 else op.c - size
  }

  function Without(q: seq<bool>, k: nat): seq<bool>
    requires k < |q|
  {
    q[..k] + q[k + 1..]
  }

  /** As many nodes as keys. */
  predicate Even(b: Book) { |b.held| == |b.keys| }

  /** The nodes after an operation; `visited` is the order in which `clear` destroys them. */
  function Next(less: Less, persistent: bool, b: Book, op: Op, visited: seq<bool>): Book {
    var ks, asked := KeysNext(less, b.keys, op), b.asked + Asks(op, |b.keys|, |b.spare|);
    var (held, spare) :=
      match op
      case Insertion(x, _) => InsertNode(persistent, b, PlaceOf(less, b.keys, x), Present(less, b.keys, x))
      case HintedInsertion(_, x, _) => InsertNode(persistent, b, PlaceOf(less, b.keys, x), Present(less, b.keys, x))
      case Removal(x) => RemoveNode(persistent, b, if Present(less, b.keys, x) then PlaceOf(less, b.keys, x) else |b.keys|)
      case RemovalAt(i) => RemoveNode(persistent, b, i)
      case Reservation(c, _, _) => (b.held, Trues(Given(op, |b.keys|, |b.spare|)) + b.spare)
      case Clearing => ([], TossAll(b.spare, visited, persistent))
      case Shrinking => (b.held, if b.keys == [] then [] else Only(b.spare));
    Book(ks, held, spare, asked)
  }

  /** The first spare node, or one of its own, becomes a node of the tree, or is thrown back. */
  function InsertNode(persistent: bool, b: Book, k: nat, present: bool): (seq<bool>, seq<bool>) {
    if present || k > |b.held| then (b.held, Toss(NextFlag(b.spare), Rest(b.spare), persistent))
    else (b.held[..k] + [NextFlag(b.spare)] + b.held[k..], Rest(b.spare))
  }

  function RemoveNode(persistent: bool, b: Book, k: nat): (seq<bool>, seq<bool>) {
    if k < |b.held| then (Without(b.held, k), Toss(b.held[k], b.spare, persistent)) else (b.held, b.spare)
  }

  /* ---- places ---- */

  lemma {:induction false} PlaceIs(less: Less, ks: seq<Key>, x: Key, k: nat)
    requires k <= |ks| && (forall i :: 0 <= i < k ==> less(ks[i], x)) && (k < |ks| ==> !less(ks[k], x))
    ensures PlaceOf(less, ks, x) == k
  {
    if k > 0 {
      assert less(ks[0], x);
      PlaceIs(less, ks[1..], x, k - 1);
    }
  }

  lemma PlaceOfNew(less: Less, ks: seq<Key>, x: Key, k: nat)
    requires StrictWeak(less) && Fits(less, ks, x, k)
    ensures PlaceOf(less, ks, x) == k && !Present(less, ks, x)
  {
    assert k < |ks| ==> less(x, ks[k]);
    PlaceIs(less, ks, x, k);
  }

  lemma PlaceOfSame(less: Less, ks: seq<Key>, x: Key, k: nat)
    requires StrictWeak(less) && Sorted(less, ks) && k < |ks| && Same(less, ks[k], x)
    ensures PlaceOf(less, ks, x) == k && Present(less, ks, x)
  {
    forall i | 0 <= i < k ensures less(ks[i], x) { assert less(ks[i], ks[k]); }
    PlaceIs(less, ks, x, k);
  }

  lemma {:induction false} PlaceSplits(less: Less, ks: seq<Key>, x: Key)
    ensures var k := PlaceOf(less, ks, x); (forall i :: 0 <= i < k ==> less(ks[i], x)) && (k < |ks| ==> !less(ks[k], x))
  {
    if ks != [] && less(ks[0], x) {
      PlaceSplits(less, ks[1..], x);
      assert forall i :: 0 < i < |ks| ==> ks[i] == ks[1..][i - 1];
    }
  }

  /** What the two places mean: an insert goes there, an erasure takes from there. */
  lemma PlaceMeans(less: Less, ks: seq<Key>, x: Key)
    requires StrictWeak(less) && Sorted(less, ks)
    ensures var k := PlaceOf(less, ks, x);
      && (forall i :: 0 <= i < k ==> less(ks[i], x)) && (k < |ks| ==> !less(ks[k], x))
      && (Present(less, ks, x) <==> Has(less, ks, x))
      && (Present(less, ks, x) <==> exists i :: 0 <= i < |ks| && !less(ks[i], x) && !less(x, ks[i]))
      && InsertKey(less, ks, x) == (if Present(less, ks, x) then ks else ks[..k] + [x] + ks[k..])
      && EraseKey(less, ks, x) == (if Present(less, ks, x) then ks[..k] + ks[k + 1..] else ks)
  {
    hide InsertKey, EraseKey, PlaceOf;
    var k := PlaceOf(less, ks, x);
    PlaceSplits(less, ks, x);
    if Present(less, ks, x) {
      assert Same(less, ks[k], x);
      assert !less(ks[k], x) && !less(x, ks[k]);
      InsertKeyHas(less, ks, x, k);
      EraseKeyAt(less, ks, x, k);
    } else {
      forall i | k <= i < |ks| ensures less(x, ks[i]) { assert i > k ==> less(ks[k], ks[i]); }
      assert Fits(less, ks, x, k);
      InsertKeyAt(less, ks, x, k);
      forall i | 0 <= i < |ks| ensures !Same(less, ks[i], x) && (less(ks[i], x) || less(x, ks[i])) { FitsNoSame(less, ks, x, k, i); }
      EraseKeyNone(less, ks, x);
    }
  }

  /* ---- runs ---- */

  function KeysAfter(less: Less, ks: seq<Key>, ops: seq<Op>): seq<Key> {
    if ops == [] then ks else KeysNext(less, KeysAfter(less, ks, ops[..|ops| - 1]), ops[|ops| - 1])
  }

  function After(less: Less, persistent: bool, b: Book, ops: seq<Op>, visits: seq<seq<bool>>): Book
    requires |visits| == |ops|
  {
    if ops == [] then b else
    var n := |ops| - 1;
    Next(less, persistent, After(less, persistent, b, ops[..n], visits[..n]), ops[n], visits[n])
  }

  /** The operations happen in the order in which they are given. */
  lemma AfterMeans(less: Less, persistent: bool, b: Book, ops: seq<Op>, visits: seq<seq<bool>>, op: Op, visited: seq<bool>)
    requires |visits| == |ops|
    ensures After(less, persistent, b, [], []) == b
    ensures After(less, persistent, b, ops + [op], visits + [visited]) == Next(less, persistent, After(less, persistent, b, ops, visits), op, visited)
    ensures KeysAfter(less, b.keys, ops + [op]) == KeysNext(less, KeysAfter(less, b.keys, ops), op)
  {
    hide Next, KeysNext;
    assert (ops + [op])[..|ops|] == ops && (visits + [visited])[..|ops|] == visits;
  }

  /** What `clear` destroys is what is there. */
  ghost predicate Visits(b: Book, op: Op, visited: seq<bool>) { op.Clearing? ==> multiset(visited) == multiset(b.held) }

  ghost predicate AllVisits(less: Less, persistent: bool, b: Book, ops: seq<Op>, visits: seq<seq<bool>>)
    requires |visits| == |ops|
  {
    ops == [] ||
    var n := |ops| - 1;
    AllVisits(less, persistent, b, ops[..n], visits[..n]) && Visits(After(less, persistent, b, ops[..n], visits[..n]), ops[n], visits[n])
  }

  /** The operations that may ask the allocator. */
  function MayAsk(ops: seq<Op>): nat {
    if ops == [] then 0
    else MayAsk(ops[..|ops| - 1]) + if Inserts(ops[|ops| - 1]) || ops[|ops| - 1].Reservation? then 1 else 0
  }

  /** The nodes the allocator gives in a run. */
  function AllGiven(less: Less, persistent: bool, b: Book, ops: seq<Op>, visits: seq<seq<bool>>): nat
    requires |visits| == |ops|
  {
    if ops == [] then 0 else
    var n := |ops| - 1;
    var a := After(less, persistent, b, ops[..n], visits[..n]);
    AllGiven(less, persistent, b, ops[..n], visits[..n]) + Given(ops[n], |a.keys|, |a.spare|)
  }

  /** What decides whether a key is in the set: the last operation that says something about it. */
  predicate Holds(less: Less, ks: seq<Key>, had: bool, ops: seq<Op>, y: Key) {
    if ops == [] then had else
    var n := |ops| - 1;
    var before := Holds(less, ks, had, ops[..n], y);
    match ops[n]
    case Insertion(x, _) => Same(less, x, y) || before
    case HintedInsertion(_, x, _) => Same(less, x, y) || before
    case Removal(x) => !Same(less, x, y) && before
    case RemovalAt(i) => before && !(i < |KeysAfter(less, ks, ops[..n])| && Same(less, KeysAfter(less, ks, ops[..n])[i], y))
    case Clearing => false
    case _ => before
  }

  lemma StepMembers(less: Less, ks: seq<Key>, op: Op, y: Key)
    requires StrictWeak(less) && Sorted(less, ks)
    ensures Sorted(less, KeysNext(less, ks, op))
    ensures Has(less, KeysNext(less, ks, op), y) <==>
      match op
      case Insertion(x, _) => Same(less, x, y) || Has(less, ks, y)
      case HintedInsertion(_, x, _) => Same(less, x, y) || Has(less, ks, y)
      case Removal(x) => !Same(less, x, y) && Has(less, ks, y)
      case RemovalAt(i) => Has(less, ks, y) && !(i < |ks| && Same(less, ks[i], y))
      case Clearing => false
      case _ => Has(less, ks, y)
  {
    hide StrictWeak, Sorted, InsertKey, EraseKey, Same;
    match op
    case Insertion(x, _) => InsertKeyMembers(less, ks, x, y);
    case HintedInsertion(_, x, _) => InsertKeyMembers(less, ks, x, y);
    case Removal(x) => EraseKeyMembers(less, ks, x, y);
    case RemovalAt(i) =>
      if i < |ks| {
        RemoveMembers(less, ks, i, y);
        RemoveSorted(less, ks, i);
      }
    case Clearing => NothingSorted(less);
    case _ =>
  }

  lemma NothingSorted(less: Less)
    ensures Sorted(less, [])
  {}

  /** After any run a key is in the set, up to equal keys, exactly if the last word about it says so. */
  lemma {:induction false} RunMembers(less: Less, ks: seq<Key>, ops: seq<Op>, y: Key)
    requires StrictWeak(less) && Sorted(less, ks)
    ensures Has(less, KeysAfter(less, ks, ops), y) <==> Holds(less, ks, Has(less, ks, y), ops, y)
    ensures Sorted(less, KeysAfter(less, ks, ops))
  {
    hide StrictWeak, Sorted, KeysNext, Has, Same;
    if ops != [] {
      var rest := ops[..|ops| - 1];
      RunMembers(less, ks, rest, y);
      StepMembers(less, KeysAfter(less, ks, rest), ops[|ops| - 1], y);
    }
  }

  /* ---- how many nodes ---- */

  predicate NoShrinking(ops: seq<Op>) { forall i :: 0 <= i < |ops| ==> !ops[i].Shrinking? }

  lemma {:induction false} TossAllSize(spare: seq<bool>, flags: seq<bool>, persistent: bool)
    ensures |spare| <= |TossAll(spare, flags, persistent)| <= |spare| + |flags|
    ensures persistent ==> |TossAll(spare, flags, persistent)| == |spare| + |flags|
  {
    if flags != [] {
      TossAllSize(spare, flags[..|flags| - 1], persistent);
    }
  }

  lemma AsMany(a: seq<bool>, b: seq<bool>)
    requires multiset(a) == multiset(b)
    ensures |a| == |b|
  {
    assert |a| == |multiset(a)| && |b| == |multiset(b)|;
  }

  /** One operation: no node is made up, and in persistent mode none is lost unless the pool is given back. */
  lemma StepNodes(less: Less, persistent: bool, b: Book, op: Op, visited: seq<bool>)
    requires StrictWeak(less) && Sorted(less, b.keys) && Even(b) && Visits(b, op, visited)
    ensures var r := Next(less, persistent, b, op, visited);
      && Even(r)
      && |r.held| + |r.spare| <= |b.held| + |b.spare| + Given(op, |b.keys|, |b.spare|)
      && (persistent && !op.Shrinking? ==> |r.held| + |r.spare| == |b.held| + |b.spare| + Given(op, |b.keys|, |b.spare|))
      && (!op.Shrinking? ==> |r.spare| + (if Inserts(op) then 1 else 0) >= |b.spare|)
  {
    hide StrictWeak, Sorted, InsertKey, EraseKey, PlaceOf, TossAll;
    match op
    case Insertion(x, _) => PlaceMeans(less, b.keys, x);
    case HintedInsertion(_, x, _) => PlaceMeans(less, b.keys, x);
    case Removal(x) => PlaceMeans(less, b.keys, x);
    case RemovalAt(_) =>
    case Reservation(_, _, _) =>
    case Clearing =>
      TossAllSize(b.spare, visited, persistent);
      AsMany(visited, b.held);
    case Shrinking => OnlyFew(b.spare);
  }

  lemma {:induction false} OnlyFew(spare: seq<bool>)
    ensures |Only(spare)| <= |spare|
  {
    if spare != [] {
      OnlyFew(spare[1..]);
    }
  }

  /**
   * The nodes of the tree and the spare ones: never more than there were and the allocator gave, and in persistent mode
   * exactly those, unless the pool is given back.
   */
  lemma {:induction false} NodesBalance(less: Less, persistent: bool, b: Book, ops: seq<Op>, visits: seq<seq<bool>>)
    requires StrictWeak(less) && Sorted(less, b.keys) && Even(b) && |visits| == |ops| && AllVisits(less, persistent, b, ops, visits)
    ensures var (a, given) := (After(less, persistent, b, ops, visits), AllGiven(less, persistent, b, ops, visits));
      && Even(a) && a.keys == KeysAfter(less, b.keys, ops) && Sorted(less, a.keys)
      && |a.held| + |a.spare| <= |b.held| + |b.spare| + given
      && (persistent && NoShrinking(ops) ==> |a.held| + |a.spare| == |b.held| + |b.spare| + given)
    decreases |ops|
  {
    hide StrictWeak, Sorted, KeysNext, Next, Visits, Given, Even;
    if ops != [] {
      var n := |ops| - 1;
      NodesBalance(less, persistent, b, ops[..n], visits[..n]);
      var a := After(less, persistent, b, ops[..n], visits[..n]);
      StepNodes(less, persistent, a, ops[n], visits[n]);
      NextIs(less, persistent, a, ops[n], visits[n]);
      StepSorted(less, a.keys, ops[n]);
    }
  }

  lemma NextIs(less: Less, persistent: bool, b: Book, op: Op, visited: seq<bool>)
    ensures var r := Next(less, persistent, b, op, visited);
      r.keys == KeysNext(less, b.keys, op) && r.asked == b.asked + Asks(op, |b.keys|, |b.spare|)
  {
    hide KeysNext;
  }

  lemma StepSorted(less: Less, ks: seq<Key>, op: Op)
    requires StrictWeak(less) && Sorted(less, ks)
    ensures Sorted(less, KeysNext(less, ks, op))
  {
    var y: Key := *;
    StepMembers(less, ks, op, y);
  }

  /**
   * No run without a reservation asks the allocator as long as there are spare nodes for its inserts and the pool is not
   * given back, whatever is erased or cleared between.
   */
  lemma {:induction false} ReservedIsFree(less: Less, persistent: bool, b: Book, ops: seq<Op>, visits: seq<seq<bool>>)
    requires StrictWeak(less) && Sorted(less, b.keys) && Even(b) && |visits| == |ops| && AllVisits(less, persistent, b, ops, visits)
    requires WithinPool(ops, |b.spare|)
    ensures var a := After(less, persistent, b, ops, visits); a.asked == b.asked && |a.spare| + MayAsk(ops) >= |b.spare|
    decreases |ops|
  {
    hide StrictWeak, Sorted, KeysNext, Next, Visits, Even;
    if ops != [] {
      var n := |ops| - 1;
      ReservedIsFree(less, persistent, b, ops[..n], visits[..n]);
      NodesBalance(less, persistent, b, ops[..n], visits[..n]);
      var a := After(less, persistent, b, ops[..n], visits[..n]);
      StepNodes(less, persistent, a, ops[n], visits[n]);
      NextIs(less, persistent, a, ops[n], visits[n]);
    }
  }

  lemma {:induction false} AskedAtMost(less: Less, persistent: bool, b: Book, ops: seq<Op>, visits: seq<seq<bool>>)
    requires |visits| == |ops|
    ensures b.asked <= After(less, persistent, b, ops, visits).asked <= b.asked + MayAsk(ops)
    decreases |ops|
  {
    hide Next;
    if ops != [] {
      var n := |ops| - 1;
      AskedAtMost(less, persistent, b, ops[..n], visits[..n]);
      NextIs(less, persistent, After(less, persistent, b, ops[..n], visits[..n]), ops[n], visits[n]);
    }
  }

  /** Inserts that fit the spare nodes, and nothing that asks for more or gives them back. */
  predicate WithinPool(ops: seq<Op>, spare: nat) {
    NoShrinking(ops) && (forall i :: 0 <= i < |ops| ==> !ops[i].Reservation?) && MayAsk(ops) <= spare
  }

  /* ---- which nodes ---- */

  function Count(q: seq<bool>): nat { multiset(q)[true] }

  /** The preallocated nodes, in the tree and spare. */
  function Preallocated(b: Book): nat { Count(b.held) + Count(b.spare) }

  lemma CountJoin(a: seq<bool>, b: seq<bool>)
    ensures Count(a + b) == Count(a) + Count(b)
  {}

  lemma CountOne(flag: bool)
    ensures Count([flag]) == if flag then 1 else 0
  {}

  lemma TossCount(flag: bool, spare: seq<bool>, persistent: bool)
    ensures Count(Toss(flag, spare, persistent)) == Count(spare) + if flag then 1 else 0
  {
    CountJoin([flag], spare);
  }

  lemma {:induction false} TossAllCount(spare: seq<bool>, flags: seq<bool>, persistent: bool)
    ensures Count(TossAll(spare, flags, persistent)) == Count(spare) + Count(flags)
  {
    if flags != [] {
      var w := flags[..|flags| - 1];
      TossAllCount(spare, w, persistent);
      TossCount(flags[|flags| - 1], TossAll(spare, w, persistent), persistent);
      CountJoin(w, [flags[|flags| - 1]]);
      assert flags == w + [flags[|flags| - 1]];
    }
  }

  lemma {:induction false} OnlyCount(spare: seq<bool>)
    ensures Count(Only(spare)) == Count(spare)
  {
    if spare != [] {
      OnlyCount(spare[1..]);
      CountJoin([spare[0]], spare[1..]);
      CountJoin(if spare[0] then [true] else [], Only(spare[1..]));
      assert spare == [spare[0]] + spare[1..];
    }
  }

  lemma RestCount(spare: seq<bool>)
    ensures Count(spare) == Count(Rest(spare)) + if NextFlag(spare) then 1 else 0
  {
    if spare != [] {
      CountJoin([spare[0]], spare[1..]);
      assert spare == [spare[0]] + spare[1..];
    }
  }

  lemma AroundCount(q: seq<bool>, k: nat, flag: bool)
    requires k <= |q|
    ensures Count(q[..k] + [flag] + q[k..]) == Count(q) + if flag then 1 else 0
    ensures k < |q| ==> Count(q) == Count(Without(q, k)) + if q[k] then 1 else 0
  {
    hide Count;
    assert Count([flag]) == if flag then 1 else 0 by { CountOne(flag); }
    CountJoin(q[..k] + [flag], q[k..]);
    CountJoin(q[..k], [flag]);
    CountJoin(q[..k], q[k..]);
    assert q == q[..k] + q[k..];
    if k < |q| {
      CountJoin(q[..k], q[k + 1..]);
      CountOne(q[k]);
      CountJoin([q[k]], q[k + 1..]);
      assert q[k..] == [q[k]] + q[k + 1..];
    }
  }

  lemma {:induction false} TruesCount(n: nat)
    ensures Count(Trues(n)) == n
  {
    if n > 0 {
      TruesCount(n - 1);
      CountJoin([true], Trues(n - 1));
      assert Trues(n) == [true] + Trues(n - 1);
    }
  }

  /** In every mode a preallocated node stays, in the tree or spare, until the pool of an empty tree is given back. */
  lemma StepPreallocated(less: Less, persistent: bool, b: Book, op: Op, visited: seq<bool>)
    requires Visits(b, op, visited) && (op.Shrinking? ==> b.keys != [])
    ensures Preallocated(Next(less, persistent, b, op, visited)) ==
      Preallocated(b) + if op.Reservation? then Given(op, |b.keys|, |b.spare|) else 0
  {
    hide KeysNext, Count, Toss, TossAll, Trues, Only, NextFlag, Rest, Without, Present, PlaceOf, InsertNode, RemoveNode;
    match op
    case Insertion(x, _) => InsertPreallocated(persistent, b, PlaceOf(less, b.keys, x), Present(less, b.keys, x));
    case HintedInsertion(_, x, _) => InsertPreallocated(persistent, b, PlaceOf(less, b.keys, x), Present(less, b.keys, x));
    case Removal(x) => RemovePreallocated(persistent, b, if Present(less, b.keys, x) then PlaceOf(less, b.keys, x) else |b.keys|);
    case RemovalAt(i) => RemovePreallocated(persistent, b, i);
    case Reservation(c, _, _) =>
      var n := Given(op, |b.keys|, |b.spare|);
      TruesCount(n);
      CountJoin(Trues(n), b.spare);
    case Clearing =>
      TossAllCount(b.spare, visited, persistent);
      AsManyTrue(visited, b.held);
    case Shrinking => OnlyCount(b.spare);
  }

  lemma AsManyTrue(a: seq<bool>, b: seq<bool>)
    requires multiset(a) == multiset(b)
    ensures Count(a) == Count(b) && Count([]) == 0
  {}

  lemma InsertPreallocated(persistent: bool, b: Book, k: nat, present: bool)
    ensures var (held, spare) := InsertNode(persistent, b, k, present); Count(held) + Count(spare) == Preallocated(b)
  {
    hide Count, Toss, NextFlag, Rest;
    RestCount(b.spare);
    TossCount(NextFlag(b.spare), Rest(b.spare), persistent);
    if k <= |b.held| {
      AroundCount(b.held, k, NextFlag(b.spare));
    }
  }

  lemma RemovePreallocated(persistent: bool, b: Book, k: nat)
    ensures var (held, spare) := RemoveNode(persistent, b, k); Count(held) + Count(spare) == Preallocated(b)
  {
    hide Count, Toss, Without;
    if k < |b.held| {
      TossCount(b.held[k], b.spare, persistent);
      AroundCount(b.held, k, false);
    }
  }

  /** The preallocated nodes given in a run. */
  function Blocks(less: Less, persistent: bool, b: Book, ops: seq<Op>, visits: seq<seq<bool>>): nat
    requires |visits| == |ops|
  {
    if ops == [] then 0 else
    var n := |ops| - 1;
    var a := After(less, persistent, b, ops[..n], visits[..n]);
    Blocks(less, persistent, b, ops[..n], visits[..n]) + if ops[n].Reservation? then Given(ops[n], |a.keys|, |a.spare|) else 0
  }

  /** The pool is not given back while the tree is empty. */
  predicate KeepsBlocks(less: Less, ks: seq<Key>, ops: seq<Op>) {
    forall i :: 0 <= i < |ops| && ops[i].Shrinking? ==> KeysAfter(less, ks, ops[..i]) != []
  }

  /** No run loses a preallocated node, in any mode, until the pool of an empty tree is given back. */
  lemma {:induction false} PreallocatedStay(less: Less, persistent: bool, b: Book, ops: seq<Op>, visits: seq<seq<bool>>)
    requires |visits| == |ops| && AllVisits(less, persistent, b, ops, visits) && KeepsBlocks(less, b.keys, ops)
    ensures var a := After(less, persistent, b, ops, visits);
      a.keys == KeysAfter(less, b.keys, ops) && Preallocated(a) == Preallocated(b) + Blocks(less, persistent, b, ops, visits)
    decreases |ops|
  {
    hide KeysNext, Next, Visits, Given, Preallocated;
    if ops != [] {
      var n := |ops| - 1;
      assert forall i :: 0 <= i < n ==> ops[..n][..i] == ops[..i];
      PreallocatedStay(less, persistent, b, ops[..n], visits[..n]);
      var a := After(less, persistent, b, ops[..n], visits[..n]);
      StepPreallocated(less, persistent, a, ops[n], visits[n]);
      NextIs(less, persistent, a, ops[n], visits[n]);
    }
  }
}

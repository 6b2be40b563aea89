/**
 * Normalising native container structures: `sorted_if_possible` sorts when
 * the elements can be ordered and keeps the iteration order otherwise, and
 * `nested_tuple` turns a structure of mappings, sequences and other
 * collections into nested tuples, recursively.
 *
 * `NestedTuple` is the intended `nested_tuple`, which keeps the elements it
 * cannot order; `NestedTupleAsWritten` is the code as it stands, which hands
 * `sorted_if_possible` a one-shot iterator and so loses them.
 */
module Containers {

  // ---------------------------------------------------------------------
  // sorted_if_possible
  // ---------------------------------------------------------------------

  /** Python's `<` on some values: whether two of them can be compared at all, and the result when they can. */
  datatype Ordering<!T> = Ordering(comparable: (T, T) -> bool, lt: (T, T) -> bool)

  /** `sorted` raises TypeError unless the elements can be compared with each other. */
  predicate Orderable<T>(xs: seq<T>, comparable: (T, T) -> bool)
  {
    forall i, j :: 0 <= i < |xs| && 0 <= j < |xs| && i != j ==> comparable(xs[i], xs[j])
  }

  /** No element is smaller than an element before it. */
  predicate Sorted<T>(xs: seq<T>, lt: (T, T) -> bool)
  {
    forall i, j :: 0 <= i < j < |xs| ==> !lt(xs[j], xs[i])
  }

  /** `<` is a strict weak order on the values in xs: irreflexive, transitive, and "not less than" is transitive too. */
  ghost predicate StrictWeakOrder<T>(xs: seq<T>, lt: (T, T) -> bool)
  {
    (forall a :: a in xs ==> !lt(a, a))
    && (forall a, b, c :: a in xs && b in xs && c in xs && lt(a, b) && lt(b, c) ==> lt(a, c))
    && (forall a, b, c :: a in xs && b in xs && c in xs && !lt(a, b) && !lt(b, c) ==> !lt(a, c))
  }

  /** Puts x in front of the first element that is not smaller than x (so equal elements keep their order). */
  function Insert<T>(x: T, ys: seq<T>, lt: (T, T) -> bool): seq<T>
  {
    if |ys| == 0 then [x]
    else if !lt(ys[0], x) then [x] + ys
    else [ys[0]] + Insert(x, ys[1..], lt)
  }

  /** A stable sort by `<`, as Python's `sorted` is (`SortStable`). */
  function Sort<T>(xs: seq<T>, lt: (T, T) -> bool): seq<T>
  {
    if |xs| == 0 then [] else Insert(xs[0], Sort(xs[1..], lt), lt)
  }

  /** `sorted_if_possible(iterable)`: sorted when orderable, otherwise `list(iterable)`. */
  function SortedIfPossible<T>(xs: seq<T>, ord: Ordering<T>): seq<T>
  {
    if Orderable(xs, ord.comparable) then Sort(xs, ord.lt) else xs
  }

  lemma {:induction false} InsertPermutes<T>(x: T, ys: seq<T>, lt: (T, T) -> bool)
    ensures multiset(Insert(x, ys, lt)) == multiset(ys) + multiset{x}
  {
    if |ys| > 0 && lt(ys[0], x) {
      InsertPermutes(x, ys[1..], lt);
      assert ys == [ys[0]] + ys[1..];
    }
  }

  lemma {:induction false} SortPermutes<T>(xs: seq<T>, lt: (T, T) -> bool)
    ensures multiset(Sort(xs, lt)) == multiset(xs)
  {
    if |xs| > 0 {
      SortPermutes(xs[1..], lt);
      InsertPermutes(xs[0], Sort(xs[1..], lt), lt);
      assert xs == [xs[0]] + xs[1..];
    }
  }

  lemma {:induction false} InsertSorted<T>(x: T, ys: seq<T>, lt: (T, T) -> bool, zs: seq<T>)
    requires StrictWeakOrder(zs, lt) && x in zs && forall y :: y in ys ==> y in zs
    requires Sorted(ys, lt)
    ensures Sorted(Insert(x, ys, lt), lt)
  {
    if |ys| > 0 {
      if !lt(ys[0], x) {
        forall k | 0 <= k < |ys| ensures !lt(ys[k], x) {
          if k > 0 {
            assert !lt(ys[k], ys[0]);
          }
        }
      } else {
        var rest := Insert(x, ys[1..], lt);
        InsertSorted(x, ys[1..], lt, zs);
        InsertPermutes(x, ys[1..], lt);
        forall k | 0 <= k < |rest| ensures !lt(rest[k], ys[0]) {
          assert rest[k] in multiset(rest);
          if rest[k] != x {
            var i :| 0 <= i < |ys[1..]| && ys[1..][i] == rest[k];
            assert ys[i + 1] == rest[k];
          }
        }
        assert Insert(x, ys, lt) == [ys[0]] + rest;
      }
    }
  }

  lemma {:induction false} SortSorted<T>(xs: seq<T>, lt: (T, T) -> bool, zs: seq<T>)
    requires StrictWeakOrder(zs, lt) && forall x :: x in xs ==> x in zs
    ensures Sorted(Sort(xs, lt), lt)
  {
    if |xs| > 0 {
      SortSorted(xs[1..], lt, zs);
      SortPermutes(xs[1..], lt);
      forall y | y in Sort(xs[1..], lt) ensures y in zs {
        assert y in multiset(Sort(xs[1..], lt));
      }
      InsertSorted(xs[0], Sort(xs[1..], lt), lt, zs);
    }
  }

  /** Neither of a and b is smaller than the other. */
  predicate Equivalent<T>(a: T, b: T, lt: (T, T) -> bool)
  {
    !lt(a, b) && !lt(b, a)
  }

  /** The elements of xs equivalent to e, in their order in xs. */
  function EquivalentTo<T>(xs: seq<T>, e: T, lt: (T, T) -> bool): seq<T>
  {
    if |xs| == 0 then [] else (if Equivalent(xs[0], e, lt) then [xs[0]] else []) + EquivalentTo(xs[1..], e, lt)
  }

  lemma {:induction false} EquivalentToCons<T>(y: T, rest: seq<T>, e: T, lt: (T, T) -> bool)
    ensures EquivalentTo([y] + rest, e, lt) == (if Equivalent(y, e, lt) then [y] else []) + EquivalentTo(rest, e, lt)
  {
    assert ([y] + rest)[0] == y && ([y] + rest)[1..] == rest;
  }

  /** Below an element equivalent to e there is nothing equivalent to e. */
  lemma {:induction false} SmallerNotEquivalent<T>(a: T, x: T, e: T, lt: (T, T) -> bool, zs: seq<T>)
    requires StrictWeakOrder(zs, lt) && a in zs && x in zs && e in zs
    requires lt(a, x) && Equivalent(x, e, lt)
    ensures !Equivalent(a, e, lt)
  {
  }

  /** Inserting x puts it before every element equivalent to it, given that nothing smaller than x is equivalent to it. */
  lemma {:induction false} InsertStable<T>(x: T, ys: seq<T>, lt: (T, T) -> bool, e: T)
    requires forall y :: y in ys && lt(y, x) ==> !(Equivalent(x, e, lt) && Equivalent(y, e, lt))
    ensures EquivalentTo(Insert(x, ys, lt), e, lt) == (if Equivalent(x, e, lt) then [x] else []) + EquivalentTo(ys, e, lt)
    decreases |ys|
  {
    if |ys| == 0 {
      EquivalentToCons(x, ys, e, lt);
      assert Insert(x, ys, lt) == [x] + ys;
    } else if !lt(ys[0], x) {
      EquivalentToCons(x, ys, e, lt);
    } else {
      var rest := Insert(x, ys[1..], lt);
      assert forall y :: y in ys[1..] ==> y in ys;
      InsertStable(x, ys[1..], lt, e);
      assert ys[0] in ys;
      EquivalentToCons(ys[0], rest, e, lt);
      EquivalentToCons(ys[0], ys[1..], e, lt);
      assert [ys[0]] + ys[1..] == ys;
    }
  }

  /** The sort is stable: the elements equivalent to any e keep their order. */
  lemma {:induction false} SortStable<T>(xs: seq<T>, lt: (T, T) -> bool, e: T, zs: seq<T>)
    requires StrictWeakOrder(zs, lt) && e in zs && forall x :: x in xs ==> x in zs
    ensures EquivalentTo(Sort(xs, lt), e, lt) == EquivalentTo(xs, e, lt)
  {
    if |xs| > 0 {
      var x, ys := xs[0], Sort(xs[1..], lt);
      SortStable(xs[1..], lt, e, zs);
      SortPermutes(xs[1..], lt);
      forall y | y in ys && lt(y, x) ensures !(Equivalent(x, e, lt) && Equivalent(y, e, lt)) {
        if Equivalent(x, e, lt) {
          assert y in multiset(xs[1..]);
          assert y in xs[1..] && xs[0] in xs;
          SmallerNotEquivalent(y, x, e, lt, zs);
        }
      }
      InsertStable(x, ys, lt, e);
      EquivalentToCons(x, xs[1..], e, lt);
      assert [x] + xs[1..] == xs;
    }
  }

  /**
   * `sorted_if_possible` returns the elements it is given, each as often as
   * given; sorted if they can be compared (and `<` orders them), and in the
   * given order if they cannot.
   */
  lemma {:induction false} SortedIfPossibleSound<T>(xs: seq<T>, ord: Ordering<T>)
    ensures multiset(SortedIfPossible(xs, ord)) == multiset(xs)
    ensures Orderable(xs, ord.comparable) && StrictWeakOrder(xs, ord.lt) ==> Sorted(SortedIfPossible(xs, ord), ord.lt)
    ensures !Orderable(xs, ord.comparable) ==> SortedIfPossible(xs, ord) == xs
  {
    SortPermutes(xs, ord.lt);
    if Orderable(xs, ord.comparable) && StrictWeakOrder(xs, ord.lt) {
      SortSorted(xs, ord.lt, xs);
    }
  }

  /**
   * `sorted_if_possible` given a one-shot iterator, as `nested_tuple` gives it
   * `map(...)`: `sorted` reads the whole iterator before it raises TypeError,
   * so the fallback `list(iterable)` finds it exhausted.
   */
  function SortedIfPossibleOnce<T>(xs: seq<T>, ord: Ordering<T>): seq<T>
  {
    if Orderable(xs, ord.comparable) then Sort(xs, ord.lt) else []
  }

  /** On a one-shot iterator the result agrees with `SortedIfPossible` when the elements can be ordered, and is empty when they cannot. */
  lemma {:induction false} SortedIfPossibleOnceSound<T>(xs: seq<T>, ord: Ordering<T>)
    ensures Orderable(xs, ord.comparable) ==> SortedIfPossibleOnce(xs, ord) == SortedIfPossible(xs, ord)
    ensures !Orderable(xs, ord.comparable) ==> SortedIfPossibleOnce(xs, ord) == []
    ensures SortedIfPossibleOnce(xs, ord) == SortedIfPossible(xs, ord) <==> Orderable(xs, ord.comparable) || xs == []
  {
  }

  // ---------------------------------------------------------------------
  // nested_tuple
  // ---------------------------------------------------------------------

  /** The values `nested_tuple` tells apart. */
  datatype PyVal =
    | Atom(id: int)                              // anything that is not a container: a number, None, an expression
    | Str(chars: string)
    | Bytes(octets: seq<bv8>)
    | List(items: seq<PyVal>)                    // a Sequence other than a tuple
    | Tuple(items: seq<PyVal>)
    | OrderedDict(entries: seq<(PyVal, PyVal)>)  // key-value pairs in insertion order
    | Dict(entries: seq<(PyVal, PyVal)>)         // any other Mapping, pairs in iteration order
    | Set(items: seq<PyVal>)                     // a sized iterable container that is not a Sequence, in iteration order

  /**
   * `nested_tuple` as intended: an OrderedDict becomes the tuple of its pairs in order,
   * another Mapping the tuple of its pairs sorted if possible; a string or
   * bytes is left alone; a Sequence becomes the tuple of its elements in
   * order, another collection the tuple of its elements sorted if possible;
   * everything else is left alone. Pairs and elements are transformed too.
   */
  function NestedTuple(v: PyVal, ord: Ordering<PyVal>): PyVal
    decreases v
  {
    match v
    case OrderedDict(entries) => Tuple(NestedPairs(entries, ord))
    case Dict(entries) => Tuple(SortedIfPossible(NestedPairs(entries, ord), ord))
    case List(items) => Tuple(NestedItems(items, ord))
    case Tuple(items) => Tuple(NestedItems(items, ord))
    case Set(items) => Tuple(SortedIfPossible(NestedItems(items, ord), ord))
    case _ => v
  }

  /** `map(nested_tuple, items)`. */
  function NestedItems(items: seq<PyVal>, ord: Ordering<PyVal>): (r: seq<PyVal>)
    ensures |r| == |items| && forall k :: 0 <= k < |items| ==> r[k] == NestedTuple(items[k], ord)
    decreases items
  {
    if |items| == 0 then [] else [NestedTuple(items[0], ord)] + NestedItems(items[1..], ord)
  }

  /** A key-value pair is a tuple of two, so it becomes the tuple of the transformed key and value. */
  function NestedPair(entry: (PyVal, PyVal), ord: Ordering<PyVal>): PyVal
    decreases entry
  {
    Tuple([NestedTuple(entry.0, ord), NestedTuple(entry.1, ord)])
  }

  /** `map(nested_tuple, container.items())`. */
  function NestedPairs(entries: seq<(PyVal, PyVal)>, ord: Ordering<PyVal>): (r: seq<PyVal>)
    ensures |r| == |entries| && forall k :: 0 <= k < |entries| ==> r[k] == NestedPair(entries[k], ord)
    decreases entries
  {
    if |entries| == 0 then [] else [NestedPair(entries[0], ord)] + NestedPairs(entries[1..], ord)
  }

  /**
   * `nested_tuple` as written: a Mapping or another collection is handed to
   * `sorted_if_possible` as a `map` iterator, so one whose transformed pairs
   * or elements cannot be ordered becomes the empty tuple.
   */
  function NestedTupleAsWritten(v: PyVal, ord: Ordering<PyVal>): PyVal
    decreases v
  {
    match v
    case OrderedDict(entries) => Tuple(NestedPairsAsWritten(entries, ord))
    case Dict(entries) => Tuple(SortedIfPossibleOnce(NestedPairsAsWritten(entries, ord), ord))
    case List(items) => Tuple(NestedItemsAsWritten(items, ord))
    case Tuple(items) => Tuple(NestedItemsAsWritten(items, ord))
    case Set(items) => Tuple(SortedIfPossibleOnce(NestedItemsAsWritten(items, ord), ord))
    case _ => v
  }

  function NestedItemsAsWritten(items: seq<PyVal>, ord: Ordering<PyVal>): (r: seq<PyVal>)
    ensures |r| == |items| && forall k :: 0 <= k < |items| ==> r[k] == NestedTupleAsWritten(items[k], ord)
    decreases items
  {
    if |items| == 0 then [] else [NestedTupleAsWritten(items[0], ord)] + NestedItemsAsWritten(items[1..], ord)
  }

  function NestedPairAsWritten(entry: (PyVal, PyVal), ord: Ordering<PyVal>): PyVal
    decreases entry
  {
    Tuple([NestedTupleAsWritten(entry.0, ord), NestedTupleAsWritten(entry.1, ord)])
  }

  function NestedPairsAsWritten(entries: seq<(PyVal, PyVal)>, ord: Ordering<PyVal>): (r: seq<PyVal>)
    ensures |r| == |entries| && forall k :: 0 <= k < |entries| ==> r[k] == NestedPairAsWritten(entries[k], ord)
    decreases entries
  {
    if |entries| == 0 then [] else [NestedPairAsWritten(entries[0], ord)] + NestedPairsAsWritten(entries[1..], ord)
  }

  /** Every Mapping and collection in v has transformed pairs or elements that can be ordered. */
  ghost predicate OrderableThroughout(v: PyVal, ord: Ordering<PyVal>)
    decreases v
  {
    match v
    case OrderedDict(entries) => PairsOrderableThroughout(entries, ord)
    case Dict(entries) => PairsOrderableThroughout(entries, ord) && Orderable(NestedPairs(entries, ord), ord.comparable)
    case List(items) => forall k :: 0 <= k < |items| ==> OrderableThroughout(items[k], ord)
    case Tuple(items) => forall k :: 0 <= k < |items| ==> OrderableThroughout(items[k], ord)
    case Set(items) =>
      (forall k :: 0 <= k < |items| ==> OrderableThroughout(items[k], ord)) && Orderable(NestedItems(items, ord), ord.comparable)
    case _ => true
  }

  ghost predicate PairsOrderableThroughout(entries: seq<(PyVal, PyVal)>, ord: Ordering<PyVal>)
    decreases entries
  {
    forall k :: 0 <= k < |entries| ==>
      var (key, value) := entries[k];
      assert key < entries[k] && value < entries[k];
      OrderableThroughout(key, ord) && OrderableThroughout(value, ord)
  }

  /** Where every collection can be ordered, `nested_tuple` as written gives what the corrected definition gives. */
  lemma {:induction false} AsWrittenAgrees(v: PyVal, ord: Ordering<PyVal>)
    requires OrderableThroughout(v, ord)
    ensures NestedTupleAsWritten(v, ord) == NestedTuple(v, ord)
    decreases v
  {
    match v
    case OrderedDict(entries) => PairsAgree(entries, ord);
    case Dict(entries) => PairsAgree(entries, ord);
    case List(items) => ItemsAgree(items, ord);
    case Tuple(items) => ItemsAgree(items, ord);
    case Set(items) => ItemsAgree(items, ord);
    case _ =>
  }

  lemma {:induction false} ItemsAgree(items: seq<PyVal>, ord: Ordering<PyVal>)
    requires forall k :: 0 <= k < |items| ==> OrderableThroughout(items[k], ord)
    ensures NestedItemsAsWritten(items, ord) == NestedItems(items, ord)
    decreases items
  {
    forall k | 0 <= k < |items| ensures NestedItemsAsWritten(items, ord)[k] == NestedItems(items, ord)[k] {
      AsWrittenAgrees(items[k], ord);
    }
  }

  lemma {:induction false} PairsAgree(entries: seq<(PyVal, PyVal)>, ord: Ordering<PyVal>)
    requires PairsOrderableThroughout(entries, ord)
    ensures NestedPairsAsWritten(entries, ord) == NestedPairs(entries, ord)
    decreases entries
  {
    forall k | 0 <= k < |entries| ensures NestedPairsAsWritten(entries, ord)[k] == NestedPairs(entries, ord)[k] {
      var (key, value) := entries[k];
      assert key < entries[k] && value < entries[k];
      AsWrittenAgrees(key, ord);
      AsWrittenAgrees(value, ord);
    }
  }

  /**
   * `nested_tuple({1, "a"})`, where an int and a str cannot be compared, is
   * the empty tuple as written; the corrected definition keeps both
   * elements, and with them the data.
   */
  lemma {:induction false} NestedTupleAsWrittenDrops()
    ensures var ord := Ordering((a: PyVal, b: PyVal) => a.Atom? == b.Atom?, (a: PyVal, b: PyVal) => a.Atom? && b.Atom? && a.id < b.id);
      var v := Set([Atom(1), Str("a")]);
      NestedTupleAsWritten(v, ord) == Tuple([])
      && NestedTuple(v, ord) == Tuple([Atom(1), Str("a")])
      && Leaves(NestedTupleAsWritten(v, ord)) != Leaves(v)
  {
    var ord := Ordering((a: PyVal, b: PyVal) => a.Atom? == b.Atom?, (a: PyVal, b: PyVal) => a.Atom? && b.Atom? && a.id < b.id);
    var items := [Atom(1), Str("a")];
    assert NestedItemsAsWritten(items, ord) == items;
    assert NestedItems(items, ord) == items;
    assert !ord.comparable(items[0], items[1]);
    assert Leaves(Set(items)) == LeavesOf(items);
    assert Atom(1) in Leaves(Atom(1));
    assert LeavesOf(items) == Leaves(Atom(1)) + LeavesOf(items[1..]);
    var none: seq<PyVal> := [];
    assert Leaves(Tuple(none)) == multiset{};
  }

  /** What `nested_tuple` returns: tuples, all the way down, of values that are not containers or are strings. */
  predicate IsNested(v: PyVal)
    decreases v
  {
    match v
    case Atom(_) => true
    case Str(_) => true
    case Bytes(_) => true
    case Tuple(items) => forall k :: 0 <= k < |items| ==> IsNested(items[k])
    case _ => false
  }

  /**
   * What each kind of container becomes: strings, bytes and other values are
   * returned as they are; sequences keep their order; an OrderedDict keeps
   * the order of its pairs; a Mapping or another collection gives the same
   * transformed pairs or elements, sorted when they can be compared and in
   * iteration order when they cannot.
   */
  lemma {:induction false} NestedTupleCases(v: PyVal, ord: Ordering<PyVal>)
    ensures v.Atom? || v.Str? || v.Bytes? ==> NestedTuple(v, ord) == v
    ensures v.List? || v.Tuple? ==>
      var r := NestedTuple(v, ord);
      r.Tuple? && |r.items| == |v.items| && forall k :: 0 <= k < |v.items| ==> r.items[k] == NestedTuple(v.items[k], ord)
    ensures v.OrderedDict? ==>
      var r := NestedTuple(v, ord);
      r.Tuple? && |r.items| == |v.entries|
      && forall k :: 0 <= k < |v.entries| ==>
           r.items[k] == Tuple([NestedTuple(v.entries[k].0, ord), NestedTuple(v.entries[k].1, ord)])
    ensures v.Dict? ==>
      var r := NestedTuple(v, ord);
      var pairs := NestedPairs(v.entries, ord);
      r.Tuple? && multiset(r.items) == multiset(pairs)
      && (Orderable(pairs, ord.comparable) && StrictWeakOrder(pairs, ord.lt) ==> Sorted(r.items, ord.lt))
      && (!Orderable(pairs, ord.comparable) ==> r.items == pairs)
    ensures v.Set? ==>
      var r := NestedTuple(v, ord);
      var elements := NestedItems(v.items, ord);
      r.Tuple? && multiset(r.items) == multiset(elements)
      && (Orderable(elements, ord.comparable) && StrictWeakOrder(elements, ord.lt) ==> Sorted(r.items, ord.lt))
      && (!Orderable(elements, ord.comparable) ==> r.items == elements)
  {
    match v
    case Dict(entries) => SortedIfPossibleSound(NestedPairs(entries, ord), ord);
    case Set(items) => SortedIfPossibleSound(NestedItems(items, ord), ord);
    case _ =>
  }

  /** Elements of a permutation are elements of the original. */
  lemma {:induction false} PermutationMembers(xs: seq<PyVal>, ys: seq<PyVal>, k: nat)
    requires multiset(xs) == multiset(ys) && k < |xs|
    ensures exists i :: 0 <= i < |ys| && ys[i] == xs[k]
  {
    assert xs[k] in multiset(ys);
  }

  /** The result of `nested_tuple` is a nested tuple. */
  lemma {:induction false} NestedTupleIsNested(v: PyVal, ord: Ordering<PyVal>)
    ensures IsNested(NestedTuple(v, ord))
    decreases v
  {
    match v
    case OrderedDict(entries) => PairsAreNested(entries, ord);
    case Dict(entries) =>
      PairsAreNested(entries, ord);
      var pairs := NestedPairs(entries, ord);
      var r := SortedIfPossible(pairs, ord);
      SortedIfPossibleSound(pairs, ord);
      forall k | 0 <= k < |r| ensures IsNested(r[k]) {
        PermutationMembers(r, pairs, k);
      }
    case List(items) => ItemsAreNested(items, ord);
    case Tuple(items) => ItemsAreNested(items, ord);
    case Set(items) =>
      ItemsAreNested(items, ord);
      var elements := NestedItems(items, ord);
      var r := SortedIfPossible(elements, ord);
      SortedIfPossibleSound(elements, ord);
      forall k | 0 <= k < |r| ensures IsNested(r[k]) {
        PermutationMembers(r, elements, k);
      }
    case _ =>
  }

  lemma {:induction false} ItemsAreNested(items: seq<PyVal>, ord: Ordering<PyVal>)
    ensures forall k :: 0 <= k < |items| ==> IsNested(NestedItems(items, ord)[k])
    decreases items
  {
    forall k | 0 <= k < |items| ensures IsNested(NestedItems(items, ord)[k]) {
      NestedTupleIsNested(items[k], ord);
    }
  }

  lemma {:induction false} PairsAreNested(entries: seq<(PyVal, PyVal)>, ord: Ordering<PyVal>)
    ensures forall k :: 0 <= k < |entries| ==> IsNested(NestedPairs(entries, ord)[k])
    decreases entries
  {
    forall k | 0 <= k < |entries| ensures IsNested(NestedPairs(entries, ord)[k]) {
      var (key, value) := entries[k];
      assert key < entries[k] && value < entries[k];
      NestedTupleIsNested(key, ord);
      NestedTupleIsNested(value, ord);
      var p := NestedPair(entries[k], ord);
      assert p.items[0] == NestedTuple(key, ord) && p.items[1] == NestedTuple(value, ord);
    }
  }

  /** A nested tuple is left as it is. */
  lemma {:induction false} NestedTupleFixes(v: PyVal, ord: Ordering<PyVal>)
    requires IsNested(v)
    ensures NestedTuple(v, ord) == v
    decreases v
  {
    if v.Tuple? {
      forall k | 0 <= k < |v.items| ensures NestedItems(v.items, ord)[k] == v.items[k] {
        NestedTupleFixes(v.items[k], ord);
      }
    }
  }

  /** `nested_tuple` is idempotent: applying it twice is applying it once. */
  lemma {:induction false} NestedTupleIdempotent(v: PyVal, ord: Ordering<PyVal>)
    ensures NestedTuple(NestedTuple(v, ord), ord) == NestedTuple(v, ord)
  {
    NestedTupleIsNested(v, ord);
    NestedTupleFixes(NestedTuple(v, ord), ord);
  }

  // ---------------------------------------------------------------------
  // Nothing is lost or duplicated
  // ---------------------------------------------------------------------

  /** The values at the leaves of a structure (keys and values of mappings included), with their multiplicities. */
  function Leaves(v: PyVal): multiset<PyVal>
    decreases v
  {
    match v
    case List(items) => LeavesOf(items)
    case Tuple(items) => LeavesOf(items)
    case Set(items) => LeavesOf(items)
    case OrderedDict(entries) => PairLeaves(entries)
    case Dict(entries) => PairLeaves(entries)
    case _ => multiset{v}
  }

  function LeavesOf(s: seq<PyVal>): multiset<PyVal>
    decreases s
  {
    if |s| == 0 then multiset{} else Leaves(s[0]) + LeavesOf(s[1..])
  }

  function PairLeaves(entries: seq<(PyVal, PyVal)>): multiset<PyVal>
    decreases entries
  {
    if |entries| == 0 then multiset{}
    else
      var (key, value) := entries[0];
      assert key < entries[0] && value < entries[0];
      Leaves(key) + Leaves(value) + PairLeaves(entries[1..])
  }

  lemma {:induction false} LeavesOfConcat(s: seq<PyVal>, t: seq<PyVal>)
    ensures LeavesOf(s + t) == LeavesOf(s) + LeavesOf(t)
  {
    if |s| > 0 {
      assert (s + t)[1..] == s[1..] + t;
      LeavesOfConcat(s[1..], t);
    } else {
      assert s + t == t;
    }
  }

  /** Reordering the elements does not change the leaves. */
  lemma {:induction false} LeavesOfPermutation(s: seq<PyVal>, t: seq<PyVal>)
    requires multiset(s) == multiset(t)
    ensures LeavesOf(s) == LeavesOf(t)
    decreases |s|
  {
    if |s| == 0 {
      assert |t| == |multiset(t)| == 0;
    } else {
      assert s[0] in multiset(t);
      var i :| 0 <= i < |t| && t[i] == s[0];
      var rest := t[..i] + t[i + 1..];
      RemoveAt(t, i);
      assert s == [s[0]] + s[1..];
      assert multiset(s[1..]) == multiset(s) - multiset{s[0]};
      LeavesOfPermutation(s[1..], rest);
    }
  }

  /** Taking out the element at index i removes one copy of it and of its leaves. */
  lemma {:induction false} RemoveAt(t: seq<PyVal>, i: int)
    requires 0 <= i < |t|
    ensures multiset(t[..i] + t[i + 1..]) == multiset(t) - multiset{t[i]}
    ensures LeavesOf(t) == Leaves(t[i]) + LeavesOf(t[..i] + t[i + 1..])
  {
    assert t == t[..i] + [t[i]] + t[i + 1..];
    assert multiset(t) == multiset(t[..i]) + multiset{t[i]} + multiset(t[i + 1..]);
    LeavesOfConcat(t[..i] + [t[i]], t[i + 1..]);
    LeavesOfConcat(t[..i], [t[i]]);
    LeavesOfConcat(t[..i], t[i + 1..]);
    assert LeavesOf([t[i]]) == Leaves(t[i]) + LeavesOf([]);
  }

  lemma {:induction false} SortedKeepsLeaves(xs: seq<PyVal>, ord: Ordering<PyVal>)
    ensures LeavesOf(SortedIfPossible(xs, ord)) == LeavesOf(xs)
  {
    SortedIfPossibleSound(xs, ord);
    LeavesOfPermutation(SortedIfPossible(xs, ord), xs);
  }

  /** `nested_tuple` neither loses nor duplicates anything: the leaves of the result are the leaves of the input. */
  lemma {:induction false} NestedTupleKeepsLeaves(v: PyVal, ord: Ordering<PyVal>)
    ensures Leaves(NestedTuple(v, ord)) == Leaves(v)
    decreases v
  {
    match v
    case OrderedDict(entries) =>
      assert Leaves(NestedTuple(v, ord)) == LeavesOf(NestedPairs(entries, ord));
      PairsKeepLeaves(entries, ord);
    case Dict(entries) =>
      var xs := NestedPairs(entries, ord);
      assert Leaves(NestedTuple(v, ord)) == LeavesOf(SortedIfPossible(xs, ord));
      PairsKeepLeaves(entries, ord);
      SortedKeepsLeaves(xs, ord);
    case List(items) =>
      assert Leaves(NestedTuple(v, ord)) == LeavesOf(NestedItems(items, ord));
      ItemsKeepLeaves(items, ord);
    case Tuple(items) =>
      assert Leaves(NestedTuple(v, ord)) == LeavesOf(NestedItems(items, ord));
      ItemsKeepLeaves(items, ord);
    case Set(items) =>
      var xs := NestedItems(items, ord);
      assert Leaves(NestedTuple(v, ord)) == LeavesOf(SortedIfPossible(xs, ord));
      ItemsKeepLeaves(items, ord);
      SortedKeepsLeaves(xs, ord);
    case _ =>
  }

  lemma {:induction false} ItemsKeepLeaves(items: seq<PyVal>, ord: Ordering<PyVal>)
    ensures LeavesOf(NestedItems(items, ord)) == LeavesOf(items)
    decreases items
  {
    if |items| > 0 {
      NestedTupleKeepsLeaves(items[0], ord);
      ItemsKeepLeaves(items[1..], ord);
      assert NestedItems(items, ord)[1..] == NestedItems(items[1..], ord);
    }
  }

  lemma {:induction false} PairsKeepLeaves(entries: seq<(PyVal, PyVal)>, ord: Ordering<PyVal>)
    ensures LeavesOf(NestedPairs(entries, ord)) == PairLeaves(entries)
    decreases entries
  {
    if |entries| > 0 {
      var (key, value) := entries[0];
      assert key < entries[0] && value < entries[0];
      NestedTupleKeepsLeaves(key, ord);
      NestedTupleKeepsLeaves(value, ord);
      PairsKeepLeaves(entries[1..], ord);
      var p := NestedPair(entries[0], ord);
      var none: seq<PyVal> := [];
      assert p.items[1..] == [NestedTuple(value, ord)] && p.items[1..][1..] == none;
      assert LeavesOf([NestedTuple(value, ord)]) == Leaves(NestedTuple(value, ord)) + LeavesOf(none);
      assert Leaves(p) == Leaves(NestedTuple(key, ord)) + LeavesOf([NestedTuple(value, ord)]);
      assert NestedPairs(entries, ord)[1..] == NestedPairs(entries[1..], ord);
    }
  }
}

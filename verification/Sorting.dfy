/** Python's stable `sorted`, as an insertion sort by the order of the keys. */
module Sorting {

  /** Nothing precedes what precedes it, and what does not precede stays behind along chains. */
  ghost predicate IsOrder<T(!new)>(less: (T, T) -> bool) {
    && (forall a, b :: less(a, b) ==> !less(b, a))
    && (forall a, b, c :: !less(a, b) && !less(b, c) ==> !less(a, c))
  }

  ghost predicate Ordered<T>(less: (T, T) -> bool, xs: seq<T>) {
    forall i, j | 0 <= i < j < |xs| :: !less(xs[j], xs[i])
  }

  function Insert<T>(less: (T, T) -> bool, x: T, xs: seq<T>): (r: seq<T>)
    ensures |r| == |xs| + 1
  {
    if xs == [] || !less(xs[0], x) then [x] + xs
    else [xs[0]] + Insert(less, x, xs[1..])
  }

  /** Equal keys keep their order, because an element is inserted before those that follow it. */
  function Sort<T>(less: (T, T) -> bool, xs: seq<T>): (r: seq<T>)
    ensures |r| == |xs|
  {
    if xs == [] then [] else Insert(less, xs[0], Sort(less, xs[1..]))
  }

  lemma {:induction false} OrderedIsFixed<T>(less: (T, T) -> bool, xs: seq<T>)
    requires Ordered(less, xs)
    ensures Sort(less, xs) == xs
  {
    if xs != [] {
      OrderedIsFixed(less, xs[1..]);
    }
  }

  lemma {:induction false} InsertPermutes<T>(less: (T, T) -> bool, x: T, xs: seq<T>)
    ensures multiset(Insert(less, x, xs)) == multiset(xs) + multiset{x}
  {
    if xs != [] && less(xs[0], x) {
      InsertPermutes(less, x, xs[1..]);
      assert xs == [xs[0]] + xs[1..];
    }
  }

  lemma {:induction false} SortPermutes<T>(less: (T, T) -> bool, xs: seq<T>)
    ensures multiset(Sort(less, xs)) == multiset(xs)
    ensures forall x :: x in Sort(less, xs) <==> x in xs
  {
    if xs != [] {
      SortPermutes(less, xs[1..]);
      InsertPermutes(less, xs[0], Sort(less, xs[1..]));
      assert xs == [xs[0]] + xs[1..];
    }
    forall x ensures x in Sort(less, xs) <==> x in xs {
      assert x in Sort(less, xs) <==> x in multiset(Sort(less, xs));
      assert x in xs <==> x in multiset(xs);
    }
  }

  lemma {:induction false} InsertOrders<T(!new)>(less: (T, T) -> bool, x: T, xs: seq<T>)
    requires IsOrder(less) && Ordered(less, xs)
    ensures Ordered(less, Insert(less, x, xs))
  {
    if xs != [] && less(xs[0], x) {
      var rest := Insert(less, x, xs[1..]);
      InsertOrders(less, x, xs[1..]);
      InsertPermutes(less, x, xs[1..]);
      forall j | 0 <= j < |rest| ensures !less(rest[j], xs[0]) {
        assert rest[j] in multiset(rest);
        assert rest[j] == x || rest[j] in xs[1..];
      }
    }
  }

  lemma {:induction false} SortOrders<T(!new)>(less: (T, T) -> bool, xs: seq<T>)
    requires IsOrder(less)
    ensures Ordered(less, Sort(less, xs))
  {
    if xs != [] {
      SortOrders(less, xs[1..]);
      InsertOrders(less, xs[0], Sort(less, xs[1..]));
    }
  }

  lemma {:induction false} InsertBeforeLast<T>(less: (T, T) -> bool, x: T, xs: seq<T>, last: T)
    requires !less(last, x)
    ensures Insert(less, x, xs + [last]) == Insert(less, x, xs) + [last]
  {
    if xs != [] {
      assert (xs + [last])[1..] == xs[1..] + [last];
      InsertBeforeLast(less, x, xs[1..], last);
    }
  }

  /** What precedes none of the others is sorted behind them. */
  lemma {:induction false} SortAppends<T>(less: (T, T) -> bool, xs: seq<T>, last: T)
    requires forall i | 0 <= i < |xs| :: !less(last, xs[i])
    ensures Sort(less, xs + [last]) == Sort(less, xs) + [last]
  {
    if xs == [] {
      assert [last][1..] == [];
    } else {
      assert (xs + [last])[1..] == xs[1..] + [last];
      SortAppends(less, xs[1..], last);
      InsertBeforeLast(less, xs[0], Sort(less, xs[1..]), last);
    }
  }

  lemma {:induction false} DistinctCounts<T>(xs: seq<T>)
    requires forall i, j | 0 <= i < j < |xs| :: xs[i] != xs[j]
    ensures forall x :: multiset(xs)[x] <= 1
  {
    if xs != [] {
      DistinctCounts(xs[1..]);
      assert xs == [xs[0]] + xs[1..];
      assert xs[0] !in xs[1..];
    }
  }

  /** As many elements, each of them once, leave no room for others. */
  lemma OnceEach<T>(xs: seq<T>, ys: seq<T>)
    requires forall i, j | 0 <= i < j < |xs| :: xs[i] != xs[j]
    requires |xs| == |ys| && forall x | x in xs :: multiset(ys)[x] == 1
    ensures forall y | y in ys :: y in xs
  {
    DistinctCounts(xs);
    assert multiset(xs) <= multiset(ys);
    assert |multiset(ys) - multiset(xs)| == 0;
    forall y | y in ys ensures y in xs {
      assert y in multiset(ys) && y in multiset(xs);
    }
  }

  /******* Integer keys *******/

  function ByKey<T>(key: T -> int): (T, T) -> bool {
    (a, b) => key(a) < key(b)
  }

  lemma ByKeyIsOrder<T(!new)>(key: T -> int)
    ensures IsOrder(ByKey(key))
  {
  }

  function SortBy<T>(key: T -> int, xs: seq<T>): (r: seq<T>)
    ensures |r| == |xs|
  {
    Sort(ByKey(key), xs)
  }
}

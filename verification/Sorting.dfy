/** The standard library's stable `sort_by_key`, and why its result is unique. */
module Sorting {

  predicate SortedBy<T>(key: T -> int, xs: seq<T>) {
    forall i, j :: 0 <= i < j < |xs| ==> key(xs[i]) <= key(xs[j])
  }

  /** The elements of `xs` with key `k`, in order. */
  function WithKey<T(!new)>(key: T -> int, k: int, xs: seq<T>): (r: seq<T>)
    ensures forall x :: x in r <==> x in xs && key(x) == k
  {
    if xs == [] then []
    else if key(xs[0]) == k then [xs[0]] + WithKey(key, k, xs[1..])
    else WithKey(key, k, xs[1..])
  }

  function Insert<T(!new)>(key: T -> int, x: T, ys: seq<T>): (r: seq<T>)
    ensures forall y :: y in r <==> y == x || y in ys
  {
    if ys == [] || key(x) <= key(ys[0]) then [x] + ys
    else [ys[0]] + Insert(key, x, ys[1..])
  }

  function SortBy<T(!new)>(key: T -> int, xs: seq<T>): seq<T> {
    if xs == [] then [] else Insert(key, xs[0], SortBy(key, xs[1..]))
  }

  lemma {:induction false} InsertSorts<T(!new)>(key: T -> int, x: T, ys: seq<T>)
    requires SortedBy(key, ys)
    ensures SortedBy(key, Insert(key, x, ys))
  {
    if ys != [] && key(x) > key(ys[0]) {
      var r := Insert(key, x, ys[1..]);
      InsertSorts(key, x, ys[1..]);
      assert forall y :: y in r ==> key(ys[0]) <= key(y);
    }
  }

  lemma {:induction false} InsertPermutes<T(!new)>(key: T -> int, x: T, ys: seq<T>)
    ensures multiset(Insert(key, x, ys)) == multiset{x} + multiset(ys)
  {
    if ys != [] && key(x) > key(ys[0]) {
      InsertPermutes(key, x, ys[1..]);
      assert ys == [ys[0]] + ys[1..];
    }
  }

  lemma {:induction false} InsertKeepsKeys<T(!new)>(key: T -> int, x: T, ys: seq<T>, k: int)
    ensures WithKey(key, k, Insert(key, x, ys)) == WithKey(key, k, [x] + ys)
  {
    if ys != [] && key(x) > key(ys[0]) {
      var r := Insert(key, x, ys[1..]);
      InsertKeepsKeys(key, x, ys[1..], k);
      assert ([ys[0]] + r)[1..] == r;
      assert ([x] + ys)[1..] == ys && ([x] + ys[1..])[1..] == ys[1..];
    }
  }

  /** Sorting permutes, orders, and keeps the order of equal keys. */
  lemma {:induction false} SortCorrect<T(!new)>(key: T -> int, xs: seq<T>, k: int)
    ensures SortedBy(key, SortBy(key, xs))
    ensures multiset(SortBy(key, xs)) == multiset(xs)
    ensures WithKey(key, k, SortBy(key, xs)) == WithKey(key, k, xs)
  {
    if xs != [] {
      var s := SortBy(key, xs[1..]);
      SortCorrect(key, xs[1..], k);
      InsertSorts(key, xs[0], s);
      InsertPermutes(key, xs[0], s);
      InsertKeepsKeys(key, xs[0], s, k);
      assert xs == [xs[0]] + xs[1..];
      assert ([xs[0]] + s)[1..] == s;
    }
  }

  lemma {:induction false} WithKeyDropsHead<T(!new)>(key: T -> int, k: int, xs: seq<T>, ys: seq<T>)
    requires xs != [] && ys != [] && xs[0] == ys[0]
    requires WithKey(key, k, xs) == WithKey(key, k, ys)
    ensures WithKey(key, k, xs[1..]) == WithKey(key, k, ys[1..])
  {
    if key(xs[0]) == k {
      assert WithKey(key, k, xs[1..]) == WithKey(key, k, xs)[1..];
      assert WithKey(key, k, ys[1..]) == WithKey(key, k, ys)[1..];
    }
  }

  lemma {:induction false} HeadHasItsKey<T(!new)>(key: T -> int, xs: seq<T>)
    ensures xs == [] || exists k :: WithKey(key, k, xs) != []
  {
    if xs != [] {
      assert WithKey(key, key(xs[0]), xs) != [];
    }
  }

  /** Two sorted sequences that agree key by key are equal. */
  lemma {:induction false} StableSortIsUnique<T(!new)>(key: T -> int, xs: seq<T>, ys: seq<T>)
    requires SortedBy(key, xs) && SortedBy(key, ys)
    requires forall k :: WithKey(key, k, xs) == WithKey(key, k, ys)
    ensures xs == ys
    decreases |xs|
  {
    if xs == [] {
      HeadHasItsKey(key, ys);
    } else {
      assert xs[0] in WithKey(key, key(xs[0]), ys);
      assert ys[0] in WithKey(key, key(ys[0]), xs);
      assert key(xs[0]) == key(ys[0]);
      var k := key(xs[0]);
      assert WithKey(key, k, xs)[0] == WithKey(key, k, ys)[0];
      forall k {
        WithKeyDropsHead(key, k, xs, ys);
      }
      StableSortIsUnique(key, xs[1..], ys[1..]);
    }
  }

  lemma {:induction false} WithKeyConcat<T(!new)>(key: T -> int, k: int, xs: seq<T>, ys: seq<T>)
    ensures WithKey(key, k, xs + ys) == WithKey(key, k, xs) + WithKey(key, k, ys)
  {
    if xs == [] {
      assert xs + ys == ys;
    } else {
      assert (xs + ys)[1..] == xs[1..] + ys;
      WithKeyConcat(key, k, xs[1..], ys);
    }
  }

  lemma {:induction false} SortedConcat<T>(key: T -> int, xs: seq<T>, ys: seq<T>)
    requires SortedBy(key, xs) && SortedBy(key, ys)
    requires forall i, j :: 0 <= i < |xs| && 0 <= j < |ys| ==> key(xs[i]) <= key(ys[j])
    ensures SortedBy(key, xs + ys)
  {
  }
}

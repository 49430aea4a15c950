/** `sorted`: a stable insertion sort, and why its result does not depend on the order it is given. */
module Sorting {

  ghost predicate TotalOrder<T(!new)>(leq: (T, T) -> bool) {
    && (forall a, b :: leq(a, b) || leq(b, a))
    && (forall a, b, c :: leq(a, b) && leq(b, c) ==> leq(a, c))
  }

  ghost predicate Sorted<T>(leq: (T, T) -> bool, xs: seq<T>) {
    forall i, j :: 0 <= i < j < |xs| ==> leq(xs[i], xs[j])
  }

  /** No two different elements of xs sort alike. */
  ghost predicate Antisymmetric<T(!new)>(leq: (T, T) -> bool, xs: seq<T>) {
    forall a, b :: a in xs && b in xs && leq(a, b) && leq(b, a) ==> a == b
  }

  /** Insertion before the elements that sort alike. */
  function Insert<T>(leq: (T, T) -> bool, x: T, xs: seq<T>): (r: seq<T>)
    ensures multiset(r) == multiset(xs) + multiset{x}
  {
    if xs == [] || leq(x, xs[0]) then [x] + xs
    else
      assert xs == [xs[0]] + xs[1..];
      [xs[0]] + Insert(leq, x, xs[1..])
  }

  function Sort<T>(leq: (T, T) -> bool, xs: seq<T>): (r: seq<T>)
    ensures multiset(r) == multiset(xs) && |r| == |xs|
  {
    if xs == [] then []
    else
      assert xs == [xs[0]] + xs[1..];
      var r := Insert(leq, xs[0], Sort(leq, xs[1..]));
      assert |multiset(r)| == |multiset(xs)|;
      r
  }

  lemma SameElements<T>(xs: seq<T>, ys: seq<T>)
    requires multiset(xs) == multiset(ys)
    ensures |xs| == |ys|
    ensures forall x :: x in xs <==> x in ys
  {
    assert |multiset(xs)| == |multiset(ys)|;
    forall x ensures x in xs <==> x in ys {
      assert x in xs <==> x in multiset(xs);
      assert x in ys <==> x in multiset(ys);
    }
  }

  lemma ConsSorted<T(!new)>(leq: (T, T) -> bool, x: T, xs: seq<T>)
    requires Sorted(leq, xs) && forall y :: y in xs ==> leq(x, y)
    ensures Sorted(leq, [x] + xs)
  {
    var r := [x] + xs;
    forall i, j | 0 <= i < j < |r| ensures leq(r[i], r[j]) {
      assert r[j] == xs[j - 1];
      assert i > 0 ==> r[i] == xs[i - 1];
    }
  }

  lemma {:induction false} InsertSorted<T(!new)>(leq: (T, T) -> bool, x: T, xs: seq<T>)
    requires TotalOrder(leq) && Sorted(leq, xs)
    ensures Sorted(leq, Insert(leq, x, xs))
  {
    if xs == [] {
    } else if leq(x, xs[0]) {
      forall y | y in xs ensures leq(x, y) { SortedHead(leq, xs, y); }
      ConsSorted(leq, x, xs);
    } else {
      SortedTail(leq, xs);
      InsertSorted(leq, x, xs[1..]);
      var tail := Insert(leq, x, xs[1..]);
      forall y | y in tail ensures leq(xs[0], y) {
        assert y in multiset(tail);
        if y != x { SortedHead(leq, xs, y); }
      }
      ConsSorted(leq, xs[0], tail);
    }
  }

  lemma {:induction false} SortSorted<T(!new)>(leq: (T, T) -> bool, xs: seq<T>)
    requires TotalOrder(leq)
    ensures Sorted(leq, Sort(leq, xs))
  {
    if xs != [] {
      SortSorted(leq, xs[1..]);
      InsertSorted(leq, xs[0], Sort(leq, xs[1..]));
    }
  }

  lemma {:induction false} SortOfSorted<T(!new)>(leq: (T, T) -> bool, xs: seq<T>)
    requires Sorted(leq, xs)
    ensures Sort(leq, xs) == xs
  {
    if xs != [] {
      assert xs == [xs[0]] + xs[1..];
      SortOfSorted(leq, xs[1..]);
    }
  }

  lemma SortedHead<T(!new)>(leq: (T, T) -> bool, xs: seq<T>, y: T)
    requires Sorted(leq, xs) && y in xs
    ensures y == xs[0] || leq(xs[0], y)
  {
    var i :| 0 <= i < |xs| && xs[i] == y;
  }

  lemma SameTails<T>(xs: seq<T>, ys: seq<T>)
    requires multiset(xs) == multiset(ys) && xs != [] && ys != [] && xs[0] == ys[0]
    ensures multiset(xs[1..]) == multiset(ys[1..])
  {
    assert xs == [xs[0]] + xs[1..] && ys == [ys[0]] + ys[1..];
    assert multiset(xs[1..]) == multiset(xs) - multiset{xs[0]};
    assert multiset(ys[1..]) == multiset(ys) - multiset{ys[0]};
  }

  lemma SortedTail<T(!new)>(leq: (T, T) -> bool, xs: seq<T>)
    requires Sorted(leq, xs) && xs != []
    ensures Sorted(leq, xs[1..])
  {}

  lemma AntisymmetricTail<T(!new)>(leq: (T, T) -> bool, xs: seq<T>)
    requires Antisymmetric(leq, xs) && xs != []
    ensures Antisymmetric(leq, xs[1..])
  {}

  /** The first element of a sorted list is the least, so permutations of each other begin alike. */
  lemma SameFirst<T(!new)>(leq: (T, T) -> bool, xs: seq<T>, ys: seq<T>)
    requires multiset(xs) == multiset(ys) && xs != [] && Sorted(leq, xs) && Sorted(leq, ys) && Antisymmetric(leq, xs)
    ensures ys != [] && xs[0] == ys[0]
  {
    SameElements(xs, ys);
    var least, first := xs[0], ys[0];
    SortedHead(leq, xs, first);
    SortedHead(leq, ys, least);
  }

  /** Of all orders of some elements that nothing ties, one is sorted. */
  lemma {:induction false} OneSortedOrder<T(!new)>(leq: (T, T) -> bool, xs: seq<T>, ys: seq<T>)
    requires multiset(xs) == multiset(ys) && Sorted(leq, xs) && Sorted(leq, ys) && Antisymmetric(leq, xs)
    ensures xs == ys
    decreases |xs|
  {
    SameElements(xs, ys);
    if xs != [] {
      SameFirst(leq, xs, ys);
      SameTails(xs, ys);
      SortedTail(leq, xs);
      SortedTail(leq, ys);
      AntisymmetricTail(leq, xs);
      hide Sorted, Antisymmetric;
      var rest := xs[1..];
      OneSortedOrder(leq, rest, ys[1..]);
      assert ys == [xs[0]] + rest;
    }
  }

  /** Sorting forgets the order of its argument when no two elements sort alike. */
  lemma SortIgnoresOrder<T(!new)>(leq: (T, T) -> bool, xs: seq<T>, ys: seq<T>)
    requires TotalOrder(leq) && multiset(xs) == multiset(ys) && Antisymmetric(leq, xs)
    ensures Sort(leq, xs) == Sort(leq, ys)
  {
    SortSorted(leq, xs);
    SortSorted(leq, ys);
    SameElements(Sort(leq, xs), xs);
    OneSortedOrder(leq, Sort(leq, xs), Sort(leq, ys));
  }

  lemma {:induction false} DistinctOnce<T>(xs: seq<T>, x: T)
    requires NoRepeats(xs)
    ensures multiset(xs)[x] <= 1
  {
    if xs != [] {
      var init, last := xs[..|xs| - 1], xs[|xs| - 1];
      DistinctOnce(init, x);
      assert xs == init + [last];
      if x == last { assert x !in init; }
    }
  }

  lemma DuplicateTwice<T>(xs: seq<T>, i: nat, j: nat)
    requires i < j < |xs| && xs[i] == xs[j]
    ensures multiset(xs)[xs[i]] >= 2
  {
    assert xs == xs[..j] + [xs[j]] + xs[j + 1..];
    assert xs[..j][i] == xs[i];
    assert xs[i] in multiset(xs[..j]);
  }

  /** A permutation of a list without repetition has none. */
  lemma DistinctSurvives<T>(xs: seq<T>, ys: seq<T>, i: nat, j: nat)
    requires multiset(xs) == multiset(ys) && NoRepeats(xs) && i < j < |ys|
    ensures ys[i] != ys[j]
  {
    if ys[i] == ys[j] {
      DuplicateTwice(ys, i, j);
      DistinctOnce(xs, ys[i]);
    }
  }

  ghost predicate NoRepeats<T>(xs: seq<T>) {
    forall i, j :: 0 <= i < j < |xs| ==> xs[i] != xs[j]
  }

  /** Lists without repetition and with the same elements are permutations of each other. */
  lemma SameMembersPermute<T(!new)>(xs: seq<T>, ys: seq<T>)
    requires NoRepeats(xs) && NoRepeats(ys) && forall x :: x in xs <==> x in ys
    ensures multiset(xs) == multiset(ys)
  {
    forall x ensures multiset(xs)[x] == multiset(ys)[x] {
      DistinctOnce(xs, x);
      DistinctOnce(ys, x);
      assert x in xs <==> x in multiset(xs);
      assert x in ys <==> x in multiset(ys);
    }
  }

  lemma AppendDistinct<T(!new)>(xs: seq<T>, x: T)
    requires NoRepeats(xs) && x !in xs
    ensures NoRepeats(xs + [x])
  {}

  /** The values of a map that repeats none, in some order. */
  method Listing<K(!new), V(==, !new)>(m: map<K, V>) returns (values: seq<V>)
    requires forall j, k :: j in m && k in m && j != k ==> m[j] != m[k]
    ensures NoRepeats(values) && forall v :: v in values <==> v in m.Values
  {
    values := [];
    var left := m.Keys;
    while left != {}
      invariant left <= m.Keys && NoRepeats(values)
      invariant forall v :: v in values <==> exists k :: k in m && k !in left && m[k] == v
    {
      var k :| k in left;
      assert m[k] !in values;
      AppendDistinct(values, m[k]);
      hide NoRepeats;
      left := left - {k};
      values := values + [m[k]];
    }
  }
}

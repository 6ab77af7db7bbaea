/** `std::sort` over `int`, with `operator<` (ascending) or `std::greater` (descending).
    The library call is modelled by a sorting function whose result is proved to be
    the one sequence that is both sorted in the requested direction and a permutation
    of the input, so it stands for every correct implementation of `std::sort`. */
module Sorting {
  import opened Sequences

  datatype Direction = Ascending | Descending

  /** `a` may come before `b` in direction `d`: the comparator (`operator<` or `std::greater`)
      does not put `b` strictly first. */
  predicate InOrder(d: Direction, a: int, b: int): (r: bool)
    ensures d == Ascending ==> (r <==> !(b < a))
    ensures d == Descending ==> (r <==> !(b > a))
  {
    if d == Ascending then a <= b else a >= b
  }

  /** Both comparators order all of `int`: any two values are in order one way round, and
      values in order both ways round are equal. */
  lemma InOrderTotal(d: Direction, a: int, b: int)
    ensures InOrder(d, a, b) || InOrder(d, b, a)
    ensures InOrder(d, a, b) && InOrder(d, b, a) ==> a == b
  {
  }

  predicate Sorted(d: Direction, s: seq<int>)
  {
    forall i, j :: 0 <= i < j < |s| ==> InOrder(d, s[i], s[j])
  }

  /** Insert `x` into the sorted sequence `s`, before the first element it may precede. */
  function Insert(d: Direction, x: int, s: seq<int>): (r: seq<int>)
    ensures multiset(r) == multiset(s) + multiset{x}
  {
    if s == [] then [x]
    else if InOrder(d, x, s[0]) then [x] + s
    else
      assert s == [s[0]] + s[1..];
      [s[0]] + Insert(d, x, s[1..])
  }

  /** Inserting into a sorted sequence keeps it sorted. */
  lemma {:induction false} InsertSorted(d: Direction, x: int, s: seq<int>)
    requires Sorted(d, s)
    ensures Sorted(d, Insert(d, x, s))
  {
    if s == [] {
    } else if InOrder(d, x, s[0]) {
      forall k | 0 <= k < |s| ensures InOrder(d, x, s[k]) {
        SortedHeadFirst(d, s, s[k]);
      }
      SortedCons(d, x, s);
    } else {
      SortedTail(d, s);
      var rest := Insert(d, x, s[1..]);
      InsertSorted(d, x, s[1..]);
      forall k | 0 <= k < |rest|
        ensures InOrder(d, s[0], rest[k])
      {
        assert rest[k] in multiset(s[1..]) + multiset{x};
        if rest[k] != x {
          assert rest[k] in s[1..];
          SortedHeadFirst(d, s, rest[k]);
        }
      }
      SortedCons(d, s[0], rest);
    }
  }

  /** Dropping the head keeps a sequence sorted. */
  lemma SortedTail(d: Direction, s: seq<int>)
    requires Sorted(d, s) && s != []
    ensures Sorted(d, s[1..])
  {
    forall i, j | 0 <= i < j < |s| - 1 ensures InOrder(d, s[1..][i], s[1..][j]) {
      assert s[1..][i] == s[i + 1] && s[1..][j] == s[j + 1];
    }
  }

  /** A value that may precede every element of a sorted sequence may go in front of it. */
  lemma SortedCons(d: Direction, x: int, s: seq<int>)
    requires Sorted(d, s)
    requires forall k :: 0 <= k < |s| ==> InOrder(d, x, s[k])
    ensures Sorted(d, [x] + s)
  {
    var r := [x] + s;
    forall i, j | 0 <= i < j < |r| ensures InOrder(d, r[i], r[j]) {
      assert r[j] == s[j - 1];
      if i > 0 {
        assert r[i] == s[i - 1];
      }
    }
  }

  /** Sequences holding the same elements have the same length. */
  lemma EqualBagsSameLength(a: seq<int>, b: seq<int>)
    requires multiset(a) == multiset(b)
    ensures |a| == |b|
  {
    assert |a| == |multiset(a)| && |b| == |multiset(b)|;
  }

  /** The tail of a non-empty sequence holds its elements less one copy of the head. */
  lemma TailMultiset(s: seq<int>)
    requires s != []
    ensures multiset(s[1..]) == multiset(s) - multiset{s[0]}
  {
    assert s == [s[0]] + s[1..];
  }

  /** The sorted copy `std::sort` produces. */
  function Sort(s: seq<int>, d: Direction): (r: seq<int>)
    ensures Sorted(d, r)
    ensures multiset(r) == multiset(s)
  {
    if s == [] then []
    else
      assert s == [s[0]] + s[1..];
      var rest := Sort(s[1..], d);
      InsertSorted(d, s[0], rest);
      Insert(d, s[0], rest)
  }

  /** The head of a non-empty sorted sequence may precede every element of it. */
  lemma SortedHeadFirst(d: Direction, s: seq<int>, x: int)
    requires Sorted(d, s) && x in multiset(s)
    ensures InOrder(d, s[0], x)
  {
    assert x in s;
    var i :| 0 <= i < |s| && s[i] == x;
    if i > 0 {
      assert InOrder(d, s[0], s[i]);
    }
  }

  /** Two sequences sorted in the same direction that hold the same elements are equal. */
  lemma {:induction false} SortedPermutationUnique(d: Direction, a: seq<int>, b: seq<int>)
    requires Sorted(d, a) && Sorted(d, b)
    requires multiset(a) == multiset(b)
    ensures a == b
  {
    EqualBagsSameLength(a, b);
    if a != [] {
      assert a[0] in multiset(a) && b[0] in multiset(b);
      SortedHeadFirst(d, b, a[0]);
      SortedHeadFirst(d, a, b[0]);
      InOrderTotal(d, a[0], b[0]);
      TailMultiset(a);
      TailMultiset(b);
      SortedTail(d, a);
      SortedTail(d, b);
      SortedPermutationUnique(d, a[1..], b[1..]);
      assert a == [a[0]] + a[1..] && b == [b[0]] + b[1..];
    }
  }

  /** `Sort` is what any correct `std::sort` produces: a sorted permutation is unique. */
  lemma SortIsUnique(s: seq<int>, d: Direction, r: seq<int>)
    requires Sorted(d, r) && multiset(r) == multiset(s)
    ensures r == Sort(s, d)
  {
    SortedPermutationUnique(d, r, Sort(s, d));
  }

  /** Sorting with `std::greater` gives the exact reverse of sorting with `operator<`. */
  lemma DescendingIsReversedAscending(s: seq<int>)
    ensures Sort(s, Descending) == Reverse(Sort(s, Ascending))
  {
    var up := Sort(s, Ascending);
    ReverseMultiset(up);
    assert Sorted(Descending, Reverse(up));
    SortIsUnique(s, Descending, Reverse(up));
  }
}

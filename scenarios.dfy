/** What callers of the container and its views can rely on, shown on whole objects and on the
    sample container `7, 15, 6, 1, 2`. */
module Scenarios {
  import opened Machine
  import opened Sequences
  import opened Sorting
  import opened Containers
  import opened Cursors
  import opened Orders
  import opened Views

  /** The elements of a five-element sequence. */
  lemma FiveElements(s: seq<int>, a: int, b: int, c: int, d: int, e: int)
    requires s == [a, b, c, d, e]
    ensures multiset(s) == multiset{a, b, c, d, e}
  {
  }

  /** The sample and its two sorted forms hold the same values. */
  lemma SampleBags()
    ensures multiset{7, 15, 6, 1, 2} == multiset{1, 2, 6, 7, 15} == multiset{15, 7, 6, 2, 1}
  {
  }

  /** The two sorted forms of the sample are sorted in their directions. */
  lemma SampleSorted(up: seq<int>, down: seq<int>)
    requires up == [1, 2, 6, 7, 15] && down == [15, 7, 6, 2, 1]
    ensures Sorted(Ascending, up) && Sorted(Descending, down)
  {
  }

  /** The two sorted forms of the sample are sorted permutations of it. */
  lemma SampleForms(s: seq<int>, up: seq<int>, down: seq<int>)
    requires s == [7, 15, 6, 1, 2] && up == [1, 2, 6, 7, 15] && down == [15, 7, 6, 2, 1]
    ensures Sorted(Ascending, up) && multiset(up) == multiset(s)
    ensures Sorted(Descending, down) && multiset(down) == multiset(s)
  {
    FiveElements(s, 7, 15, 6, 1, 2);
    FiveElements(up, 1, 2, 6, 7, 15);
    FiveElements(down, 15, 7, 6, 2, 1);
    SampleBags();
    SampleSorted(up, down);
  }

  /** `std::sort` of the sample with `operator<`. */
  lemma SampleAscending(s: seq<int>)
    requires s == [7, 15, 6, 1, 2]
    ensures Sort(s, Ascending) == [1, 2, 6, 7, 15]
  {
    var up, down := [1, 2, 6, 7, 15], [15, 7, 6, 2, 1];
    SampleForms(s, up, down);
    SortIsUnique(s, Ascending, up);
  }

  /** `std::sort` of the sample with `std::greater`. */
  lemma SampleDescending(s: seq<int>)
    requires s == [7, 15, 6, 1, 2]
    ensures Sort(s, Descending) == [15, 7, 6, 2, 1]
  {
    var up, down := [1, 2, 6, 7, 15], [15, 7, 6, 2, 1];
    SampleForms(s, up, down);
    SortIsUnique(s, Descending, down);
  }

  /** Side-cross of the sorted sample. */
  lemma SampleSideCross()
    ensures SideCross([1, 2, 6, 7, 15]) == [1, 15, 2, 7, 6]
  {
    var s := [1, 2, 6, 7, 15];
    assert s[1..4] == [2, 6, 7];
    assert [2, 6, 7][1..2] == [6];
  }

  /** Middle-out of the sample. */
  lemma SampleMiddleOut()
    ensures Permute([7, 15, 6, 1, 2], MiddleOutIndices(5)) == [6, 15, 1, 7, 2]
  {
    var p := MiddleOutIndices(5);
    assert p[0] == 2 && p[1] == 1 && p[2] == 3 && p[3] == 0 && p[4] == 4;
  }

  /** Every arrangement of a single element is that element. */
  lemma SingleElementArrangements(x: int)
    ensures Sort([x], Ascending) == [x] && Sort([x], Descending) == [x]
    ensures SideCross([x]) == [x]
    ensures Reverse([x]) == [x]
    ensures Permute([x], MiddleOutIndices(1)) == [x]
  {
    assert MiddleOutIndices(1)[0] == 0;
    assert [x][1..] == [];
  }

  /** The sample container of the source's tests: `7, 15, 6, 1, 2` added one by one. */
  method SampleContainer() returns (c: Container<int>)
    ensures fresh(c) && c.elements == [7, 15, 6, 1, 2]
  {
    c := new Container<int>();
    c.Add(7); c.Add(15); c.Add(6); c.Add(1); c.Add(2);
  }

  /** The tests' `collect`: dereference and advance a snapshot cursor until it equals `stop`. */
  method CollectSnapshot<T>(it: SnapshotCursor<T>, stop: SnapshotCursor<T>) returns (out: seq<T>)
    requires it != stop && it.elements == stop.elements
    requires it.index <= stop.index <= |stop.elements|
    modifies it
    ensures out == ForwardWalk(it.elements, old(it.index), stop.index)
    ensures old(it.index) == 0 && stop.index == |stop.elements| ==> out == stop.elements
  {
    ghost var start := it.index;
    out := [];
    while it.NotEquals(stop)
      invariant start <= it.index <= stop.index
      invariant out + ForwardWalk(it.elements, it.index, stop.index)
                == ForwardWalk(it.elements, start, stop.index)
      decreases stop.index - it.index
    {
      out := out + [it.Deref()];
      it.Advance();
    }
    assert it.elements[0..|it.elements|] == it.elements;
  }

  /** The tests' `collect` over the insertion-order view: `begin()` up to `end()` through the
      live container. */
  method CollectOrder<T(==)>(o: Order<T>) returns (out: seq<T>)
    ensures out == ForwardWalk(o.container.elements, 0, |o.container.elements|)
    ensures out == o.container.elements
  {
    var s := o.container.elements;
    var it := o.Begin();
    var stop := o.End();
    out := [];
    while it.NotEquals(stop)
      invariant it.container == o.container && stop.index == |s|
      invariant it.index <= |s|
      invariant out + ForwardWalk(s, it.index, |s|) == s
      decreases |s| - it.index
    {
      out := out + [it.Deref().value];
      it.Advance();
    }
    assert s[0..|s|] == s;
  }

  /** The tests' `collect` over the reverse view: from `size() - 1` down to the `-1` sentinel
      through the live container. */
  method CollectReverse<T(==)>(r: ReverseOrder<T>) returns (out: seq<T>)
    requires |r.container.elements| <= INT_MAX + 1
    ensures out == BackwardWalk(r.container.elements, |r.container.elements| - 1, -1)
    ensures out == Reverse(r.container.elements)
  {
    var s := r.container.elements;
    var it := r.Begin();
    var stop := r.End();
    out := [];
    while it.NotEquals(stop)
      invariant it.container == r.container && stop.index == -1
      invariant -1 <= it.index < |s|
      invariant out + BackwardWalk(s, it.index, -1) == BackwardWalk(s, |s| - 1, -1)
      decreases it.index + 1
    {
      out := out + [it.Deref().value];
      it.Advance();
    }
    BackwardWalkReadsReverse(s);
  }

  /** The ascending view of the sample container. */
  method SampleAscendingView() returns (asc: seq<int>)
    ensures asc == [1, 2, 6, 7, 15]
  {
    var c := SampleContainer();
    var a := new AscendingOrder(c);
    var it := a.Begin();
    var stop := a.End();
    SampleAscending(c.elements);
    asc := CollectSnapshot(it, stop);
  }

  /** The descending view of the sample container. */
  method SampleDescendingView() returns (desc: seq<int>)
    ensures desc == [15, 7, 6, 2, 1]
  {
    var c := SampleContainer();
    var d := new DescendingOrder(c);
    var it := d.Begin();
    var stop := d.End();
    SampleDescending(c.elements);
    desc := CollectSnapshot(it, stop);
  }

  /** The side-cross view of the sample container. */
  method SampleCrossView() returns (cross: seq<int>)
    ensures cross == [1, 15, 2, 7, 6]
  {
    var c := SampleContainer();
    var s := new SideCrossOrder(c);
    SampleAscending(c.elements);
    SampleSideCross();
    var it := s.Begin();
    var stop := s.End();
    cross := CollectSnapshot(it, stop);
  }

  /** The middle-out view of the sample container. */
  method SampleMiddleView() returns (middle: seq<int>)
    ensures middle == [6, 15, 1, 7, 2]
  {
    var c := SampleContainer();
    var m := new MiddleOutOrder(c);
    SampleMiddleOut();
    var it := m.Begin();
    var stop := m.End();
    middle := CollectSnapshot(it, stop);
  }

  /** The live views of the sample container, collected from begin to end. */
  method SampleLiveViews() returns (insertion: seq<int>, reversed: seq<int>)
    ensures insertion == [7, 15, 6, 1, 2]
    ensures reversed == [2, 1, 6, 15, 7]
  {
    var c := SampleContainer();
    var o := new Order(c);
    var r := new ReverseOrder(c);
    insertion := CollectOrder(o);
    reversed := CollectReverse(r);
  }

  /** The ascending and descending views of one container mirror each other, and both hold
      exactly the container's elements. */
  method MirroredSortedViews(c: Container<int>) returns (asc: seq<int>, desc: seq<int>)
    ensures Sorted(Ascending, asc) && multiset(asc) == multiset(c.elements)
    ensures desc == Reverse(asc)
  {
    var a := new AscendingOrder(c);
    var d := new DescendingOrder(c);
    DescendingIsReversedAscending(c.elements);
    asc, desc := a.sortedElements, d.sortedElements;
  }

  /** Collected at the same moment, the reverse view yields the exact reverse of the
      insertion-order view, which yields the elements in insertion order. */
  method MirroredLiveViews(c: Container<int>) returns (forward: seq<int>, backward: seq<int>)
    requires |c.elements| <= INT_MAX + 1
    ensures forward == c.elements
    ensures backward == Reverse(forward)
  {
    var o := new Order(c);
    var r := new ReverseOrder(c);
    forward := CollectOrder(o);
    backward := CollectReverse(r);
  }

  /** Snapshot views keep what they copied; live views see a later `add`. */
  method SnapshotVersusLive(c: Container<int>, x: int) returns (snapshot: seq<int>, live: Result<int>, end: nat)
    modifies c
    ensures c.elements == old(c.elements) + [x]
    ensures snapshot == Sort(old(c.elements), Ascending)
    ensures live == Ok(x)
    ensures end == |old(c.elements)| + 1
  {
    var asc := new AscendingOrder(c);
    var ord := new Order(c);
    var last := ord.End();
    c.Add(x);
    snapshot := asc.sortedElements;
    live := last.Deref();
    var stop := ord.End();
    end := stop.index;
  }

  /** Cursor equality looks at positions only: the end cursors of two views of one kind over
      different containers of the same size compare equal, though they walk different elements. */
  method CursorsCompareByIndex(c1: Container<int>, c2: Container<int>) returns (sameSnapshot: bool, sameLive: bool)
    requires |c1.elements| == |c2.elements|
    ensures sameSnapshot && sameLive
  {
    var a1 := new AscendingOrder(c1);
    var a2 := new AscendingOrder(c2);
    EqualBagsSameLength(a1.sortedElements, c1.elements);
    EqualBagsSameLength(a2.sortedElements, c2.elements);
    var e1 := a1.End();
    var e2 := a2.End();
    sameSnapshot := e1.Equals(e2);
    var o1 := new Order(c1);
    var o2 := new Order(c2);
    var f1 := o1.End();
    var f2 := o2.End();
    sameLive := f1.Equals(f2);
  }

  /** On an empty container every view that allows it is empty: begin equals end at once. */
  method EmptyViews() returns (ascDone: bool, descDone: bool, middleDone: bool, orderDone: bool, reverseDone: bool)
    ensures ascDone && descDone && middleDone && orderDone && reverseDone
  {
    var c := new Container<int>();
    var a := new AscendingOrder(c);
    var d := new DescendingOrder(c);
    var m := new MiddleOutOrder(c);
    var o := new Order(c);
    var r := new ReverseOrder(c);
    var ab := a.Begin(); var ae := a.End();
    var db := d.Begin(); var de := d.End();
    var mb := m.Begin(); var me := m.End();
    var ob := o.Begin(); var oe := o.End();
    var rb := r.Begin(); var re := r.End();
    ascDone, descDone, middleDone := ab.Equals(ae), db.Equals(de), mb.Equals(me);
    orderDone, reverseDone := ob.Equals(oe), rb.Equals(re);
  }
}

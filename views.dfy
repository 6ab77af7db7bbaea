/** The six order views over a container. Four of them (ascending, descending, side-cross,
    middle-out) copy the elements when they are built and walk that private snapshot; the
    insertion-order and reverse views keep the container itself and read it on every step. */
module Views {
  import opened Machine
  import opened Sequences
  import opened Sorting
  import opened Containers
  import opened Cursors
  import opened Orders

  /** Elements sorted with `operator<`, fixed when the view is built. */
  class AscendingOrder {
    const sortedElements: seq<int>

    constructor (c: Container<int>)
      ensures Sorted(Ascending, sortedElements)
      ensures multiset(sortedElements) == multiset(c.elements)
      ensures sortedElements == Sort(c.elements, Ascending)
    {
      var copy := c.elements;
      sortedElements := Sort(copy, Ascending);
    }

    method Begin() returns (it: SnapshotCursor<int>)
      ensures fresh(it) && it.elements == sortedElements && it.index == 0
    {
      it := new SnapshotCursor(sortedElements, 0);
    }

    method End() returns (it: SnapshotCursor<int>)
      ensures fresh(it) && it.elements == sortedElements && it.index == |sortedElements|
    {
      it := new SnapshotCursor(sortedElements, |sortedElements|);
    }
  }

  /** Elements sorted with `std::greater`, fixed when the view is built. */
  class DescendingOrder {
    const sortedElements: seq<int>

    constructor (c: Container<int>)
      ensures Sorted(Descending, sortedElements)
      ensures multiset(sortedElements) == multiset(c.elements)
      ensures sortedElements == Sort(c.elements, Descending)
    {
      var copy := c.elements;
      sortedElements := Sort(copy, Descending);
    }

    method Begin() returns (it: SnapshotCursor<int>)
      ensures fresh(it) && it.elements == sortedElements && it.index == 0
    {
      it := new SnapshotCursor(sortedElements, 0);
    }

    method End() returns (it: SnapshotCursor<int>)
      ensures fresh(it) && it.elements == sortedElements && it.index == |sortedElements|
    {
      it := new SnapshotCursor(sortedElements, |sortedElements|);
    }
  }

  /** The side-cross loop: `left` and `right` scan the sorted copy from both ends,
      taking from the left and the right alternately until they cross. */
  method CrossFromEnds(sorted: seq<int>) returns (cross: seq<int>)
    requires |sorted| >= 1
    ensures cross == SideCross(sorted)
    ensures multiset(cross) == multiset(sorted)
  {
    var n := |sorted|;
    var left: nat := 0;
    var right: nat := n - 1;  // no wrap-around: the input is not empty
    var takeLeft := true;
    cross := [];
    while left <= right
      invariant right < n && left <= right + 1
      invariant takeLeft ==> left + right == n - 1
      invariant !takeLeft ==> left + right == n && left >= 1
      invariant |cross| == left + (n - 1 - right)
      invariant forall j :: 0 <= j < |cross| ==> cross[j] == SideCrossElement(sorted, j)
      decreases right + 1 - left
    {
      if takeLeft {
        assert SideCrossElement(sorted, |cross|) == sorted[left] by {
          assert |cross| == 2 * left;
        }
        cross := cross + [sorted[left]];
        left := left + 1;
      } else {
        assert SideCrossElement(sorted, |cross|) == sorted[right] by {
          assert |cross| == 2 * (n - 1 - right) + 1;
        }
        cross := cross + [sorted[right]];
        right := right - 1;  // right >= left >= 1 here, so no wrap-around either
      }
      takeLeft := !takeLeft;
      if left > right {
        break;
      }
    }
    SideCrossByPositions(sorted, cross);
  }

  /** Smallest, largest, next smallest, next largest, ... of the elements, fixed when the view
      is built. The source computes `size() - 1` without checking for an empty container, so a
      non-empty one is required. */
  class SideCrossOrder {
    const crossElements: seq<int>

    constructor (c: Container<int>)
      requires |c.elements| >= 1
      ensures crossElements == SideCross(Sort(c.elements, Ascending))
      ensures |crossElements| == |c.elements|
      ensures multiset(crossElements) == multiset(c.elements)
    {
      var sorted := Sort(c.elements, Ascending);
      var cross := CrossFromEnds(sorted);
      crossElements := cross;
    }

    method Begin() returns (it: SnapshotCursor<int>)
      ensures fresh(it) && it.elements == crossElements && it.index == 0
    {
      it := new SnapshotCursor(crossElements, 0);
    }

    method End() returns (it: SnapshotCursor<int>)
      ensures fresh(it) && it.elements == crossElements && it.index == |crossElements|
    {
      it := new SnapshotCursor(crossElements, |crossElements|);
    }
  }

  /** The middle-out index loop: `left` and `right` are signed 32-bit positions moving away
      from the middle, and `goLeft` switches sides after every step, whether or not the chosen
      side still had an index to give. */
  method MiddleOutWalk(size: nat) returns (indices: seq<nat>)
    requires 1 <= size <= INT_MAX
    ensures indices == MiddleOutIndices(size)
  {
    var middle := size / 2;
    indices := [middle];
    var left: int := SizeToInt(SizeSub(middle, 1));
    var right: int := SizeToInt(SizeAdd(middle, 1));
    var goLeft := true;
    while left >= 0 || right < SizeToInt(size)
      invariant -1 <= left < middle < right <= size
      invariant goLeft ==> middle - 1 - left == right - middle - 1
      invariant !goLeft ==> middle - 1 - left == right - middle
      invariant |indices| == 1 + (middle - 1 - left) + (right - middle - 1)
      invariant forall j :: 0 <= j < |indices| ==> indices[j] == MiddleOutIndex(size, j)
      decreases left + 1 + size - right
    {
      if goLeft && left >= 0 {
        indices := indices + [left];
        left := left - 1;
      } else if !goLeft && right < SizeToInt(size) {
        indices := indices + [right];
        right := right + 1;
      }
      goLeft := !goLeft;
    }
  }

  /** The elements read from the middle outward, fixed when the view is built. The source's
      left and right positions are 32-bit `int`s; the sizes for which they are exact are
      required. */
  class MiddleOutOrder<T(==)> {
    const middleOutElements: seq<T>

    constructor (c: Container<T>)
      requires |c.elements| <= INT_MAX
      ensures middleOutElements == Permute(c.elements, MiddleOutIndices(|c.elements|))
    {
      var size := c.Size();
      var out: seq<T> := [];
      if size != 0 {
        var indices := MiddleOutWalk(size);
        for k := 0 to |indices|
          invariant out == Permute(c.elements, indices[..k])
        {
          out := out + [c.At(indices[k]).value];
        }
        assert indices[..|indices|] == indices;
      }
      middleOutElements := out;
    }

    method Begin() returns (it: SnapshotCursor<T>)
      ensures fresh(it) && it.elements == middleOutElements && it.index == 0
    {
      it := new SnapshotCursor(middleOutElements, 0);
    }

    method End() returns (it: SnapshotCursor<T>)
      ensures fresh(it) && it.elements == middleOutElements && it.index == |middleOutElements|
    {
      it := new SnapshotCursor(middleOutElements, |middleOutElements|);
    }
  }

  /** Insertion order, read through the live container. */
  class Order<T(==)> {
    const container: Container<T>

    constructor (c: Container<T>)
      ensures container == c
    {
      container := c;
    }

    method Begin() returns (it: OrderCursor<T>)
      ensures fresh(it) && it.container == container && it.index == 0
    {
      it := new OrderCursor(container, 0);
    }

    /** One past the last element, as the container is at the moment of the call. */
    method End() returns (it: OrderCursor<T>)
      ensures fresh(it) && it.container == container && it.index == |container.elements|
    {
      it := new OrderCursor(container, container.Size());
    }
  }

  /** Insertion order backwards, read through the live container: a signed position that starts
      at `size() - 1` (computed in `size_t`, then converted to `int`) and stops at `-1`. */
  class ReverseOrder<T(==)> {
    const container: Container<T>

    constructor (c: Container<T>)
      ensures container == c
    {
      container := c;
    }

    /** For an empty container `size() - 1` wraps to the largest `size_t`, which converts to
        `-1`: begin then equals end. */
    method Begin() returns (it: ReverseCursor<T>)
      ensures fresh(it) && it.container == container
      ensures it.index == SizeToInt(SizeSub(|container.elements|, 1))
      ensures |container.elements| <= INT_MAX + 1 ==> it.index == |container.elements| - 1
    {
      it := new ReverseCursor(container, SizeToInt(SizeSub(container.Size(), 1)));
    }

    method End() returns (it: ReverseCursor<T>)
      ensures fresh(it) && it.container == container && it.index == -1
    {
      it := new ReverseCursor(container, -1);
    }
  }
}

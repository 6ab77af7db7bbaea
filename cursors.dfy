/** The index cursors the six views hand out. Every cursor compares by index alone,
    never by the vector or container it walks. */
module Cursors {
  import opened Machine
  import opened Sequences
  import opened Containers

  /** What a snapshot cursor yields from position `i` until it compares equal to `end`,
      advancing by one after each dereference. */
  function ForwardWalk<T>(s: seq<T>, i: nat, end: nat): (r: seq<T>)
    requires i <= end <= |s|
    ensures r == s[i..end]
    decreases end - i
  {
    if i == end then [] else [s[i]] + ForwardWalk(s, i + 1, end)
  }

  /** What a reverse cursor yields from position `i` until it compares equal to `end`,
      stepping down by one after each dereference. */
  function BackwardWalk<T>(s: seq<T>, i: int, end: int): (r: seq<T>)
    requires -1 <= end <= i < |s|
    ensures |r| == i - end
    ensures forall k :: 0 <= k < |r| ==> r[k] == s[i - k]
    decreases i - end
  {
    if i == end then [] else [s[i]] + BackwardWalk(s, i - 1, end)
  }

  /** The reverse view's start, `size() - 1` computed in `size_t` and converted to `int`, is the
      last position, and `-1` for an empty container, as long as it fits in an `int`. */
  lemma ReverseBegin(n: nat)
    requires n <= INT_MAX + 1
    ensures SizeToInt(SizeSub(n, 1)) == n - 1
  {
    if n == 0 {
      assert SizeSub(n, 1) == SIZE_MOD - 1;
    } else {
      assert SizeSub(n, 1) == n - 1;
    }
  }

  /** Walking down from the last position to the `-1` sentinel reads the elements back to front:
      the exact reverse of the walk from 0 up to `size()`. */
  lemma BackwardWalkIsReverse<T>(s: seq<T>)
    ensures BackwardWalk(s, |s| - 1, -1) == Reverse(ForwardWalk(s, 0, |s|))
  {
    var forward := ForwardWalk(s, 0, |s|);
    assert forward == s by { assert s[0..|s|] == s; }
    BackwardWalkReadsReverse(s);
  }

  /** The walk down from the last position, element by element, against `Reverse`. */
  lemma {:induction false} BackwardWalkReadsReverse<T>(s: seq<T>)
    ensures BackwardWalk(s, |s| - 1, -1) == Reverse(s)
  {
    var back := BackwardWalk(s, |s| - 1, -1);
    var rev := Reverse(s);
    assert |back| == |s| == |rev|;
    forall k | 0 <= k < |s| ensures back[k] == rev[k] {
      assert back[k] == s[|s| - 1 - k];
      assert rev[k] == s[|s| - 1 - k];
    }
  }

  /** The cursor of the four snapshot views: a position in the view's private vector. */
  class SnapshotCursor<T> {
    const elements: seq<T>
    var index: nat

    constructor (elements: seq<T>, index: nat)
      ensures this.elements == elements && this.index == index
    {
      this.elements := elements;
      this.index := index;
    }

    /** `operator*`: the element at the cursor (unchecked in the source, so the caller keeps it
        inside the vector). */
    function Deref(): (x: T)
      reads this
      requires index < |elements|
      ensures x == elements[index]
    {
      elements[index]
    }

    /** `operator++`. */
    method Advance()
      modifies this
      ensures index == old(index) + 1
    {
      index := index + 1;
    }

    /** `operator==`: equal positions, whatever vectors the two cursors walk. */
    function Equals(other: SnapshotCursor<T>): (b: bool)
      reads this, other
      ensures b <==> index == other.index
    {
      index == other.index
    }

    /** `operator!=`: the negation of `operator==`. */
    function NotEquals(other: SnapshotCursor<T>): (b: bool)
      reads this, other
      ensures b <==> !Equals(other)
    {
      index != other.index
    }
  }

  /** The cursor of the insertion-order view: a `size_t` position read through the live
      container on every dereference. */
  class OrderCursor<T(==)> {
    const container: Container<T>
    var index: nat

    constructor (container: Container<T>, index: nat)
      ensures this.container == container && this.index == index
    {
      this.container := container;
      this.index := index;
    }

    /** `operator*`: the container's bounds-checked `operator[]` at the cursor, as the
        container is at the moment of the call. */
    function Deref(): (r: Result<T>)
      reads this, container
      ensures index < |container.elements| ==> r == Ok(container.elements[index])
      ensures index >= |container.elements| ==> r == Err(OutOfRange)
    {
      container.At(index)
    }

    /** `operator++`. */
    method Advance()
      modifies this
      ensures index == old(index) + 1
    {
      index := index + 1;
    }

    /** `operator==`: equal positions, whatever containers the two cursors read. */
    function Equals(other: OrderCursor<T>): (b: bool)
      reads this, other
      ensures b <==> index == other.index
    {
      index == other.index
    }

    /** `operator!=`: the negation of `operator==`. */
    function NotEquals(other: OrderCursor<T>): (b: bool)
      reads this, other
      ensures b <==> !Equals(other)
    {
      index != other.index
    }
  }

  /** The cursor of the reverse view: a signed 32-bit position read through the live container;
      `-1` is the end sentinel. */
  class ReverseCursor<T(==)> {
    const container: Container<T>
    var index: Int32

    constructor (container: Container<T>, index: Int32)
      ensures this.container == container && this.index == index
    {
      this.container := container;
      this.index := index;
    }

    /** `operator*`: `operator[]` at the position converted to `size_t`; a negative position
        becomes a huge index, which `operator[]` rejects unless the container is that large. */
    function Deref(): (r: Result<T>)
      reads this, container
      ensures 0 <= index < |container.elements| ==> r == Ok(container.elements[index])
      ensures 0 <= index && |container.elements| <= index ==> r == Err(OutOfRange)
      ensures index < 0 && |container.elements| <= SIZE_MOD + index ==> r == Err(OutOfRange)
    {
      container.At(IntToSize(index))
    }

    /** `operator++` steps DOWN; decrementing the smallest `int` is undefined, so it is excluded. */
    method Advance()
      requires index > INT_MIN
      modifies this
      ensures index == old(index) - 1
    {
      index := index - 1;
    }

    /** `operator==`: equal positions, whatever containers the two cursors read. */
    function Equals(other: ReverseCursor<T>): (b: bool)
      reads this, other
      ensures b <==> index == other.index
    {
      index == other.index
    }

    /** `operator!=`: the negation of `operator==`. */
    function NotEquals(other: ReverseCursor<T>): (b: bool)
      reads this, other
      ensures b <==> !Equals(other)
    {
      index != other.index
    }
  }
}

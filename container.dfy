/** The insertion-ordered container: a vector of elements with append, remove-all-occurrences,
    size and emptiness queries and bounds-checked indexed reads. */
module Containers {
  import opened Sequences

  /** The two exceptions the container throws. */
  datatype Error =
    | NotFound    // `remove` of a value the container does not hold
    | OutOfRange  // `operator[]` with an index at or past the end

  /** The outcome of a call that either returns a value or throws. */
  datatype Result<T> = Ok(value: T) | Err(error: Error)

  /** The outcome of a call that returns nothing or throws. */
  datatype Outcome = Pass | Fail(error: Error)

  /** `std::find`: the first position holding `x`, or `|s|` when there is none. */
  method Find<T(==)>(s: seq<T>, x: T) returns (i: nat)
    ensures i <= |s|
    ensures i < |s| ==> s[i] == x
    ensures forall k :: 0 <= k < i ==> s[k] != x
    ensures i == |s| <==> x !in s
  {
    i := 0;
    while i < |s| && s[i] != x
      invariant i <= |s|
      invariant forall k :: 0 <= k < i ==> s[k] != x
    {
      i := i + 1;
    }
  }

  /** `std::remove` followed by `erase`: survivors are moved forward over a copy of `s`
      and the tail past the last survivor is cut off. */
  method Compact<T(==)>(s: seq<T>, x: T) returns (t: seq<T>)
    ensures t == Without(s, x)
  {
    t := s;
    var w := 0;
    for i := 0 to |s|
      invariant |t| == |s|
      invariant w <= i
      invariant t[..w] == Without(s[..i], x)
      invariant t[i..] == s[i..]
    {
      assert s[..i + 1][..i] == s[..i];
      assert t[i + 1..] == s[i + 1..] by { assert t[i + 1..] == t[i..][1..]; }
      if s[i] != x {
        t := t[w := s[i]];
        assert t[..w + 1] == t[..w] + [s[i]];
        w := w + 1;
      }
    }
    assert s[..|s|] == s;
    t := t[..w];
  }

  class Container<T(==)> {
    var elements: seq<T>

    /** An empty container. */
    constructor ()
      ensures elements == []
    {
      elements := [];
    }

    /** A container holding the values of an initializer list, in order. */
    constructor FromList(init: seq<T>)
      ensures elements == init
    {
      elements := init;
    }

    /** The copy constructor: the new container holds its own copy of the elements. */
    constructor Copy(other: Container<T>)
      ensures elements == other.elements
    {
      elements := other.elements;
    }

    /** Copy assignment; assigning a container to itself changes nothing. */
    method Assign(other: Container<T>)
      modifies this
      ensures elements == old(other.elements)
      ensures other.elements == old(other.elements)
    {
      if this != other {
        elements := other.elements;
      }
    }

    /** `push_back`: the value goes at the end, earlier elements stay where they are. */
    method Add(x: T)
      modifies this
      ensures elements == old(elements) + [x]
      ensures |elements| == |old(elements)| + 1
    {
      elements := elements + [x];
    }

    /** Every occurrence of `x` is removed and the survivors keep their order; when `x` does
        not occur, `NotFound` is thrown before anything is changed. */
    method Remove(x: T) returns (r: Outcome)
      modifies this
      ensures x !in old(elements) ==> r == Fail(NotFound) && elements == old(elements)
      ensures x in old(elements) ==> r == Pass && elements == Without(old(elements), x)
      ensures |elements| == |old(elements)| - multiset(old(elements))[x]
    {
      WithoutLength(elements, x);
      var it := Find(elements, x);
      if it == |elements| {
        return Fail(NotFound);
      }
      elements := Compact(elements, x);
      r := Pass;
    }

    /** The number of elements: exactly the indices `operator[]` accepts lie below it. */
    function Size(): (n: nat)
      reads this
      ensures n == 0 <==> elements == []
      ensures forall i: nat :: At(i).Ok? <==> i < n
    {
      |elements|
    }

    /** Whether the container holds no element. */
    function Empty(): (b: bool)
      reads this
      ensures b <==> Size() == 0
    {
      elements == []
    }

    /** `operator[]`: the element at `index`, or `OutOfRange` when `index >= size()`. */
    function At(index: nat): (r: Result<T>)
      reads this
      ensures r.Err? <==> index >= |elements|
      ensures r.Err? ==> r.error == OutOfRange
      ensures r.Ok? ==> r.value == elements[index]
    {
      if index >= |elements| then Err(OutOfRange) else Ok(elements[index])
    }

    /** A copy of the elements, agreeing with indexed reads at every position. */
    function GetElements(): (s: seq<T>)
      reads this
      ensures |s| == Size()
      ensures forall i :: 0 <= i < |s| ==> At(i) == Ok(s[i])
    {
      elements
    }
  }

  /** A copy and its source evolve separately: adding to the source leaves the copy as it was. */
  method CopyIsIndependent<T(==)>(src: Container<T>, x: T) returns (dst: Container<T>)
    modifies src
    ensures fresh(dst)
    ensures dst.elements == old(src.elements)
    ensures src.elements == old(src.elements) + [x]
  {
    dst := new Container.Copy(src);
    src.Add(x);
  }

  /** After `dst = src`, removing from `dst` leaves `src` as it was. */
  method AssignIsIndependent<T(==)>(src: Container<T>, dst: Container<T>, x: T) returns (r: Outcome)
    requires src != dst
    modifies dst
    ensures src.elements == old(src.elements)
    ensures r.Pass? <==> x in old(src.elements)
    ensures dst.elements == Without(old(src.elements), x)
  {
    dst.Assign(src);
    r := dst.Remove(x);
    if r.Fail? {
      WithoutAbsent(src.elements, x);
    }
  }
}

/** The two arrangements with index arithmetic of their own: side-cross (smallest, largest,
    next smallest, next largest, ...) and middle-out (middle, then outward left and right). */
module Orders {

  /** Side-cross arrangement of `s`: first, last, second, second to last, ... */
  function SideCross<T>(s: seq<T>): (r: seq<T>)
    ensures |r| == |s|
    decreases |s|
  {
    if |s| <= 1 then s else [s[0], s[|s| - 1]] + SideCross(s[1..|s| - 1])
  }

  /** The element side-cross puts at position `j`: even positions take from the front,
      odd positions from the back. */
  function SideCrossElement<T>(s: seq<T>, j: nat): (x: T)
    requires j < |s|
  {
    if j % 2 == 0 then s[j / 2] else s[|s| - 1 - j / 2]
  }

  lemma {:induction false} SideCrossAt<T>(s: seq<T>, j: nat)
    requires j < |s|
    ensures SideCross(s)[j] == SideCrossElement(s, j)
    decreases |s|
  {
    if |s| > 1 && j >= 2 {
      SideCrossAt(s[1..|s| - 1], j - 2);
    }
  }

  /** A sequence that agrees with side-cross position by position is the side-cross
      arrangement, and so a permutation of `s`. */
  lemma SideCrossByPositions<T>(s: seq<T>, r: seq<T>)
    requires |r| == |s|
    requires forall j :: 0 <= j < |r| ==> r[j] == SideCrossElement(s, j)
    ensures r == SideCross(s)
    ensures multiset(r) == multiset(s)
  {
    forall j | 0 <= j < |s|
      ensures r[j] == SideCross(s)[j]
    {
      SideCrossAt(s, j);
    }
    SideCrossPermutation(s);
  }

  /** Every element is emitted exactly as often as it occurs: nothing twice, nothing lost. */
  lemma {:induction false} SideCrossPermutation<T>(s: seq<T>)
    ensures multiset(SideCross(s)) == multiset(s)
    decreases |s|
  {
    if |s| > 1 {
      var mid := s[1..|s| - 1];
      SideCrossPermutation(mid);
      assert s == [s[0]] + mid + [s[|s| - 1]];
    }
  }

  /** For an odd length the middle element closes the output, emitted once. */
  lemma SideCrossOddEndsAtMiddle<T>(s: seq<T>)
    requires |s| % 2 == 1
    ensures SideCross(s)[|s| - 1] == s[|s| / 2]
    ensures forall j :: 0 <= j < |s| - 1 ==> (if j % 2 == 0 then j / 2 else |s| - 1 - j / 2) != |s| / 2
  {
    var m := |s| / 2;
    var j := 2 * m;
    assert j == |s| - 1 && j % 2 == 0 && j / 2 == m;
    SideCrossAt(s, j);
    MiddleIndexReadOnce(|s|);
  }

  /** For an odd length `n`, no side-cross position before the last reads input index `n / 2`. */
  lemma MiddleIndexReadOnce(n: nat)
    requires n % 2 == 1
    ensures forall k :: 0 <= k < n - 1 ==> (if k % 2 == 0 then k / 2 else n - 1 - k / 2) != n / 2
  {
    forall k | 0 <= k < n - 1
      ensures (if k % 2 == 0 then k / 2 else n - 1 - k / 2) != n / 2
    {
      var q := k / 2;
      assert k == 2 * q + k % 2 && q < n / 2;
    }
  }

  /** Position `j` of the middle-out walk over `n` indices: `n / 2` first, then
      `n/2 - 1, n/2 + 1, n/2 - 2, n/2 + 2, ...`. */
  function MiddleOutIndex(n: nat, j: nat): (i: nat)
    requires j < n
    ensures i < n
  {
    if j % 2 == 1 then n / 2 - (j + 1) / 2 else n / 2 + j / 2
  }

  /** The index order the middle-out view reads the container in. */
  function MiddleOutIndices(n: nat): (p: seq<nat>)
    ensures |p| == n
    ensures forall j :: 0 <= j < n ==> p[j] < n
  {
    seq(n, j requires 0 <= j < n => MiddleOutIndex(n, j))
  }

  /** Each element of `s` at the position `p` picks. */
  function Permute<T>(s: seq<T>, p: seq<nat>): (r: seq<T>)
    requires forall j :: 0 <= j < |p| ==> p[j] < |s|
    ensures |r| == |p|
    ensures forall j :: 0 <= j < |p| ==> r[j] == s[p[j]]
  {
    seq(|p|, j requires 0 <= j < |p| => s[p[j]])
  }

  /** How far index `i` lies from the middle index `n / 2`. */
  function Distance(n: nat, i: nat): (d: nat)
  {
    if i < n / 2 then n / 2 - i else i - n / 2
  }

  /** The walk starts at the middle and moves outward: distances from `n / 2` never shrink,
      and of the two indices at one distance the left one comes first. */
  lemma MiddleOutOutward(n: nat)
    requires n > 0
    ensures MiddleOutIndices(n)[0] == n / 2
    ensures forall a, b :: 0 <= a < b < n ==>
      var p := MiddleOutIndices(n);
      Distance(n, p[a]) < Distance(n, p[b]) || (Distance(n, p[a]) == Distance(n, p[b]) && p[a] < p[b])
  {
  }

  /** The walk visits every index of `[0, n)` exactly once. */
  lemma MiddleOutIsPermutation(n: nat)
    ensures forall i :: i in MiddleOutIndices(n) <==> 0 <= i < n
    ensures forall a, b :: 0 <= a < b < n ==> MiddleOutIndices(n)[a] != MiddleOutIndices(n)[b]
  {
    var p := MiddleOutIndices(n);
    var m := n / 2;
    forall i | 0 <= i < n
      ensures i in p
    {
      var j := if i < m then 2 * (m - i) - 1 else 2 * (i - m);
      assert p[j] == i;
    }
  }
}

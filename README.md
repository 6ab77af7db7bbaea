# MyContainer with six order views, in Dafny

This project models `MyContainer<T>`, a generic C++ container that keeps its elements in
insertion order. It offers `add`, `remove` (which deletes every occurrence of a value),
`size`, `empty`, a bounds-checked `operator[]`, `getElements`, and copy construction and
assignment. Six nested views walk the elements in a derived order, and each hands out an index
cursor with `begin`, `end`, `++`, `*` and `==`/`!=`:

- Snapshot views (`AscendingOrder`, `DescendingOrder`, `SideCrossOrder`, `MiddleOutOrder`)
  copy the elements when they are built and then walk their private copy.
- Live views (`Order`, `ReverseOrder`) keep the container itself and read it through
  `operator[]` on every step.

Modules:

- `Machine`: the `size_t` (64-bit unsigned) and `int` (32-bit signed) arithmetic that the
  views depend on. This covers `size() - 1` wrapping on an empty container, and a `size_t`
  converting to `-1`.
- `Sequences`: reversal, and filtering out one value (the erase-remove idiom).
- `Sorting`: `std::sort` over `int`, in both directions. It is proved to be the unique sorted
  permutation, so the model fits any correct `std::sort`.
- `Containers`: the `Container` class, plus the `std::find` and `std::remove` loops.
- `Cursors`: the three cursor kinds and the sequences that a walk from begin to end reads.
- `Orders`: the side-cross and middle-out arrangements and what is proved about them.
- `Views`: the six view classes, with the side-cross and middle-out construction loops.
- `Scenarios`: callers working with whole objects. This includes the sample container
  `7, 15, 6, 1, 2` from the repository's tests.

C++ exceptions become results: `Result<T>` for `operator[]` and `Outcome` for `remove`.
`std::out_of_range` becomes `OutOfRange`, and the `runtime_error` that `remove` throws becomes
`NotFound`.

Two points about the code that the model keeps:

- The insertion-order view keeps a pointer to the container (MyContainer.hpp:288-328), so it
  reads the container live, like the reverse view.
- The side-cross view has no guard for an empty container (MyContainer.hpp:194). The model
  requires a non-empty container there.

## Model

| member | source | states |
|---|---|---|
| Machine.SizeSub | MyContainer.hpp:194 | `size_t` subtraction: exact when no underflow, and wraps to 2^64 + a - b when b > a |
| Machine.SizeAdd | MyContainer.hpp:347 | `size_t` addition, exact below 2^64 |
| Machine.SizeToInt | MyContainer.hpp:346-347 | `size_t` to `int`: values up to INT_MAX keep their value, and the largest `size_t` becomes -1 |
| Machine.IntToSize | MyContainer.hpp:261-263 | `int` to `size_t`: non-negative values keep their value, and negative ones become larger than any `int` |
| Sequences.Reverse | MyContainer.hpp:279-285 | same length, and position i holds element n-1-i |
| Sequences.ReverseMultiset | MyContainer.hpp:279-285 | reversing keeps every element with its multiplicity |
| Sequences.Without | MyContainer.hpp:49-52 | what erase-remove leaves: never longer than the input, and every survivor is an element of the input other than the removed value |
| Sequences.WithoutAppend | MyContainer.hpp:49-52 | removing a value from a concatenation is the concatenation of the two filtered parts, so survivors keep their relative order |
| Sequences.WithoutMultiset | MyContainer.hpp:49-52 | every occurrence of the value goes, and every other value keeps its multiplicity |
| Sequences.WithoutLength | MyContainer.hpp:49-52 | the length drops by the number of occurrences, and the value no longer occurs |
| Sequences.WithoutAbsent | MyContainer.hpp:44-47 | removing an absent value changes nothing |
| Sorting.InOrder | MyContainer.hpp:146 | `a` may come before `b` exactly when the comparator (`operator<` ascending, `std::greater` descending) does not put `b` strictly first |
| Sorting.InOrderTotal | MyContainer.hpp:100 | both comparators order every pair of `int`s one way round, and a pair in order both ways round is equal |
| Sorting.Insert | MyContainer.hpp:100 | inserting adds exactly one copy of the value to the multiset |
| Sorting.InsertSorted | MyContainer.hpp:100 | inserting into a sorted sequence keeps it sorted |
| Sorting.Sort | MyContainer.hpp:100 | `std::sort` gives a result sorted in the requested direction that is a permutation of the input |
| Sorting.SortedPermutationUnique | MyContainer.hpp:100 | two sequences sorted in the same direction with equal multisets are equal |
| Sorting.SortIsUnique | MyContainer.hpp:146 | any sorted permutation of the input equals `Sort`, so every correct `std::sort` gives the same result |
| Sorting.DescendingIsReversedAscending | MyContainer.hpp:144-147 | sorting with `std::greater` gives the exact reverse of sorting with `operator<` |
| Containers.Find | MyContainer.hpp:44 | `std::find` returns the first position holding the value, or the end exactly when the value is absent |
| Containers.Compact | MyContainer.hpp:49-52 | erase-remove leaves exactly the filtered sequence |
| Containers.Container.constructor | MyContainer.hpp:19 | a new container is empty |
| Containers.Container.FromList | MyContainer.hpp:20-21 | an initializer-list container holds the list, in order |
| Containers.Container.Copy | MyContainer.hpp:24 | the copy holds the source's elements |
| Containers.Container.Assign | MyContainer.hpp:27-32 | after assignment the target holds the source's old elements and the source is unchanged, including under self-assignment |
| Containers.Container.Add | MyContainer.hpp:38-40 | the new elements are the old ones plus the value at the end, so the size grows by one |
| Containers.Container.Remove | MyContainer.hpp:43-53 | an absent value gives `NotFound` with nothing changed; a present one gives `Pass` with every occurrence filtered out; either way the size drops by the value's count |
| Containers.Container.Size | MyContainer.hpp:56-58 | zero exactly for the empty container, and exactly the indices below it are readable |
| Containers.Container.Empty | MyContainer.hpp:61-63 | true exactly when `size()` is 0 |
| Containers.Container.At | MyContainer.hpp:66-71 | `OutOfRange` exactly when index >= size, and otherwise the element at that index |
| Containers.Container.GetElements | MyContainer.hpp:74-76 | the copy has `size()` elements and agrees with `operator[]` at every position |
| Containers.CopyIsIndependent | MyContainer.hpp:24 | after copying, an `add` on the source leaves the copy as it was |
| Containers.AssignIsIndependent | MyContainer.hpp:27-32 | after assignment, a `remove` on the target leaves the source as it was |
| Cursors.ForwardWalk | MyContainer.hpp:103-135 | walking a snapshot cursor from position i to the end reads exactly the slice [i, end) |
| Cursors.BackwardWalk | MyContainer.hpp:253-285 | walking down from i to the sentinel reads i - end elements, the k-th at position i - k |
| Cursors.ReverseBegin | MyContainer.hpp:279-281 | `int(size() - 1)` is the last position, and -1 for an empty container, for up to 2^31 elements |
| Cursors.BackwardWalkReadsReverse | MyContainer.hpp:261-268 | stepping down from the last position to -1 reads position k of the walk as element n-1-k, which is `Reverse` |
| Cursors.BackwardWalkIsReverse | MyContainer.hpp:279-285 | the walk from the last position down to -1 is the exact reverse of the walk from 0 up to `size()` |
| Cursors.SnapshotCursor.constructor | MyContainer.hpp:109 | the cursor starts on the given vector at the given index |
| Cursors.SnapshotCursor.Deref | MyContainer.hpp:111-113 | yields the vector's element at the cursor's index |
| Cursors.SnapshotCursor.Advance | MyContainer.hpp:115-118 | the index goes up by one |
| Cursors.SnapshotCursor.Equals | MyContainer.hpp:124-126 | true exactly when the indices are equal, whatever vectors the cursors walk |
| Cursors.SnapshotCursor.NotEquals | MyContainer.hpp:120-122 | the negation of `Equals` |
| Cursors.OrderCursor.constructor | MyContainer.hpp:301 | the cursor starts on the given container at the given index |
| Cursors.OrderCursor.Deref | MyContainer.hpp:303-305 | the container's element at the index as it is at the time of the call, or `OutOfRange` past the end |
| Cursors.OrderCursor.Advance | MyContainer.hpp:307-310 | the index goes up by one |
| Cursors.OrderCursor.Equals | MyContainer.hpp:316-318 | true exactly when the indices are equal, whatever containers the cursors read |
| Cursors.OrderCursor.NotEquals | MyContainer.hpp:312-314 | the negation of `Equals` |
| Cursors.ReverseCursor.constructor | MyContainer.hpp:259 | the cursor starts on the given container at the given signed index |
| Cursors.ReverseCursor.Deref | MyContainer.hpp:261-263 | an in-range index yields the live element; an index past the end, or a negative one converted to a huge `size_t`, gives `OutOfRange` |
| Cursors.ReverseCursor.Advance | MyContainer.hpp:265-268 | the index goes DOWN by one |
| Cursors.ReverseCursor.Equals | MyContainer.hpp:274-276 | true exactly when the indices are equal, whatever containers the cursors read |
| Cursors.ReverseCursor.NotEquals | MyContainer.hpp:270-272 | the negation of `Equals` |
| Orders.SideCross | MyContainer.hpp:197-206 | the arrangement has as many elements as its input |
| Orders.SideCrossAt | MyContainer.hpp:197-206 | output position 2k holds input k, and position 2k+1 holds input n-1-k |
| Orders.SideCrossByPositions | MyContainer.hpp:197-206 | a sequence that matches that formula at every position is the side-cross arrangement, and so a permutation of the input |
| Orders.SideCrossPermutation | MyContainer.hpp:197-206 | every element comes out exactly as often as it occurs, so nothing is doubled or lost |
| Orders.SideCrossOddEndsAtMiddle | MyContainer.hpp:197-205 | for an odd length the middle element is emitted last, and no earlier position reads the middle index, so it is emitted once |
| Orders.MiddleIndexReadOnce | MyContainer.hpp:197-205 | for an odd length, no position before the last reads the middle input index |
| Orders.MiddleOutIndex | MyContainer.hpp:340-357 | every middle-out position is an index inside [0, n) |
| Orders.MiddleOutIndices | MyContainer.hpp:338-357 | n indices, all inside [0, n) |
| Orders.Permute | MyContainer.hpp:360-362 | the result has one element per index, the k-th being the element at index p[k] |
| Orders.MiddleOutOutward | MyContainer.hpp:343-357 | starts at n/2; the distance from n/2 never shrinks; at equal distance the left index comes first |
| Orders.MiddleOutIsPermutation | MyContainer.hpp:338-357 | every index of [0, n) is visited, and none twice |
| Views.AscendingOrder.constructor | MyContainer.hpp:98-101 | the snapshot is sorted non-decreasingly, is a permutation of the container's elements, and equals `Sort` |
| Views.AscendingOrder.Begin | MyContainer.hpp:129-131 | a cursor at position 0 of the snapshot |
| Views.AscendingOrder.End | MyContainer.hpp:133-135 | a cursor at position `size` of the snapshot |
| Views.DescendingOrder.constructor | MyContainer.hpp:144-147 | the snapshot is sorted non-increasingly and is a permutation of the container's elements |
| Views.DescendingOrder.Begin | MyContainer.hpp:175-177 | a cursor at position 0 of the snapshot |
| Views.DescendingOrder.End | MyContainer.hpp:179-181 | a cursor at position `size` of the snapshot |
| Views.CrossFromEnds | MyContainer.hpp:194-206 | the two-pointer loop over a non-empty sorted copy gives exactly the side-cross arrangement, a permutation of its input |
| Views.SideCrossOrder.constructor | MyContainer.hpp:190-207 | on a non-empty container, the snapshot is the side-cross arrangement of the sorted elements, of the same length, and a permutation of them |
| Views.SideCrossOrder.Begin | MyContainer.hpp:236-238 | a cursor at position 0 of the snapshot |
| Views.SideCrossOrder.End | MyContainer.hpp:240-242 | a cursor at position `size` of the snapshot |
| Views.MiddleOutWalk | MyContainer.hpp:339-357 | the loop with signed `left` and `right` and the toggling `go_left` ends, and gives exactly the middle-out index sequence |
| Views.MiddleOutOrder.constructor | MyContainer.hpp:335-363 | the snapshot is the container's elements read in middle-out index order, and is empty for an empty container |
| Views.MiddleOutOrder.Begin | MyContainer.hpp:392-394 | a cursor at position 0 of the snapshot |
| Views.MiddleOutOrder.End | MyContainer.hpp:396-398 | a cursor at position `size` of the snapshot |
| Views.Order.constructor | MyContainer.hpp:293 | the view refers to the container itself |
| Views.Order.Begin | MyContainer.hpp:321-323 | a cursor at index 0 on the live container |
| Views.Order.End | MyContainer.hpp:325-327 | a cursor at the container's size at the time of the call |
| Views.ReverseOrder.constructor | MyContainer.hpp:251 | the view refers to the container itself |
| Views.ReverseOrder.Begin | MyContainer.hpp:279-281 | the index is `int(size() - 1)`, computed with wrap-around; that is the last position, or -1 when empty |
| Views.ReverseOrder.End | MyContainer.hpp:283-285 | a cursor at the -1 sentinel |
| Scenarios.SampleAscending | test.cpp:86-91 | `7, 15, 6, 1, 2` sorts to `1, 2, 6, 7, 15` |
| Scenarios.SampleDescending | test.cpp:93-98 | `7, 15, 6, 1, 2` sorts with `std::greater` to `15, 7, 6, 2, 1` |
| Scenarios.SampleSideCross | test.cpp:100-105 | side-cross of the sorted sample is `1, 15, 2, 7, 6` |
| Scenarios.SampleMiddleOut | test.cpp:121-126 | middle-out of the sample is `6, 15, 1, 7, 2` |
| Scenarios.SingleElementArrangements | test.cpp:137-142 | every arrangement of one element is that element |
| Scenarios.SampleContainer | test.cpp:78-82 | five `add` calls give `7, 15, 6, 1, 2` in order |
| Scenarios.SampleAscendingView | test.cpp:86-91 | the ascending view of the sample container |
| Scenarios.SampleDescendingView | test.cpp:93-98 | the descending view of the sample container |
| Scenarios.CollectSnapshot | test.cpp:15-20 | `collect` over a snapshot cursor: dereferencing and advancing until the cursor equals `end` reads exactly the walk from the start position to `end`, and a full walk reads the whole snapshot |
| Scenarios.CollectOrder | test.cpp:15-20 | `collect` over the insertion-order view, through its cursors: the container's elements in insertion order |
| Scenarios.CollectReverse | test.cpp:15-20 | `collect` over the reverse view, through its cursors: the backward walk from the last position to -1, which is the exact reverse of the elements |
| Scenarios.SampleCrossView | test.cpp:100-105 | the side-cross view of the sample container, collected, is `1, 15, 2, 7, 6` |
| Scenarios.SampleMiddleView | test.cpp:121-126 | the middle-out view of the sample container, collected, is `6, 15, 1, 7, 2` |
| Scenarios.SampleLiveViews | test.cpp:107-119 | the insertion-order view of the sample container collects `7, 15, 6, 1, 2`, and the reverse view collects `2, 1, 6, 15, 7` |
| Scenarios.MirroredSortedViews | MyContainer.hpp:98-181 | the ascending view is a sorted permutation of the elements, and the descending view is its exact reverse |
| Scenarios.MirroredLiveViews | MyContainer.hpp:245-328 | collected through the cursors, the insertion-order view yields the elements, and the reverse walk taken at the same moment yields their exact reverse |
| Scenarios.SnapshotVersusLive | MyContainer.hpp:98-101 | after a later `add`, the ascending snapshot keeps the old elements, while the live view's old end position now reads the new element and its new end is one further on |
| Scenarios.CursorsCompareByIndex | MyContainer.hpp:124-126 | the end cursors of two ascending views, and of two insertion-order views, over different containers of equal size compare equal, because equality ignores what the cursors walk |
| Scenarios.EmptyViews | test.cpp:130-135 | on an empty container, begin equals end for the ascending, descending, middle-out, insertion-order and reverse views |

## Left out

- `operator<<` (MyContainer.hpp:79-89) is stream output, which is I/O. It is not modelled.
- Demo.cpp, a console demo, is not modelled, and neither is test.cpp's test harness. The
  tests' sample values are used as expected results.
- Scenarios.CollectOrder: `collect` calls `end()` on every round of its loop. The model calls it
  once, before the loop. Nothing changes the container during the walk, so the two agree.
- The `double` and `std::string` instantiations are left out. The container and the
  live views are generic over any type with equality. The three ordering views are modelled
  over `int`.
- Views.SideCrossOrder.constructor: requires a non-empty container. On an empty one,
  `sorted.size() - 1` wraps and `sorted[0]` is read out of bounds, which is undefined behaviour
  in the source.
- Views.MiddleOutOrder.constructor: requires at most INT_MAX elements. Beyond that, the
  source's 32-bit `int` positions and its `static_cast<int>(size)` wrap, and the model does not
  follow them there.
- Views.MiddleOutWalk: requires 1 to INT_MAX elements, for the same reason. The empty case is
  the constructor's early return.
- Cursors.ReverseBegin: proved only for at most 2^31 elements. For larger containers,
  converting `size() - 1` to `int` no longer gives the last position.
- Scenarios.MirroredLiveViews: requires at most 2^31 elements, the bound of Cursors.ReverseBegin.
  For larger containers the reverse view does not start at the last position.
- Scenarios.CollectReverse: requires at most 2^31 elements, for the same reason.
- Cursors.ReverseCursor.Advance: requires the index to be above INT_MIN. Decrementing the
  smallest `int` is signed overflow, which is undefined behaviour in C++. A walk from `begin`
  to the `-1` sentinel never reaches that index.
- Snapshot cursors' `operator*` is unchecked in the source. The model requires the cursor to be
  inside its vector.
- `operator++` on a `size_t` cursor wraps at 2^64. The model does not show this, because a walk
  from `begin` to `end` never goes past `size()`.
- `vector::max_size`, and the `length_error` that `push_back` throws, are not modelled. Sequences
  are unbounded and the conversions reduce modulo 2^64.
- The container and its views hold raw pointers. The model uses object references for them.
  Iterator invalidation, and dangling views after the container is destroyed,
  are not modelled. A live view reads whatever the container holds at the time of each call.
- Cursors.SnapshotCursor: the four snapshot views' iterator types (MyContainer.hpp:103-127,
  149-173, 209-234, 365-390) are distinct C++ types, and the model merges them into this one class.
  As a result, the model accepts comparisons between cursors of different views that C++ rejects
  at compile time.
- `operator*` returns a const reference in the source. The model returns the value.
- `std::sort`'s algorithm and complexity are not modelled. It is a functional insertion sort,
  proved equal to every sorted permutation.
- The unused `current_index` field of `AscendingOrder` (MyContainer.hpp:95) is not modelled.

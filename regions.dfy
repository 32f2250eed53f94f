/**
  The contour step of the first PDF strategy: contours reduced to their bounding
  boxes and areas (as OpenCV reports them), the area filter, the top-to-bottom,
  left-to-right sort, and the contour-count test of the automatic selector.
 */
module Regions {

  /** `cv2.boundingRect(cnt)`: `(x, y, w, h)`. */
  datatype Box = Box(x: int, y: int, w: int, h: int)

  /** A detected contour: its bounding box and `cv2.contourArea(cnt)`. */
  datatype Contour = Contour(box: Box, area: real)

  /** The area a contour must exceed to be kept. */
  const MinArea: real := 1000.0

  /** The boxes of the contours with area above the threshold, in contour order. */
  function KeptBoxes(cs: seq<Contour>): seq<Box> {
    if cs == [] then []
    else
      var last := cs[|cs| - 1];
      KeptBoxes(cs[..|cs| - 1]) + (if last.area > MinArea then [last.box] else [])
  }

  // ---------------------------------------------------------------------------
  // sorted(..., key=lambda b: (b[1], b[0]))
  // ---------------------------------------------------------------------------

  /** The sort key `(y, x)` of `a` is below that of `b` (Python tuple order). */
  predicate KeyBelow(a: Box, b: Box) {
    a.y < b.y || (a.y == b.y && a.x < b.x)
  }

  /** The sort key of `a` is at most that of `b`. */
  predicate KeyAtMost(a: Box, b: Box) {
    !KeyBelow(b, a)
  }

  predicate SameKey(a: Box, b: Box) {
    a.y == b.y && a.x == b.x
  }

  predicate SortedByKey(s: seq<Box>) {
    forall i, j :: 0 <= i < j < |s| ==> KeyAtMost(s[i], s[j])
  }

  /** Puts `b` in front of the first element whose key is not below its own. */
  function Insert(b: Box, s: seq<Box>): (r: seq<Box>)
    ensures |r| == |s| + 1
  {
    if s == [] || KeyAtMost(b, s[0]) then [b] + s
    else [s[0]] + Insert(b, s[1..])
  }

  /** `sorted` with key `(y, x)`: a stable sort, written as insertion from the back. */
  function SortByKey(s: seq<Box>): (r: seq<Box>)
    ensures |r| == |s|
  {
    if s == [] then [] else Insert(s[0], SortByKey(s[1..]))
  }

  /** The boxes of `s` with the same key as `k`, in their order in `s`. */
  function WithKeyOf(s: seq<Box>, k: Box): seq<Box> {
    if s == [] then []
    else (if SameKey(s[0], k) then [s[0]] else []) + WithKeyOf(s[1..], k)
  }

  /** `filter_and_sort_contours(contours)` */
  method FilterAndSortContours(contours: seq<Contour>) returns (sorted: seq<Box>)
    ensures sorted == SortByKey(KeptBoxes(contours))
  {
    var filtered: seq<Box> := [];
    for i := 0 to |contours|
      invariant filtered == KeptBoxes(contours[..i])
    {
      assert contours[..i + 1][..i] == contours[..i];
      var cnt := contours[i];
      if cnt.area > MinArea {
        filtered := filtered + [cnt.box];
      }
    }
    assert contours[..|contours|] == contours;
    sorted := SortByKey(filtered);
  }

  /** `is_suitable_for_solution1`: more than ten contours, counted before any filtering. */
  predicate IsSuitableForSolution1(contours: seq<Contour>) {
    contours != [] && |contours| > 10
  }

  // ---------------------------------------------------------------------------
  // Properties
  // ---------------------------------------------------------------------------

  /** The positions of the contours with area above the threshold, in contour order. */
  function KeptIndices(cs: seq<Contour>): seq<nat> {
    if cs == [] then []
    else
      var n := |cs| - 1;
      KeptIndices(cs[..n]) + (if cs[n].area > MinArea then [n] else [])
  }

  /** The `i`-th kept box is the box of the `i`-th kept position, whose area is above 1000. */
  lemma {:induction false} KeptIndicesBoxes(cs: seq<Contour>)
    ensures |KeptIndices(cs)| == |KeptBoxes(cs)|
    ensures forall i :: 0 <= i < |KeptIndices(cs)| ==>
              KeptIndices(cs)[i] < |cs| && cs[KeptIndices(cs)[i]].area > MinArea &&
              KeptBoxes(cs)[i] == cs[KeptIndices(cs)[i]].box
  {
    if cs != [] {
      var n := |cs| - 1;
      var init := cs[..n];
      KeptIndicesBoxes(init);
      var prev := KeptIndices(init);
      var before := KeptBoxes(init);
      forall i | 0 <= i < |prev|
        ensures prev[i] < |cs| && cs[prev[i]].area > MinArea && before[i] == cs[prev[i]].box
      {
        assert cs[prev[i]] == init[prev[i]];
      }
    }
  }

  /** The kept positions increase, so the filter keeps contour order. */
  lemma {:induction false} KeptIndicesIncrease(cs: seq<Contour>)
    ensures forall i :: 0 <= i < |KeptIndices(cs)| ==> KeptIndices(cs)[i] < |cs|
    ensures forall i, j :: 0 <= i < j < |KeptIndices(cs)| ==> KeptIndices(cs)[i] < KeptIndices(cs)[j]
  {
    if cs != [] {
      KeptIndicesIncrease(cs[..|cs| - 1]);
    }
  }

  /** Every contour with area above 1000 is kept. */
  lemma {:induction false} KeptIndicesComplete(cs: seq<Contour>)
    ensures forall j :: 0 <= j < |cs| && cs[j].area > MinArea ==> j in KeptIndices(cs)
  {
    if cs != [] {
      var n := |cs| - 1;
      var init := cs[..n];
      KeptIndicesComplete(init);
      forall j | 0 <= j < n && cs[j].area > MinArea
        ensures j in KeptIndices(cs)
      {
        assert init[j] == cs[j];
        assert j in KeptIndices(init);
      }
    }
  }

  /** Inserting adds `b` and keeps every other box. */
  lemma {:induction false} InsertMultiset(b: Box, s: seq<Box>)
    ensures multiset(Insert(b, s)) == multiset(s) + multiset{b}
  {
    if s != [] && !KeyAtMost(b, s[0]) {
      InsertMultiset(b, s[1..]);
      assert s == [s[0]] + s[1..];
    }
  }

  /** Inserting into a sorted sequence keeps it sorted. */
  lemma {:induction false} InsertFacts(b: Box, s: seq<Box>)
    requires SortedByKey(s)
    ensures SortedByKey(Insert(b, s))
    ensures multiset(Insert(b, s)) == multiset(s) + multiset{b}
  {
    InsertMultiset(b, s);
    if s != [] && !KeyAtMost(b, s[0]) {
      InsertFacts(b, s[1..]);
      var r := Insert(b, s[1..]);
      forall x | x in r
        ensures KeyAtMost(s[0], x)
      {
        assert x in multiset(r);
        if x != b {
          assert x in multiset(s[1..]);
        }
      }
      assert Insert(b, s) == [s[0]] + r;
    }
  }

  /** The sort result is ordered by `(y, x)`. */
  lemma {:induction false} SortByKeySorted(s: seq<Box>)
    ensures SortedByKey(SortByKey(s))
    ensures multiset(SortByKey(s)) == multiset(s)
  {
    if s != [] {
      SortByKeySorted(s[1..]);
      InsertFacts(s[0], SortByKey(s[1..]));
      assert s == [s[0]] + s[1..];
    }
  }

  /** Inserting a box places it ahead of every box with the same key. */
  lemma {:induction false} InsertWithKey(b: Box, s: seq<Box>, k: Box)
    ensures WithKeyOf(Insert(b, s), k) ==
            if SameKey(b, k) then [b] + WithKeyOf(s, k) else WithKeyOf(s, k)
  {
    if s == [] || KeyAtMost(b, s[0]) {
      assert ([b] + s)[1..] == s;
    } else {
      InsertWithKey(b, s[1..], k);
      assert ([s[0]] + Insert(b, s[1..]))[1..] == Insert(b, s[1..]);
    }
  }

  /** The sort is stable: boxes with equal keys keep their relative order. */
  lemma {:induction false} SortByKeyStable(s: seq<Box>, k: Box)
    ensures WithKeyOf(SortByKey(s), k) == WithKeyOf(s, k)
  {
    if s != [] {
      SortByKeyStable(s[1..], k);
      InsertWithKey(s[0], SortByKey(s[1..]), k);
    }
  }

  /**
    `filter_and_sort_contours` returns the kept boxes as a permutation, sorted by
    `(y, x)`, with boxes of equal key in contour order.
   */
  lemma FilterAndSortFacts(contours: seq<Contour>, k: Box)
    ensures SortedByKey(SortByKey(KeptBoxes(contours)))
    ensures multiset(SortByKey(KeptBoxes(contours))) == multiset(KeptBoxes(contours))
    ensures WithKeyOf(SortByKey(KeptBoxes(contours)), k) == WithKeyOf(KeptBoxes(contours), k)
  {
    SortByKeySorted(KeptBoxes(contours));
    SortByKeyStable(KeptBoxes(contours), k);
  }

  /**
    The automatic selector counts raw contours: more than ten contours make a page
    suitable for contour detection even when none would survive the area filter.
   */
  lemma {:induction false} SuitableWithoutKeptBoxes(cs: seq<Contour>)
    requires |cs| > 10
    requires forall i :: 0 <= i < |cs| ==> cs[i].area <= MinArea
    ensures IsSuitableForSolution1(cs)
    ensures KeptBoxes(cs) == []
  {
    NothingKept(cs);
  }

  lemma {:induction false} NothingKept(cs: seq<Contour>)
    requires forall i :: 0 <= i < |cs| ==> cs[i].area <= MinArea
    ensures KeptBoxes(cs) == []
  {
    if cs != [] {
      NothingKept(cs[..|cs| - 1]);
    }
  }
}

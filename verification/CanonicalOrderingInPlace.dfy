/** The in-place ordering of runtime/src/unicode.c: runs of marks are found, short ones
    are insertion sorted and long ones go through 256 stable buckets. Both come out as the
    canonical ordering. */
module CanonicalOrderingInPlace {
  import opened Sorting
  import opened CanonicalOrdering

  const SHORT := 32

  ghost predicate Marks(ccc: Class, r: seq<nat>) { forall x :: x in r ==> ccc(x) != 0 }

  /** Marks do not move past a starter. */
  ghost predicate Closed(ccc: Class, s: seq<nat>) { s == [] || ccc(s[|s| - 1]) == 0 }

  lemma {:induction false} PlaceAfter(ccc: Class, s: seq<nat>, t: seq<nat>, x: nat)
    requires Closed(ccc, s)
    ensures Place(ccc, s + t, x) == s + Place(ccc, t, x)
  {
    if t == [] {
      assert s + t == s;
    } else {
      assert (s + t)[..|s + t| - 1] == s + t[..|t| - 1];
      PlaceAfter(ccc, s, t[..|t| - 1], x);
    }
  }

  lemma {:induction false} OrderAfter(ccc: Class, s: seq<nat>, r: seq<nat>)
    requires Closed(ccc, s)
    ensures OrderFrom(ccc, s, r) == s + Order(ccc, r)
  {
    if r == [] {
      assert s + [] == s;
    } else {
      OrderAfter(ccc, s, r[..|r| - 1]);
      PlaceAfter(ccc, s, Order(ccc, r[..|r| - 1]), r[|r| - 1]);
    }
  }

  // ------------------------------------------------------------------ insertion sort

  /** Passing over marks of a higher class from the right. */
  lemma {:induction false} PlacePast(ccc: Class, s: seq<nat>, j: nat, x: nat)
    requires j <= |s| && ccc(x) != 0 && forall i :: j <= i < |s| ==> ccc(s[i]) > ccc(x)
    ensures Place(ccc, s, x) == Place(ccc, s[..j], x) + s[j..]
    decreases |s|
  {
    if j < |s| {
      var front, last := s[..|s| - 1], s[|s| - 1];
      PlacePast(ccc, front, j, x);
      assert front[..j] == s[..j] && front[j..] + [last] == s[j..];
    } else {
      assert s[..j] == s;
    }
  }

  /** Moves the mark at `index` left to its place among the ordered marks before it. */
  method InsertMark(ccc: Class, points: array<nat>, start: nat, index: nat)
    requires start <= index < points.Length && ccc(points[index]) != 0
    modifies points
    ensures points[start..index + 1] == Place(ccc, old(points[start..index]), old(points[index]))
    ensures forall i :: 0 <= i < start || index < i < points.Length ==> points[i] == old(points[i])
  {
    ghost var s := points[start..index];
    var cp := points[index];
    var cursor := ShiftMarks(ccc, points, start, index, cp, s);
    points[cursor] := cp;
    PlaceThere(ccc, s, cursor - start, cp);
    Inserted(points[start..index + 1], s, cursor - start, cp);
  }

  lemma {:induction false} Inserted(r: seq<nat>, s: seq<nat>, j: nat, x: nat)
    requires |r| == |s| + 1 && j <= |s| && r[j] == x
    requires forall i :: 0 <= i < j ==> r[i] == s[i]
    requires forall i :: j < i < |r| ==> r[i] == s[i - 1]
    ensures r == s[..j] + [x] + s[j..]
  {
  }

  /** Moves the marks of a higher class one place right and returns the gap. */
  method ShiftMarks(ccc: Class, points: array<nat>, start: nat, index: nat, cp: nat,
                    ghost s: seq<nat>) returns (cursor: nat)
    requires start <= index < points.Length && s == points[start..index]
    modifies points
    ensures start <= cursor <= index
    ensures forall i :: start <= i < cursor ==> points[i] == s[i - start]
    ensures forall i :: cursor < i <= index ==> points[i] == s[i - 1 - start]
    ensures forall i :: cursor - start <= i < |s| ==> ccc(s[i]) > ccc(cp)
    ensures cursor > start ==> ccc(s[cursor - 1 - start]) <= ccc(cp)
    ensures forall i :: 0 <= i < start || index < i < points.Length ==> points[i] == old(points[i])
  {
    cursor := index;
    while cursor > start && ccc(points[cursor - 1]) > ccc(cp)
      invariant start <= cursor <= index
      invariant forall i :: start <= i < cursor ==> points[i] == s[i - start]
      invariant forall i :: cursor < i <= index ==> points[i] == s[i - 1 - start]
      invariant forall i :: cursor - start <= i < |s| ==> ccc(s[i]) > ccc(cp)
      invariant forall i :: 0 <= i < start || index < i < points.Length ==> points[i] == old(points[i])
    {
      points[cursor] := points[cursor - 1];
      cursor := cursor - 1;
    }
  }

  lemma {:induction false} PlaceThere(ccc: Class, s: seq<nat>, j: nat, x: nat)
    requires j <= |s| && ccc(x) != 0 && forall i :: j <= i < |s| ==> ccc(s[i]) > ccc(x)
    requires j > 0 ==> ccc(s[j - 1]) <= ccc(x)
    ensures Place(ccc, s, x) == s[..j] + [x] + s[j..]
  {
    PlacePast(ccc, s, j, x);
  }

  ghost predicate SameOutside(now: seq<nat>, before: seq<nat>, start: nat, end: nat) {
    |now| == |before| && forall i :: 0 <= i < |now| && (i < start || end <= i) ==> now[i] == before[i]
  }

  method InsertionSort(ccc: Class, points: array<nat>, start: nat, end: nat)
    requires start < end <= points.Length && Marks(ccc, points[start..end])
    modifies points
    ensures points[start..end] == Order(ccc, old(points[start..end]))
    ensures SameOutside(points[..], old(points[..]), start, end)
  {
    ghost var r := points[start..end];
    var index := start + 1;
    OneMark(ccc, r);
    while index < end
      invariant start < index <= end
      invariant points[start..index] == Order(ccc, r[..index - start])
      invariant SameOutside(points[..], old(points[..]), start, index)
    {
      ghost var k := index - start;
      assert points[index] == old(points[..])[index] == r[k] && r[k] in r;
      assert r[..k + 1][..k] == r[..k];
      InsertMark(ccc, points, start, index);
      index := index + 1;
    }
    assert r[..end - start] == r;
  }

  lemma {:induction false} OneMark(ccc: Class, r: seq<nat>)
    requires r != []
    ensures Order(ccc, r[..1]) == r[..1]
  {
    assert r[..1][..0] == [];
    assert Order(ccc, []) == [];
  }

  // ------------------------------------------------------------------- class buckets

  function OfClass(ccc: Class, c: nat): nat -> bool { (x: nat) => ccc(x) == c }

  function Bucket(ccc: Class, r: seq<nat>, c: nat): seq<nat> { Filter(r, OfClass(ccc, c)) }

  /** The buckets from class `lo` up to `hi`, one after the other. */
  function Buckets(ccc: Class, r: seq<nat>, lo: nat, hi: nat): seq<nat> {
    if lo >= hi then [] else Buckets(ccc, r, lo, hi - 1) + Bucket(ccc, r, hi - 1)
  }

  lemma {:induction false} BucketMore(ccc: Class, r: seq<nat>, x: nat, c: nat)
    ensures Bucket(ccc, r + [x], c) == if ccc(x) == c then Bucket(ccc, r, c) + [x] else Bucket(ccc, r, c)
  {
    FilterAppend(r, [x], OfClass(ccc, c));
    assert [x][1..] == [];
    assert Filter([x], OfClass(ccc, c)) == if ccc(x) == c then [x] else [];
    assert Bucket(ccc, r, c) + [] == Bucket(ccc, r, c);
  }

  lemma {:induction false} BucketsSplit(ccc: Class, r: seq<nat>, lo: nat, mid: nat, hi: nat)
    requires lo <= mid <= hi
    ensures Buckets(ccc, r, lo, hi) == Buckets(ccc, r, lo, mid) + Buckets(ccc, r, mid, hi)
    decreases hi
  {
    if mid < hi { BucketsSplit(ccc, r, lo, mid, hi - 1); }
  }

  lemma {:induction false} BucketsOther(ccc: Class, r: seq<nat>, x: nat, lo: nat, hi: nat)
    requires ccc(x) < lo || hi <= ccc(x)
    ensures Buckets(ccc, r + [x], lo, hi) == Buckets(ccc, r, lo, hi)
    decreases hi
  {
    if lo < hi {
      BucketsOther(ccc, r, x, lo, hi - 1);
      BucketMore(ccc, r, x, hi - 1);
    }
  }

  lemma {:induction false} BucketsClasses(ccc: Class, r: seq<nat>, lo: nat, hi: nat)
    ensures forall y :: y in Buckets(ccc, r, lo, hi) ==> lo <= ccc(y) < hi
    decreases hi
  {
    if lo < hi {
      BucketsClasses(ccc, r, lo, hi - 1);
      forall y | y in Bucket(ccc, r, hi - 1) ensures ccc(y) == hi - 1 {
        FilterMember(r, OfClass(ccc, hi - 1), y);
      }
    }
  }

  lemma {:induction false} BucketsWith(ccc: Class, r: seq<nat>, x: nat)
    requires ccc(x) < 256
    ensures Buckets(ccc, r + [x], 0, 256)
         == Buckets(ccc, r, 0, ccc(x) + 1) + [x] + Buckets(ccc, r, ccc(x) + 1, 256)
  {
    var c := ccc(x);
    BucketsSplit(ccc, r + [x], 0, c + 1, 256);
    BucketsOther(ccc, r, x, c + 1, 256);
    BucketsOther(ccc, r, x, 0, c);
    BucketMore(ccc, r, x, c);
    assert Buckets(ccc, r + [x], 0, c + 1) == Buckets(ccc, r, 0, c) + (Bucket(ccc, r, c) + [x]);
    assert Buckets(ccc, r, 0, c + 1) == Buckets(ccc, r, 0, c) + Bucket(ccc, r, c);
  }

  /** Emptying the buckets in class order gives the canonical ordering of a run. */
  lemma {:induction false} BucketsAreOrder(ccc: Class, r: seq<nat>)
    requires Marks(ccc, r) && forall x :: x in r ==> ccc(x) < 256
    ensures Buckets(ccc, r, 0, 256) == Order(ccc, r)
  {
    if r == [] {
      NoBuckets(ccc, 256);
    } else {
      var front, x := r[..|r| - 1], r[|r| - 1];
      assert r == front + [x] && x in r;
      BucketsAreOrder(ccc, front);
      BucketsWith(ccc, front, x);
      BucketsSplit(ccc, front, 0, ccc(x) + 1, 256);
      var low, high := Buckets(ccc, front, 0, ccc(x) + 1), Buckets(ccc, front, ccc(x) + 1, 256);
      BucketsClasses(ccc, front, 0, ccc(x) + 1);
      BucketsClasses(ccc, front, ccc(x) + 1, 256);
      PlaceBetween(ccc, low, high, x);
    }
  }

  lemma {:induction false} PlaceBetween(ccc: Class, low: seq<nat>, high: seq<nat>, x: nat)
    requires ccc(x) != 0 && (forall y :: y in low ==> ccc(y) <= ccc(x)) && forall y :: y in high ==> ccc(y) > ccc(x)
    ensures Place(ccc, low + high, x) == low + [x] + high
  {
    var s := low + high;
    assert s[..|low|] == low && s[|low|..] == high;
    forall i | |low| <= i < |s| ensures ccc(s[i]) > ccc(x) { assert s[i] in high; }
    if low != [] { assert s[|low| - 1] in low; }
    PlaceThere(ccc, s, |low|, x);
  }

  lemma {:induction false} NoBuckets(ccc: Class, hi: nat)
    ensures Buckets(ccc, [], 0, hi) == []
  {
    if hi > 0 { NoBuckets(ccc, hi - 1); }
  }

  // --------------------------------------------------------------- the bucket sort

  /** Where a class starts among the sorted marks. */
  function Offset(ccc: Class, r: seq<nat>, c: nat): nat { |Buckets(ccc, r, 0, c)| }

  lemma {:induction false} OffsetsGrow(ccc: Class, r: seq<nat>, c: nat, d: nat)
    requires c < d
    ensures Offset(ccc, r, c) + |Bucket(ccc, r, c)| <= Offset(ccc, r, d)
  {
    BucketsSplit(ccc, r, 0, c + 1, d);
  }

  method CountClasses(ccc: Class, points: array<nat>, start: nat, end: nat) returns (offsets: array<nat>)
    requires start <= end <= points.Length && forall x :: x in points[start..end] ==> ccc(x) < 256
    ensures fresh(offsets) && offsets.Length == 256
    ensures forall c :: 0 <= c < 256 ==> offsets[c] == |Bucket(ccc, points[start..end], c)|
  {
    ghost var r := points[start..end];
    offsets := new nat[256](_ => 0);
    var index := start;
    while index < end
      invariant start <= index <= end
      invariant forall c :: 0 <= c < 256 ==> offsets[c] == |Bucket(ccc, r[..index - start], c)|
    {
      ghost var i := index - start;
      assert points[index] == r[i] && r[i] in r;
      forall c | 0 <= c < 256
        ensures |Bucket(ccc, r[..i + 1], c)| == |Bucket(ccc, r[..i], c)| + if ccc(r[i]) == c then 1 else 0
      {
        assert r[..i + 1] == r[..i] + [r[i]];
        BucketMore(ccc, r[..i], r[i], c);
      }
      offsets[ccc(points[index])] := offsets[ccc(points[index])] + 1;
      index := index + 1;
    }
    assert r[..end - start] == r;
  }

  method StartClasses(ccc: Class, offsets: array<nat>, ghost r: seq<nat>)
    requires offsets.Length == 256 && forall c :: 0 <= c < 256 ==> offsets[c] == |Bucket(ccc, r, c)|
    modifies offsets
    ensures forall c :: 0 <= c < 256 ==> offsets[c] == Offset(ccc, r, c)
  {
    var total, c := 0, 0;
    while c < 256
      invariant c <= 256 && total == Offset(ccc, r, c)
      invariant forall d :: 0 <= d < c ==> offsets[d] == Offset(ccc, r, d)
      invariant forall d :: c <= d < 256 ==> offsets[d] == |Bucket(ccc, r, d)|
    {
      var count := offsets[c];
      offsets[c] := total;
      total := total + count;
      c := c + 1;
    }
  }

  /** After `i` marks each class has its marks so far, from its start up to its offset. */
  ghost predicate Scattered(ccc: Class, r: seq<nat>, i: nat, offsets: seq<nat>, scratch: seq<nat>) {
    && i <= |r| && |offsets| == 256
    && forall c :: 0 <= c < 256 ==> ClassScattered(ccc, r, i, c, offsets[c], scratch)
  }

  ghost predicate ClassScattered(ccc: Class, r: seq<nat>, i: nat, c: nat, offset: nat, scratch: seq<nat>)
    requires i <= |r|
  {
    var low := Offset(ccc, r, c);
    && offset == low + |Bucket(ccc, r[..i], c)| <= |scratch|
    && scratch[low..offset] == Bucket(ccc, r[..i], c)
  }

  lemma {:induction false} BucketPrefix(ccc: Class, r: seq<nat>, i: nat, c: nat)
    requires i <= |r|
    ensures |Bucket(ccc, r[..i], c)| <= |Bucket(ccc, r, c)|
    ensures i < |r| && ccc(r[i]) == c ==> |Bucket(ccc, r[..i], c)| < |Bucket(ccc, r, c)|
  {
    assert r == r[..i] + r[i..];
    FilterAppend(r[..i], r[i..], OfClass(ccc, c));
  }

  /** Writing one mark at the offset of its class leaves the other classes alone. */
  lemma {:induction false} ScatterStep(ccc: Class, r: seq<nat>, i: nat, offsets: seq<nat>, scratch: seq<nat>)
    requires Scattered(ccc, r, i, offsets, scratch) && i < |r|
    requires ccc(r[i]) < 256 && |scratch| >= |r| == Offset(ccc, r, 256)
    ensures var c := ccc(r[i]);
      && offsets[c] < |scratch|
      && Scattered(ccc, r, i + 1, offsets[c := offsets[c] + 1], scratch[offsets[c] := r[i]])
  {
    var c := ccc(r[i]);
    BucketPrefix(ccc, r, i, c);
    OffsetsGrow(ccc, r, c, 256);
    var offsets', scratch' := offsets[c := offsets[c] + 1], scratch[offsets[c] := r[i]];
    forall d | 0 <= d < 256 ensures ClassScattered(ccc, r, i + 1, d, offsets'[d], scratch') {
      ScatterClass(ccc, r, i, d, offsets, scratch);
    }
  }

  lemma {:induction false} ScatterClass(ccc: Class, r: seq<nat>, i: nat, d: nat, offsets: seq<nat>, scratch: seq<nat>)
    requires Scattered(ccc, r, i, offsets, scratch) && i < |r| && ccc(r[i]) < 256 && d < 256
    requires offsets[ccc(r[i])] < |scratch|
    ensures var c := ccc(r[i]);
      ClassScattered(ccc, r, i + 1, d, if d == c then offsets[c] + 1 else offsets[d], scratch[offsets[c] := r[i]])
  {
    var c := ccc(r[i]);
    assert ClassScattered(ccc, r, i, c, offsets[c], scratch) && ClassScattered(ccc, r, i, d, offsets[d], scratch);
    assert r[..i + 1] == r[..i] + [r[i]];
    BucketMore(ccc, r[..i], r[i], d);
    BucketPrefix(ccc, r, i, c);
    BucketPrefix(ccc, r, i, d);
    var low, after := Offset(ccc, r, d), scratch[offsets[c] := r[i]];
    if d < c {
      OffsetsGrow(ccc, r, d, c);
      assert after[low..offsets[d]] == scratch[low..offsets[d]];
    } else if c < d {
      OffsetsGrow(ccc, r, c, d);
      assert after[low..offsets[d]] == scratch[low..offsets[d]];
    } else {
      assert after[low..offsets[c] + 1] == scratch[low..offsets[c]] + [r[i]];
    }
  }

  lemma {:induction false} ScatteredAll(ccc: Class, r: seq<nat>, offsets: seq<nat>, scratch: seq<nat>, hi: nat)
    requires Scattered(ccc, r, |r|, offsets, scratch) && hi <= 256
    ensures Offset(ccc, r, hi) <= |scratch| && scratch[..Offset(ccc, r, hi)] == Buckets(ccc, r, 0, hi)
  {
    if hi > 0 {
      ScatteredAll(ccc, r, offsets, scratch, hi - 1);
      assert ClassScattered(ccc, r, |r|, hi - 1, offsets[hi - 1], scratch);
      assert r[..|r|] == r;
      var low, high := Offset(ccc, r, hi - 1), Offset(ccc, r, hi);
      assert scratch[..high] == scratch[..low] + scratch[low..high];
    }
  }

  /** Writes mark `i` of the run at the offset of its class. */
  method PutMark(ccc: Class, offsets: array<nat>, scratch: array<nat>, cp: nat, ghost r: seq<nat>, ghost i: nat)
    requires offsets != scratch && i < |r| && cp == r[i] && ccc(cp) < 256
    requires scratch.Length >= |r| == Offset(ccc, r, 256) && Scattered(ccc, r, i, offsets[..], scratch[..])
    modifies offsets, scratch
    ensures Scattered(ccc, r, i + 1, offsets[..], scratch[..])
  {
    var c := ccc(cp);
    ghost var o, s := offsets[..], scratch[..];
    ScatterStep(ccc, r, i, o, s);
    scratch[offsets[c]] := cp;
    offsets[c] := offsets[c] + 1;
    assert offsets[..] == o[c := o[c] + 1] && scratch[..] == s[o[c] := cp];
  }

  method Scatter(ccc: Class, points: array<nat>, start: nat, end: nat, offsets: array<nat>, scratch: array<nat>)
    requires start < end <= points.Length && offsets.Length == 256 && scratch.Length >= end - start
    requires points != offsets && points != scratch && offsets != scratch
    requires Marks(ccc, points[start..end]) && forall x :: x in points[start..end] ==> ccc(x) < 256
    requires forall c :: 0 <= c < 256 ==> offsets[c] == Offset(ccc, points[start..end], c)
    modifies offsets, scratch
    ensures scratch[..end - start] == Order(ccc, points[start..end])
  {
    ghost var r := points[start..end];
    BucketsAreOrder(ccc, r);
    OrderContents(ccc, r);
    var index := start;
    ScatterStart(ccc, r, offsets[..], scratch[..]);
    while index < end
      invariant start <= index <= end && points[start..end] == r
      invariant Scattered(ccc, r, index - start, offsets[..], scratch[..])
    {
      assert points[index] == r[index - start] && r[index - start] in r;
      PutMark(ccc, offsets, scratch, points[index], r, index - start);
      index := index + 1;
    }
    ScatteredAll(ccc, r, offsets[..], scratch[..], 256);
    assert scratch[..end - start] == scratch[..][..end - start];
  }

  lemma {:induction false} ScatterStart(ccc: Class, r: seq<nat>, offsets: seq<nat>, scratch: seq<nat>)
    requires |offsets| == 256 && |scratch| >= |r| == Offset(ccc, r, 256)
    requires forall c :: 0 <= c < 256 ==> offsets[c] == Offset(ccc, r, c)
    ensures Scattered(ccc, r, 0, offsets, scratch)
  {
    forall c | 0 <= c < 256 ensures ClassScattered(ccc, r, 0, c, offsets[c], scratch) {
      OffsetsGrow(ccc, r, c, 256);
      assert Bucket(ccc, r[..0], c) == [];
    }
  }

  method BucketSort(ccc: Class, points: array<nat>, start: nat, end: nat, scratch: array<nat>)
    requires start < end <= points.Length && points != scratch && scratch.Length >= end - start
    requires Marks(ccc, points[start..end]) && forall x :: x in points[start..end] ==> ccc(x) < 256
    modifies points, scratch
    ensures points[start..end] == Order(ccc, old(points[start..end]))
    ensures SameOutside(points[..], old(points[..]), start, end)
  {
    var offsets := CountClasses(ccc, points, start, end);
    StartClasses(ccc, offsets, points[start..end]);
    Scatter(ccc, points, start, end, offsets, scratch);
    forall k | start <= k < end { points[k] := scratch[k - start]; }
    assert points[start..end] == scratch[..end - start];
  }

  // --------------------------------------------------------------------- whole texts

  /** Everything before `start` is ordered and no mark can move across it. */
  ghost predicate OrderedTo(ccc: Class, p: seq<nat>, now: seq<nat>, start: nat) {
    && start <= |p| == |now| && now[..start] == Order(ccc, p[..start]) && now[start..] == p[start..]
    && (start == |p| || ccc(p[start]) == 0 || Closed(ccc, now[..start]))
  }

  lemma {:induction false} StarterStep(ccc: Class, p: seq<nat>, now: seq<nat>, start: nat)
    requires OrderedTo(ccc, p, now, start) && start < |p| && ccc(p[start]) == 0
    ensures OrderedTo(ccc, p, now, start + 1)
  {
    assert now[start] == now[start..][0] == p[start];
    assert p[..start + 1][..start] == p[..start];
    assert now[..start + 1] == now[..start] + [p[start]];
    assert now[start + 1..] == now[start..][1..] && p[start + 1..] == p[start..][1..];
  }

  /** The pieces of the text before and after a run is sorted. */
  lemma {:induction false} RunPieces(p: seq<nat>, now: seq<nat>, start: nat, end: nat, after: seq<nat>)
    requires start < end <= |p| == |now| && now[start..] == p[start..] && SameOutside(after, now, start, end)
    ensures now[start..end] == p[start..end] && after[end..] == p[end..]
    ensures after[..end] == now[..start] + after[start..end]
  {
    assert now[start..end] == now[start..][..end - start];
    assert p[start..end] == p[start..][..end - start];
    assert after[end..] == now[start..][end - start..];
    assert p[end..] == p[start..][end - start..];
    assert after[..start] == now[..start];
  }

  lemma {:induction false} RunStep(ccc: Class, p: seq<nat>, now: seq<nat>, start: nat, end: nat, after: seq<nat>)
    requires OrderedTo(ccc, p, now, start) && start < end <= |p| && Closed(ccc, now[..start])
    requires end == |p| || ccc(p[end]) == 0
    requires SameOutside(after, now, start, end) && after[start..end] == Order(ccc, now[start..end])
    ensures OrderedTo(ccc, p, after, end)
  {
    RunPieces(p, now, start, end, after);
    RunOrder(ccc, p[..start], p[start..end], now[..start]);
    assert p[..end] == p[..start] + p[start..end];
  }

  lemma {:induction false} RunOrder(ccc: Class, head: seq<nat>, run: seq<nat>, ordered: seq<nat>)
    requires ordered == Order(ccc, head) && Closed(ccc, ordered)
    ensures Order(ccc, head + run) == ordered + Order(ccc, run)
  {
    OrderAppend(ccc, [], head, run);
    OrderAfter(ccc, ordered, run);
  }

  method FindRun(ccc: Class, points: array<nat>, start: nat) returns (end: nat)
    requires start < points.Length && ccc(points[start]) != 0
    ensures start < end <= points.Length && Marks(ccc, points[start..end])
    ensures end == points.Length || ccc(points[end]) == 0
  {
    end := start + 1;
    while end < points.Length && ccc(points[end]) != 0
      invariant start < end <= points.Length && forall i :: start <= i < end ==> ccc(points[i]) != 0
    {
      end := end + 1;
    }
  }

  method SortRun(ccc: Class, points: array<nat>, start: nat, end: nat)
    requires start < end <= points.Length
    requires Marks(ccc, points[start..end]) && forall x :: x in points[start..end] ==> ccc(x) < 256
    modifies points
    ensures points[start..end] == Order(ccc, old(points[start..end]))
    ensures SameOutside(points[..], old(points[..]), start, end)
  {
    if end - start < SHORT {
      InsertionSort(ccc, points, start, end);
    } else {
      var scratch := new nat[points.Length];
      BucketSort(ccc, points, start, end, scratch);
    }
  }

  /** Whatever the lengths of its runs, the text comes out canonically ordered. */
  method OrderPoints(ccc: Class, points: array<nat>)
    requires forall x :: ccc(x) < 256
    modifies points
    ensures points[..] == Order(ccc, old(points[..]))
  {
    ghost var p := points[..];
    var start := 0;
    while start < points.Length
      invariant start <= points.Length && OrderedTo(ccc, p, points[..], start)
    {
      assert points[start] == points[..][start..][0] == p[start..][0];
      if ccc(points[start]) == 0 {
        StarterStep(ccc, p, points[..], start);
        start := start + 1;
      } else {
        var end := FindRun(ccc, points, start);
        ghost var now := points[..];
        assert now[start..end] == points[start..end];
        assert end < |p| ==> now[end] == now[start..][end - start] == p[start..][end - start];
        SortRun(ccc, points, start, end);
        RunStep(ccc, p, now, start, end, points[..]);
        start := end;
      }
    }
    assert p[..start] == p && points[..][..start] == points[..];
  }
}

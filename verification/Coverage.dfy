/** How much of the reference articles the retrieved windows cover. */
module Coverage {
  import opened Numbers
  import opened Sequences
  import opened Common
  import Sorting

  datatype Ref = Ref(document: string, start: int, end: int)

  datatype Row = Row(document: string, start: int, end: int)

  /** A half-open interval; it is empty when the end is not past the start. */
  datatype Interval = Interval(start: int, end: int)

  function Clip(ref: Ref, row: Row): Interval {
    Interval(Max(ref.start, row.start), Min(ref.end, row.end))
  }

  /** The clipped intervals of the rows of the same document. */
  function Clipped(ref: Ref, rows: seq<Row>): seq<Interval> {
    if rows == [] then []
    else (if rows[0].document == ref.document then [Clip(ref, rows[0])] else []) + Clipped(ref, rows[1..])
  }

  predicate IntervalLe(a: Interval, b: Interval) {
    a.start < b.start || (a.start == b.start && a.end <= b.end)
  }

  // ----- what is to be counted -----

  predicate Hits(ref: Ref, row: Row, x: int) {
    row.document == ref.document && row.start <= x < row.end
  }

  ghost predicate HitsSome(ref: Ref, rows: seq<Row>, x: int) {
    exists i :: 0 <= i < |rows| && Hits(ref, rows[i], x)
  }

  /** The positions of the reference that some row of its document covers. */
  ghost function Positions(ref: Ref, rows: seq<Row>): set<int> {
    set x | ref.start <= x < ref.end && HitsSome(ref, rows, x)
  }

  ghost predicate AllCovered(ref: Ref, rows: seq<Row>) {
    ref.start <= ref.end && forall x :: ref.start <= x < ref.end ==> HitsSome(ref, rows, x)
  }

  ghost function CoveredSum(refs: seq<Ref>, rows: seq<Row>): nat {
    if refs == [] then 0 else CoveredSum(refs[..|refs| - 1], rows) + |Positions(refs[|refs| - 1], rows)|
  }

  function LengthSum(refs: seq<Ref>): int {
    if refs == [] then 0 else LengthSum(refs[..|refs| - 1]) + refs[|refs| - 1].end - refs[|refs| - 1].start
  }

  ghost function CompleteCount(refs: seq<Ref>, rows: seq<Row>): nat {
    if refs == [] then 0
    else CompleteCount(refs[..|refs| - 1], rows) + if AllCovered(refs[|refs| - 1], rows) then 1 else 0
  }

  datatype Report = Report(characterCoverage: real, fullArticleRecall: real)

  /** Divides by the total length and by the number of references; a zero is an error. */
  method Measure(refs: seq<Ref>, rows: seq<Row>) returns (r: Option<Report>)
    ensures r.None? <==> LengthSum(refs) == 0
    ensures r.Some? ==> refs != []
    ensures r.Some? ==>
              r.value == Report(Share(CoveredSum(refs, rows), LengthSum(refs)),
                                Share(CompleteCount(refs, rows), |refs|))
  {
    var covered, total, complete := Tally(refs, rows);
    if total == 0 { return None; }
    return Some(Report(Share(covered, total), Share(complete, |refs|)));
  }

  function Share(part: int, whole: int): real
    requires whole != 0
  {
    part as real / whole as real
  }

  method Tally(refs: seq<Ref>, rows: seq<Row>) returns (covered: int, total: int, complete: int)
    ensures covered == CoveredSum(refs, rows) && total == LengthSum(refs) && complete == CompleteCount(refs, rows)
  {
    covered, total, complete := 0, 0, 0;
    for k := 0 to |refs|
      invariant covered == CoveredSum(refs[..k], rows) && total == LengthSum(refs[..k])
      invariant complete == CompleteCount(refs[..k], rows)
    {
      assert refs[..k + 1][..k] == refs[..k];
      var n := Sweep(refs[k], rows);
      CompleteIff(refs[k], rows);
      var length := refs[k].end - refs[k].start;
      total := total + length;
      covered := covered + n;
      complete := complete + if n == length then 1 else 0;
    }
    assert refs[..|refs|] == refs;
  }

  /** Counts each covered position of the reference once, in one pass over the sorted intervals. */
  method Sweep(ref: Ref, rows: seq<Row>) returns (n: int)
    ensures n == |Positions(ref, rows)|
  {
    var intervals := Sorting.Sorted(Clipped(ref, rows), IntervalLe);
    SortedReady(ref, rows);
    var cursor := ref.start;
    n := 0;
    for k := 0 to |intervals|
      invariant n == |Union(intervals[..k], ref.start, cursor)|
      invariant ref.start <= cursor
      invariant Reached(intervals[..k], ref.start, cursor)
    {
      var start, end := intervals[k].start, intervals[k].end;
      SweepStep(intervals, k, ref.start, cursor);
      if end > Max(cursor, start) {
        n := n + end - Max(cursor, start);
        cursor := end;
      }
    }
    assert intervals[..|intervals|] == intervals;
    UnionIsPositions(ref, rows, intervals, cursor);
  }

  // ----- the sweep -----

  predicate InSome(intervals: seq<Interval>, x: int) {
    exists i :: 0 <= i < |intervals| && intervals[i].start <= x < intervals[i].end
  }

  ghost function Union(intervals: seq<Interval>, low: int, high: int): set<int> {
    set x | low <= x < high && InSome(intervals, x)
  }

  /** The intervals seen start no earlier than `low`, none ends past the cursor, and the cursor is where they start or
      what is between the latest start and the cursor is covered. */
  ghost predicate Reached(intervals: seq<Interval>, low: int, cursor: int) {
    && (forall i :: 0 <= i < |intervals| ==>
          && low <= intervals[i].start
          && (intervals[i].end <= cursor || intervals[i].end <= intervals[i].start))
    && (intervals != [] ==> forall x :: intervals[|intervals| - 1].start <= x < cursor ==> InSome(intervals, x))
    && (intervals == [] ==> cursor == low)
  }

  ghost predicate Ready(intervals: seq<Interval>, low: int) {
    && (forall i, j :: 0 <= i < j < |intervals| ==> intervals[i].start <= intervals[j].start)
    && (forall i :: 0 <= i < |intervals| ==> low <= intervals[i].start)
  }

  ghost function Span(low: int, high: int): (s: set<int>)
    ensures forall x :: x in s <==> low <= x < high
    decreases high - low
  {
    if low < high then Span(low, high - 1) + {high - 1} else {}
  }

  lemma {:induction false} SpanSize(low: int, high: int)
    ensures |Span(low, high)| == if low < high then high - low else 0
    decreases high - low
  {
    if low < high {
      SpanSize(low, high - 1);
    }
  }

  lemma InSomeSnoc(intervals: seq<Interval>, k: nat, x: int)
    requires k < |intervals|
    ensures InSome(intervals[..k + 1], x) <==> InSome(intervals[..k], x) || intervals[k].start <= x < intervals[k].end
  {
    var before, after := intervals[..k], intervals[..k + 1];
    if InSome(after, x) && !(intervals[k].start <= x < intervals[k].end) {
      var i :| 0 <= i < |after| && after[i].start <= x < after[i].end;
      assert before[i].start <= x < before[i].end;
    }
    if InSome(before, x) {
      var i :| 0 <= i < |before| && before[i].start <= x < before[i].end;
      assert after[i].start <= x < after[i].end;
    }
    if intervals[k].start <= x < intervals[k].end { assert after[k].start <= x < after[k].end; }
  }

  /** A covered position before the cursor was covered before. */
  lemma Old(before: seq<Interval>, low: int, cursor: int, start: int, x: int)
    requires Reached(before, low, cursor) && low <= start <= x < cursor
    requires before != [] ==> before[|before| - 1].start <= start
    ensures InSome(before, x)
  {
  }

  lemma BelowCursor(before: seq<Interval>, low: int, cursor: int, x: int)
    requires Reached(before, low, cursor) && InSome(before, x)
    ensures low <= x < cursor
  {
  }

  /** The step keeps what the sweep has counted, and adds what it counts now. */
  lemma SweepStep(intervals: seq<Interval>, k: nat, low: int, cursor: int)
    requires k < |intervals| && Ready(intervals, low) && low <= cursor && Reached(intervals[..k], low, cursor)
    ensures var start, end := intervals[k].start, intervals[k].end;
            var from := Max(cursor, start);
            var next := if end > from then end else cursor;
            && Reached(intervals[..k + 1], low, next)
            && |Union(intervals[..k + 1], low, next)| ==
               |Union(intervals[..k], low, cursor)| + if end > from then end - from else 0
  {
    var start, end := intervals[k].start, intervals[k].end;
    var from := Max(cursor, start);
    var next := if end > from then end else cursor;
    if k > 0 { assert intervals[k - 1].start <= start; }
    UnionStep(intervals, k, low, cursor, start, end, from, next);
    ReachedStep(intervals, k, low, cursor, start, end, next);
    DisjointSize(intervals[..k], low, cursor, from, end);
  }

  lemma UnionStep(intervals: seq<Interval>, k: nat, low: int, cursor: int, start: int, end: int, from: int, next: int)
    requires k < |intervals| && start == intervals[k].start && end == intervals[k].end && low <= start
    requires low <= cursor && Reached(intervals[..k], low, cursor) && (k > 0 ==> intervals[k - 1].start <= start)
    requires from == Max(cursor, start) && next == if end > from then end else cursor
    ensures Union(intervals[..k + 1], low, next) == Union(intervals[..k], low, cursor) + Span(from, end)
  {
    forall x
      ensures x in Union(intervals[..k + 1], low, next) <==>
                x in Union(intervals[..k], low, cursor) || x in Span(from, end)
    {
      InSomeSnoc(intervals, k, x);
      if InSome(intervals[..k], x) { BelowCursor(intervals[..k], low, cursor, x); }
      if start <= x < end && x < cursor { Old(intervals[..k], low, cursor, start, x); }
    }
  }

  lemma ReachedStep(intervals: seq<Interval>, k: nat, low: int, cursor: int, start: int, end: int, next: int)
    requires k < |intervals| && start == intervals[k].start && end == intervals[k].end && low <= start
    requires low <= cursor && Reached(intervals[..k], low, cursor) && (k > 0 ==> intervals[k - 1].start <= start)
    requires next == if end > Max(cursor, start) then end else cursor
    ensures Reached(intervals[..k + 1], low, next)
  {
    var after := intervals[..k + 1];
    forall x | start <= x < next ensures InSome(after, x) {
      InSomeSnoc(intervals, k, x);
      if x < cursor { Old(intervals[..k], low, cursor, start, x); }
    }
    var before := intervals[..k];
    forall i | 0 <= i <= k ensures low <= after[i].start && (after[i].end <= next || after[i].end <= after[i].start) {
      if i < k { assert after[i] == before[i]; }
    }
  }

  lemma DisjointSize(before: seq<Interval>, low: int, cursor: int, from: int, end: int)
    requires from >= cursor
    ensures |Union(before, low, cursor) + Span(from, end)| ==
            |Union(before, low, cursor)| + if end > from then end - from else 0
  {
    assert Union(before, low, cursor) !! Span(from, end);
    SpanSize(from, end);
  }

  // ----- from rows to intervals -----

  lemma {:induction false} ClippedIff(ref: Ref, rows: seq<Row>, x: int)
    ensures InSome(Clipped(ref, rows), x) <==> ref.start <= x < ref.end && HitsSome(ref, rows, x)
  {
    if rows != [] {
      var rest := Clipped(ref, rows[1..]);
      ClippedIff(ref, rows[1..], x);
      var first := if rows[0].document == ref.document then [Clip(ref, rows[0])] else [];
      InSomeConcat(first, rest, x);
      assert InSome(first, x) <==> ref.start <= x < ref.end && Hits(ref, rows[0], x) by {
        if first != [] && first[0].start <= x < first[0].end { assert InSome(first, x); }
      }
      HitsFirst(ref, rows, x);
    }
  }

  lemma HitsFirst(ref: Ref, rows: seq<Row>, x: int)
    requires rows != []
    ensures HitsSome(ref, rows, x) <==> Hits(ref, rows[0], x) || HitsSome(ref, rows[1..], x)
  {
    if HitsSome(ref, rows[1..], x) {
      var i :| 0 <= i < |rows| - 1 && Hits(ref, rows[1..][i], x);
      assert Hits(ref, rows[i + 1], x);
    }
    if HitsSome(ref, rows, x) && !Hits(ref, rows[0], x) {
      var i :| 0 <= i < |rows| && Hits(ref, rows[i], x);
      assert Hits(ref, rows[1..][i - 1], x);
    }
  }

  lemma InSomeConcat(a: seq<Interval>, b: seq<Interval>, x: int)
    ensures InSome(a + b, x) <==> InSome(a, x) || InSome(b, x)
  {
    if InSome(a, x) {
      var i :| 0 <= i < |a| && a[i].start <= x < a[i].end;
      assert (a + b)[i].start <= x < (a + b)[i].end;
    }
    if InSome(b, x) {
      var i :| 0 <= i < |b| && b[i].start <= x < b[i].end;
      assert (a + b)[|a| + i].start <= x < (a + b)[|a| + i].end;
    }
  }

  lemma SameMembers(a: seq<Interval>, b: seq<Interval>, x: int)
    requires forall v :: v in a ==> v in b
    ensures InSome(a, x) ==> InSome(b, x)
  {
    if InSome(a, x) {
      var i :| 0 <= i < |a| && a[i].start <= x < a[i].end;
      assert a[i] in b;
      var j :| 0 <= j < |b| && b[j] == a[i];
    }
  }

  lemma {:induction false} ClippedStarts(ref: Ref, rows: seq<Row>)
    ensures forall v :: v in Clipped(ref, rows) ==> ref.start <= v.start
  {
    if rows != [] { ClippedStarts(ref, rows[1..]); }
  }

  lemma SortedReady(ref: Ref, rows: seq<Row>)
    ensures Ready(Sorting.Sorted(Clipped(ref, rows), IntervalLe), ref.start)
  {
    Sorting.SortedOrdered(Clipped(ref, rows), IntervalLe);
    Sorting.SortedMembers(Clipped(ref, rows), IntervalLe);
    ClippedStarts(ref, rows);
    var sorted := Sorting.Sorted(Clipped(ref, rows), IntervalLe);
    assert forall i, j :: 0 <= i < j < |sorted| ==> IntervalLe(sorted[i], sorted[j]);
    assert forall i :: 0 <= i < |sorted| ==> sorted[i] in Clipped(ref, rows);
  }

  lemma UnionIsPositions(ref: Ref, rows: seq<Row>, sorted: seq<Interval>, cursor: int)
    requires sorted == Sorting.Sorted(Clipped(ref, rows), IntervalLe) && Reached(sorted, ref.start, cursor)
    ensures Union(sorted, ref.start, cursor) == Positions(ref, rows)
  {
    Sorting.SortedMembers(Clipped(ref, rows), IntervalLe);
    forall x ensures x in Union(sorted, ref.start, cursor) <==> x in Positions(ref, rows) {
      SameMembers(sorted, Clipped(ref, rows), x);
      SameMembers(Clipped(ref, rows), sorted, x);
      ClippedIff(ref, rows, x);
      if InSome(sorted, x) { BelowCursor(sorted, ref.start, cursor, x); }
    }
  }

  // ----- what the numbers mean -----

  /** The count equals the length just when the reference is not inverted and every position of it is covered; an
      inverted one is never complete. */
  lemma CompleteIff(ref: Ref, rows: seq<Row>)
    ensures |Positions(ref, rows)| == ref.end - ref.start <==> AllCovered(ref, rows)
    ensures ref.start <= ref.end ==> |Positions(ref, rows)| <= ref.end - ref.start
  {
    var span := Span(ref.start, ref.end);
    SpanSize(ref.start, ref.end);
    SubsetSize(Positions(ref, rows), span);
    assert forall x :: x in Positions(ref, rows) ==> x in span;
    if AllCovered(ref, rows) { assert forall x :: x in span ==> HitsSome(ref, rows, x); }
    if Positions(ref, rows) == span {
      forall x | ref.start <= x < ref.end ensures HitsSome(ref, rows, x) {
        assert x in span;
      }
    }
  }

  ghost predicate NotInverted(refs: seq<Ref>) {
    forall i :: 0 <= i < |refs| ==> refs[i].start <= refs[i].end
  }

  /** No more is covered than there is, and all of it just when every reference is complete. */
  lemma {:induction false} CoveredWithinTotal(refs: seq<Ref>, rows: seq<Row>)
    requires NotInverted(refs)
    ensures CoveredSum(refs, rows) <= LengthSum(refs) && CompleteCount(refs, rows) <= |refs|
    ensures CoveredSum(refs, rows) == LengthSum(refs) <==> CompleteCount(refs, rows) == |refs|
  {
    if refs != [] {
      CoveredWithinTotal(refs[..|refs| - 1], rows);
      CompleteIff(refs[|refs| - 1], rows);
    }
  }

  lemma ShareRange(part: int, whole: int)
    requires 0 <= part <= whole && whole > 0
    ensures 0.0 <= Share(part, whole) <= 1.0 && (Share(part, whole) == 1.0 <==> part == whole)
  {
    var share, p, w := Share(part, whole), part as real, whole as real;
    assert share * w == p;
    assert share == 1.0 ==> p == w;
    assert p == w ==> share == 1.0;
  }

  /** Both shares lie between none and all, and both are all just when every reference is completely covered. */
  lemma SharesAgree(refs: seq<Ref>, rows: seq<Row>)
    requires NotInverted(refs) && LengthSum(refs) != 0
    ensures refs != [] && LengthSum(refs) > 0
    ensures var characters := Share(CoveredSum(refs, rows), LengthSum(refs));
            var articles := Share(CompleteCount(refs, rows), |refs|);
            0.0 <= characters <= 1.0 && 0.0 <= articles <= 1.0 && (characters == 1.0 <==> articles == 1.0)
  {
    CoveredWithinTotal(refs, rows);
    ShareRange(CoveredSum(refs, rows), LengthSum(refs));
    ShareRange(CompleteCount(refs, rows), |refs|);
  }
}

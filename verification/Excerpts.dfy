/** The ranges of a law that an answer may quote: each retrieved chunk widened to whole articles where those are near,
    and the widened spans merged. */
module Excerpts {
  import opened Sequences
  import opened Common
  import Sorting

  const REACH: nat := 1000

  datatype Chunk = Chunk(id: string, start: int, end: int, text: string)

  datatype Range = Range(start: nat, end: nat, ids: seq<string>)

  /** The text with the places where articles start, and where paragraphs start or the text starts or ends. */
  datatype Document = Document(text: string, articles: seq<nat>, paragraphs: seq<nat>) {
    ghost predicate Valid() {
      && (forall p :: p in articles || p in paragraphs ==> p <= |text|)
      && 0 in paragraphs && |text| in paragraphs
    }
  }

  /** The greatest position in a stretch. */
  function Latest(ps: seq<nat>, low: int, high: int): (r: Option<nat>)
    ensures r.Some? ==> r.value in ps && low <= r.value <= high
    ensures forall p :: p in ps && low <= p <= high ==> r.Some? && p <= r.value
  {
    if ps == [] then None
    else
      assert ps == [ps[0]] + ps[1..];
      var rest := Latest(ps[1..], low, high);
      if low <= ps[0] <= high && (rest.None? || rest.value < ps[0]) then Some(ps[0]) else rest
  }

  /** The least position in a stretch. */
  function Earliest(ps: seq<nat>, low: int, high: int): (r: Option<nat>)
    ensures r.Some? ==> r.value in ps && low <= r.value <= high
    ensures forall p :: p in ps && low <= p <= high ==> r.Some? && r.value <= p
  {
    if ps == [] then None
    else
      assert ps == [ps[0]] + ps[1..];
      var rest := Earliest(ps[1..], low, high);
      if low <= ps[0] <= high && (rest.None? || ps[0] < rest.value) then Some(ps[0]) else rest
  }

  function Or(a: Option<nat>, b: Option<nat>): Option<nat> {
    if a.Some? then a else b
  }

  predicate Fits(c: Chunk, text: string) {
    0 <= c.start < c.end <= |text| && c.end - c.start <= 1000 && text[c.start..c.end] == c.text
  }

  function WideStart(d: Document, c: Chunk): Option<nat> {
    Or(Latest(d.articles, c.start - REACH, c.start), Latest(d.paragraphs, c.start - REACH, c.start))
  }

  function WideEnd(d: Document, c: Chunk): Option<nat> {
    Or(Earliest(d.articles, c.end, c.end + REACH), Earliest(d.paragraphs, c.end, c.end + REACH))
  }

  function Widened(d: Document, c: Chunk): Range
    requires Fits(c, d.text)
  {
    var start, end := WideStart(d, c), WideEnd(d, c);
    Range(if start.Some? then start.value else c.start, if end.Some? then end.value else c.end, [c.id])
  }

  /** Whether widening had to stop short of an article boundary, or of any boundary. */
  predicate CutShort(d: Document, c: Chunk) {
    || (d.articles != [] && Latest(d.articles, c.start - REACH, c.start).None? && c.start > 0)
    || (d.articles != [] && Earliest(d.articles, c.end, c.end + REACH).None? && c.end < |d.text|)
    || WideStart(d, c).None? || WideEnd(d, c).None?
  }

  predicate StartLe(a: Range, b: Range) {
    a.start <= b.start
  }

  /** A span either grows the last range or starts a new one. */
  function Merge(merged: seq<Range>, span: Range): seq<Range> {
    if merged != [] && span.start <= merged[|merged| - 1].end then
      var last := merged[|merged| - 1];
      var end := if span.end > last.end then span.end else last.end;
      merged[..|merged| - 1] + [Range(last.start, end, last.ids + span.ids)]
    else merged + [span]
  }

  function Merged(spans: seq<Range>): seq<Range> {
    if spans == [] then [] else Merge(Merged(spans[..|spans| - 1]), spans[|spans| - 1])
  }

  predicate AllFit(d: Document, chunks: seq<Chunk>) {
    forall i :: 0 <= i < |chunks| ==> Fits(chunks[i], d.text)
  }

  predicate AnyCutShort(d: Document, chunks: seq<Chunk>) {
    exists i :: 0 <= i < |chunks| && CutShort(d, chunks[i])
  }

  function Spans(d: Document, chunks: seq<Chunk>): seq<Range>
    requires AllFit(d, chunks)
  {
    seq(|chunks|, i requires 0 <= i < |chunks| => Widened(d, chunks[i]))
  }

  /** The whole computation; an ill-fitting chunk is an error. */
  function Excerpted(d: Document, chunks: seq<Chunk>): Option<(seq<Range>, bool)> {
    if !AllFit(d, chunks) then None
    else Some((Merged(Sorting.Sorted(Spans(d, chunks), StartLe)), AnyCutShort(d, chunks)))
  }

  method ExcerptRanges(d: Document, chunks: seq<Chunk>) returns (r: Option<(seq<Range>, bool)>)
    ensures r == Excerpted(d, chunks)
  {
    var spans, incomplete := [], false;
    for i := 0 to |chunks|
      invariant AllFit(d, chunks[..i])
      invariant spans == Spans(d, chunks[..i]) && incomplete == AnyCutShort(d, chunks[..i])
    {
      if !Fits(chunks[i], d.text) {
        assert !AllFit(d, chunks);
        return None;
      }
      var span, cut := Widen(d, chunks[i]);
      OneMore(d, chunks, i, span, cut);
      incomplete := incomplete || cut;
      spans := spans + [span];
    }
    assert chunks[..|chunks|] == chunks;
    var merged := MergeAll(Sorting.Sorted(spans, StartLe));
    return Some((merged, incomplete));
  }

  lemma OneMore(d: Document, chunks: seq<Chunk>, i: nat, span: Range, cut: bool)
    requires i < |chunks| && AllFit(d, chunks[..i]) && Fits(chunks[i], d.text)
    requires span == Widened(d, chunks[i]) && (cut <==> CutShort(d, chunks[i]))
    ensures AllFit(d, chunks[..i + 1]) && Spans(d, chunks[..i + 1]) == Spans(d, chunks[..i]) + [span]
    ensures AnyCutShort(d, chunks[..i + 1]) <==> AnyCutShort(d, chunks[..i]) || cut
  {
    var before, after := chunks[..i], chunks[..i + 1];
    assert forall j :: 0 <= j < i ==> after[j] == before[j];
    assert after[i] == chunks[i];
  }

  method Widen(d: Document, c: Chunk) returns (span: Range, incomplete: bool)
    requires Fits(c, d.text)
    ensures span == Widened(d, c) && (incomplete <==> CutShort(d, c))
  {
    var starts, ends := Latest(d.articles, c.start - REACH, c.start), Earliest(d.articles, c.end, c.end + REACH);
    incomplete := d.articles != [] && ((starts.None? && c.start > 0) || (ends.None? && c.end < |d.text|));
    if starts.None? { starts := Latest(d.paragraphs, c.start - REACH, c.start); }
    if ends.None? { ends := Earliest(d.paragraphs, c.end, c.end + REACH); }
    incomplete := incomplete || starts.None? || ends.None?;
    span := Range(if starts.Some? then starts.value else c.start, if ends.Some? then ends.value else c.end, [c.id]);
  }

  method MergeAll(spans: seq<Range>) returns (merged: seq<Range>)
    ensures merged == Merged(spans)
  {
    merged := [];
    for i := 0 to |spans|
      invariant merged == Merged(spans[..i])
    {
      assert spans[..i + 1][..i] == spans[..i];
      var span, n := spans[i], |merged|;
      if n > 0 && span.start <= merged[n - 1].end {
        var end := if span.end > merged[n - 1].end then span.end else merged[n - 1].end;
        merged := merged[n - 1 := Range(merged[n - 1].start, end, merged[n - 1].ids + span.ids)];
      } else {
        merged := merged + [span];
      }
    }
    assert spans[..|spans|] == spans;
  }

  // ----- what widening does -----

  /** A widened span holds its chunk, reaches at most 1000 characters further on each side, and lies in the text. */
  lemma WidenedSound(d: Document, c: Chunk)
    requires d.Valid() && Fits(c, d.text)
    ensures var w := Widened(d, c);
            && c.start - REACH <= w.start <= c.start && c.end <= w.end <= c.end + REACH
            && w.end <= |d.text| && w.end - w.start <= 3 * REACH && w.ids == [c.id]
  {
  }

  ghost predicate Edge(d: Document, p: nat) {
    p in d.articles || p == 0 || p == |d.text|
  }

  /** When articles are known and the flag stays down, both ends are article starts or ends of the text. */
  lemma WidenedToEdges(d: Document, c: Chunk)
    requires d.Valid() && Fits(c, d.text) && d.articles != [] && !CutShort(d, c)
    ensures Edge(d, Widened(d, c).start) && Edge(d, Widened(d, c).end)
  {
  }

  // ----- what one merge does -----

  /** Ranges in order, each ending before the next one starts. */
  predicate Apart(rs: seq<Range>) {
    rs == [] ||
    (Last(rs).start < Last(rs).end && Apart(Front(rs)) && (Front(rs) != [] ==> Last(Front(rs)).end < Last(rs).start))
  }

  predicate In(r: Range, x: nat) {
    r.start <= x < r.end
  }

  predicate Covers(rs: seq<Range>, x: nat) {
    rs != [] && (Covers(Front(rs), x) || In(Last(rs), x))
  }

  function AllIds(rs: seq<Range>): seq<string> {
    if rs == [] then [] else AllIds(Front(rs)) + Last(rs).ids
  }

  function Total(rs: seq<Range>): int {
    if rs == [] then 0 else Total(Front(rs)) + Last(rs).end - Last(rs).start
  }

  predicate Holds(r: Range, span: Range) {
    r.start <= span.start && span.end <= r.end && forall id :: id in span.ids ==> id in r.ids
  }

  /** Some range holds the span and its ids. */
  predicate Held(rs: seq<Range>, span: Range) {
    rs != [] && (Held(Front(rs), span) || Holds(Last(rs), span))
  }

  predicate EndsIn(rs: seq<Range>, ok: set<nat>) {
    rs == [] || (Last(rs).start in ok && Last(rs).end in ok && EndsIn(Front(rs), ok))
  }

  predicate Grows(rs: seq<Range>, span: Range) {
    rs != [] && span.start <= Last(rs).end
  }

  lemma MergeShape(rs: seq<Range>, span: Range) returns (m: seq<Range>)
    ensures m == Merge(rs, span) && m != [] && Front(m) == if Grows(rs, span) then Front(rs) else rs
    ensures Grows(rs, span) ==> Last(m).start == Last(rs).start && Last(m).ids == Last(rs).ids + span.ids
                                && Last(m).end == if span.end > Last(rs).end then span.end else Last(rs).end
    ensures !Grows(rs, span) ==> Last(m) == span
  {
    m := Merge(rs, span);
  }

  /** The span does not start before the last range. */
  predicate Next(rs: seq<Range>, span: Range) {
    Apart(rs) && span.start < span.end && (rs != [] ==> Last(rs).start <= span.start)
  }

  lemma MergeApart(rs: seq<Range>, span: Range)
    requires Next(rs, span)
    ensures Apart(Merge(rs, span)) && Last(Merge(rs, span)).start <= span.start
  {
    var m := MergeShape(rs, span);
  }

  lemma MergeCovers(rs: seq<Range>, span: Range, x: nat)
    requires Next(rs, span)
    ensures Covers(Merge(rs, span), x) <==> Covers(rs, x) || In(span, x)
  {
    var m := MergeShape(rs, span);
  }

  lemma MergeIds(rs: seq<Range>, span: Range)
    ensures AllIds(Merge(rs, span)) == AllIds(rs) + span.ids
  {
    var m := MergeShape(rs, span);
    if Grows(rs, span) {
      assert AllIds(Front(rs)) + (Last(rs).ids + span.ids) == AllIds(Front(rs)) + Last(rs).ids + span.ids;
    }
  }

  lemma MergeTotal(rs: seq<Range>, span: Range)
    requires Next(rs, span)
    ensures Total(Merge(rs, span)) <= Total(rs) + span.end - span.start
  {
    var m := MergeShape(rs, span);
  }

  lemma MergeHolds(rs: seq<Range>, span: Range, other: Range)
    requires Next(rs, span)
    ensures Held(rs, other) || other == span ==> Held(Merge(rs, span), other)
  {
    var m := MergeShape(rs, span);
    if Grows(rs, span) {
      assert Holds(Last(rs), other) || other == span ==> Holds(Last(m), other);
    } else {
      assert Holds(span, span);
    }
  }

  lemma MergeEnds(rs: seq<Range>, span: Range, ok: set<nat>)
    requires EndsIn(rs, ok) && span.start in ok && span.end in ok
    ensures EndsIn(Merge(rs, span), ok)
  {
    var m := MergeShape(rs, span);
  }

  // ----- what merging all the spans does -----

  ghost predicate Ready(spans: seq<Range>) {
    Sorting.Ordered(spans, StartLe) && forall i :: 0 <= i < |spans| ==> spans[i].start < spans[i].end
  }

  /** The ranges are apart, and each span still to come may be merged next. */
  lemma {:induction false} MergedApart(spans: seq<Range>)
    requires Ready(spans)
    ensures Apart(Merged(spans))
    ensures (spans != [] ==> Merged(spans) != [] && Last(Merged(spans)).start <= Last(spans).start)
    decreases |spans|, 1
  {
    if spans != [] {
      MergedNext(spans);
      MergeApart(Merged(Front(spans)), Last(spans));
      var m := MergeShape(Merged(Front(spans)), Last(spans));
    }
  }

  lemma {:induction false} MergedNext(spans: seq<Range>)
    requires Ready(spans) && spans != []
    ensures Ready(Front(spans)) && Next(Merged(Front(spans)), Last(spans))
    decreases |spans|, 0
  {
    var n := |spans| - 1;
    if n > 0 { assert StartLe(spans[n - 1], spans[n]); }
    assert Ready(Front(spans));
    MergedApart(Front(spans));
  }

  /** The ranges cover what the spans cover. */
  lemma {:induction false} MergedCovers(spans: seq<Range>, x: nat)
    requires Ready(spans)
    ensures Covers(Merged(spans), x) <==> Covers(spans, x)
  {
    if spans != [] {
      MergedNext(spans);
      MergedCovers(Front(spans), x);
      MergeCovers(Merged(Front(spans)), Last(spans), x);
    }
  }

  /** The ranges list the ids of the spans, in order and each once. */
  lemma {:induction false} MergedIds(spans: seq<Range>)
    ensures AllIds(Merged(spans)) == AllIds(spans)
  {
    if spans != [] {
      MergedIds(Front(spans));
      MergeIds(Merged(Front(spans)), Last(spans));
    }
  }

  lemma {:induction false} MergedTotal(spans: seq<Range>)
    requires Ready(spans)
    ensures Total(Merged(spans)) <= Total(spans)
  {
    if spans != [] {
      MergedNext(spans);
      MergedTotal(Front(spans));
      MergeTotal(Merged(Front(spans)), Last(spans));
    }
  }

  /** Each span lies, with its id, in one of the ranges. */
  lemma {:induction false} MergedHolds(spans: seq<Range>, i: nat)
    requires Ready(spans) && i < |spans|
    ensures Held(Merged(spans), spans[i])
    decreases |spans|
  {
    MergedNext(spans);
    if i < |spans| - 1 { MergedHolds(Front(spans), i); }
    MergeHolds(Merged(Front(spans)), Last(spans), spans[i]);
  }

  lemma {:induction false} MergedEnds(spans: seq<Range>, ok: set<nat>)
    requires forall i :: 0 <= i < |spans| ==> spans[i].start in ok && spans[i].end in ok
    ensures EndsIn(Merged(spans), ok)
  {
    if spans != [] {
      MergedEnds(Front(spans), ok);
      MergeEnds(Merged(Front(spans)), Last(spans), ok);
    }
  }
}

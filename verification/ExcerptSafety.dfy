/** What the quoted ranges are for the retrieved chunks. */
module ExcerptSafety {
  import opened Sequences
  import opened Common
  import opened Excerpts
  import Sorting

  lemma {:induction false} CoversIff(rs: seq<Range>, x: nat)
    ensures Covers(rs, x) <==> exists r :: r in rs && In(r, x)
  {
    if rs != [] {
      CoversIff(Front(rs), x);
      assert rs == Front(rs) + [Last(rs)];
    }
  }

  lemma {:induction false} FromFront(rs: seq<Range>)
    requires rs != []
    ensures AllIds(rs) == rs[0].ids + AllIds(rs[1..]) && Total(rs) == Total(rs[1..]) + rs[0].end - rs[0].start
  {
    if |rs| == 1 {
      assert AllIds(rs) == AllIds([]) + rs[0].ids && rs[1..] == [] && Front(rs) == [];
    } else {
      FromFront(Front(rs));
      assert Front(rs)[1..] == Front(rs[1..]);
      assert AllIds(rs) == rs[0].ids + (AllIds(Front(rs[1..])) + Last(rs).ids);
    }
  }

  lemma {:induction false} InsertSums(x: Range, xs: seq<Range>)
    ensures var all := Sorting.Insert(x, xs, StartLe);
            multiset(AllIds(all)) == multiset(x.ids) + multiset(AllIds(xs)) && Total(all) == Total(xs) + x.end - x.start
  {
    var all := Sorting.Insert(x, xs, StartLe);
    FromFront(all);
    if xs == [] || StartLe(x, xs[0]) {
      assert all[1..] == xs;
    } else {
      FromFront(xs);
      InsertSums(x, xs[1..]);
      assert all[1..] == Sorting.Insert(x, xs[1..], StartLe);
    }
  }

  /** Sorting changes neither the ids nor the lengths. */
  lemma {:induction false} SortedSums(xs: seq<Range>)
    ensures var all := Sorting.Sorted(xs, StartLe);
            multiset(AllIds(all)) == multiset(AllIds(xs)) && Total(all) == Total(xs)
  {
    if xs != [] {
      FromFront(xs);
      SortedSums(xs[1..]);
      InsertSums(xs[0], Sorting.Sorted(xs[1..], StartLe));
    }
  }

  function Ids(chunks: seq<Chunk>): seq<string> {
    seq(|chunks|, i requires 0 <= i < |chunks| => chunks[i].id)
  }

  predicate Small(r: Range, c: Chunk) {
    r.ids == [c.id] && r.end - r.start <= 3000
  }

  lemma {:induction false} SmallSums(rs: seq<Range>, chunks: seq<Chunk>)
    requires |rs| == |chunks| && forall i :: 0 <= i < |rs| ==> Small(rs[i], chunks[i])
    ensures AllIds(rs) == Ids(chunks) && Total(rs) <= 3000 * |chunks|
  {
    if rs != [] {
      var n := |rs| - 1;
      assert Small(rs[n], chunks[n]);
      forall i | 0 <= i < n ensures Small(rs[..n][i], chunks[..n][i]) { assert Small(rs[i], chunks[i]); }
      SmallSums(rs[..n], chunks[..n]);
      IdsSnoc(chunks);
    }
  }

  lemma IdsSnoc(chunks: seq<Chunk>)
    requires chunks != []
    ensures Ids(chunks) == Ids(chunks[..|chunks| - 1]) + [chunks[|chunks| - 1].id]
  {
  }

  /** Each span has its chunk's id, and at most 3000 characters. */
  lemma SpanSums(d: Document, chunks: seq<Chunk>)
    requires d.Valid() && AllFit(d, chunks)
    ensures AllIds(Spans(d, chunks)) == Ids(chunks) && Total(Spans(d, chunks)) <= 3000 * |chunks|
  {
    var spans := Spans(d, chunks);
    forall i | 0 <= i < |spans| ensures Small(spans[i], chunks[i]) { WidenedSound(d, chunks[i]); }
    SmallSums(spans, chunks);
  }

  lemma SpansReady(d: Document, chunks: seq<Chunk>)
    requires d.Valid() && AllFit(d, chunks)
    ensures Ready(Sorting.Sorted(Spans(d, chunks), StartLe))
  {
    var spans := Spans(d, chunks);
    var sorted := Sorting.Sorted(spans, StartLe);
    Sorting.SortedOrdered(spans, StartLe);
    Sorting.SortedMembers(spans, StartLe);
    forall i | 0 <= i < |sorted| ensures sorted[i].start < sorted[i].end {
      assert sorted[i] in spans;
      var j :| 0 <= j < |spans| && spans[j] == sorted[i];
      WidenedSound(d, chunks[j]);
    }
  }

  /** The ranges are in order and apart, and quote a character just when some widened chunk does. */
  lemma RangesCoverSpans(d: Document, chunks: seq<Chunk>, rs: seq<Range>, flag: bool)
    requires d.Valid() && Excerpted(d, chunks) == Some((rs, flag))
    ensures Apart(rs)
    ensures forall x: nat :: Covers(rs, x) <==> exists i :: 0 <= i < |chunks| && In(Spans(d, chunks)[i], x)
  {
    var spans := Spans(d, chunks);
    var sorted := Sorting.Sorted(spans, StartLe);
    SpansReady(d, chunks);
    MergedApart(sorted);
    Sorting.SortedMembers(spans, StartLe);
    forall x: nat ensures Covers(rs, x) <==> exists i :: 0 <= i < |chunks| && In(spans[i], x) {
      MergedCovers(sorted, x);
      CoversIff(sorted, x);
    }
  }

  /** Every id is listed as often as it was asked for, and the ranges have at most 3000 characters a chunk. */
  lemma RangesListIds(d: Document, chunks: seq<Chunk>, rs: seq<Range>, flag: bool)
    requires d.Valid() && Excerpted(d, chunks) == Some((rs, flag))
    ensures multiset(AllIds(rs)) == multiset(Ids(chunks)) && Total(rs) <= 3000 * |chunks|
  {
    var sorted := Sorting.Sorted(Spans(d, chunks), StartLe);
    SpansReady(d, chunks);
    SpanSums(d, chunks);
    SortedSums(Spans(d, chunks));
    MergedIds(sorted);
    MergedTotal(sorted);
  }

  /** Each chunk lies whole, with its id, in some range. */
  lemma RangesHoldChunk(d: Document, chunks: seq<Chunk>, rs: seq<Range>, flag: bool, i: nat) returns (k: nat)
    requires d.Valid() && Excerpted(d, chunks) == Some((rs, flag)) && i < |chunks|
    ensures k < |rs| && rs[k].start <= chunks[i].start < chunks[i].end <= rs[k].end && chunks[i].id in rs[k].ids
  {
    var spans := Spans(d, chunks);
    var sorted := Sorting.Sorted(spans, StartLe);
    SpansReady(d, chunks);
    Sorting.SortedMembers(spans, StartLe);
    assert spans[i] in sorted;
    var j :| 0 <= j < |sorted| && sorted[j] == spans[i];
    MergedHolds(sorted, j);
    k := HeldAt(rs, spans[i]);
    WidenedSound(d, chunks[i]);
  }

  lemma {:induction false} HeldAt(rs: seq<Range>, span: Range) returns (k: nat)
    requires Held(rs, span)
    ensures k < |rs| && Holds(rs[k], span)
  {
    if Holds(Last(rs), span) { k := |rs| - 1; } else { k := HeldAt(Front(rs), span); }
  }

  /** And in no other, when no chunk was asked for twice. */
  lemma {:induction false} IdInOneRange(rs: seq<Range>, id: string, i: nat, j: nat)
    requires i < j < |rs| && id in rs[i].ids && id in rs[j].ids
    ensures multiset(AllIds(rs))[id] >= 2
    decreases |rs|
  {
    var n := |rs| - 1;
    if j == n {
      IdListed(Front(rs), id, i);
      assert id in multiset(AllIds(Front(rs))) && id in multiset(rs[n].ids);
    } else {
      IdInOneRange(Front(rs), id, i, j);
    }
    assert multiset(AllIds(rs)) == multiset(AllIds(Front(rs))) + multiset(Last(rs).ids);
  }

  lemma {:induction false} IdListed(rs: seq<Range>, id: string, i: nat)
    requires i < |rs| && id in rs[i].ids
    ensures id in AllIds(rs)
    decreases |rs|
  {
    if i < |rs| - 1 { IdListed(Front(rs), id, i); }
  }

  lemma ChunkInOneRange(d: Document, chunks: seq<Chunk>, rs: seq<Range>, flag: bool, id: string, i: nat, j: nat)
    requires d.Valid() && Excerpted(d, chunks) == Some((rs, flag)) && multiset(Ids(chunks))[id] == 1
    requires i < |rs| && j < |rs| && id in rs[i].ids && id in rs[j].ids
    ensures i == j
  {
    RangesListIds(d, chunks, rs, flag);
    if i < j { IdInOneRange(rs, id, i, j); } else if j < i { IdInOneRange(rs, id, j, i); }
  }

  /** When articles are known and the flag is down, every range runs from one article start or end of the text to
      another. */
  lemma RangesEndAtArticles(d: Document, chunks: seq<Chunk>, rs: seq<Range>, i: nat)
    requires d.Valid() && Excerpted(d, chunks) == Some((rs, false)) && d.articles != [] && i < |rs|
    ensures Edge(d, rs[i].start) && Edge(d, rs[i].end)
  {
    var spans := Spans(d, chunks);
    var sorted := Sorting.Sorted(spans, StartLe);
    var ok := set p: nat | 0 <= p <= |d.text| && Edge(d, p);
    Sorting.SortedMembers(spans, StartLe);
    forall k | 0 <= k < |sorted| ensures sorted[k].start in ok && sorted[k].end in ok {
      assert sorted[k] in spans;
      var j :| 0 <= j < |spans| && spans[j] == sorted[k];
      WidenedSound(d, chunks[j]);
      WidenedToEdges(d, chunks[j]);
    }
    MergedEnds(sorted, ok);
    EndsAt(rs, ok, i);
  }

  lemma {:induction false} EndsAt(rs: seq<Range>, ok: set<nat>, i: nat)
    requires EndsIn(rs, ok) && i < |rs|
    ensures rs[i].start in ok && rs[i].end in ok
    decreases |rs|
  {
    if i < |rs| - 1 { EndsAt(Front(rs), ok, i); }
  }

  /** Ranges that are apart have a gap between any two. */
  lemma {:induction false} ApartHasGaps(rs: seq<Range>, i: nat, j: nat)
    requires Apart(rs) && i < j < |rs|
    ensures rs[i].start < rs[i].end < rs[j].start < rs[j].end
    decreases |rs|
  {
    var n := |rs| - 1;
    if j < n {
      ApartHasGaps(Front(rs), i, j);
    } else if i < n - 1 {
      ApartHasGaps(Front(rs), i, n - 1);
    } else {
      assert Last(Front(rs)) == rs[n - 1] && Apart(Front(rs));
    }
  }

  // ----- how far a chunk is widened, and when the flag is up -----

  ghost predicate Between(ps: seq<nat>, low: int, high: int) {
    exists p :: p in ps && low <= p <= high
  }

  /** The greatest of the positions between two places, if there is one there. */
  ghost predicate Greatest(r: nat, ps: seq<nat>, low: int, high: int) {
    r in ps && low <= r <= high && forall p :: p in ps && low <= p <= high ==> p <= r
  }

  ghost predicate Least(r: nat, ps: seq<nat>, low: int, high: int) {
    r in ps && low <= r <= high && forall p :: p in ps && low <= p <= high ==> r <= p
  }

  /** A chunk is widened to the nearest article starts within 1000 characters on either side; where there is none, to
      the nearest paragraph; and where there is none either, not at all. */
  lemma WidenedToNearest(d: Document, c: Chunk)
    requires Fits(c, d.text)
    ensures var w, low := Widened(d, c), c.start - 1000;
            if Between(d.articles, low, c.start) then Greatest(w.start, d.articles, low, c.start)
            else if Between(d.paragraphs, low, c.start) then Greatest(w.start, d.paragraphs, low, c.start)
            else w.start == c.start
    ensures var w, high := Widened(d, c), c.end + 1000;
            if Between(d.articles, c.end, high) then Least(w.end, d.articles, c.end, high)
            else if Between(d.paragraphs, c.end, high) then Least(w.end, d.paragraphs, c.end, high)
            else w.end == c.end
  {
  }

  /** An edge of the chunk has no article start near it although the law has articles and goes on there, or nothing at
      all near it. */
  ghost predicate Unfinished(d: Document, c: Chunk) {
    var before, after := Between(d.articles, c.start - 1000, c.start), Between(d.articles, c.end, c.end + 1000);
    || (!before && c.start > 0 && d.articles != [])
    || (!after && c.end < |d.text| && d.articles != [])
    || (!before && !Between(d.paragraphs, c.start - 1000, c.start))
    || (!after && !Between(d.paragraphs, c.end, c.end + 1000))
  }

  lemma CutShortIff(d: Document, c: Chunk)
    ensures CutShort(d, c) <==> Unfinished(d, c)
  {
  }

  /** The flag is up if and only if some chunk could not be finished. */
  lemma FlagIff(d: Document, chunks: seq<Chunk>, ranges: seq<Range>, incomplete: bool)
    requires Excerpted(d, chunks) == Some((ranges, incomplete))
    ensures incomplete <==> exists i :: 0 <= i < |chunks| && Unfinished(d, chunks[i])
  {
    forall i | 0 <= i < |chunks| ensures CutShort(d, chunks[i]) <==> Unfinished(d, chunks[i]) {
      CutShortIff(d, chunks[i]);
    }
  }
}

/** The sentence-aware sliding window over a long unit of text. */
module WindowPieces {
  import opened Numbers
  import opened Sequences

  const SENTENCE_END: string := "。！？；;"

  /** A half-open span of the unit, and the text it was cut as. */
  datatype Piece = Piece(text: string, start: nat, end: nat)

  datatype Settings = Settings(maxLeaf: int, window: int, overlap: int) {
    /** What the checks made before any chunk is derived leave. */
    predicate Valid() {
      0 < overlap < window <= maxLeaf
    }

    function Step(): int {
      window - overlap
    }
  }

  predicate EndsSentence(c: char) {
    c in SENTENCE_END
  }

  /** `text.rfind(marker, low, high)`. */
  function LastOf(text: string, marker: char, low: int, high: int): (at: int)
    requires 0 <= low && high <= |text|
    ensures at == -1 || (low <= at < high && text[at] == marker)
    ensures forall i :: Max(low, at + 1) <= i < high ==> text[i] != marker
    decreases high - low
  {
    if high <= low then -1
    else if text[high - 1] == marker then high - 1
    else LastOf(text, marker, low, high - 1)
  }

  /** The largest `rfind` over some marks. */
  function LastMark(text: string, marks: string, low: int, high: int): (at: int)
    requires 0 <= low && high <= |text|
  {
    if marks == "" then -1
    else
      var n := |marks| - 1;
      Max(LastMark(text, marks[..n], low, high), LastOf(text, marks[n], low, high))
  }

  /** Where the piece that starts at `start` ends. */
  function PieceEnd(text: string, start: nat, s: Settings): (end: nat)
    requires s.Valid() && start < |text|
  {
    var end := Min(start + s.window, |text|);
    if end == |text| then end
    else
      var low := Max(start + 1, end - s.overlap);
      var boundary := LastMark(text, SENTENCE_END, low, end);
      if boundary >= low then boundary + 1 else end
  }

  function NextStart(start: nat, end: nat, s: Settings): int {
    Max(start + s.Step(), end - s.overlap)
  }

  lemma {:induction false} LastMarkInRange(text: string, marks: string, low: int, high: int)
    requires 0 <= low && high <= |text|
    ensures var at := LastMark(text, marks, low, high);
            && (at == -1 || (low <= at < high && text[at] in marks))
            && forall i :: Max(low, at + 1) <= i < high ==> text[i] !in marks
  {
    if marks != "" {
      var n := |marks| - 1;
      LastMarkInRange(text, marks[..n], low, high);
      assert marks == marks[..n] + [marks[n]];
    }
  }

  lemma LastMarkBounds(text: string, low: int, high: int)
    requires 0 <= low && high <= |text|
    ensures var at := LastMark(text, SENTENCE_END, low, high);
            && (at == -1 || (low <= at < high && EndsSentence(text[at])))
            && forall i :: Max(low, at + 1) <= i < high ==> !EndsSentence(text[i])
  {
    LastMarkInRange(text, SENTENCE_END, low, high);
  }

  /** The chosen end lies past the next start, and within the window. */
  lemma PieceEndRange(text: string, start: nat, s: Settings)
    requires s.Valid() && start < |text|
    ensures var end := PieceEnd(text, start, s);
            && start < end <= Min(start + s.window, |text|)
            && (end < |text| ==> start + s.window < |text| && start < NextStart(start, end, s) < end)
            && (end < |text| ==> 1 <= end - NextStart(start, end, s) <= s.overlap)
  {
    var full := Min(start + s.window, |text|);
    if full < |text| { LastMarkBounds(text, full - s.overlap, full); }
  }

  /** It lies after the last sentence mark of the overlap region, or is full if that region has none. */
  lemma PieceEndMarks(text: string, start: nat, s: Settings)
    requires s.Valid() && start + s.window < |text|
    ensures var end, full := PieceEnd(text, start, s), start + s.window;
            && start < end <= full
            && (forall i :: end <= i < full ==> !EndsSentence(text[i]))
            && (EndsSentence(text[end - 1])
                 || (end == full && forall i :: full - s.overlap <= i < full ==> !EndsSentence(text[i])))
  {
    LastMarkBounds(text, start + s.window - s.overlap, start + s.window);
  }

  /** Both together. */
  lemma PieceEndBounds(text: string, start: nat, s: Settings)
    requires s.Valid() && start < |text|
    ensures var end := PieceEnd(text, start, s);
            && start < end <= Min(start + s.window, |text|)
            && (end < |text| ==> start < NextStart(start, end, s) < end)
            && (end < |text| ==> 1 <= end - NextStart(start, end, s) <= s.overlap)
    ensures var end, full := PieceEnd(text, start, s), start + s.window;
            full < |text| ==>
              && (forall i :: end <= i < full ==> !EndsSentence(text[i]))
              && (EndsSentence(text[end - 1])
                   || (end == full && forall i :: full - s.overlap <= i < full ==> !EndsSentence(text[i])))
  {
    PieceEndRange(text, start, s);
    if start + s.window < |text| { PieceEndMarks(text, start, s); }
  }

  function Cut(text: string, start: nat, end: nat): Piece
    requires start <= end <= |text|
  {
    Piece(text[start..end], start, end)
  }

  /** The windows from `start` on. */
  function PiecesFrom(text: string, start: nat, s: Settings): seq<Piece>
    requires s.Valid() && start < |text|
    decreases |text| - start
  {
    PieceEndRange(text, start, s);
    var end := PieceEnd(text, start, s);
    [Cut(text, start, end)] + if end == |text| then [] else PiecesFrom(text, NextStart(start, end, s), s)
  }

  function Pieces(text: string, s: Settings): seq<Piece>
    requires s.Valid()
  {
    if |text| <= s.maxLeaf then [Cut(text, 0, |text|)] else PiecesFrom(text, 0, s)
  }

  method LastSentenceMark(text: string, marks: string, low: int, high: int) returns (boundary: int)
    requires 0 <= low && high <= |text|
    ensures boundary == LastMark(text, marks, low, high)
  {
    boundary := -1;
    for k := 0 to |marks|
      invariant boundary == LastMark(text, marks[..k], low, high)
    {
      assert marks[..k + 1][..k] == marks[..k];
      boundary := Max(boundary, LastOf(text, marks[k], low, high));
    }
    assert marks[..|marks|] == marks;
  }

  method WindowEnd(text: string, start: nat, s: Settings) returns (end: nat)
    requires s.Valid() && start < |text|
    ensures end == PieceEnd(text, start, s)
  {
    end := Min(start + s.window, |text|);
    if end < |text| {
      var low := Max(start + 1, end - s.overlap);
      var boundary := LastSentenceMark(text, SENTENCE_END, low, end);
      if boundary >= low { end := boundary + 1; }
    }
  }

  method WindowPiecesWithOffsets(text: string, s: Settings) returns (pieces: seq<Piece>)
    requires s.Valid()
    ensures pieces == Pieces(text, s)
  {
    if |text| <= s.maxLeaf { return [Cut(text, 0, |text|)]; }
    pieces := [];
    var start, length := 0, |text|;
    while true
      invariant 0 <= start < length
      invariant Pieces(text, s) == pieces + PiecesFrom(text, start, s)
      decreases length - start
    {
      var end := WindowEnd(text, start, s);
      PushFirst(text, start, s, pieces, end);
      pieces := pieces + [Cut(text, start, end)];
      if end >= length { break; }
      start := NextStart(start, end, s);
    }
  }

  lemma PushFirst(text: string, start: nat, s: Settings, before: seq<Piece>, end: nat)
    requires s.Valid() && start < |text| && end == PieceEnd(text, start, s)
    ensures start < end <= |text|
    ensures end == |text| ==> before + PiecesFrom(text, start, s) == before + [Cut(text, start, end)]
    ensures end < |text| ==>
              && 0 <= NextStart(start, end, s) < |text|
              && before + PiecesFrom(text, start, s) ==
                 before + [Cut(text, start, end)] + PiecesFrom(text, NextStart(start, end, s), s)
  {
    PieceEndRange(text, start, s);
    if end < |text| {
      Regroup(before, [Cut(text, start, end)], PiecesFrom(text, NextStart(start, end, s), s));
    }
  }

  // ----- what the windows are good for -----

  /** Each piece is a non-empty cut no longer than `longest`; each next one starts inside the piece before it, no
      more than the overlap before its end; the last one reaches the end. */
  ghost predicate Covering(text: string, pieces: seq<Piece>, from: nat, longest: nat, overlap: nat) {
    && pieces != [] && pieces[0].start == from && pieces[|pieces| - 1].end == |text|
    && (forall i :: 0 <= i < |pieces| ==> IsCut(text, pieces[i]) && |pieces[i].text| <= longest)
    && (forall i :: 0 < i < |pieces| ==> Overlaps(pieces[i - 1], pieces[i], overlap))
  }

  ghost predicate IsCut(text: string, p: Piece) {
    p.start < p.end <= |text| && p.text == text[p.start..p.end]
  }

  ghost predicate Overlaps(a: Piece, b: Piece, overlap: nat) {
    && a.start < b.start < a.end <= b.end
    && 1 <= a.end - b.start <= overlap
  }

  lemma CoverFirst(text: string, first: Piece, rest: seq<Piece>, next: nat, longest: nat, overlap: nat)
    requires IsCut(text, first) && |first.text| <= longest
    requires Covering(text, rest, next, longest, overlap) && Overlaps(first, rest[0], overlap)
    ensures Covering(text, [first] + rest, first.start, longest, overlap)
  {
    var all := [first] + rest;
    forall i | 0 < i < |all| ensures Overlaps(all[i - 1], all[i], overlap) {
      if i > 1 { assert Overlaps(rest[i - 2], rest[i - 1], overlap); }
    }
    forall i | 0 <= i < |all| ensures IsCut(text, all[i]) && |all[i].text| <= longest {
      if i > 0 { assert IsCut(text, rest[i - 1]); }
    }
  }

  lemma {:induction false} PiecesFromCover(text: string, start: nat, s: Settings)
    requires s.Valid() && start < |text|
    ensures Covering(text, PiecesFrom(text, start, s), start, s.window, s.overlap)
    decreases |text| - start
  {
    PieceEndRange(text, start, s);
    var end := PieceEnd(text, start, s);
    if end < |text| {
      var next := NextStart(start, end, s);
      PiecesFromCover(text, next, s);
      NextEndsLater(text, start, s);
      FirstPiece(text, next, s);
      CoverFirst(text, Cut(text, start, end), PiecesFrom(text, next, s), next, s.window, s.overlap);
    }
  }

  lemma FirstPiece(text: string, start: nat, s: Settings)
    requires s.Valid() && start < |text|
    ensures PiecesFrom(text, start, s) != [] && PiecesFrom(text, start, s)[0].start == start
    ensures PiecesFrom(text, start, s)[0].end == PieceEnd(text, start, s)
  {
    PieceEndRange(text, start, s);
  }

  /** The next window ends no earlier, and later whenever the overlap is at most half a window. */
  lemma NextEndsLater(text: string, start: nat, s: Settings)
    requires s.Valid() && start < |text| && PieceEnd(text, start, s) < |text|
    ensures var next := NextStart(start, PieceEnd(text, start, s), s);
            && 0 <= next < |text| && PieceEnd(text, next, s) >= PieceEnd(text, start, s)
            && (2 * s.overlap <= s.window ==> PieceEnd(text, next, s) > PieceEnd(text, start, s))
  {
    PieceEndBounds(text, start, s);
    var end := PieceEnd(text, start, s);
    var next := NextStart(start, end, s);
    PieceEndBounds(text, next, s);
  }

  /** The window after the one at `start` ends later than it. */
  ghost predicate Later(text: string, start: nat, s: Settings)
    requires s.Valid() && start < |text|
  {
    var end := PieceEnd(text, start, s);
    end < |text| ==>
      var next := NextStart(start, end, s);
      0 <= next < |text| && end < PieceEnd(text, next, s)
  }

  ghost predicate Rising(pieces: seq<Piece>) {
    forall i :: 0 < i < |pieces| ==> pieces[i - 1].end < pieces[i].end
  }

  /** A text whose only sentence mark ends the first window. */
  function MarkedText(s: Settings): string
    requires s.Valid()
  {
    seq(s.maxLeaf + 3 * s.window, i => if i == s.window - 1 then '。' else 'a')
  }

  /** With an overlap of more than half a window there is a text whose second window ends where the first one does. */
  lemma LargeOverlapRepeats(s: Settings)
    requires s.Valid() && 2 * s.overlap > s.window
    ensures var text := MarkedText(s);
            && |text| > s.maxLeaf && !Later(text, 0, s)
            && |Pieces(text, s)| > 1 && Pieces(text, s)[1].end == Pieces(text, s)[0].end == s.window
  {
    var text, step := MarkedText(s), s.Step();
    MarkEndsWindow(s, 0);
    MarkEndsWindow(s, step);
    assert NextStart(0, s.window, s) == step;
    assert PiecesFrom(text, 0, s)[1..] == PiecesFrom(text, step, s);
  }

  lemma MarkEndsWindow(s: Settings, start: nat)
    requires s.Valid() && start + s.window - s.overlap < s.window && start <= s.Step()
    ensures PieceEnd(MarkedText(s), start, s) == s.window
  {
    var text, low, full := MarkedText(s), start + s.window - s.overlap, start + s.window;
    LastMarkBounds(text, low, full);
    assert SENTENCE_END[0] == '。';
    assert EndsSentence(text[s.window - 1]) && !EndsSentence('a');
  }

  /** Every next window ends later, in every text and from every start, if and only if the overlap is at most half a
      window. */
  lemma NextEndsLaterIff(s: Settings)
    requires s.Valid()
    ensures (forall text: string, start: nat :: start < |text| ==> Later(text, start, s)) <==> 2 * s.overlap <= s.window
  {
    if 2 * s.overlap <= s.window {
      forall text: string, start: nat | start < |text| ensures Later(text, start, s) {
        if PieceEnd(text, start, s) < |text| { NextEndsLater(text, start, s); }
      }
    } else {
      LargeOverlapRepeats(s);
    }
  }

  lemma {:induction false} PiecesFromRise(text: string, start: nat, s: Settings)
    requires s.Valid() && start < |text| && 2 * s.overlap <= s.window
    ensures Rising(PiecesFrom(text, start, s))
    decreases |text| - start
  {
    PieceEndRange(text, start, s);
    var end := PieceEnd(text, start, s);
    if end < |text| {
      var next := NextStart(start, end, s);
      NextEndsLater(text, start, s);
      PiecesFromRise(text, next, s);
      RisingFrom(Cut(text, start, end), PiecesFrom(text, next, s));
    }
  }

  lemma RisingFrom(first: Piece, rest: seq<Piece>)
    requires Rising(rest) && rest != [] && first.end < rest[0].end
    ensures Rising([first] + rest)
  {
    var all := [first] + rest;
    forall i | 0 < i < |all| ensures all[i - 1].end < all[i].end {
      if i > 1 { assert rest[i - 2].end < rest[i - 1].end; }
    }
  }

  /** The windows of every text end one after the other if and only if the overlap is at most half a window. */
  lemma PiecesRiseIff(s: Settings)
    requires s.Valid()
    ensures (forall text: string :: Rising(Pieces(text, s))) <==> 2 * s.overlap <= s.window
  {
    if 2 * s.overlap <= s.window {
      forall text: string ensures Rising(Pieces(text, s)) {
        if |text| > s.maxLeaf { PiecesFromRise(text, 0, s); }
      }
    } else {
      LargeOverlapRepeats(s);
    }
  }

  /** A unit of at least one character is covered, whether it needed windows or not. */
  lemma PiecesCover(text: string, s: Settings)
    requires s.Valid() && text != ""
    ensures Covering(text, Pieces(text, s), 0, if |text| <= s.maxLeaf then s.maxLeaf else s.window, s.overlap)
  {
    if |text| > s.maxLeaf { PiecesFromCover(text, 0, s); }
  }

  /** Cuts that run from `from` to `to`, each starting after the one before starts and no later than it ends. */
  ghost predicate Gapless(text: string, pieces: seq<Piece>, from: nat, to: nat) {
    if pieces == [] then from == to
    else
      && pieces[0].start == from && pieces[|pieces| - 1].end == to
      && (forall i :: 0 <= i < |pieces| ==> IsCut(text, pieces[i]))
      && (forall i :: 0 < i < |pieces| ==> Follows(pieces[i - 1], pieces[i]))
  }

  ghost predicate Follows(a: Piece, b: Piece) {
    a.start < b.start <= a.end <= b.end
  }

  /** The pieces without what each repeats of the one before. */
  function Rebuilt(pieces: seq<Piece>): string {
    if pieces == [] then ""
    else if |pieces| == 1 then pieces[0].text
    else
      var last := |pieces| - 1;
      var repeated := pieces[last - 1].end - pieces[last].start;
      Rebuilt(pieces[..last]) + if 0 <= repeated <= |pieces[last].text| then pieces[last].text[repeated..] else ""
  }

  lemma CoveringIsGapless(text: string, pieces: seq<Piece>, longest: nat, overlap: nat)
    requires Covering(text, pieces, 0, longest, overlap)
    ensures Gapless(text, pieces, 0, |text|)
  {
    forall i | 0 < i < |pieces| ensures Follows(pieces[i - 1], pieces[i]) {
      assert Overlaps(pieces[i - 1], pieces[i], overlap);
    }
  }

  lemma {:induction false} RebuiltPrefix(text: string, pieces: seq<Piece>, from: nat, to: nat, k: nat)
    requires Gapless(text, pieces, from, to) && 1 <= k <= |pieces|
    ensures from <= pieces[k - 1].end <= |text|
    ensures Rebuilt(pieces[..k]) == text[from..pieces[k - 1].end]
  {
    assert IsCut(text, pieces[k - 1]);
    if k > 1 {
      RebuiltPrefix(text, pieces, from, to, k - 1);
      assert pieces[..k][..k - 1] == pieces[..k - 1];
      var a, b := pieces[k - 2], pieces[k - 1];
      assert Follows(a, b) && IsCut(text, a);
      assert pieces[..k][k - 2] == a && pieces[..k][k - 1] == b;
      Append(text, from, a.end, b.start, b.end);
    }
  }

  lemma Append(text: string, from: nat, last: nat, start: nat, end: nat)
    requires from <= last && start <= last <= end <= |text|
    ensures text[from..last] + text[start..end][last - start..] == text[from..end]
  {
    assert text[start..end][last - start..] == text[last..end];
  }

  /** Removing the repetitions from gapless cuts gives back the text they run over. */
  lemma GaplessRebuilds(text: string, pieces: seq<Piece>, from: nat, to: nat)
    requires Gapless(text, pieces, from, to) && from <= to <= |text|
    ensures Rebuilt(pieces) == text[from..to]
  {
    if pieces != [] {
      RebuiltPrefix(text, pieces, from, to, |pieces|);
      assert pieces[..|pieces|] == pieces;
    }
  }

  lemma PiecesRebuild(text: string, s: Settings)
    requires s.Valid() && text != ""
    ensures Gapless(text, Pieces(text, s), 0, |text|)
    ensures Rebuilt(Pieces(text, s)) == text
  {
    PiecesCover(text, s);
    CoveringIsGapless(text, Pieces(text, s), if |text| <= s.maxLeaf then s.maxLeaf else s.window, s.overlap);
    GaplessRebuilds(text, Pieces(text, s), 0, |text|);
    assert text[0..|text|] == text;
  }

  /** Each window starts at least one step after the one before, and none starts where one window would reach the
      end already. */
  lemma {:induction false} PiecesFromFew(text: string, start: nat, s: Settings, n: nat, excess: int)
    requires s.Valid() && start < |text|
    requires n == |PiecesFrom(text, start, s)| && excess == |text| - start - s.window
    ensures FewFrom(n, s.Step(), excess)
    decreases |text| - start
  {
    var next := Follow(text, start, s);
    if next < |text| {
      PiecesFromFew(text, next, s, n - 1, |text| - next - s.window);
      OneMore(n - 1, s.Step(), |text| - next - s.window, excess);
    }
  }

  lemma Follow(text: string, start: nat, s: Settings) returns (next: nat)
    requires s.Valid() && start < |text|
    ensures next == |text| ==> |PiecesFrom(text, start, s)| == 1
    ensures next != |text| ==>
              && start + s.Step() <= next < |text| && start + s.window < |text|
              && |PiecesFrom(text, start, s)| == |PiecesFrom(text, next, s)| + 1
  {
    PieceEndRange(text, start, s);
    var end := PieceEnd(text, start, s);
    next := if end == |text| then end else NextStart(start, end, s);
  }

  predicate FewFrom(n: nat, step: int, excess: int) {
    n >= 2 ==> Times(n - 2, step) < excess
  }

  /** `n * step`, by repeated addition. */
  function Times(n: nat, step: int): int {
    if n == 0 then 0 else Times(n - 1, step) + step
  }

  lemma {:induction false} TimesIsProduct(n: nat, step: int)
    ensures Times(n, step) == n * step
  {
    if n > 0 {
      TimesIsProduct(n - 1, step);
      MulStep(n - 1, step);
    }
  }

  lemma OneMore(n: nat, step: int, excess: int, more: int)
    requires FewFrom(n, step, excess) && more >= excess + step && more > 0
    ensures FewFrom(n + 1, step, more)
  {
  }

  lemma FewIsBounded(n: nat, step: int, excess: int)
    requires FewFrom(n, step, excess) && step > 0 && excess >= 0
    ensures n <= CeilDiv(excess, step) + 1
  {
    if n >= 2 {
      TimesIsProduct(n - 2, step);
      MulStep(n - 2, step);
      DivAtLeast(excess + step - 1, n - 1, step);
    } else {
      DivAtLeast(excess + step - 1, 0, step);
    }
  }

  /** A text that had to be split gives at most ceil((length - window) / (window - overlap)) + 1 pieces. */
  lemma SplitTextGivesFewPieces(text: string, s: Settings)
    requires s.Valid() && |text| > s.maxLeaf
    ensures |Pieces(text, s)| <= CeilDiv(|text| - s.window, s.Step()) + 1
  {
    PiecesFromFew(text, 0, s, |Pieces(text, s)|, |text| - s.window);
    FewIsBounded(|Pieces(text, s)|, s.Step(), |text| - s.window);
  }
}

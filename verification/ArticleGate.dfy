/** What the sequence gate lets through. */
module ArticleGate {
  import opened Sequences
  import opened Common
  import opened ArticleSequence

  // ----- the pattern -----

  lemma {:induction false} RunIs(s: string, n: nat)
    requires n <= |s| && (forall i :: 0 <= i < n ==> IsNumberChar(s[i])) && (n < |s| ==> !IsNumberChar(s[n]))
    ensures Run(s) == n
  {
    if n > 0 { RunIs(s[1..], n - 1); }
  }

  /** The match finds the groups just when the item is written from them. */
  lemma FullMatchIff(item: string, g: Groups)
    ensures FullMatch(item) == Some(g) <==> IsMatch(item, g)
  {
    if IsMatch(item, g) {
      WrittenMatches(g);
    } else if FullMatch(item) == Some(g) {
      MatchIsWritten(item, g);
    }
  }

  lemma WrittenMatches(g: Groups)
    requires IsMatch(Rendered(g), g)
    ensures FullMatch(Rendered(g)) == Some(g)
  {
    var end := match g.supplement case None => "" case Some(s) => "之" + s;
    var item, rest, n := Rendered(g), g.article + "条" + end, |g.article|;
    RegroupFour("第", g.article, "条", end);
    assert item == "第" + rest && item[1..] == rest;
    RestParts(g.article, end, rest);
    RunIs(rest, n);
    if g.supplement.Some? { assert end[1..] == g.supplement.value && rest[n + 2..] == rest[n + 1..][1..]; }
  }

  lemma RestParts(article: string, end: string, rest: string)
    requires rest == article + "条" + end
    ensures var n := |article|;
            && n < |rest| && rest[..n] == article && rest[n] == '条' && rest[n + 1..] == end
            && (forall i :: 0 <= i < n ==> rest[i] == article[i])
            && (end != "" ==> rest[n + 1] == end[0])
  {
  }

  lemma MatchIsWritten(item: string, g: Groups)
    requires FullMatch(item) == Some(g)
    ensures IsMatch(item, g)
  {
    var rest := item[1..];
    var n := Run(rest);
    Parts(rest, n);
    assert item == "第" + rest;
    var end := rest[n + 1..];
    assert end == match g.supplement case None => "" case Some(s) => "之" + s;
    RegroupFour("第", g.article, "条", end);
  }

  lemma Parts(rest: string, n: nat)
    requires n < |rest| && rest[n] == '条'
    ensures rest == rest[..n] + "条" + rest[n + 1..]
    ensures n + 1 < |rest| && rest[n + 1] == '之' ==> rest[n + 1..] == "之" + rest[n + 2..]
  {
  }

  // ----- the sequence -----

  /** Every item is readable and follows the one before it. */
  ghost predicate Gapless(marks: seq<Option<Mark>>, start: Mark) {
    forall i :: 0 <= i < |marks| ==> StepAt(marks, start, i)
  }

  ghost predicate StepAt(marks: seq<Option<Mark>>, start: Mark, i: nat)
    requires i < |marks|
  {
    if i == 0 then Takes(start, marks[0]) else marks[i - 1].Some? && Takes(marks[i - 1].value, marks[i])
  }

  lemma GaplessFirst(marks: seq<Option<Mark>>, start: Mark)
    requires marks != []
    ensures Gapless(marks, start) <==> Takes(start, marks[0]) && Gapless(marks[1..], marks[0].value)
  {
    if Gapless(marks, start) {
      assert StepAt(marks, start, 0);
      forall i | 0 <= i < |marks| - 1 ensures StepAt(marks[1..], marks[0].value, i) {
        assert StepAt(marks, start, i + 1);
      }
    }
    if Takes(start, marks[0]) && Gapless(marks[1..], marks[0].value) {
      forall i | 0 <= i < |marks| ensures StepAt(marks, start, i) {
        if i > 0 { assert StepAt(marks[1..], marks[0].value, i - 1); }
      }
    }
  }

  /** The marks taken are the longest gapless beginning. */
  lemma {:induction false} TakenIsLongest(marks: seq<Option<Mark>>, start: Mark)
    ensures var n := Taken(marks, start);
            Gapless(marks[..n], start) && (n < |marks| ==> !Gapless(marks[..n + 1], start))
    ensures Taken(marks, start) == |marks| <==> Gapless(marks, start)
  {
    var n := Taken(marks, start);
    if marks != [] && Takes(start, marks[0]) {
      TakenIsLongest(marks[1..], marks[0].value);
      GaplessFirst(marks[..n], start);
      assert marks[..n][1..] == marks[1..][..n - 1];
      if n < |marks| {
        GaplessFirst(marks[..n + 1], start);
        assert marks[..n + 1][1..] == marks[1..][..n];
      }
      GaplessFirst(marks, start);
    } else if marks != [] {
      GaplessFirst(marks[..1], start);
      GaplessFirst(marks, start);
    }
  }

  /** Without a review the gate passes just the gapless sequences that start with article one. */
  lemma GateIff(numbers: seq<string>)
    ensures Break(numbers, None).None? <==> Gapless(Marks(numbers, false), Mark(0, 0))
  {
    TakenIsLongest(Marks(numbers, false), Mark(0, 0));
  }

  /** What it names otherwise is the first item that the sequence up to it cannot take. */
  lemma GateNamesFirst(numbers: seq<string>) returns (k: nat)
    requires Break(numbers, None).Some?
    ensures k < |numbers| && Break(numbers, None) == Some(numbers[k])
    ensures Break(numbers[..k], None).None? && Break(numbers[..k + 1], None).Some?
  {
    var marks := Marks(numbers, false);
    k := Taken(marks, Mark(0, 0));
    TakenIsLongest(marks, Mark(0, 0));
    assert Marks(numbers[..k], false) == marks[..k] && Marks(numbers[..k + 1], false) == marks[..k + 1];
    GateIff(numbers[..k]);
    GateIff(numbers[..k + 1]);
  }

  // ----- no repetition and no gap -----

  predicate Less(a: Mark, b: Mark) {
    a.article < b.article || (a.article == b.article && a.supplement < b.supplement)
  }

  /** The marks of a gapless sequence increase, so no article and no supplement comes twice. */
  lemma {:induction false} GaplessIncreases(marks: seq<Option<Mark>>, start: Mark, i: nat, j: nat)
    requires Gapless(marks, start) && i < j < |marks|
    ensures marks[i].Some? && marks[j].Some? && Less(marks[i].value, marks[j].value)
    decreases j
  {
    assert StepAt(marks, start, j);
    if i < j - 1 { GaplessIncreases(marks, start, i, j - 1); }
  }

  /** Two items that pass never stand for the same article and supplement. */
  lemma PassedItemsDiffer(numbers: seq<string>, i: nat, j: nat)
    requires Break(numbers, None).None? && i < j < |numbers|
    ensures MarkOf(numbers[i], false) != MarkOf(numbers[j], false)
  {
    GateIff(numbers);
    GaplessIncreases(Marks(numbers, false), Mark(0, 0), i, j);
    assert Marks(numbers, false)[i] == MarkOf(numbers[i], false);
    assert Marks(numbers, false)[j] == MarkOf(numbers[j], false);
  }

  /** Every article and every supplement below a listed one is listed before it. */
  lemma {:induction false} GaplessListsAll(marks: seq<Option<Mark>>, start: Mark, i: nat, m: Mark) returns (j: nat)
    requires Gapless(marks, start) && start.supplement == 0 && i < |marks| && marks[i].Some?
    requires start.article < m.article
    requires Less(m, marks[i].value) && (m.article == marks[i].value.article || m.supplement == 0)
    ensures j < i && marks[j] == Some(m)
  {
    assert StepAt(marks, start, i);
    j := i - 1;
    if marks[i - 1] != Some(m) {
      assert StepAt(marks, start, i - 1);
      j := GaplessListsAll(marks, start, i - 1, m);
    }
  }

  // ----- with a review -----

  ghost predicate PlainRun(marks: seq<Option<Mark>>, before: nat) {
    forall i :: 0 <= i < |marks| ==> marks[i] == Some(Mark(before + 1 + i, 0))
  }

  ghost predicate NoSupplements(marks: seq<Option<Mark>>) {
    forall i :: 0 <= i < |marks| ==> marks[i].Some? ==> marks[i].value.supplement == 0
  }

  lemma {:induction false} PlainWalk(marks: seq<Option<Mark>>, before: nat)
    requires NoSupplements(marks)
    ensures Gapless(marks, Mark(before, 0)) <==> PlainRun(marks, before)
  {
    if marks != [] {
      GaplessFirst(marks, Mark(before, 0));
      PlainWalk(marks[1..], before + 1);
      PlainFirst(marks, before);
    }
  }

  lemma PlainFirst(marks: seq<Option<Mark>>, before: nat)
    requires marks != []
    ensures PlainRun(marks, before) <==> marks[0] == Some(Mark(before + 1, 0)) && PlainRun(marks[1..], before + 1)
  {
    if PlainRun(marks[1..], before + 1) && marks[0] == Some(Mark(before + 1, 0)) {
      forall i | 0 <= i < |marks| ensures marks[i] == Some(Mark(before + 1 + i, 0)) {
        assert i > 0 ==> marks[i] == marks[1..][i - 1];
      }
    }
  }

  lemma ReviewedMarksPlain(numbers: seq<string>)
    ensures NoSupplements(Marks(numbers, true))
  {
  }

  lemma ReviewedTaken(marks: seq<Option<Mark>>, before: nat)
    requires NoSupplements(marks)
    ensures Taken(marks, Mark(before, 0)) == |marks| <==> PlainRun(marks, before)
  {
    TakenIsLongest(marks, Mark(before, 0));
    PlainWalk(marks, before);
  }

  /** With a review the gate passes just the plain articles from the first to the last reviewed one. */
  lemma ReviewedGateIff(numbers: seq<string>, r: Review)
    requires r.Valid()
    ensures Break(numbers, Some(r)).None? <==> |numbers| == r.Count() && PlainRun(Marks(numbers, true), r.first - 1)
  {
    ReviewedMarksPlain(numbers);
    ReviewedBreakIff(numbers, Marks(numbers, true), r);
  }

  lemma ReviewedBreakIff(numbers: seq<string>, marks: seq<Option<Mark>>, r: Review)
    requires r.Valid() && |marks| == |numbers| && NoSupplements(marks)
    ensures BreakOf(numbers, marks, Some(r)).None? <==> |numbers| == r.Count() && PlainRun(marks, r.first - 1)
    ensures BreakOf(numbers, marks, Some(r)) == Some(END_ISSUE) ==> END_ISSUE in numbers
  {
    IssuesDiffer();
    ReviewedTaken(marks, r.first - 1);
  }

  lemma IssuesDiffer()
    ensures COUNT_ISSUE != END_ISSUE
  {
    assert |COUNT_ISSUE| != |END_ISSUE|;
  }

  /** The last check of a reviewed interval never fires: the count has settled the end already. */
  lemma EndIssueNeverReported(numbers: seq<string>, r: Review)
    requires r.Valid() && Break(numbers, Some(r)) == Some(END_ISSUE)
    ensures END_ISSUE in numbers
  {
    ReviewedMarksPlain(numbers);
    ReviewedBreakIff(numbers, Marks(numbers, true), r);
  }

  // ----- the whole report -----

  datatype Issue =
    | NoArticles | CoverageBelowThreshold | MissingRequiredFields | ArticleCountMismatch
    | SequenceBroken(item: string)

  datatype Report = Report(passed: bool, issues: seq<Issue>)

  function CoverageOf(count: int, failures: int): real {
    if count + failures == 0 then 1.0 else count as real / (count + failures) as real
  }

  method Evaluate(count: int, numbers: seq<string>, missing: seq<string>, failures: int, minCoverage: real)
    returns (report: Report)
    ensures report.passed <==> report.issues == []
    ensures report.passed <==> Passes(count, numbers, missing, failures, minCoverage)
    ensures NoArticles in report.issues <==> count <= 0
    ensures CoverageBelowThreshold in report.issues <==> CoverageOf(count, failures) < minCoverage
    ensures MissingRequiredFields in report.issues <==> missing != []
    ensures ArticleCountMismatch in report.issues <==> count != |numbers|
    ensures forall item :: SequenceBroken(item) in report.issues <==> Break(numbers, None) == Some(item)
  {
    var broken := SequenceBreak(numbers, None);
    GateIff(numbers);
    var issues := Collect(count, |numbers|, missing, CoverageOf(count, failures) < minCoverage, broken);
    return Report(issues == [], issues);
  }

  method Collect(count: int, listed: int, missing: seq<string>, low: bool, broken: Option<string>)
    returns (issues: seq<Issue>)
    ensures NoArticles in issues <==> count <= 0
    ensures CoverageBelowThreshold in issues <==> low
    ensures MissingRequiredFields in issues <==> missing != []
    ensures ArticleCountMismatch in issues <==> count != listed
    ensures forall item :: SequenceBroken(item) in issues <==> broken == Some(item)
    ensures issues == [] <==> 0 < count == listed && !low && missing == [] && broken.None?
  {
    issues := [];
    if count <= 0 { issues := issues + [NoArticles]; }
    if low { issues := issues + [CoverageBelowThreshold]; }
    if missing != [] { issues := issues + [MissingRequiredFields]; }
    if count != listed { issues := issues + [ArticleCountMismatch]; }
    if broken.Some? { issues := issues + [SequenceBroken(broken.value)]; }
  }

  /** A law that passes has its articles numbered from one without a gap, as many as were counted. */
  ghost predicate Passes(count: int, numbers: seq<string>, missing: seq<string>, failures: int, minCoverage: real) {
    && 0 < count == |numbers| && missing == []
    && Gapless(Marks(numbers, false), Mark(0, 0))
    && CoverageOf(count, failures) >= minCoverage
  }
}

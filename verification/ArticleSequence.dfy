/** The gate that refuses a law whose article numbers leave a gap or repeat. */
module ArticleSequence {
  import opened Common
  import opened ArticleNumber

  // ----- the shape of an article number -----

  predicate IsNumberChar(c: char) {
    DigitOf(c).Some? || UnitOf(c).Some? || c == '〇' || IsAsciiDigit(c) || '０' <= c <= '９'
  }

  predicate IsNumberText(s: string) {
    s != "" && forall i :: 0 <= i < |s| ==> IsNumberChar(s[i])
  }

  predicate IsLegacyNumber(s: string) {
    s != "" && forall i :: 0 <= i < |s| ==> IsAsciiDigit(s[i]) || '０' <= s[i] <= '９'
  }

  /** The groups of a full match: the article's number, and the supplement's if there is one. */
  datatype Groups = Groups(article: string, supplement: Option<string>)

  function Rendered(g: Groups): string {
    "第" + g.article + "条" + match g.supplement case None => "" case Some(s) => "之" + s
  }

  ghost predicate IsMatch(item: string, g: Groups) {
    && item == Rendered(g) && IsNumberText(g.article)
    && (g.supplement.Some? ==> IsNumberText(g.supplement.value))
  }

  /** How many number characters the text starts with. */
  function Run(s: string): (n: nat)
    ensures n <= |s|
    ensures forall i :: 0 <= i < n ==> IsNumberChar(s[i])
    ensures n < |s| ==> !IsNumberChar(s[n])
  {
    if s == "" || !IsNumberChar(s[0]) then 0 else 1 + Run(s[1..])
  }

  /** `fullmatch` of the article pattern. */
  function FullMatch(item: string): Option<Groups> {
    if item == "" || item[0] != '第' then None
    else
      var rest := item[1..];
      var n := Run(rest);
      if n == 0 || n == |rest| || rest[n] != '条' then None
      else if n + 1 == |rest| then Some(Groups(rest[..n], None))
      else if rest[n + 1] == '之' && IsNumberText(rest[n + 2..]) then Some(Groups(rest[..n], Some(rest[n + 2..])))
      else None
  }

  // ----- the walk -----

  /** An article, or one of its supplements; an article itself is supplement 0. */
  datatype Mark = Mark(article: nat, supplement: nat)

  datatype Review = Review(first: nat, last: nat) {
    predicate Valid() {
      2 <= first <= last <= 9999
    }

    function Count(): int {
      last - first + 1
    }
  }

  /** An Arabic number that a review does not accept: one with a leading zero. */
  predicate LeadsWithZero(token: string) {
    var s := AsciiDigits(token);
    IsArabic(s) && |s| > 1 && s[0] == '0'
  }

  function AsciiDigits(s: string): string {
    seq(|s|, i requires 0 <= i < |s| => if '０' <= s[i] <= '９' then '0' + (s[i] - '０') else s[i])
  }

  /** What an item stands for, if it is written in a way the gate accepts. */
  function MarkOf(item: string, reviewed: bool): Option<Mark> {
    var groups := FullMatch(item);
    if groups.None? && !IsLegacyNumber(item) then None
    else
      var token := if groups.Some? then groups.value.article else item;
      var article := Number(token);
      if article.None? || (reviewed && LeadsWithZero(token)) then None
      else if groups.None? || groups.value.supplement.None? then Some(Mark(article.value, 0))
      else if reviewed || Number(groups.value.supplement.value).None? then None
      else Some(Mark(article.value, Number(groups.value.supplement.value).value))
  }

  /** The next article, or the next supplement of the same article. */
  predicate Follows(before: Mark, m: Mark) {
    if m.supplement == 0 then m.article == before.article + 1
    else m.article == before.article && m.supplement == before.supplement + 1
  }

  predicate Takes(before: Mark, m: Option<Mark>) {
    m.Some? && Follows(before, m.value)
  }

  function Marks(numbers: seq<string>, reviewed: bool): seq<Option<Mark>> {
    seq(|numbers|, i requires 0 <= i < |numbers| => MarkOf(numbers[i], reviewed))
  }

  /** How many marks the sequence takes before the first one it cannot. */
  function Taken(marks: seq<Option<Mark>>, before: Mark): (n: nat)
    ensures n <= |marks|
  {
    if marks == [] || !Takes(before, marks[0]) then 0 else 1 + Taken(marks[1..], marks[0].value)
  }

  function StartOf(review: Option<Review>): int {
    if review.Some? then review.value.first - 1 else 0
  }

  const COUNT_ISSUE: string := "reviewed_interval_count"
  const END_ISSUE: string := "reviewed_interval_end"

  /** What the gate reports: an item, one of the two interval issues, or nothing. */
  function Break(numbers: seq<string>, review: Option<Review>): Option<string>
    requires review.Some? ==> review.value.Valid()
  {
    BreakOf(numbers, Marks(numbers, review.Some?), review)
  }

  function BreakOf(numbers: seq<string>, marks: seq<Option<Mark>>, review: Option<Review>): Option<string>
    requires |marks| == |numbers| && (review.Some? ==> review.value.Valid())
  {
    if review.Some? && |numbers| != review.value.Count() then Some(COUNT_ISSUE)
    else
      var n := Taken(marks, Mark(StartOf(review), 0));
      if n < |marks| then Some(numbers[n])
      else if review.Some? && marks[n - 1].Some? && marks[n - 1].value.article != review.value.last then Some(END_ISSUE)
      else None
  }

  method SequenceBreak(numbers: seq<string>, review: Option<Review>) returns (broken: Option<string>)
    requires review.Some? ==> review.value.Valid()
    ensures broken == Break(numbers, review)
  {
    if review.Some? && |numbers| != review.value.Count() { return Some(COUNT_ISSUE); }
    var k, article := Walk(numbers, StartOf(review), review.Some?);
    if k < |numbers| { return Some(numbers[k]); }
    if review.Some? && article != review.value.last { return Some(END_ISSUE); }
    return None;
  }

  /** The loop over the items: how many it takes, and the article it has reached. */
  method Walk(numbers: seq<string>, start: nat, reviewed: bool) returns (k: nat, article: nat)
    ensures k == Taken(Marks(numbers, reviewed), Mark(start, 0)) <= |numbers|
    ensures k > 0 ==> Marks(numbers, reviewed)[k - 1].Some? && Marks(numbers, reviewed)[k - 1].value.article == article
  {
    k := 0;
    var supplement: nat;
    article, supplement := start, 0;
    ghost var marks := Marks(numbers, reviewed);
    while k < |numbers|
      invariant k <= |numbers| && k + Taken(marks[k..], Mark(article, supplement)) == Taken(marks, Mark(start, 0))
      invariant k > 0 ==> marks[k - 1] == Some(Mark(article, supplement))
    {
      var accepted, a, s := ReadItem(numbers[k], article, supplement, reviewed);
      TakenMore(marks, k, Mark(article, supplement));
      if !accepted { return; }
      k, article, supplement := k + 1, a, s;
    }
  }

  lemma TakenMore(marks: seq<Option<Mark>>, k: nat, before: Mark)
    requires k < |marks|
    ensures Taken(marks[k..], before) ==
            if Takes(before, marks[k]) then 1 + Taken(marks[k + 1..], marks[k].value) else 0
  {
    assert marks[k..][1..] == marks[k + 1..];
  }

  /** One turn of the loop: whether the item is accepted, and the counters after it. */
  method ReadItem(item: string, article: nat, supplement: nat, reviewed: bool) returns (accepted: bool, a: nat, s: nat)
    ensures accepted <==> Takes(Mark(article, supplement), MarkOf(item, reviewed))
    ensures accepted ==> MarkOf(item, reviewed) == Some(Mark(a, s))
  {
    a, s := article, supplement;
    var groups := FullMatch(item);
    if groups.None? && !IsLegacyNumber(item) { return false, a, s; }
    var token := if groups.Some? then groups.value.article else item;
    var number := CnNumber(token);
    if number.None? { return false, a, s; }
    if reviewed && LeadsWithZero(token) { return false, a, s; }
    if groups.None? || groups.value.supplement.None? {
      if number.value != article + 1 { return false, a, s; }
      return true, number.value, 0;
    }
    if reviewed { return false, a, s; }
    var extra := CnNumber(groups.value.supplement.value);
    if extra.Some? { NumberPositive(groups.value.supplement.value); }
    if number.value != article || extra.None? || extra.value != supplement + 1 { return false, a, s; }
    return true, article, extra.value;
  }

  lemma NumberPositive(value: string)
    requires Number(value).Some?
    ensures Number(value).value >= 1
  {
  }
}

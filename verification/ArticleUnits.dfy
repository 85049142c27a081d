/** How the paragraphs of a long article become the units that windows are cut from. */
module ArticleUnits {
  import opened Common

  datatype Kind = ProvisionText | Paragraph | Item | SubItem

  /** A unit of the article, and where it starts in the article's full text. */
  datatype Unit = Unit(kind: Kind, text: string, start: nat)

  /** What counts as white space, and what the regular expressions of the program match among the texts at hand. */
  datatype Rules = Rules(
    spaces: set<char>,
    headings: map<string, nat>,  // the texts that start with an article heading, and where it ends
    subItems: set<string>,
    items: set<string>)
  {
    /** A match ends within the text it was found in. */
    function HeadingEnd(s: string): (end: Option<nat>)
      ensures end.Some? ==> end.value <= |s|
    {
      if s in headings && headings[s] <= |s| then Some(headings[s]) else None
    }
  }

  /** `Exact` keeps every character, `Positioned` keeps the heading, `Older` drops it. */
  datatype Mode = Exact | Positioned | Older

  function LStrip(s: string, r: Rules): string {
    if s == "" || s[0] !in r.spaces then s else LStrip(s[1..], r)
  }

  function RStrip(s: string, r: Rules): string {
    if s == "" || s[|s| - 1] !in r.spaces then s else RStrip(s[..|s| - 1], r)
  }

  function Strip(s: string, r: Rules): string {
    RStrip(LStrip(s, r), r)
  }

  function StripAll(ps: seq<string>, r: Rules): seq<string> {
    seq(|ps|, i requires 0 <= i < |ps| => Strip(ps[i], r))
  }

  predicate At(text: string, needle: string, i: nat) {
    i + |needle| <= |text| && forall x :: 0 <= x < |needle| ==> Same(text, needle, i, x)
  }

  predicate Same(text: string, needle: string, i: nat, x: nat)
    requires x < |needle| && i + x < |text|
  {
    needle[x] == text[i + x]
  }

  /** `text.find(needle, from)`. */
  function Find(text: string, needle: string, from: nat): Option<nat>
    decreases |text| - from
  {
    if At(text, needle, from) then Some(from)
    else if from + |needle| < |text| then Find(text, needle, from + 1)
    else None
  }

  function Joined(ps: seq<string>): string {
    if ps == [] then "" else ps[0] + Joined(ps[1..])
  }

  function KindOf(text: string, r: Rules): Kind {
    if text in r.subItems then SubItem else if text in r.items then Item else Paragraph
  }

  /** A paragraph without the heading and the space after it, when those are to be dropped. */
  function Body(p: string, dropHeading: bool, r: Rules): (t: string)
    ensures |t| <= |p|
  {
    if dropHeading && r.HeadingEnd(p).Some? then
      var remainder := p[r.HeadingEnd(p).value..];
      StripIsSlice(remainder, r);
      LStrip(remainder, r)
    else p
  }

  /** The unit of a paragraph found at `at`, if anything of it is left. */
  function UnitOf(p: string, at: nat, dropHeading: bool, r: Rules): seq<Unit> {
    var t := Body(p, dropHeading, r);
    if t == "" then [] else [Unit(KindOf(LStrip(t, r), r), t, at + |p| - |t|)]
  }

  /** The units of the paragraphs, laid end to end from `at`; only the first can lose its heading. */
  function Laid(ps: seq<string>, at: nat, dropHeading: bool, r: Rules): seq<Unit> {
    if ps == [] then [] else UnitOf(ps[0], at, dropHeading, r) + Laid(ps[1..], at + |ps[0]|, false, r)
  }

  predicate ExactParagraphs(full: string, ps: seq<string>) {
    ps != [] && Joined(ps) == full
  }

  predicate StrippedParagraphs(full: string, ps: seq<string>, r: Rules) {
    var stripped := StripAll(ps, r);
    stripped != [] && "" !in stripped && Joined(stripped) == Strip(full, r)
  }

  /** Whether the paragraphs of a long article allow it to be split. */
  predicate Splittable(full: string, ps: seq<string>, mode: Mode, r: Rules) {
    if mode.Exact? then ExactParagraphs(full, ps) else StrippedParagraphs(full, ps, r)
  }

  /** How much white space the text starts with. */
  function Lead(full: string, r: Rules): (n: nat)
    ensures n <= |full|
  {
    StripIsSlice(full, r);
    |full| - |LStrip(full, r)|
  }

  /** The units of an article: none for one that fits a leaf, or whose paragraphs are not its text. */
  function Units(full: string, ps: seq<string>, maxLeaf: int, mode: Mode, r: Rules): seq<Unit> {
    if |full| <= maxLeaf || !Splittable(full, ps, mode, r) then []
    else if mode.Exact? then Laid(ps, 0, false, r)
    else Laid(StripAll(ps, r), Lead(full, r), mode.Older?, r)
  }

  /** Where in the full text the units start and where they end. */
  function BodyStart(full: string, ps: seq<string>, mode: Mode, r: Rules): nat {
    if mode.Exact? then 0 else Lead(full, r) + if ps == [] then 0 else Dropped(Strip(ps[0], r), mode.Older?, r)
  }

  function BodyEnd(full: string, mode: Mode, r: Rules): nat {
    if mode.Exact? then |full| else Lead(full, r) + |Strip(full, r)|
  }

  /** How much of a first paragraph is dropped. */
  function Dropped(p: string, dropHeading: bool, r: Rules): nat {
    |p| - |Body(p, dropHeading, r)|
  }

  // ----- the loops -----

  method UnitsForArticle(full: string, ps: seq<string>, maxLeaf: int, mode: Mode, r: Rules) returns (units: seq<Unit>)
    ensures units == Units(full, ps, maxLeaf, mode, r)
  {
    if |full| <= maxLeaf { return []; }
    if mode.Exact? {
      if !ExactParagraphs(full, ps) { return []; }
      units := ExactUnits(ps, r);
    } else {
      if !StrippedParagraphs(full, ps, r) { return []; }
      StripAllStripped(ps, r);
      StripSpec(full, r);
      units := LocateUnits(full, StripAll(ps, r), Lead(full, r), mode.Older?, r);
    }
  }

  method ExactUnits(ps: seq<string>, r: Rules) returns (units: seq<Unit>)
    ensures units == Laid(ps, 0, false, r)
  {
    units := [];
    var cursor: nat := 0;
    for k := 0 to |ps|
      invariant units + Laid(ps[k..], cursor, false, r) == Laid(ps, 0, false, r)
    {
      var here := ExactUnit(ps[k], cursor, r);
      LaidMore(units, here, ps, k, cursor, false, r);
      cursor := cursor + |ps[k]|;
      units := units + here;
    }
  }

  method ExactUnit(p: string, start: nat, r: Rules) returns (here: seq<Unit>)
    ensures here == UnitOf(p, start, false, r)
  {
    if p == "" { return []; }
    return [Unit(KindOf(LStrip(p, r), r), p, start)];
  }

  lemma LaidMore(units: seq<Unit>, here: seq<Unit>, ps: seq<string>, k: nat, at: nat, drop: bool, r: Rules)
    requires k < |ps| && here == UnitOf(ps[k], at, drop, r)
    ensures units + Laid(ps[k..], at, drop, r) == units + here + Laid(ps[k + 1..], at + |ps[k]|, false, r)
  {
    var rest := Laid(ps[k + 1..], at + |ps[k]|, false, r);
    assert ps[k..][1..] == ps[k + 1..];
    assert units + (here + rest) == units + here + rest;
  }

  /** Searches for each paragraph from the end of the one before. Every search succeeds, and finds the paragraph
      exactly where the lengths put it, the first one after the leading space. */
  method LocateUnits(full: string, ps: seq<string>, ghost lead: nat, dropHeading: bool, r: Rules)
    returns (units: seq<Unit>)
    requires AllStripped(ps, r) && At(full, Joined(ps), lead)
    requires forall i :: 0 <= i < lead ==> full[i] in r.spaces
    ensures units == Laid(ps, lead, dropHeading, r)
  {
    units := [];
    var cursor := 0;
    ghost var at := lead;
    for k := 0 to |ps|
      invariant cursor == if k == 0 then 0 else at
      invariant k == 0 ==> at == lead
      invariant At(full, Joined(ps[k..]), at)
      invariant units + Laid(ps[k..], at, k == 0 && dropHeading, r) == Laid(ps, lead, dropHeading, r)
    {
      FirstJoined(full, ps, k, at);
      FindFrom(full, ps[k], cursor, at, r);
      var ok, end, here := LocateUnit(full, ps[k], at, cursor, k == 0 && dropHeading, r);
      if !ok { return []; }
      LaidMore(units, here, ps, k, at, k == 0 && dropHeading, r);
      at := at + |ps[k]|;
      cursor := end;
      units := units + here;
    }
  }

  method LocateUnit(full: string, p: string, ghost at: nat, cursor: nat, dropHeading: bool, r: Rules)
    returns (ok: bool, end: nat, here: seq<Unit>)
    requires IsStripped(p, r) && Find(full, p, cursor) == Some(at)
    ensures ok && end == at + |p| && here == UnitOf(p, at, dropHeading, r)
  {
    var found := Find(full, p, cursor);
    if found.None? { return false, cursor, []; }
    ok, end := true, found.value + |p|;
    here := UnitAt(p, found.value, dropHeading, r);
  }

  method UnitAt(p: string, start: nat, dropHeading: bool, r: Rules) returns (here: seq<Unit>)
    requires IsStripped(p, r)
    ensures here == UnitOf(p, start, dropHeading, r)
  {
    var text, at := p, start;
    if dropHeading && r.HeadingEnd(p).Some? {
      var heading := r.HeadingEnd(p).value;
      var remainder := p[heading..];
      StripIsSlice(remainder, r);
      text := LStrip(remainder, r);
      at := start + heading + |remainder| - |text|;
    }
    assert LStrip(text, r) == text;
    here := if text == "" then [] else [Unit(KindOf(text, r), text, at)];
  }

  // ----- stripping -----

  lemma {:induction false} StripIsSlice(s: string, r: Rules)
    ensures var t := LStrip(s, r);
            && |t| <= |s| && t == s[|s| - |t|..]
            && (forall i :: 0 <= i < |s| - |t| ==> s[i] in r.spaces)
            && (t != "" ==> t[0] !in r.spaces)
  {
    if s != "" && s[0] in r.spaces { StripIsSlice(s[1..], r); }
  }

  lemma {:induction false} RStripIsSlice(s: string, r: Rules)
    ensures var t := RStrip(s, r);
            && |t| <= |s| && t == s[..|t|]
            && (s != "" && s[0] !in r.spaces ==> t != "")
            && (t != "" ==> t[|t| - 1] !in r.spaces)
            && (forall i :: |t| <= i < |s| ==> s[i] in r.spaces)
  {
    if s != "" && s[|s| - 1] in r.spaces { RStripIsSlice(s[..|s| - 1], r); }
  }

  ghost predicate IsStripped(p: string, r: Rules) {
    p != "" && p[0] !in r.spaces && p[|p| - 1] !in r.spaces
  }

  ghost predicate AllStripped(ps: seq<string>, r: Rules) {
    forall i :: 0 <= i < |ps| ==> IsStripped(ps[i], r)
  }

  /** Stripping takes white space off both ends, and nothing else. */
  lemma StripSpec(s: string, r: Rules)
    ensures At(s, Strip(s, r), Lead(s, r)) && (Strip(s, r) != "" ==> IsStripped(Strip(s, r), r))
    ensures forall i :: 0 <= i < Lead(s, r) ==> s[i] in r.spaces
    ensures forall i :: Lead(s, r) + |Strip(s, r)| <= i < |s| ==> s[i] in r.spaces
  {
    StripIsSlice(s, r);
    SliceOfEnd(s, LStrip(s, r), RStrip(LStrip(s, r), r), Lead(s, r), r);
  }

  lemma SliceOfEnd(s: string, l: string, t: string, lead: nat, r: Rules)
    requires lead <= |s| && l == s[lead..] && t == RStrip(l, r) && (l != "" ==> l[0] !in r.spaces)
    ensures At(s, t, lead) && (t != "" ==> IsStripped(t, r))
    ensures forall i :: lead + |t| <= i < |s| ==> s[i] in r.spaces
  {
    RStripIsSlice(l, r);
    forall i | lead + |t| <= i < |s| ensures s[i] in r.spaces { assert s[i] == l[i - lead]; }
  }

  lemma StripAllStripped(ps: seq<string>, r: Rules)
    requires "" !in StripAll(ps, r)
    ensures AllStripped(StripAll(ps, r), r)
  {
    forall i | 0 <= i < |ps| ensures IsStripped(StripAll(ps, r)[i], r) {
      assert StripAll(ps, r)[i] == Strip(ps[i], r);
      StripSpec(ps[i], r);
    }
  }

  // ----- where the paragraphs are -----

  lemma AtAppend(full: string, a: string, b: string, at: nat)
    requires At(full, a + b, at)
    ensures At(full, a, at) && At(full, b, at + |a|)
  {
    forall x | 0 <= x < |a| ensures Same(full, a, at, x) { assert Same(full, a + b, at, x); }
    var mid := at + |a|;
    forall x | 0 <= x < |b| ensures Same(full, b, mid, x) { assert Same(full, a + b, at, |a| + x); }
  }

  lemma FirstJoined(full: string, ps: seq<string>, k: nat, at: nat)
    requires k < |ps| && At(full, Joined(ps[k..]), at)
    ensures At(full, ps[k], at) && At(full, Joined(ps[k + 1..]), at + |ps[k]|)
  {
    assert ps[k..][1..] == ps[k + 1..];
    AtAppend(full, ps[k], Joined(ps[k + 1..]), at);
  }

  /** A search that starts at the text, or in the space before it, finds it there. */
  lemma FirstHere(full: string, p: string, at: nat)
    requires At(full, p, at) && p != ""
    ensures p[0] == full[at]
  {
    assert Same(full, p, at, 0);
  }

  lemma {:induction false} FindFrom(full: string, p: string, from: nat, at: nat, r: Rules)
    requires from <= at && At(full, p, at) && IsStripped(p, r)
    requires forall i :: from <= i < at ==> full[i] in r.spaces
    ensures Find(full, p, from) == Some(at)
    decreases at - from
  {
    if from < at {
      if At(full, p, from) { FirstHere(full, p, from); }
      FindFrom(full, p, from + 1, at, r);
    }
  }

  // ----- the units tile the body -----

  /** Non-empty slices of the full text, laid end to end from `from` to `to`. */
  ghost predicate Tiles(full: string, units: seq<Unit>, from: nat, to: nat) {
    if units == [] then from == to
    else
      var u := units[0];
      u.text != "" && u.start == from && At(full, u.text, from) && Tiles(full, units[1..], from + |u.text|, to)
  }

  lemma BodyIsSuffix(p: string, dropHeading: bool, r: Rules)
    ensures At(p, Body(p, dropHeading, r), Dropped(p, dropHeading, r))
  {
    if dropHeading && r.HeadingEnd(p).Some? { StripIsSlice(p[r.HeadingEnd(p).value..], r); }
  }

  lemma AtWithin(full: string, p: string, at: nat, t: string, i: nat)
    requires At(full, p, at) && At(p, t, i)
    ensures At(full, t, at + i)
  {
    var start := at + i;
    forall x | 0 <= x < |t| ensures Same(full, t, start, x) { assert Same(p, t, i, x) && Same(full, p, at, i + x); }
  }

  lemma TilesFirst(full: string, p: string, at: nat, drop: bool, r: Rules, rest: seq<Unit>, mid: nat, from: nat,
                   to: nat)
    requires At(full, p, at) && mid == at + |p| && from == at + Dropped(p, drop, r)
    requires Tiles(full, rest, mid, to)
    ensures Tiles(full, UnitOf(p, at, drop, r) + rest, from, to)
  {
    var t := Body(p, drop, r);
    if t == "" {
      assert [] + rest == rest;
    } else {
      BodyIsSuffix(p, drop, r);
      AtWithin(full, p, at, t, |p| - |t|);
      assert (UnitOf(p, at, drop, r) + rest)[1..] == rest;
    }
  }

  lemma {:induction false} LaidTiles(full: string, ps: seq<string>, at: nat, drop: bool, r: Rules, from: nat, to: nat)
    requires At(full, Joined(ps), at) && to == at + |Joined(ps)|
    requires from == at + if ps == [] then 0 else Dropped(ps[0], drop, r)
    ensures Tiles(full, Laid(ps, at, drop, r), from, to)
  {
    if ps != [] {
      AtAppend(full, ps[0], Joined(ps[1..]), at);
      var mid := at + |ps[0]|;
      LaidTiles(full, ps[1..], mid, false, r, mid, to);
      TilesFirst(full, ps[0], at, drop, r, Laid(ps[1..], mid, false, r), mid, from, to);
    }
  }

  ghost predicate OnlySpace(s: string, from: nat, to: nat, r: Rules) {
    from <= to <= |s| && forall i :: from <= i < to ==> s[i] in r.spaces
  }

  /** How long the dropped heading is: that of the first paragraph, in the older mode. */
  function HeadingSize(ps: seq<string>, mode: Mode, r: Rules): nat {
    if mode.Older? && ps != [] && r.HeadingEnd(Strip(ps[0], r)).Some? then r.HeadingEnd(Strip(ps[0], r)).value else 0
  }

  /** Outside the body there is white space, the dropped heading, and white space behind that. */
  ghost predicate Framed(full: string, ps: seq<string>, mode: Mode, r: Rules) {
    var lead := if mode.Exact? then 0 else Lead(full, r);
    && OnlySpace(full, 0, lead, r)
    && OnlySpace(full, lead + HeadingSize(ps, mode, r), BodyStart(full, ps, mode, r), r)
    && OnlySpace(full, BodyEnd(full, mode, r), |full|, r)
  }

  lemma BehindHeading(full: string, p: string, lead: nat, end: nat, r: Rules)
    requires At(full, p, lead) && r.HeadingEnd(p) == Some(end)
    ensures OnlySpace(full, lead + end, lead + Dropped(p, true, r), r)
  {
    var remainder := p[end..];
    StripIsSlice(remainder, r);
    forall i | lead + end <= i < lead + Dropped(p, true, r) ensures full[i] in r.spaces {
      assert Same(full, p, lead, i - lead);
      assert p[i - lead] == remainder[i - lead - end];
    }
  }

  lemma BodyIsFramed(full: string, ps: seq<string>, mode: Mode, r: Rules)
    requires Splittable(full, ps, mode, r)
    ensures Framed(full, ps, mode, r)
  {
    if !mode.Exact? {
      StripSpec(full, r);
      var first := Strip(ps[0], r);
      var stripped := StripAll(ps, r);
      assert stripped[0] == first;
      AtAppend(full, first, Joined(stripped[1..]), Lead(full, r));
      if mode.Older? && r.HeadingEnd(first).Some? {
        BehindHeading(full, first, Lead(full, r), r.HeadingEnd(first).value, r);
      }
    }
  }

  /** The units of a split article tile its body, and outside that there is nothing but a dropped heading and space. */
  lemma UnitsTile(full: string, ps: seq<string>, maxLeaf: int, mode: Mode, r: Rules)
    requires |full| > maxLeaf && Splittable(full, ps, mode, r)
    ensures Tiles(full, Units(full, ps, maxLeaf, mode, r), BodyStart(full, ps, mode, r), BodyEnd(full, mode, r))
    ensures Framed(full, ps, mode, r)
  {
    BodyIsFramed(full, ps, mode, r);
    BodyIsTiled(full, ps, maxLeaf, mode, r, BodyStart(full, ps, mode, r), BodyEnd(full, mode, r));
  }

  lemma BodyIsTiled(full: string, ps: seq<string>, maxLeaf: int, mode: Mode, r: Rules, from: nat, to: nat)
    requires |full| > maxLeaf && Splittable(full, ps, mode, r)
    requires from == BodyStart(full, ps, mode, r) && to == BodyEnd(full, mode, r)
    ensures Tiles(full, Units(full, ps, maxLeaf, mode, r), from, to)
  {
    if mode.Exact? {
      assert At(full, full, 0);
      LaidTiles(full, ps, 0, false, r, from, to);
    } else {
      StripSpec(full, r);
      var stripped := StripAll(ps, r);
      assert stripped[0] == Strip(ps[0], r);
      LaidTiles(full, stripped, Lead(full, r), mode.Older?, r, from, to);
    }
  }

  /** In the exact mode an article longer than a leaf has units just when its paragraphs are its text. */
  lemma ExactUnitsIff(full: string, ps: seq<string>, maxLeaf: int, r: Rules)
    requires |full| > maxLeaf && full != ""
    ensures Units(full, ps, maxLeaf, Exact, r) != [] <==> ExactParagraphs(full, ps)
  {
    if ExactParagraphs(full, ps) { UnitsTile(full, ps, maxLeaf, Exact, r); }
  }

  // ----- the units are the paragraphs -----

  /** The kind is that of the number the text starts with: digits make a sub-item, a bracketed or listed Chinese numeral
      an item, and anything else a paragraph. */
  ghost predicate KindFits(u: Unit, r: Rules) {
    && (u.kind.SubItem? <==> LStrip(u.text, r) in r.subItems)
    && (u.kind.Item? <==> LStrip(u.text, r) in r.items && LStrip(u.text, r) !in r.subItems)
    && !u.kind.ProvisionText?
  }

  function NonEmpty(texts: seq<string>): seq<string> {
    if texts == [] then [] else (if texts[0] == "" then [] else [texts[0]]) + NonEmpty(texts[1..])
  }

  function Texts(units: seq<Unit>): (texts: seq<string>)
    ensures |texts| == |units| && forall i :: 0 <= i < |units| ==> texts[i] == units[i].text
  {
    seq(|units|, i requires 0 <= i < |units| => units[i].text)
  }

  /** What of the paragraphs is split: every character in the exact mode, and otherwise each without the space around
      it, the first without its heading in the older mode. */
  function Bodies(ps: seq<string>, mode: Mode, r: Rules): seq<string> {
    if mode.Exact? || ps == [] then ps
    else [Body(Strip(ps[0], r), mode.Older?, r)] + StripAll(ps[1..], r)
  }

  lemma UnitTexts(p: string, at: nat, drop: bool, r: Rules, rest: seq<Unit>, tail: seq<string>)
    requires Texts(rest) == NonEmpty(tail)
    ensures Texts(UnitOf(p, at, drop, r) + rest) == NonEmpty([Body(p, drop, r)] + tail)
    ensures forall u :: u in UnitOf(p, at, drop, r) ==> KindFits(u, r)
  {
    var t := Body(p, drop, r);
    assert ([t] + tail)[1..] == tail;
    if t == "" { assert UnitOf(p, at, drop, r) + rest == rest; }
  }

  lemma {:induction false} LaidTexts(ps: seq<string>, at: nat, drop: bool, r: Rules)
    ensures Texts(Laid(ps, at, drop, r)) == NonEmpty(if ps == [] then [] else [Body(ps[0], drop, r)] + ps[1..])
    ensures forall u :: u in Laid(ps, at, drop, r) ==> KindFits(u, r)
  {
    if ps != [] {
      var tail, rest := ps[1..], Laid(ps[1..], at + |ps[0]|, false, r);
      LaidTexts(tail, at + |ps[0]|, false, r);
      if tail != [] { assert [Body(tail[0], false, r)] + tail[1..] == tail; }
      UnitTexts(ps[0], at, drop, r, rest, tail);
    }
  }

  /** One unit comes from each paragraph of which anything is left, in order, with the kind of its own number. */
  lemma UnitsAreParagraphs(full: string, ps: seq<string>, maxLeaf: int, mode: Mode, r: Rules)
    requires |full| > maxLeaf && Splittable(full, ps, mode, r)
    ensures Texts(Units(full, ps, maxLeaf, mode, r)) == NonEmpty(Bodies(ps, mode, r))
    ensures forall u :: u in Units(full, ps, maxLeaf, mode, r) ==> KindFits(u, r)
  {
    if mode.Exact? {
      LaidTexts(ps, 0, false, r);
      assert [Body(ps[0], false, r)] + ps[1..] == ps;
    } else {
      LaidTexts(StripAll(ps, r), Lead(full, r), mode.Older?, r);
      assert StripAll(ps, r)[1..] == StripAll(ps[1..], r);
    }
  }

  /** No unit is a whole provision. */
  lemma UnitKind(full: string, ps: seq<string>, maxLeaf: int, mode: Mode, r: Rules, u: Unit)
    requires u in Units(full, ps, maxLeaf, mode, r)
    ensures KindFits(u, r)
  {
    UnitsAreParagraphs(full, ps, maxLeaf, mode, r);
  }
}

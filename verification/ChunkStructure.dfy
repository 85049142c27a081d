/** The rows of a law: one parent chunk per article, and child chunks for the articles that are too long. */
module ChunkStructure {
  import opened Sequences
  import opened Common
  import opened ArticleUnits
  import WindowPieces
  import Sorting

  type Piece = WindowPieces.Piece
  type Settings = WindowPieces.Settings

  datatype Span = Span(start: nat, end: nat)

  /** Ids are fresh; they are told apart by the article and the row within it. */
  datatype ChunkId = ChunkId(article: nat, row: nat)

  datatype Chunk = Chunk(
    id: ChunkId,
    provision: nat,
    kind: Kind,
    content: string,
    parent: Option<ChunkId>,
    position: Option<Span>)

  /** A chunk, and its exact span in the parent article. */
  datatype Located = Located(chunk: Chunk, span: Span)

  datatype Provision = Provision(id: nat, full: string, charStart: int)

  datatype Article = Article(provision: Provision, paragraphs: seq<string>)

  datatype Error =
    | NotPositive | OverlapNotSmaller | LeafSmallerThanWindow | NoProvisions | NoArticles | CountMismatch
    | NoParserVersion | PositionInvalid | UnitsDoNotConcatenate

  const EXACT_VERSIONS: set<string> := {"corpus-docx-v4/hierarchical-v2", "corpus-docx-v5/hierarchical-v2"}
  const POSITIONED_SUFFIX: string := "/hierarchical-v2"

  predicate EndsWith(s: string, suffix: string) {
    |suffix| <= |s| && s[|s| - |suffix|..] == suffix
  }

  function ModeOf(parserVersion: string): Mode {
    if parserVersion in EXACT_VERSIONS then Exact
    else if EndsWith(parserVersion, POSITIONED_SUFFIX) then Positioned
    else Older
  }

  function SettingsError(s: Settings): Option<Error> {
    if s.maxLeaf <= 0 || s.window <= 0 || s.overlap <= 0 then Some(NotPositive)
    else if s.overlap >= s.window then Some(OverlapNotSmaller)
    else if s.maxLeaf < s.window then Some(LeafSmallerThanWindow)
    else None
  }

  lemma SettingsErrorIff(s: Settings)
    ensures SettingsError(s).None? <==> s.Valid()
    ensures SettingsError(s) == Some(NotPositive) <==> s.maxLeaf <= 0 || s.window <= 0 || s.overlap <= 0
    ensures s.maxLeaf > 0 && s.window > 0 && s.overlap > 0 ==>
              (SettingsError(s) == Some(OverlapNotSmaller) <==> s.window <= s.overlap)
  {
  }

  // ----- the order of the articles -----

  predicate TextLe(a: string, b: string) {
    a == "" || (b != "" && (a[0] < b[0] || (a[0] == b[0] && TextLe(a[1..], b[1..]))))
  }

  predicate ArticleLe(a: Article, b: Article) {
    a.provision.charStart < b.provision.charStart
    || (a.provision.charStart == b.provision.charStart && TextLe(a.provision.full, b.provision.full))
  }

  function InOrder(articles: seq<Article>): seq<Article> {
    Sorting.Sorted(articles, ArticleLe)
  }

  // ----- the children -----

  datatype Child = Child(kind: Kind, piece: Piece)

  function Shifted(p: Piece, at: nat): Piece {
    WindowPieces.Piece(p.text, at + p.start, at + p.end)
  }

  function UnitChildren(u: Unit, pieces: seq<Piece>): seq<Child> {
    seq(|pieces|, i requires 0 <= i < |pieces| => Child(u.kind, Shifted(pieces[i], u.start)))
  }

  function Children(units: seq<Unit>, s: Settings): seq<Child>
    requires s.Valid()
  {
    if units == [] then []
    else UnitChildren(units[0], WindowPieces.Pieces(units[0].text, s)) + Children(units[1..], s)
  }

  function Cuts(children: seq<Child>): seq<Piece> {
    seq(|children|, i requires 0 <= i < |children| => children[i].piece)
  }

  // ----- the rows -----

  function ParentRow(a: Article, k: nat, mode: Mode): Located {
    var span := Span(0, |a.provision.full|);
    var position := if mode.Older? then None else Some(span);
    Located(Chunk(ChunkId(k, 0), a.provision.id, ProvisionText, a.provision.full, None, position), span)
  }

  function ChildRow(c: Child, k: nat, row: nat, provision: nat, mode: Mode): Located {
    var span := Span(c.piece.start, c.piece.end);
    var position := if mode.Older? then None else Some(span);
    Located(Chunk(ChunkId(k, row), provision, c.kind, c.piece.text, Some(ChunkId(k, 0)), position), span)
  }

  function ChildRows(children: seq<Child>, k: nat, provision: nat, mode: Mode): seq<Located> {
    seq(|children|, i requires 0 <= i < |children| => ChildRow(children[i], k, i + 1, provision, mode))
  }

  function UnitsOf(a: Article, mode: Mode, s: Settings, r: Rules): seq<Unit> {
    Units(a.provision.full, a.paragraphs, s.maxLeaf, mode, r)
  }

  function ArticleRows(a: Article, k: nat, mode: Mode, s: Settings, r: Rules): seq<Located>
    requires s.Valid()
  {
    [ParentRow(a, k, mode)] + ChildRows(Children(UnitsOf(a, mode, s, r), s), k, a.provision.id, mode)
  }

  /** A positioned parent needs some text, and an exact article that is too long needs units. */
  function ArticleError(a: Article, mode: Mode, s: Settings, r: Rules): Option<Error> {
    if !mode.Older? && a.provision.full == "" then Some(PositionInvalid)
    else if mode.Exact? && |a.provision.full| > s.maxLeaf && UnitsOf(a, mode, s, r) == []
    then Some(UnitsDoNotConcatenate)
    else None
  }

  type Outcome = Result<seq<Located>, Error>

  /** What the k-th article gives. */
  function ArticleOutcome(a: Article, k: nat, mode: Mode, s: Settings, r: Rules): Outcome
    requires s.Valid()
  {
    var e := ArticleError(a, mode, s, r);
    if e.Some? then Err(e.value) else Ok(ArticleRows(a, k, mode, s, r))
  }

  function Outcomes(articles: seq<Article>, mode: Mode, s: Settings, r: Rules): seq<Outcome>
    requires s.Valid()
  {
    seq(|articles|, k requires 0 <= k < |articles| => ArticleOutcome(articles[k], k, mode, s, r))
  }

  /** The rows of all the articles, or the first error. */
  function Combined(outcomes: seq<Outcome>): Outcome {
    if outcomes == [] then Ok([])
    else if outcomes[0].Err? then outcomes[0]
    else Prepended(outcomes[0].value, Combined(outcomes[1..]))
  }

  function Prepended(rows: seq<Located>, rest: Outcome): Outcome {
    if rest.Ok? then Ok(rows + rest.value) else rest
  }

  function ArgumentError(s: Settings, provisions: nat, articles: nat, parserVersion: string, r: Rules): Option<Error> {
    if SettingsError(s).Some? then SettingsError(s)
    else if provisions == 0 then Some(NoProvisions)
    else if articles == 0 then Some(NoArticles)
    else if provisions != articles then Some(CountMismatch)
    else if Strip(parserVersion, r) == "" then Some(NoParserVersion)
    else None
  }

  function Zip(provisions: seq<Provision>, paragraphs: seq<seq<string>>): seq<Article>
    requires |provisions| == |paragraphs|
  {
    seq(|provisions|, i requires 0 <= i < |provisions| => Article(provisions[i], paragraphs[i]))
  }

  /** What the derivation gives: the rows of the articles in order, or the first error. */
  function Derived(provisions: seq<Provision>, paragraphs: seq<seq<string>>, parserVersion: string, s: Settings,
                   r: Rules): Outcome {
    var e := ArgumentError(s, |provisions|, |paragraphs|, parserVersion, r);
    if e.Some? then Err(e.value)
    else Combined(Outcomes(InOrder(Zip(provisions, paragraphs)), ModeOf(parserVersion), s, r))
  }

  // ----- the loops -----

  /** The row holds the whole k-th article as it was given, under no other row; it carries its span as its position if
      and only if the parser's version says that spans are exact. */
  ghost predicate ParentSound(row: Located, a: Article, k: nat, parserVersion: string) {
    && row.chunk.id == ChunkId(k, 0) && row.chunk.kind == ProvisionText && row.chunk.parent.None?
    && row.chunk.provision == a.provision.id && row.chunk.content == a.provision.full
    && row.span == Span(0, |a.provision.full|)
    && row.chunk.position == if EndsWith(parserVersion, "/hierarchical-v2") then Some(row.span) else None
  }

  ghost predicate HasParent(rows: seq<Located>, a: Article, k: nat, parserVersion: string) {
    exists row :: row in rows && ParentSound(row, a, k, parserVersion)
  }

  lemma ModeIs(parserVersion: string)
    ensures ModeOf(parserVersion).Older? <==> !EndsWith(parserVersion, "/hierarchical-v2")
  {
    var v4, v5, suffix := "corpus-docx-v4/hierarchical-v2", "corpus-docx-v5/hierarchical-v2", "/hierarchical-v2";
    assert v4 == v4[..14] + suffix && v5 == v5[..14] + suffix;
  }

  lemma ArticleHasParent(a: Article, k: nat, parserVersion: string, s: Settings, r: Rules)
    requires s.Valid()
    ensures var o := ArticleOutcome(a, k, ModeOf(parserVersion), s, r);
            o.Ok? ==> o.value != [] && ParentSound(o.value[0], a, k, parserVersion)
  {
    ModeIs(parserVersion);
  }

  lemma {:induction false} CombinedHolds(outcomes: seq<Outcome>, k: nat)
    requires Combined(outcomes).Ok? && k < |outcomes|
    ensures outcomes[k].Ok? && forall row :: row in outcomes[k].value ==> row in Combined(outcomes).value
  {
    if k > 0 { CombinedHolds(outcomes[1..], k - 1); }
  }

  lemma LawHasParent(provisions: seq<Provision>, paragraphs: seq<seq<string>>, parserVersion: string, s: Settings,
                     r: Rules, k: nat)
    requires Derived(provisions, paragraphs, parserVersion, s, r).Ok?
    requires |provisions| == |paragraphs| == |InOrder(Zip(provisions, paragraphs))| && k < |provisions|
    ensures HasParent(Derived(provisions, paragraphs, parserVersion, s, r).value,
                      InOrder(Zip(provisions, paragraphs))[k], k, parserVersion)
  {
    var articles := InOrder(Zip(provisions, paragraphs));
    var outcomes := Outcomes(articles, ModeOf(parserVersion), s, r);
    CombinedHolds(outcomes, k);
    ArticleHasParent(articles[k], k, parserVersion, s, r);
    assert outcomes[k].value[0] in outcomes[k].value;
  }

  method Derive(provisions: seq<Provision>, paragraphs: seq<seq<string>>, parserVersion: string, s: Settings, r: Rules)
    returns (result: Outcome)
    ensures result == Derived(provisions, paragraphs, parserVersion, s, r)
    ensures result.Ok? ==>
              && |provisions| == |paragraphs| == |InOrder(Zip(provisions, paragraphs))|
              && forall k :: 0 <= k < |provisions| ==>
                   HasParent(result.value, InOrder(Zip(provisions, paragraphs))[k], k, parserVersion)
  {
    var wrong := ArgumentError(s, |provisions|, |paragraphs|, parserVersion, r);
    if wrong.Some? { return Err(wrong.value); }
    var articles, mode := InOrder(Zip(provisions, paragraphs)), ModeOf(parserVersion);
    var rows := [];
    ghost var outcomes := Outcomes(articles, mode, s, r);
    assert outcomes[0..] == outcomes && forall all: seq<Located> :: [] + all == all;
    for k := 0 to |articles|
      invariant Prepended(rows, Combined(outcomes[k..])) == Combined(outcomes)
    {
      var more := DeriveArticle(articles[k], k, mode, s, r);
      CombinedMore(rows, outcomes, k, more);
      if more.Err? { return more; }
      rows := rows + more.value;
    }
    assert rows + [] == rows;
    Sorting.SortedMembers(Zip(provisions, paragraphs), ArticleLe);
    forall k | 0 <= k < |provisions| ensures HasParent(rows, articles[k], k, parserVersion) {
      LawHasParent(provisions, paragraphs, parserVersion, s, r, k);
    }
    return Ok(rows);
  }

  lemma CombinedMore(rows: seq<Located>, outcomes: seq<Outcome>, k: nat, more: Outcome)
    requires k < |outcomes| && more == outcomes[k]
    ensures Prepended(rows, Combined(outcomes[k..])) ==
            if more.Err? then more else Prepended(rows + more.value, Combined(outcomes[k + 1..]))
  {
    assert outcomes[k..][0] == more && outcomes[k..][1..] == outcomes[k + 1..];
    var rest := Combined(outcomes[k + 1..]);
    if more.Ok? && rest.Ok? { Regroup(rows, more.value, rest.value); }
  }

  method DeriveArticle(a: Article, k: nat, mode: Mode, s: Settings, r: Rules) returns (result: Outcome)
    requires s.Valid()
    ensures result == ArticleOutcome(a, k, mode, s, r)
  {
    if !mode.Older? && a.provision.full == "" { return Err(PositionInvalid); }
    var units := UnitsForArticle(a.provision.full, a.paragraphs, s.maxLeaf, mode, r);
    if mode.Exact? && |a.provision.full| > s.maxLeaf && units == [] { return Err(UnitsDoNotConcatenate); }
    var rows := AppendUnits([ParentRow(a, k, mode)], units, a, k, mode, s);
    return Ok(rows);
  }

  method AppendUnits(parent: seq<Located>, units: seq<Unit>, a: Article, k: nat, mode: Mode, s: Settings)
    returns (rows: seq<Located>)
    requires s.Valid() && |parent| == 1
    ensures rows == parent + ChildRows(Children(units, s), k, a.provision.id, mode)
  {
    rows := parent;
    ghost var done := [];
    for i := 0 to |units|
      invariant done + Children(units[i..], s) == Children(units, s)
      invariant rows == parent + ChildRows(done, k, a.provision.id, mode)
    {
      ChildrenMore(done, units, i, s);
      var pieces := WindowPieces.WindowPiecesWithOffsets(units[i].text, s);
      rows := AppendPieces(rows, parent, done, units[i], pieces, a, k, mode);
      done := done + UnitChildren(units[i], pieces);
    }
  }

  method AppendPieces(start: seq<Located>, ghost parent: seq<Located>, ghost done: seq<Child>, u: Unit,
                      pieces: seq<Piece>,
      a: Article, k: nat, mode: Mode) returns (rows: seq<Located>)
    requires |parent| == 1 && start == parent + ChildRows(done, k, a.provision.id, mode)
    ensures rows == parent + ChildRows(done + UnitChildren(u, pieces), k, a.provision.id, mode)
  {
    rows := start;
    for j := 0 to |pieces|
      invariant rows == parent + ChildRows(done + UnitChildren(u, pieces)[..j], k, a.provision.id, mode)
    {
      var child := Child(u.kind, Shifted(pieces[j], u.start));
      assert done + UnitChildren(u, pieces)[..j + 1] == done + UnitChildren(u, pieces)[..j] + [child];
      rows := rows + [ChildRow(child, k, |rows|, a.provision.id, mode)];
    }
    assert UnitChildren(u, pieces)[..|pieces|] == UnitChildren(u, pieces);
  }

  lemma ChildrenMore(done: seq<Child>, units: seq<Unit>, k: nat, s: Settings)
    requires s.Valid() && k < |units|
    ensures done + Children(units[k..], s) ==
            done + UnitChildren(units[k], WindowPieces.Pieces(units[k].text, s)) + Children(units[k + 1..], s)
  {
    assert units[k..][1..] == units[k + 1..];
  }
}

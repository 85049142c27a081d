/** What the rows of a law are good for: the children of an article rebuild it, no window crosses a unit, and every
    span cuts its chunk's text out of the article. */
module ChunkCoverage {
  import opened Sequences
  import opened Common
  import opened ArticleUnits
  import opened ChunkStructure
  import WindowPieces
  import Sorting

  // ----- the children of one article -----

  lemma ShiftedGapless(full: string, t: string, at: nat, pieces: seq<Piece>, shifted: seq<Piece>)
    requires At(full, t, at) && WindowPieces.Gapless(t, pieces, 0, |t|)
    requires |shifted| == |pieces| && forall i :: 0 <= i < |pieces| ==> shifted[i] == Shifted(pieces[i], at)
    ensures WindowPieces.Gapless(full, shifted, at, at + |t|)
  {
    forall i | 0 <= i < |shifted| ensures WindowPieces.IsCut(full, shifted[i]) {
      assert WindowPieces.IsCut(t, pieces[i]);
      ShiftedCut(full, t, at, pieces[i]);
    }
    forall i | 0 < i < |shifted| ensures WindowPieces.Follows(shifted[i - 1], shifted[i]) {
      assert WindowPieces.Follows(pieces[i - 1], pieces[i]);
    }
  }

  lemma ShiftedCut(full: string, t: string, at: nat, p: Piece)
    requires At(full, t, at) && WindowPieces.IsCut(t, p)
    ensures WindowPieces.IsCut(full, Shifted(p, at))
  {
    forall x | p.start <= x < p.end ensures t[x] == full[at + x] { assert Same(full, t, at, x); }
    assert t[p.start..p.end] == full[at + p.start..at + p.end];
  }

  lemma GaplessConcat(full: string, a: seq<Piece>, b: seq<Piece>, from: nat, mid: nat, to: nat)
    requires WindowPieces.Gapless(full, a, from, mid) && WindowPieces.Gapless(full, b, mid, to)
    ensures WindowPieces.Gapless(full, a + b, from, to)
  {
    if a == [] {
      assert a + b == b;
    } else if b == [] {
      assert a + b == a;
    } else {
      var n := |a|;
      forall i | 0 <= i < |a + b| ensures WindowPieces.IsCut(full, (a + b)[i]) {
        assert (a + b)[i] == if i < n then a[i] else b[i - n];
      }
      forall i | 0 < i < |a + b| ensures WindowPieces.Follows((a + b)[i - 1], (a + b)[i]) {
        if i > n {
          assert WindowPieces.Follows(b[i - n - 1], b[i - n]);
        } else if i == n {
          assert WindowPieces.IsCut(full, a[n - 1]) && WindowPieces.IsCut(full, b[0]);
        }
      }
    }
  }

  lemma UnitGapless(full: string, u: Unit, mid: nat, s: Settings)
    requires s.Valid() && u.text != "" && At(full, u.text, u.start) && mid == u.start + |u.text|
    ensures WindowPieces.Gapless(full, Cuts(UnitChildren(u, WindowPieces.Pieces(u.text, s))), u.start, mid)
  {
    var pieces := WindowPieces.Pieces(u.text, s);
    WindowPieces.PiecesRebuild(u.text, s);
    ShiftedGapless(full, u.text, u.start, pieces, Cuts(UnitChildren(u, pieces)));
  }

  lemma CutsConcat(a: seq<Child>, b: seq<Child>)
    ensures Cuts(a + b) == Cuts(a) + Cuts(b)
  {
  }

  /** The children of units that tile a stretch of the text run over that stretch without a gap. */
  lemma {:induction false} ChildrenGapless(full: string, units: seq<Unit>, from: nat, to: nat, s: Settings)
    requires s.Valid() && Tiles(full, units, from, to)
    ensures WindowPieces.Gapless(full, Cuts(Children(units, s)), from, to)
  {
    if units != [] {
      var mid := from + |units[0].text|;
      var first, rest := UnitChildren(units[0], WindowPieces.Pieces(units[0].text, s)), Children(units[1..], s);
      ChildrenGapless(full, units[1..], mid, to, s);
      UnitGapless(full, units[0], mid, s);
      GaplessConcat(full, Cuts(first), Cuts(rest), from, mid, to);
      CutsConcat(first, rest);
    }
  }

  /** A child is a piece of one unit, of that unit's kind, and fits a leaf. */
  ghost predicate InUnit(c: Child, u: Unit, s: Settings) {
    && c.kind == u.kind && |c.piece.text| <= s.maxLeaf
    && u.start <= c.piece.start && c.piece.end <= u.start + |u.text|
  }

  lemma UnitChildInUnit(u: Unit, pieces: seq<Piece>, i: nat, s: Settings)
    requires s.Valid() && u.text != "" && pieces == WindowPieces.Pieces(u.text, s) && i < |pieces|
    ensures InUnit(UnitChildren(u, pieces)[i], u, s)
  {
    WindowPieces.PiecesCover(u.text, s);
    assert WindowPieces.IsCut(u.text, pieces[i]);
  }

  lemma {:induction false} ChildrenInUnits(full: string, units: seq<Unit>, from: nat, to: nat, s: Settings, c: Child)
    returns (u: Unit)
    requires s.Valid() && Tiles(full, units, from, to) && c in Children(units, s)
    ensures u in units && InUnit(c, u, s)
  {
    u := units[0];
    var pieces := WindowPieces.Pieces(u.text, s);
    if c in UnitChildren(u, pieces) {
      var i :| 0 <= i < |pieces| && c == UnitChildren(u, pieces)[i];
      UnitChildInUnit(u, pieces, i, s);
    } else {
      u := ChildrenInUnits(full, units[1..], from + |u.text|, to, s, c);
    }
  }

  /** The child chunks of an article, as text and spans. */
  function RowCuts(rows: seq<Located>): seq<Piece> {
    seq(|rows|, i requires 0 <= i < |rows| =>
      WindowPieces.Piece(rows[i].chunk.content, rows[i].span.start, rows[i].span.end))
  }

  lemma {:induction false} TilesRange(full: string, units: seq<Unit>, from: nat, to: nat)
    requires Tiles(full, units, from, to)
    ensures from <= to
  {
    if units != [] { TilesRange(full, units[1..], from + |units[0].text|, to); }
  }

  lemma BodyEndInside(full: string, mode: Mode, r: Rules)
    ensures BodyEnd(full, mode, r) <= |full|
  {
    StripSpec(full, r);
  }

  lemma RowCutsAreCuts(a: Article, children: seq<Child>, k: nat, mode: Mode)
    ensures RowCuts(ChildRows(children, k, a.provision.id, mode)) == Cuts(children)
  {
  }

  /** Splitting an article loses nothing of its body, which is the whole text in the exact mode: its children run
      over the body without a gap, and without their repetitions they are the body. */
  lemma SplitArticleKeepsText(a: Article, k: nat, mode: Mode, s: Settings, r: Rules, cuts: seq<Piece>, from: nat,
                              to: nat)
    requires s.Valid() && |a.provision.full| > s.maxLeaf && Splittable(a.provision.full, a.paragraphs, mode, r)
    requires cuts == RowCuts(ArticleRows(a, k, mode, s, r)[1..])
    requires from == BodyStart(a.provision.full, a.paragraphs, mode, r) && to == BodyEnd(a.provision.full, mode, r)
    ensures WindowPieces.Gapless(a.provision.full, cuts, from, to)
    ensures from <= to <= |a.provision.full| && WindowPieces.Rebuilt(cuts) == a.provision.full[from..to]
  {
    var units := UnitsOf(a, mode, s, r);
    RowCutsAreCuts(a, Children(units, s), k, mode);
    UnitsTile(a.provision.full, a.paragraphs, s.maxLeaf, mode, r);
    UnitsKeepText(a.provision.full, units, from, to, s);
    BodyEndInside(a.provision.full, mode, r);
    WindowPieces.GaplessRebuilds(a.provision.full, cuts, from, to);
  }

  lemma UnitsKeepText(full: string, units: seq<Unit>, from: nat, to: nat, s: Settings)
    requires s.Valid() && Tiles(full, units, from, to)
    ensures from <= to && WindowPieces.Gapless(full, Cuts(Children(units, s)), from, to)
  {
    TilesRange(full, units, from, to);
    ChildrenGapless(full, units, from, to, s);
  }

  lemma ChildSound(full: string, units: seq<Unit>, from: nat, to: nat, s: Settings, i: nat, c: Child) returns (u: Unit)
    requires s.Valid() && Tiles(full, units, from, to) && to <= |full| && i < |Children(units, s)|
    requires c == Children(units, s)[i]
    ensures u in units && InUnit(c, u, s) && WindowPieces.IsCut(full, c.piece)
  {
    u := ChildrenInUnits(full, units, from, to, s, c);
    ChildrenGapless(full, units, from, to, s);
    assert WindowPieces.IsCut(full, Cuts(Children(units, s))[i]);
  }

  lemma RowOfChild(a: Article, k: nat, mode: Mode, s: Settings, r: Rules, children: seq<Child>, i: nat)
    requires s.Valid() && children == Children(UnitsOf(a, mode, s, r), s) && 1 <= i <= |children|
    ensures |ArticleRows(a, k, mode, s, r)| == |children| + 1
    ensures ArticleRows(a, k, mode, s, r)[i] == ChildRow(children[i - 1], k, i, a.provision.id, mode)
  {
    var parent, rows := ParentRow(a, k, mode), ChildRows(children, k, a.provision.id, mode);
    assert ArticleRows(a, k, mode, s, r) == [parent] + rows;
    RowBehind(parent, rows, i);
    ChildRowIs(children, k, a.provision.id, mode, i - 1);
  }

  lemma RowBehind(parent: Located, rows: seq<Located>, i: nat)
    requires 1 <= i <= |rows|
    ensures ([parent] + rows)[i] == rows[i - 1]
  {
  }

  lemma ChildRowIs(children: seq<Child>, k: nat, provision: nat, mode: Mode, i: nat)
    requires i < |children|
    ensures |ChildRows(children, k, provision, mode)| == |children|
    ensures ChildRows(children, k, provision, mode)[i] == ChildRow(children[i], k, i + 1, provision, mode)
  {
  }

  /** Every child row hangs below its article's parent row, is a window of one unit, and carries its span as its
      position unless the mode is the older one. */
  lemma ChildRowSound(a: Article, k: nat, mode: Mode, s: Settings, r: Rules, children: seq<Child>, i: nat, row: Located)
    returns (u: Unit)
    requires s.Valid() && children == Children(UnitsOf(a, mode, s, r), s) && 1 <= i <= |children|
    requires row == ArticleRows(a, k, mode, s, r)[i]
    ensures row.chunk.id == ChunkId(k, i) && row.chunk.parent == Some(ChunkId(k, 0))
    ensures row.chunk.provision == a.provision.id
    ensures row.chunk.position == if mode.Older? then None else Some(row.span)
    ensures u in UnitsOf(a, mode, s, r) && row.chunk.kind == u.kind && |row.chunk.content| <= s.maxLeaf
    ensures u.start <= row.span.start < row.span.end <= u.start + |u.text|
    ensures row.span.end <= |a.provision.full| && row.chunk.content == a.provision.full[row.span.start..row.span.end]
  {
    RowOfChild(a, k, mode, s, r, children, i);
    var full, units := a.provision.full, UnitsOf(a, mode, s, r);
    UnitsTile(full, a.paragraphs, s.maxLeaf, mode, r);
    BodyEndInside(full, mode, r);
    var from, to := BodyStart(full, a.paragraphs, mode, r), BodyEnd(full, mode, r);
    u := ChildSound(full, units, from, to, s, i - 1, children[i - 1]);
  }

  // ----- the whole law -----

  lemma {:induction false} TextLeTotal(a: string, b: string)
    ensures TextLe(a, b) || TextLe(b, a)
  {
    if a != "" && b != "" && a[0] == b[0] { TextLeTotal(a[1..], b[1..]); }
  }

  lemma {:induction false} TextLeTransitive(a: string, b: string, c: string)
    requires TextLe(a, b) && TextLe(b, c)
    ensures TextLe(a, c)
  {
    if a != "" && a[0] == b[0] == c[0] { TextLeTransitive(a[1..], b[1..], c[1..]); }
  }

  lemma ArticleLeTotal()
    ensures Sorting.Total(ArticleLe)
  {
    forall a, b ensures ArticleLe(a, b) || ArticleLe(b, a) {
      TextLeTotal(a.provision.full, b.provision.full);
    }
    forall a, b, c | ArticleLe(a, b) && ArticleLe(b, c) ensures ArticleLe(a, c) {
      if TextLe(a.provision.full, b.provision.full) && TextLe(b.provision.full, c.provision.full) {
        TextLeTransitive(a.provision.full, b.provision.full, c.provision.full);
      }
    }
  }

  /** The articles come sorted by where they start in the law, then by their text. */
  lemma ArticlesInOrder(articles: seq<Article>)
    ensures multiset(InOrder(articles)) == multiset(articles) && Sorting.Ordered(InOrder(articles), ArticleLe)
  {
    ArticleLeTotal();
    Sorting.SortedPermutes(articles, ArticleLe);
    Sorting.SortedOrdered(articles, ArticleLe);
  }

  lemma {:induction false} TextLeReflexive(a: string)
    ensures TextLe(a, a)
  {
    if a != "" { TextLeReflexive(a[1..]); }
  }

  predicate HasKey(a: Article, charStart: int, full: string) {
    a.provision.charStart == charStart && a.provision.full == full
  }

  /** Articles with the same start and text stay in the order they were given. */
  lemma TiesKeepOrder(articles: seq<Article>, charStart: int, full: string)
    ensures Sorting.Filter(InOrder(articles), a => HasKey(a, charStart, full))
            == Sorting.Filter(articles, a => HasKey(a, charStart, full))
  {
    var same := a => HasKey(a, charStart, full);
    TextLeReflexive(full);
    Sorting.SortedStable(articles, ArticleLe, same);
  }

  /** An article the derivation can handle. */
  predicate Derivable(a: Article, mode: Mode, s: Settings) {
    && (mode.Older? || a.provision.full != "")
    && (mode.Exact? && |a.provision.full| > s.maxLeaf ==> ExactParagraphs(a.provision.full, a.paragraphs))
  }

  lemma ArticleErrorIff(a: Article, mode: Mode, s: Settings, r: Rules)
    requires s.Valid()
    ensures ArticleError(a, mode, s, r).None? <==> Derivable(a, mode, s)
  {
    var full := a.provision.full;
    if mode.Exact? && |full| > s.maxLeaf {
      assert full != "";
      ExactUnitsIff(full, a.paragraphs, s.maxLeaf, r);
    }
  }

  lemma {:induction false} CombinedIff(outcomes: seq<Outcome>)
    ensures Combined(outcomes).Ok? <==> forall o :: o in outcomes ==> o.Ok?
  {
    if outcomes != [] {
      CombinedIff(outcomes[1..]);
      assert outcomes == [outcomes[0]] + outcomes[1..];
    }
  }

  lemma OutcomesIff(articles: seq<Article>, mode: Mode, s: Settings, r: Rules)
    requires s.Valid()
    ensures Combined(Outcomes(articles, mode, s, r)).Ok? <==> forall a :: a in articles ==> Derivable(a, mode, s)
  {
    var outcomes := Outcomes(articles, mode, s, r);
    CombinedIff(outcomes);
    forall k | 0 <= k < |articles| ensures outcomes[k].Ok? <==> Derivable(articles[k], mode, s) {
      ArticleErrorIff(articles[k], mode, s, r);
    }
    forall a | a in articles && !Derivable(a, mode, s) ensures exists o :: o in outcomes && o.Err? {
      var k :| 0 <= k < |articles| && articles[k] == a;
      assert outcomes[k] in outcomes;
    }
  }

  /** A law has rows just when the arguments are in order and every article can be handled. */
  lemma DerivedIff(provisions: seq<Provision>, paragraphs: seq<seq<string>>, version: string, s: Settings, r: Rules)
    ensures Derived(provisions, paragraphs, version, s, r).Ok? <==>
              && s.Valid() && provisions != [] && |provisions| == |paragraphs| && Strip(version, r) != ""
              && forall a :: a in Zip(provisions, paragraphs) ==> Derivable(a, ModeOf(version), s)
  {
    SettingsErrorIff(s);
    if s.Valid() && |provisions| == |paragraphs| {
      OutcomesIff(InOrder(Zip(provisions, paragraphs)), ModeOf(version), s, r);
      Sorting.SortedMembers(Zip(provisions, paragraphs), ArticleLe);
    }
  }

  /** The rows of each article stand together, in the order of the articles. */
  lemma {:induction false} ArticleInside(outcomes: seq<Outcome>, k: nat)
    returns (before: seq<Located>, after: seq<Located>)
    requires k < |outcomes| && Combined(outcomes).Ok?
    ensures outcomes[k].Ok? && Combined(outcomes).value == before + outcomes[k].value + after
    ensures Combined(outcomes[..k]) == Ok(before) && Combined(outcomes[k + 1..]) == Ok(after)
  {
    if k == 0 {
      before, after := [], Combined(outcomes[1..]).value;
    } else {
      before, after := ArticleInside(outcomes[1..], k - 1);
      assert outcomes[..k][1..] == outcomes[1..][..k - 1] && outcomes[k + 1..] == outcomes[1..][k..];
      RegroupFour(outcomes[0].value, before, outcomes[k].value, after);
      before := outcomes[0].value + before;
    }
  }

  /** Every row of a law belongs to one of its articles, at the place its id says; so no two rows share an id. */
  lemma {:induction false} RowsOfArticles(outcomes: seq<Outcome>, first: nat, i: nat)
    requires Combined(outcomes).Ok? && i < |Combined(outcomes).value|
    requires forall k :: 0 <= k < |outcomes| ==> IdsOf(outcomes[k], first + k)
    ensures var row := Combined(outcomes).value[i].chunk;
            && first <= row.id.article < first + |outcomes|
            && var own := outcomes[row.id.article - first];
            && own.Ok? && row.id.row < |own.value| && own.value[row.id.row].chunk == row
    ensures forall j :: 0 <= j < i ==> Combined(outcomes).value[j].chunk.id != Combined(outcomes).value[i].chunk.id
    decreases |outcomes|
  {
    var own, rest := outcomes[0].value, Combined(outcomes[1..]).value;
    assert IdsOf(outcomes[0], first);
    assert Combined(outcomes).value == own + rest;
    if i >= |own| {
      forall k | 0 <= k < |outcomes| - 1 ensures IdsOf(outcomes[1..][k], first + 1 + k) {
        assert IdsOf(outcomes[k + 1], first + (k + 1));
      }
      RowsOfArticles(outcomes[1..], first + 1, i - |own|);
    }
  }

  ghost predicate IdsOf(o: Outcome, k: nat) {
    o.Ok? ==> forall i :: 0 <= i < |o.value| ==> o.value[i].chunk.id == ChunkId(k, i)
  }

  lemma OutcomeIds(a: Article, k: nat, mode: Mode, s: Settings, r: Rules)
    requires s.Valid()
    ensures IdsOf(ArticleOutcome(a, k, mode, s, r), k)
  {
    var children := Children(UnitsOf(a, mode, s, r), s);
    var rows := ArticleRows(a, k, mode, s, r);
    forall i | 0 <= i < |rows| ensures rows[i].chunk.id == ChunkId(k, i) {
      if i > 0 { RowOfChild(a, k, mode, s, r, children, i); }
    }
  }

  lemma OutcomesIds(articles: seq<Article>, mode: Mode, s: Settings, r: Rules, outcomes: seq<Outcome>)
    requires s.Valid() && outcomes == Outcomes(articles, mode, s, r)
    ensures forall k :: 0 <= k < |outcomes| ==> IdsOf(outcomes[k], k)
  {
    forall k | 0 <= k < |outcomes| ensures IdsOf(outcomes[k], k) { OutcomeIds(articles[k], k, mode, s, r); }
  }

  /** Rows of a whole law: each stands in its article's list at the place its id says, and no two share an id. */
  lemma LawRowIds(articles: seq<Article>, mode: Mode, s: Settings, r: Rules, outcomes: seq<Outcome>,
                  rows: seq<Located>, i: nat)
    requires s.Valid() && outcomes == Outcomes(articles, mode, s, r) && Combined(outcomes) == Ok(rows) && i < |rows|
    ensures var id := rows[i].chunk.id;
            && id.article < |articles|
            && var own := outcomes[id.article];
            && own.Ok? && id.row < |own.value| && own.value[id.row].chunk == rows[i].chunk
    ensures forall j :: 0 <= j < i ==> rows[j].chunk.id != rows[i].chunk.id
  {
    OutcomesIds(articles, mode, s, r, outcomes);
    RowIdsOf(outcomes, rows, i);
  }

  lemma RowIdsOf(outcomes: seq<Outcome>, rows: seq<Located>, i: nat)
    requires Combined(outcomes) == Ok(rows) && i < |rows| && forall k :: 0 <= k < |outcomes| ==> IdsOf(outcomes[k], k)
    ensures var id := rows[i].chunk.id;
            && id.article < |outcomes|
            && var own := outcomes[id.article];
            && own.Ok? && id.row < |own.value| && own.value[id.row].chunk == rows[i].chunk
    ensures forall j :: 0 <= j < i ==> rows[j].chunk.id != rows[i].chunk.id
  {
    RowsOfArticles(outcomes, 0, i);
  }

  // ----- the rows of each article of a law -----

  /** The row holds a stretch of the k-th article that fits a leaf, below the article's own row. */
  ghost predicate ChildFits(row: Located, a: Article, k: nat, i: nat, parserVersion: string, s: Settings) {
    && row.chunk.id == ChunkId(k, i) && row.chunk.parent == Some(ChunkId(k, 0)) && !row.chunk.kind.ProvisionText?
    && row.chunk.provision == a.provision.id && 0 < |row.chunk.content| <= s.maxLeaf
    && row.span.start <= row.span.end <= |a.provision.full|
    && row.chunk.content == a.provision.full[row.span.start..row.span.end]
    && row.chunk.position == if EndsWith(parserVersion, "/hierarchical-v2") then Some(row.span) else None
  }

  /** An article gives its own row and, if it is too long for a leaf and its paragraphs are its text, the children that
      rebuild its body. */
  ghost predicate ArticleSound(rows: seq<Located>, a: Article, k: nat, parserVersion: string, s: Settings, r: Rules) {
    var full, mode := a.provision.full, ModeOf(parserVersion);
    && rows != [] && ParentSound(rows[0], a, k, parserVersion)
    && (forall i :: 1 <= i < |rows| ==> ChildFits(rows[i], a, k, i, parserVersion, s))
    && if |full| <= s.maxLeaf || !Splittable(full, a.paragraphs, mode, r) then |rows| == 1
       else BodyStart(full, a.paragraphs, mode, r) <= BodyEnd(full, mode, r) <= |full|
            && WindowPieces.Rebuilt(RowCuts(rows[1..]))
               == full[BodyStart(full, a.paragraphs, mode, r)..BodyEnd(full, mode, r)]
  }

  lemma ChildRowFits(a: Article, k: nat, version: string, s: Settings, r: Rules, i: nat, rows: seq<Located>)
    requires s.Valid() && rows == ArticleRows(a, k, ModeOf(version), s, r) && 1 <= i < |rows|
    ensures ChildFits(rows[i], a, k, i, version, s)
  {
    var mode := ModeOf(version);
    var children := Children(UnitsOf(a, mode, s, r), s);
    ModeIs(version);
    var u := ChildRowSound(a, k, mode, s, r, children, i, rows[i]);
    var units := UnitsOf(a, mode, s, r);
    UnitKind(a.provision.full, a.paragraphs, s.maxLeaf, mode, r, u);
  }

  lemma ArticleIsSound(a: Article, k: nat, version: string, s: Settings, r: Rules, rows: seq<Located>)
    requires s.Valid() && ArticleOutcome(a, k, ModeOf(version), s, r) == Ok(rows)
    ensures ArticleSound(rows, a, k, version, s, r)
  {
    var full, mode := a.provision.full, ModeOf(version);
    ArticleHasParent(a, k, version, s, r);
    forall i | 1 <= i < |rows| ensures ChildFits(rows[i], a, k, i, version, s) {
      ChildRowFits(a, k, version, s, r, i, rows);
    }
    if |full| > s.maxLeaf && Splittable(full, a.paragraphs, mode, r) {
      SplitArticleKeepsText(a, k, mode, s, r, RowCuts(rows[1..]), BodyStart(full, a.paragraphs, mode, r),
                            BodyEnd(full, mode, r));
    }
  }

  /** The rows of a law: behind the rows of the articles before it, each article has its own row and its children, and
      no row belongs to no article. */
  lemma LawSound(provisions: seq<Provision>, paragraphs: seq<seq<string>>, version: string, s: Settings, r: Rules,
                 rows: seq<Located>, k: nat)
    returns (before: seq<Located>, own: seq<Located>, after: seq<Located>)
    requires Derived(provisions, paragraphs, version, s, r) == Ok(rows)
    requires |provisions| == |paragraphs| == |InOrder(Zip(provisions, paragraphs))| && k < |provisions|
    ensures rows == before + own + after
    ensures ArticleSound(own, InOrder(Zip(provisions, paragraphs))[k], k, version, s, r)
    ensures (k == 0 ==> before == []) && (k == |provisions| - 1 ==> after == [])
  {
    var articles := InOrder(Zip(provisions, paragraphs));
    var outcomes := Outcomes(articles, ModeOf(version), s, r);
    SettingsErrorIff(s);
    before, after := ArticleInside(outcomes, k);
    own := outcomes[k].value;
    ArticleIsSound(articles[k], k, version, s, r, own);
  }
}

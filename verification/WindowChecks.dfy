/** The two checks of a window list: one on release, one that rebuilds the text. */
module WindowChecks {
  import opened Numbers
  import opened Common
  import opened Windows

  // ----- the release check -----

  /** Where the window before this one ends. */
  function Cursor(rows: seq<Row>, i: nat): int
    requires i <= |rows|
  {
    if i == 0 then 0 else rows[i - 1].end
  }

  predicate SliceOk(law: Law, row: Row, i: nat) {
    && 0 <= row.start < row.end <= |law.text| && row.end - row.start <= SIZE
    && row.text == law.text[row.start..row.end] && row.fulltextDigest == law.text
    && row.document == law.document && row.index == i
  }

  const DIMENSIONS: nat := 1024
  const FLOAT32_MAX: real := 340282340000000000000000000000000000000.0

  /** A stored vector; a component that is not a finite number is none. */
  datatype Vector = Vector(id: Id, embeddingDigest: string, values: seq<Option<real>>)

  predicate VectorOk(v: Vector) {
    && |v.values| == DIMENSIONS
    && (forall k :: 0 <= k < |v.values| ==> v.values[k].Some?)
    && exists k :: 0 <= k < |v.values| && v.values[k] != Some(0.0)
  }

  predicate FitsFloat32(v: Vector) {
    forall k :: 0 <= k < |v.values| && v.values[k].Some? ==> -FLOAT32_MAX <= v.values[k].value <= FLOAT32_MAX
  }

  /** The window's embedding text and its vector belong to it. */
  predicate Embedded(law: Law, row: Row, v: Vector) {
    && row.embedding == Embedding(law.title, row.text) && row.embeddingDigest == row.embedding
    && row.id == v.id && row.embeddingDigest == v.embeddingDigest && VectorOk(v)
  }

  /** What is checked when a row is built for the collection. */
  predicate Buildable(law: Law, row: Row, v: Vector, spaces: set<char>) {
    !Blank(row.text, spaces) && row.title == law.title && Embedded(law, row, v) && FitsFloat32(v)
  }

  predicate FollowsOn(rows: seq<Row>, i: nat)
    requires i < |rows|
  {
    if i == 0 then rows[0].start == 0 else Cursor(rows, i) - rows[i].start == OVERLAP
  }

  /** The window list of a law with its vectors, as the files hold them, and what the check is given besides. */
  datatype Release = Release(law: Law, rows: seq<Row>, vectors: seq<Vector>, expected: int, spaces: set<char>)

  ghost predicate ReleasedAt(r: Release, seen: set<Id>, i: nat)
    requires i < |r.rows| && i < |r.vectors|
  {
    && SliceOk(r.law, r.rows[i], i) && FollowsOn(r.rows, i)
    && Buildable(r.law, r.rows[i], r.vectors[i], r.spaces)
    && r.rows[i].id !in seen && forall j :: 0 <= j < i ==> r.rows[j].id != r.rows[i].id
  }

  ghost predicate Releasable(r: Release, seen: set<Id>) {
    && |r.vectors| == |r.rows| && (forall i :: 0 <= i < |r.rows| ==> ReleasedAt(r, seen, i))
    && Cursor(r.rows, |r.rows|) == |r.law.text| && |r.rows| == r.expected
  }

  /** The check of one document, row and vector side by side; `seen` carries the ids from document to document. */
  method CheckRelease(r: Release, seen: set<Id>) returns (ok: bool, after: set<Id>)
    ensures ok <==> Releasable(r, seen)
    ensures ok ==> after == seen + set i | 0 <= i < |r.rows| :: r.rows[i].id
  {
    var cursor := 0;
    after := seen;
    var i := 0;
    while i < |r.rows| || i < |r.vectors|
      invariant 0 <= i <= |r.rows| && i <= |r.vectors| && cursor == Cursor(r.rows, i)
      invariant forall k :: 0 <= k < i ==> ReleasedAt(r, seen, k)
      invariant after == seen + set k | 0 <= k < i :: r.rows[k].id
      decreases |r.rows| - i
    {
      if i == |r.rows| || i == |r.vectors| { return false, after; }
      var row := r.rows[i];
      if !SliceOk(r.law, row, i) || !FollowsOn(r.rows, i) || row.id in after
        || !Buildable(r.law, row, r.vectors[i], r.spaces)
      {
        assert !ReleasedAt(r, seen, i);
        return false, after;
      }
      after := after + {row.id};
      cursor := row.end;
      i := i + 1;
    }
    ok := cursor == |r.law.text| && |r.rows| == r.expected;
  }

  /** The components of a stored vector are finite numbers that fit 32 bits, 1024 of them and not all zero. */
  ghost predicate ProperVector(values: seq<Option<real>>) {
    && |values| == 1024 && (exists k :: 0 <= k < 1024 && values[k].Some? && values[k].value != 0.0)
    && forall k :: 0 <= k < 1024 ==> values[k].Some? && -FLOAT32_MAX <= values[k].value <= FLOAT32_MAX
  }

  /** The row says what it was cut from, and carries its own texts and digests and those of its vector. */
  ghost predicate ProperRow(law: Law, row: Row, v: Vector) {
    && row.document == law.document && row.title == law.title && row.fulltextDigest == law.text
    && row.embedding == "法律名称：" + law.title + "\n正文：" + row.text
    && row.embeddingDigest == row.embedding == v.embeddingDigest && row.id == v.id
  }

  /** The window is not blank, at most 1000 characters long, numbered, and cut from the text where it says. */
  ghost predicate ProperWindow(law: Law, row: Row, i: nat, spaces: set<char>) {
    && row.index == i && 0 <= row.start < row.end <= |law.text| && row.end <= row.start + 1000
    && row.text == law.text[row.start..row.end]
    && exists k :: row.start <= k < row.end && law.text[k] !in spaces
  }

  /** The first window starts with the text and the last ends with it, and each starts 200 characters before the end of
      the one before. */
  ghost predicate ProperChain(law: Law, rows: seq<Row>) {
    && (if rows == [] then law.text == "" else rows[0].start == 0 && rows[|rows| - 1].end == |law.text|)
    && forall i :: 0 < i < |rows| ==> rows[i].start == rows[i - 1].end - 200
  }

  ghost predicate NewId(rows: seq<Row>, seen: set<Id>, i: nat)
    requires i < |rows|
  {
    rows[i].id !in seen && forall j :: 0 <= j < i ==> rows[j].id != rows[i].id
  }

  ghost predicate ProperAt(r: Release, i: nat)
    requires i < |r.rows| && i < |r.vectors|
  {
    && ProperWindow(r.law, r.rows[i], i, r.spaces) && ProperRow(r.law, r.rows[i], r.vectors[i])
    && ProperVector(r.vectors[i].values)
  }

  lemma VectorIff(v: Vector)
    ensures VectorOk(v) && FitsFloat32(v) <==> ProperVector(v.values)
  {
  }

  lemma WindowIff(law: Law, row: Row, i: nat, spaces: set<char>)
    ensures SliceOk(law, row, i) && !Blank(row.text, spaces) <==>
            ProperWindow(law, row, i, spaces) && row.fulltextDigest == law.text && row.document == law.document
  {
    if SliceOk(law, row, i) {
      assert forall k :: row.start <= k < row.end ==> law.text[k] == row.text[k - row.start];
      if !Blank(row.text, spaces) {
        var k :| 0 <= k < |row.text| && row.text[k] !in spaces;
        assert law.text[row.start + k] !in spaces;
      }
    }
  }

  lemma RowIff(r: Release, seen: set<Id>, i: nat)
    requires i < |r.rows| && i < |r.vectors|
    ensures ReleasedAt(r, seen, i) <==> ProperAt(r, i) && FollowsOn(r.rows, i) && NewId(r.rows, seen, i)
  {
    VectorIff(r.vectors[i]);
    WindowIff(r.law, r.rows[i], i, r.spaces);
    assert Embedding(r.law.title, r.rows[i].text) == "法律名称：" + r.law.title + "\n正文：" + r.rows[i].text;
  }

  /** What the release check is for, in terms of the lists. */
  lemma ReleasableIff(r: Release, seen: set<Id>)
    ensures Releasable(r, seen) <==>
              && |r.rows| == |r.vectors| == r.expected && ProperChain(r.law, r.rows)
              && forall i :: 0 <= i < |r.rows| ==> ProperAt(r, i) && NewId(r.rows, seen, i)
  {
    if |r.rows| == |r.vectors| {
      forall i | 0 <= i < |r.rows|
        ensures ReleasedAt(r, seen, i) <==> ProperAt(r, i) && FollowsOn(r.rows, i) && NewId(r.rows, seen, i)
      {
        RowIff(r, seen, i);
      }
      ChainIff(r.law, r.rows);
    }
  }

  lemma ChainIff(law: Law, rows: seq<Row>)
    ensures ProperChain(law, rows) <==>
            Cursor(rows, |rows|) == |law.text| && forall i :: 0 <= i < |rows| ==> FollowsOn(rows, i)
  {
    if forall i :: 0 <= i < |rows| ==> FollowsOn(rows, i) {
      forall i | 0 < i < |rows| ensures rows[i].start == rows[i - 1].end - 200 { assert FollowsOn(rows, i); }
      if rows != [] { assert FollowsOn(rows, 0); }
    }
  }

  /** A list that passes covers every character. */
  lemma ReleasedCovers(r: Release, seen: set<Id>, x: nat) returns (i: nat)
    requires Releasable(r, seen) && x < |r.law.text|
    ensures i < |r.rows| && 0 <= r.rows[i].start <= x < r.rows[i].end <= |r.law.text|
    ensures r.rows[i].text == r.law.text[r.rows[i].start..r.rows[i].end]
  {
    i := FirstPast(r.rows, x, |r.rows|);
    assert ReleasedAt(r, seen, i);
  }

  lemma {:induction false} FirstPast(rows: seq<Row>, x: nat, n: nat) returns (i: nat)
    requires n <= |rows| && x < Cursor(rows, n)
    ensures i < n && Cursor(rows, i) <= x < rows[i].end
  {
    i := n - 1;
    if x < Cursor(rows, i) { i := FirstPast(rows, x, i); }
  }

  // ----- the grid passes it -----

  lemma GridRow(law: Law, rows: seq<Row>, i: nat)
    requires i < |rows| && OnGrid(law, rows, SIZE, OVERLAP)
    ensures var row := rows[i];
            && row.start == Start(i, SIZE, OVERLAP) == 800 * i < |law.text|
            && row.end == Min(row.start + SIZE, |law.text|)
            && row.id == Id(law.document, SIZE, OVERLAP, row.start, row.end)
            && SliceOk(law, row, i) && row.title == law.title
            && row.embedding == Embedding(law.title, row.text) == row.embeddingDigest
  {
    StartIs(i, SIZE, OVERLAP);
    assert IsRow(law, rows[i], i, SIZE, OVERLAP);
  }

  lemma GridReaches(law: Law, rows: seq<Row>, i: nat)
    requires OnGrid(law, rows, SIZE, OVERLAP) && |rows| == Count(|law.text|, SIZE, OVERLAP) && i < |rows|
    requires law.text != ""
    ensures rows[i].end == |law.text| <==> i == |rows| - 1
    ensures i < |rows| - 1 ==> rows[i].end == rows[i].start + SIZE
  {
    GridRow(law, rows, i);
    var n := |law.text|;
    if n > SIZE {
      var q := CeilDiv(n - OVERLAP, SIZE - OVERLAP);
      assert 800 * (q - 1) < n - 200 <= 800 * q;
    }
  }

  /** The windows that the cutting program makes of a text, each with a proper vector of its own. */
  ghost predicate FromGrid(r: Release) {
    && r.law.text != "" && OnGrid(r.law, r.rows, SIZE, OVERLAP)
    && |r.rows| == Count(|r.law.text|, SIZE, OVERLAP) == r.expected && |r.vectors| == |r.rows|
    && (forall i :: 0 <= i < |r.rows| ==> !Blank(r.rows[i].text, r.spaces))
    && (forall i :: 0 <= i < |r.rows| ==> VectorFor(r.rows[i], r.vectors[i]))
  }

  ghost predicate VectorFor(row: Row, v: Vector) {
    v.id == row.id && v.embeddingDigest == row.embeddingDigest && VectorOk(v) && FitsFloat32(v)
  }

  /** Every grid of 1000 characters with 200 shared passes the release check. */
  lemma GridIsReleasable(r: Release, seen: set<Id>)
    requires FromGrid(r) && forall id :: id in seen ==> id.document != r.law.document
    ensures Releasable(r, seen)
  {
    forall i | 0 <= i < |r.rows| ensures ReleasedAt(r, seen, i) {
      GridRow(r.law, r.rows, i);
      assert VectorFor(r.rows[i], r.vectors[i]);
      if i > 0 {
        GridRow(r.law, r.rows, i - 1);
        GridReaches(r.law, r.rows, i - 1);
      }
      forall j | 0 <= j < i ensures r.rows[j].id != r.rows[i].id { GridRow(r.law, r.rows, j); }
    }
    GridReaches(r.law, r.rows, |r.rows| - 1);
  }

  // ----- the rebuilding check -----

  /** Python's `s[i:j]`, with indices from the end and out of range. */
  function Clamp(i: int, n: nat): nat {
    if i < 0 then (if i + n < 0 then 0 else i + n) else if i > n then n else i
  }

  function PySlice(s: string, i: int, j: int): string {
    var a, b := Clamp(i, |s|), Clamp(j, |s|);
    if a < b then s[a..b] else ""
  }

  function Tail(s: string, from: int): string {
    PySlice(s, from, |s|)
  }

  function Rebuilt(rows: seq<Row>, n: nat): string
    requires n <= |rows|
  {
    if n == 0 then "" else Rebuilt(rows, n - 1) + Tail(rows[n - 1].text, Cursor(rows, n - 1) - rows[n - 1].start)
  }

  predicate StepOk(text: string, rows: seq<Row>, i: nat)
    requires i < |rows|
  {
    var cursor := Cursor(rows, i);
    && rows[i].text == PySlice(text, rows[i].start, rows[i].end)
    && rows[i].start <= cursor && (cursor != 0 ==> cursor - rows[i].start == OVERLAP)
  }

  predicate VerifiedAt(r: Release, i: nat)
    requires i < |r.rows| && i < |r.vectors|
  {
    StepOk(r.law.text, r.rows, i) && r.rows[i].fulltextDigest == r.law.text && Embedded(r.law, r.rows[i], r.vectors[i])
  }

  ghost predicate Rebuilds(r: Release) {
    && |r.vectors| == |r.rows| == r.expected && (forall i :: 0 <= i < |r.rows| ==> VerifiedAt(r, i))
    && Rebuilt(r.rows, |r.rows|) == r.law.text
  }

  method CheckRebuild(r: Release) returns (ok: bool)
    ensures ok <==> Rebuilds(r)
  {
    if |r.rows| != |r.vectors| || |r.rows| != r.expected { return false; }
    var cursor, rebuild := 0, "";
    for i := 0 to |r.rows|
      invariant cursor == Cursor(r.rows, i) && rebuild == Rebuilt(r.rows, i)
      invariant forall k :: 0 <= k < i ==> VerifiedAt(r, k)
    {
      if !VerifiedAt(r, i) { return false; }
      rebuild := rebuild + Tail(r.rows[i].text, cursor - r.rows[i].start);
      cursor := r.rows[i].end;
    }
    ok := rebuild == r.law.text;
  }

  /** The window is cut from the text where it says, and shares 200 characters with the text behind it, unless that is
      none; the first may start before the text does. */
  ghost predicate Overlaps(text: string, rows: seq<Row>, i: nat)
    requires i < |rows|
  {
    && rows[i].text == PySlice(text, rows[i].start, rows[i].end)
    && if i == 0 || rows[i - 1].end == 0 then rows[i].start <= 0 else rows[i].start == rows[i - 1].end - 200
  }

  /** The window carries the texts, the digests and the vector of its own law and text. */
  ghost predicate OwnData(law: Law, row: Row, v: Vector) {
    && row.fulltextDigest == law.text && row.embedding == "法律名称：" + law.title + "\n正文：" + row.text
    && row.embeddingDigest == row.embedding == v.embeddingDigest && row.id == v.id
    && |v.values| == 1024 && (forall k :: 0 <= k < 1024 ==> v.values[k].Some?)
    && exists k :: 0 <= k < 1024 && v.values[k].Some? && v.values[k].value != 0.0
  }

  /** What the rebuilding check is for, in terms of the lists. */
  lemma RebuildsIff(r: Release)
    ensures Rebuilds(r) <==>
              && |r.rows| == |r.vectors| == r.expected && Rebuilt(r.rows, |r.rows|) == r.law.text
              && forall i :: 0 <= i < |r.rows| ==>
                   Overlaps(r.law.text, r.rows, i) && OwnData(r.law, r.rows[i], r.vectors[i])
  {
    if |r.rows| == |r.vectors| {
      forall i | 0 <= i < |r.rows|
        ensures VerifiedAt(r, i) <==> Overlaps(r.law.text, r.rows, i) && OwnData(r.law, r.rows[i], r.vectors[i])
      {
        OwnDataIff(r.law, r.rows[i], r.vectors[i]);
      }
    }
  }

  lemma OwnDataIff(law: Law, row: Row, v: Vector)
    ensures OwnData(law, row, v) <==> row.fulltextDigest == law.text && Embedded(law, row, v)
  {
    assert Embedding(law.title, row.text) == "法律名称：" + law.title + "\n正文：" + row.text;
    if OwnData(law, row, v) {
      var k :| 0 <= k < 1024 && v.values[k].Some? && v.values[k].value != 0.0;
      assert v.values[k] != Some(0.0);
    }
  }

  /** Whether no window ends before the one before it. */
  ghost predicate Advancing(rows: seq<Row>, n: nat)
    requires n <= |rows|
  {
    forall i :: 0 <= i < n ==> Cursor(rows, i) <= rows[i].end
  }

  lemma TailOf(text: string, start: int, end: int, cursor: int)
    requires 0 <= start <= end <= |text| && start <= cursor
    ensures Tail(text[start..end], cursor - start) == if cursor <= end then text[cursor..end] else ""
  {
  }

  /** What the rebuilding check adds for a window: the text from the cursor on, if the window reaches past it. */
  ghost predicate Adds(text: string, rows: seq<Row>, i: nat)
    requires i < |rows|
  {
    var cursor, end := Cursor(rows, i), rows[i].end;
    && 0 <= cursor <= |text| && 0 <= end <= |text|
    && Tail(rows[i].text, cursor - rows[i].start) == if cursor <= end then text[cursor..end] else ""
  }

  lemma ReleasedSteps(r: Release, seen: set<Id>)
    requires Releasable(r, seen)
    ensures forall i :: 0 <= i < |r.rows| ==> VerifiedAt(r, i)
    ensures forall i :: 0 <= i < |r.rows| ==> Adds(r.law.text, r.rows, i)
  {
    forall i | 0 <= i < |r.rows| ensures VerifiedAt(r, i) && Adds(r.law.text, r.rows, i) {
      assert ReleasedAt(r, seen, i);
      if i > 0 { assert ReleasedAt(r, seen, i - 1); }
      TailOf(r.law.text, r.rows[i].start, r.rows[i].end, Cursor(r.rows, i));
    }
  }

  /** The rebuilt text is as long as the cursor has come, and longer once a window has ended early. */
  lemma {:induction false} RebuiltLength(text: string, rows: seq<Row>, n: nat)
    requires n <= |rows| && forall i :: 0 <= i < |rows| ==> Adds(text, rows, i)
    ensures |Rebuilt(rows, n)| >= Cursor(rows, n)
    ensures |Rebuilt(rows, n)| == Cursor(rows, n) <==> Advancing(rows, n)
  {
    if n > 0 {
      RebuiltLength(text, rows, n - 1);
      assert Adds(text, rows, n - 1);
      AdvancingMore(rows, n);
    }
  }

  lemma AdvancingMore(rows: seq<Row>, n: nat)
    requires 0 < n <= |rows|
    ensures Advancing(rows, n) <==> Advancing(rows, n - 1) && Cursor(rows, n - 1) <= rows[n - 1].end
  {
  }

  lemma RebuiltMore(text: string, rows: seq<Row>, n: nat, c: int, end: int)
    requires 0 < n <= |rows| && Adds(text, rows, n - 1) && c == Cursor(rows, n - 1) && end == rows[n - 1].end
    requires c <= end
    requires Rebuilt(rows, n - 1) == text[..c]
    ensures Rebuilt(rows, n) == text[..end]
  {
    Append(text, c, end);
  }

  lemma {:induction false} RebuiltText(text: string, rows: seq<Row>, n: nat)
    requires n <= |rows| && Advancing(rows, n) && forall i :: 0 <= i < |rows| ==> Adds(text, rows, i)
    ensures 0 <= Cursor(rows, n) <= |text| && Rebuilt(rows, n) == text[..Cursor(rows, n)]
  {
    if n > 0 {
      AdvancingMore(rows, n);
      RebuiltText(text, rows, n - 1);
      RebuiltMore(text, rows, n, Cursor(rows, n - 1), rows[n - 1].end);
    }
  }

  lemma Append(text: string, c: int, end: int)
    requires 0 <= c <= end <= |text|
    ensures text[..c] + text[c..end] == text[..end]
  {
  }

  /** A list that passes the release check passes the rebuilding check just when no window ends early. */
  lemma ReleasedRebuildsIff(r: Release, seen: set<Id>)
    requires Releasable(r, seen)
    ensures Rebuilds(r) <==> Advancing(r.rows, |r.rows|)
  {
    ReleasedSteps(r, seen);
    RebuiltLength(r.law.text, r.rows, |r.rows|);
    if Advancing(r.rows, |r.rows|) {
      RebuiltText(r.law.text, r.rows, |r.rows|);
      assert r.law.text[..|r.law.text|] == r.law.text;
    }
  }

  lemma GridAdvances(law: Law, rows: seq<Row>)
    requires OnGrid(law, rows, SIZE, OVERLAP) && |rows| == Count(|law.text|, SIZE, OVERLAP) && law.text != ""
    ensures Advancing(rows, |rows|)
  {
    forall i | 0 <= i < |rows| ensures Cursor(rows, i) <= rows[i].end {
      GridRow(law, rows, i);
      if i > 0 {
        GridRow(law, rows, i - 1);
        GridReaches(law, rows, i - 1);
      }
    }
  }

  /** Every grid of 1000 characters with 200 shared rebuilds its text. */
  lemma GridRebuilds(r: Release)
    requires FromGrid(r)
    ensures Rebuilds(r)
  {
    GridIsReleasable(r, {});
    GridAdvances(r.law, r.rows);
    ReleasedRebuildsIff(r, {});
  }

  /** There are lists with a window that ends early: the release check takes any such list, and the rebuilding check
      refuses it. */
  lemma ReleasedNotRebuilt(r: Release)
    requires |r.law.text| == 601 && !Blank(r.law.text[400..500], r.spaces)
    requires r.rows == [Slice(r.law, 0, 0, 600), Slice(r.law, 1, 400, 500), Slice(r.law, 2, 300, 601)]
    requires |r.vectors| == 3 == r.expected && forall i :: 0 <= i < 3 ==> VectorFor(r.rows[i], r.vectors[i])
    ensures Releasable(r, {}) && !Rebuilds(r)
  {
    NotBlank(r.law.text, 0, 600, r.spaces);
    NotBlank(r.law.text, 300, 601, r.spaces);
    forall i | 0 <= i < 3 ensures ReleasedAt(r, {}, i) { assert VectorFor(r.rows[i], r.vectors[i]); }
    ReleasedRebuildsIff(r, {});
    assert !(Cursor(r.rows, 1) <= r.rows[1].end);
  }

  lemma NotBlank(text: string, from: nat, to: nat, spaces: set<char>)
    requires from <= 400 && 500 <= to <= |text| && !Blank(text[400..500], spaces)
    ensures !Blank(text[from..to], spaces)
  {
    var i :| 0 <= i < 100 && text[400..500][i] !in spaces;
    assert text[from..to][400 - from + i] == text[400 + i];
  }

  function Slice(law: Law, i: nat, start: nat, end: nat): Row
    requires start <= end <= |law.text|
  {
    var body := law.text[start..end];
    var embedding := Embedding(law.title, body);
    Row(Id(law.document, SIZE, OVERLAP, start, end), law.document, law.title, i, start, end, body,
        embedding, embedding, law.text)
  }
}

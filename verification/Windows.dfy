/** Fixed windows over a law's text, and the two programs that check them independently. */
module Windows {
  import opened Numbers
  import opened Common

  const SIZE: nat := 1000
  const OVERLAP: nat := 200

  /** What a window's id is the digest of; the digest is taken to be injective. */
  datatype Id = Id(document: string, size: int, overlap: int, start: int, end: int)

  /** A law to be cut into windows. */
  datatype Law = Law(document: string, title: string, text: string)

  /** A window; of the two digests it carries, the texts they were taken of. */
  datatype Row = Row(
    id: Id, document: string, title: string, index: int, start: int, end: int, text: string,
    embedding: string, embeddingDigest: string, fulltextDigest: string)

  /** The text that is embedded for a window. */
  function Embedding(title: string, body: string): string {
    "法律名称：" + title + "\n正文：" + body
  }

  datatype Error = InvalidOrEmpty | EmptyWindow

  predicate Blank(s: string, spaces: set<char>) {
    forall i :: 0 <= i < |s| ==> s[i] in spaces
  }

  predicate ValidInput(law: Law, size: int, overlap: int, spaces: set<char>) {
    size > 0 && 0 <= overlap < size && !Blank(law.text, spaces) && !Blank(law.title, spaces)
  }

  // ----- the grid -----

  /** How many windows a text of n characters has. */
  function Count(n: nat, size: int, overlap: int): int
    requires 0 <= overlap < size
  {
    if n <= size then 1 else CeilDiv(n - overlap, size - overlap)
  }

  /** Window k starts k steps in. */
  function Start(k: nat, size: int, overlap: int): int {
    if k == 0 then 0 else Start(k - 1, size, overlap) + (size - overlap)
  }

  function Cut(law: Law, k: nat, start: int, size: int, overlap: int): Row
    requires 0 <= start <= |law.text| && size > 0
  {
    var end := Min(start + size, |law.text|);
    var body := law.text[start..end];
    var embedding := Embedding(law.title, body);
    Row(Id(law.document, size, overlap, start, end), law.document, law.title, k, start, end, body,
        embedding, embedding, law.text)
  }

  /** The rows are windows 0, 1, ... of the grid, one after another. */
  ghost predicate OnGrid(law: Law, rows: seq<Row>, size: int, overlap: int)
    requires size > 0
  {
    forall k :: 0 <= k < |rows| ==> IsRow(law, rows[k], k, size, overlap)
  }

  ghost predicate IsRow(law: Law, row: Row, k: nat, size: int, overlap: int)
    requires size > 0
  {
    var start := Start(k, size, overlap);
    0 <= start < |law.text| && row == Cut(law, k, start, size, overlap)
  }

  /** Window k holds nothing but white space. */
  ghost predicate BlankAt(text: string, k: nat, size: int, overlap: int, spaces: set<char>) {
    var start := Start(k, size, overlap);
    0 <= start < |text| && size > 0 && Blank(text[start..Min(start + size, |text|)], spaces)
  }

  /** The whole grid, or the reason why there is none: the arguments, or a window of white space. */
  method Windows(law: Law, size: int, overlap: int, spaces: set<char>)
    returns (r: Result<seq<Row>, Error>)
    ensures r == Err(InvalidOrEmpty) <==> !ValidInput(law, size, overlap, spaces)
    ensures r.Ok? ==> ValidInput(law, size, overlap, spaces)
    ensures r.Ok? ==> |r.value| == Count(|law.text|, size, overlap) && OnGrid(law, r.value, size, overlap)
    ensures r.Ok? ==> forall k :: 0 <= k < |r.value| ==> !Blank(r.value[k].text, spaces)
    ensures ValidInput(law, size, overlap, spaces) ==>
              (r == Err(EmptyWindow) <==>
                 exists k :: 0 <= k < Count(|law.text|, size, overlap) && BlankAt(law.text, k, size, overlap, spaces))
  {
    if !ValidInput(law, size, overlap, spaces) { return Err(InvalidOrEmpty); }
    var rows: seq<Row>, start := [], 0;
    while start < |law.text|
      invariant OnGrid(law, rows, size, overlap) && start == Start(|rows|, size, overlap) && 0 <= start
      invariant start < |law.text|
      invariant rows != [] ==> start + overlap < |law.text|
      invariant forall k :: 0 <= k < |rows| ==> !Blank(rows[k].text, spaces)
      decreases |law.text| - start
    {
      var row := Cut(law, |rows|, start, size, overlap);
      if Blank(row.text, spaces) {
        CountAbove(|law.text|, size, overlap, |rows|, start);
        assert BlankAt(law.text, |rows|, size, overlap, spaces);
        return Err(EmptyWindow);
      }
      GridSnoc(law, rows, row, size, overlap);
      rows := rows + [row];
      if row.end == |law.text| {
        CountIs(|law.text|, size, overlap, |rows| - 1, start);
        NoneBlank(law, rows, size, overlap, spaces);
        return Ok(rows);
      }
      start := start + (size - overlap);
    }
    return Ok(rows);
  }

  lemma GridSnoc(law: Law, rows: seq<Row>, row: Row, size: int, overlap: int)
    requires size > 0 && OnGrid(law, rows, size, overlap)
    requires IsRow(law, row, |rows|, size, overlap)
    ensures OnGrid(law, rows + [row], size, overlap)
  {
  }

  lemma NoneBlank(law: Law, rows: seq<Row>, size: int, overlap: int, spaces: set<char>)
    requires size > 0 && OnGrid(law, rows, size, overlap)
    requires forall k :: 0 <= k < |rows| ==> !Blank(rows[k].text, spaces)
    ensures forall k :: 0 <= k < |rows| ==> !BlankAt(law.text, k, size, overlap, spaces)
  {
    forall k | 0 <= k < |rows| ensures !BlankAt(law.text, k, size, overlap, spaces) {
      assert IsRow(law, rows[k], k, size, overlap);
    }
  }

  lemma {:induction false} StartIs(k: nat, size: int, overlap: int)
    ensures Start(k, size, overlap) == k * (size - overlap)
  {
    if k > 0 {
      StartIs(k - 1, size, overlap);
      MulStep(k - 1, size - overlap);
    }
  }

  /** The first window that reaches the end is the last of the grid. */
  lemma CountIs(n: nat, size: int, overlap: int, k: nat, start: int)
    requires 0 <= overlap < size && start == Start(k, size, overlap) && start + size >= n
    requires k > 0 ==> start + overlap < n
    ensures Count(n, size, overlap) == k + 1
  {
    var step := size - overlap;
    StartIs(k, size, overlap);
    if n <= size {
      if k > 0 { MulGap(0, k, step); }
    } else {
      MulStep(k, step);
      CeilIs(n - overlap, step, k + 1);
    }
  }

  lemma CountAbove(n: nat, size: int, overlap: int, k: nat, start: int)
    requires 0 <= overlap < size && start == Start(k, size, overlap) && n > 0
    requires k > 0 ==> start + overlap < n
    ensures k < Count(n, size, overlap)
  {
    var step := size - overlap;
    StartIs(k, size, overlap);
    if n > size {
      var q := Count(n, size, overlap);
      CeilAtLeast(n - overlap, step);
      if q <= k { MulMono(q, k, step); }
    } else if k > 0 {
      MulGap(0, k, step);
    }
  }

}

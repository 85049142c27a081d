/** Reading a law page by page, each page naming the next by a signed cursor. */
module Paging {
  import opened Common
  import opened Numbers
  import opened Sequences

  const PAGE: nat := 20000

  /** What a cursor is bound to: the release, the document, and the digests of its source and its text. */
  datatype Identity = Identity(release: string, document: string, source: string, fulltext: string)

  /** A keyed digest, taken to be injective, as what was signed. */
  datatype Signature = Signature(identity: Identity, position: string)

  /** A cursor as sent: the position in hexadecimal, and the signature behind the point. */
  datatype Cursor = Cursor(position: string, signature: Signature)

  datatype Document = Document(identity: Identity, text: string)

  datatype Page = Page(text: string, cursor: Option<Cursor>, next: Option<Cursor>, complete: bool)

  datatype Error = FulltextChanged | InvalidCursor

  // ----- positions in hexadecimal -----

  const HEX: string := "0123456789abcdef"

  /** `format(n, "x")`. */
  function Hex(n: nat): string {
    if n < 16 then [HEX[n]] else Hex(n / 16) + [HEX[n % 16]]
  }

  function HexDigit(c: char): Option<nat> {
    if '0' <= c <= '9' then Some(c as int - '0' as int)
    else if 'a' <= c <= 'f' then Some(c as int - 'a' as int + 10)
    else None
  }

  /** `int(s, 16)` on the digits that `format` writes; what else it reads is no position that was signed. */
  function Unhex(s: string): Option<nat> {
    if s == "" then None
    else
      var d := HexDigit(Last(s));
      if d.None? then None
      else if |s| == 1 then d
      else
        var high := Unhex(Front(s));
        if high.None? then None else Some(16 * high.value + d.value)
  }

  lemma HexDigitBack(d: nat)
    requires d < 16
    ensures HexDigit(HEX[d]) == Some(d)
  {
  }

  /** A position is read back as it was written. */
  lemma {:induction false} HexRoundTrip(n: nat)
    ensures Hex(n) != "" && Unhex(Hex(n)) == Some(n)
  {
    if n < 16 {
      HexDigitBack(n);
    } else {
      HexRoundTrip(n / 16);
      HexDigitBack(n % 16);
      assert Front(Hex(n)) == Hex(n / 16) && Last(Hex(n)) == HEX[n % 16];
    }
  }

  // ----- one page -----

  function CursorAt(identity: Identity, offset: nat): Cursor {
    Cursor(Hex(offset), Signature(identity, Hex(offset)))
  }

  /** Where a request starts to read, if its cursor is good for the document. */
  function Offset(doc: Document, cursor: Option<Cursor>): Option<nat> {
    if cursor.None? then Some(0)
    else
      var offset := Unhex(cursor.value.position);
      if offset.None? || !(0 < offset.value < |doc.text|) then None
      else if cursor.value != CursorAt(doc.identity, offset.value) then None
      else offset
  }

  function PageAt(doc: Document, cursor: Option<Cursor>, offset: nat): Page
    requires offset < |doc.text|
  {
    var end := Min(offset + PAGE, |doc.text|);
    Page(doc.text[offset..end], cursor, if end < |doc.text| then Some(CursorAt(doc.identity, end)) else None,
         end == |doc.text|)
  }

  function Read(doc: Document, cursor: Option<Cursor>): Result<Page, Error> {
    if doc.text == "" then Err(FulltextChanged)
    else
      var offset := Offset(doc, cursor);
      if offset.None? then Err(InvalidCursor) else Ok(PageAt(doc, cursor, offset.value))
  }

  /** A cursor is accepted if and only if it was signed for this very release, document, source and text, at a place
      inside the text. */
  lemma AcceptedIff(doc: Document, cursor: Cursor)
    ensures Read(doc, Some(cursor)).Ok? <==>
              exists offset: nat :: 0 < offset < |doc.text| && cursor == CursorAt(doc.identity, offset)
  {
    forall offset: nat | 0 < offset < |doc.text| && cursor == CursorAt(doc.identity, offset)
      ensures Read(doc, Some(cursor)).Ok?
    {
      HexRoundTrip(offset);
    }
  }

  // ----- following the cursors -----

  lemma NextIsAccepted(doc: Document, cursor: Option<Cursor>, offset: nat)
    requires Offset(doc, cursor) == Some(offset) && offset < |doc.text| && offset + PAGE < |doc.text|
    ensures PageAt(doc, cursor, offset).next.Some?
    ensures Offset(doc, PageAt(doc, cursor, offset).next) == Some(offset + PAGE)
  {
    HexRoundTrip(offset + PAGE);
  }

  /** The pages a client gets that follows each page's cursor, from `cursor` on. */
  function Pages(doc: Document, cursor: Option<Cursor>, offset: nat): seq<Page>
    requires Offset(doc, cursor) == Some(offset) && offset < |doc.text|
    decreases |doc.text| - offset
  {
    var page := PageAt(doc, cursor, offset);
    if offset + PAGE >= |doc.text| then [page]
    else
      NextIsAccepted(doc, cursor, offset);
      [page] + Pages(doc, page.next, offset + PAGE)
  }

  function Joined(pages: seq<Page>): string {
    if pages == [] then "" else pages[0].text + Joined(pages[1..])
  }

  /** Each page is what the service answers to the cursor of the one before, and the last one alone has none. */
  ghost predicate Chain(doc: Document, cursor: Option<Cursor>, pages: seq<Page>)
    decreases |pages|
  {
    && pages != [] && Read(doc, cursor) == Ok(pages[0])
    && pages[0].text != "" && |pages[0].text| <= PAGE && pages[0].cursor == cursor
    && (pages[0].complete <==> |pages| == 1) && (pages[0].next.None? <==> |pages| == 1)
    && (|pages| > 1 ==> Chain(doc, pages[0].next, pages[1..]))
  }

  lemma {:induction false} PagesChain(doc: Document, cursor: Option<Cursor>, offset: nat)
    requires Offset(doc, cursor) == Some(offset) && offset < |doc.text|
    ensures Chain(doc, cursor, Pages(doc, cursor, offset))
    decreases |doc.text| - offset
  {
    if offset + PAGE < |doc.text| {
      NextIsAccepted(doc, cursor, offset);
      var page := PageAt(doc, cursor, offset);
      PagesChain(doc, page.next, offset + PAGE);
      assert Pages(doc, cursor, offset)[1..] == Pages(doc, page.next, offset + PAGE);
    }
  }

  lemma FirstPage(doc: Document, cursor: Option<Cursor>, offset: nat)
    requires Offset(doc, cursor) == Some(offset) && offset + PAGE < |doc.text|
    ensures var page := PageAt(doc, cursor, offset);
            && Offset(doc, page.next) == Some(offset + PAGE)
            && Pages(doc, cursor, offset) == [page] + Pages(doc, page.next, offset + PAGE)
            && page.text == doc.text[offset..offset + PAGE]
  {
    NextIsAccepted(doc, cursor, offset);
  }

  lemma OnlyPage(doc: Document, cursor: Option<Cursor>, offset: nat)
    requires Offset(doc, cursor) == Some(offset) && offset < |doc.text| <= offset + PAGE
    ensures Pages(doc, cursor, offset) == [PageAt(doc, cursor, offset)]
    ensures PageAt(doc, cursor, offset).text == doc.text[offset..]
  {
  }

  lemma JoinedStep(page: Page, rest: seq<Page>)
    ensures Joined([page] + rest) == page.text + Joined(rest)
  {
    assert ([page] + rest)[1..] == rest;
  }

  lemma {:induction false} PagesJoin(doc: Document, cursor: Option<Cursor>, offset: nat)
    requires Offset(doc, cursor) == Some(offset) && offset < |doc.text|
    ensures Joined(Pages(doc, cursor, offset)) == doc.text[offset..]
    decreases |doc.text| - offset
  {
    var page := PageAt(doc, cursor, offset);
    if offset + PAGE < |doc.text| {
      FirstPage(doc, cursor, offset);
      PagesJoin(doc, page.next, offset + PAGE);
      JoinedStep(page, Pages(doc, page.next, offset + PAGE));
      SliceTail(doc.text, offset, offset + PAGE);
    } else {
      OnlyPage(doc, cursor, offset);
      JoinedStep(page, []);
    }
  }

  lemma SliceTail(s: string, i: nat, j: nat)
    requires i <= j <= |s|
    ensures s[i..j] + s[j..] == s[i..]
  {
  }

  lemma {:induction false} PagesCount(doc: Document, cursor: Option<Cursor>, offset: nat)
    requires Offset(doc, cursor) == Some(offset) && offset < |doc.text|
    ensures var n := |Pages(doc, cursor, offset)|; n > 0 && (n - 1) * PAGE < |doc.text| - offset <= n * PAGE
    decreases |doc.text| - offset
  {
    if offset + PAGE < |doc.text| {
      FirstPage(doc, cursor, offset);
      PagesCount(doc, PageAt(doc, cursor, offset).next, offset + PAGE);
    } else {
      OnlyPage(doc, cursor, offset);
    }
  }

  /** Following the cursors from the start gives the whole text, in as few pages of at most 20000 characters as can hold
      it, each the answer to the cursor of the one before, and the last alone complete and without a cursor. */
  lemma PagesGiveText(doc: Document)
    requires doc.text != ""
    ensures var pages := Pages(doc, None, 0);
            && Chain(doc, None, pages) && Joined(pages) == doc.text
            && (|pages| - 1) * PAGE < |doc.text| <= |pages| * PAGE
  {
    PagesChain(doc, None, 0);
    PagesJoin(doc, None, 0);
    PagesCount(doc, None, 0);
  }
}

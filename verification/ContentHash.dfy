/** The byte stream that an exact-text content hash digests, and a decoder for it.

    Text fields are their UTF-8 encodings. A stream starts with a domain that names
    the parser version; every variable part carries its length. */
module ContentHash {
  import opened Sequences
  import opened Common

  type byte = x: int | 0 <= x < 256

  type Bytes = seq<byte>

  datatype Level = Part | Chapter | Section | Article | Paragraph | Item | SubItem

  datatype Draft = Draft(number: Bytes, level: Level, path: seq<Bytes>, title: Option<Bytes>, text: Bytes)

  /** The parser versions that keep provision text byte for byte. */
  datatype Exact = V4 | V5

  const LENGTH_LIMIT: nat := 0x1_0000_0000_0000_0000

  function Ascii(s: string): (b: Bytes)
    ensures |b| == |s|
  {
    seq(|s|, i requires 0 <= i < |s| => (s[i] as int) % 256)
  }

  function LevelName(l: Level): string {
    match l
    case Part => "part"
    case Chapter => "chapter"
    case Section => "section"
    case Article => "article"
    case Paragraph => "paragraph"
    case Item => "item"
    case SubItem => "sub_item"
  }

  function Domain(v: Exact): Bytes {
    match v
    case V4 => Ascii("lawyer-agent:legal-provisions:v4") + [0]
    case V5 => Ascii("lawyer-agent:legal-provisions:v5") + [0]
  }

  // ----- encoding -----

  /** `n.to_bytes(width, "big")`. */
  function BigEndian(n: nat, width: nat): (b: Bytes)
    ensures |b| == width
  {
    if width == 0 then [] else BigEndian(n / 256, width - 1) + [n % 256]
  }

  function Named(name: string): Bytes {
    BigEndian(|name|, 4) + Ascii(name)
  }

  function Sized(value: Bytes): Bytes {
    BigEndian(|value|, 8) + value
  }

  function Field(name: string, value: Bytes): Bytes {
    Named(name) + Sized(value)
  }

  function NullableField(name: string, value: Option<Bytes>): Bytes {
    Named(name) + (if value.None? then [0] else [1] + Sized(value.value))
  }

  /** Items one after another. */
  function Many<T>(items: seq<T>, spell: T -> Bytes): Bytes {
    if items == [] then [] else spell(items[0]) + Many(items[1..], spell)
  }

  function PathField(part: Bytes): Bytes {
    Field("structure_path", part)
  }

  function PathFields(path: seq<Bytes>): Bytes {
    Many(path, PathField)
  }

  function DraftHead(d: Draft): Bytes {
    (Ascii("provision") + [0]) + (Field("provision_no", d.number) + Field("level", Ascii(LevelName(d.level))))
  }

  function DraftTail(d: Draft): Bytes {
    NullableField("title", d.title) + Field("full_text", d.text)
  }

  function DraftBytes(d: Draft): Bytes {
    DraftHead(d) + (BigEndian(|d.path|, 8) + (PathFields(d.path) + DraftTail(d)))
  }

  function Preimage(v: Exact, drafts: seq<Draft>): Bytes {
    Domain(v) + (BigEndian(|drafts|, 8) + Many(drafts, DraftBytes))
  }

  /** No length overflows its eight bytes; longer ones raise while hashing. */
  predicate Fits(d: Draft) {
    && |d.number| < LENGTH_LIMIT && |d.path| < LENGTH_LIMIT && |d.text| < LENGTH_LIMIT
    && (d.title.Some? ==> |d.title.value| < LENGTH_LIMIT)
    && forall i :: 0 <= i < |d.path| ==> |d.path[i]| < LENGTH_LIMIT
  }

  predicate AllFit(drafts: seq<Draft>) {
    |drafts| < LENGTH_LIMIT && forall i :: 0 <= i < |drafts| ==> Fits(drafts[i])
  }

  // ----- decoding: a value and the rest of the stream -----

  function Expect(prefix: Bytes, b: Bytes): Option<Bytes> {
    if prefix <= b then Some(b[|prefix|..]) else None
  }

  function FromBigEndian(b: Bytes): nat {
    if b == [] then 0 else FromBigEndian(b[..|b| - 1]) * 256 + b[|b| - 1]
  }

  function TakeCount(b: Bytes): Option<(nat, Bytes)> {
    if |b| < 8 then None else Some((FromBigEndian(b[..8]), b[8..]))
  }

  function TakeSized(b: Bytes): Option<(Bytes, Bytes)> {
    var n := TakeCount(b);
    if n.None? || |n.value.1| < n.value.0 then None
    else Some((n.value.1[..n.value.0], n.value.1[n.value.0..]))
  }

  function TakeField(name: string, b: Bytes): Option<(Bytes, Bytes)> {
    var rest := Expect(Named(name), b);
    if rest.None? then None else TakeSized(rest.value)
  }

  function TakeNullable(name: string, b: Bytes): Option<(Option<Bytes>, Bytes)> {
    var rest := Expect(Named(name), b);
    if rest.None? || rest.value == [] || rest.value[0] > 1 then None
    else if rest.value[0] == 0 then Some((None, rest.value[1..]))
    else
      var sized := TakeSized(rest.value[1..]);
      if sized.None? then None else Some((Some(sized.value.0), sized.value.1))
  }

  function TakeMany<T>(n: nat, b: Bytes, take: Bytes -> Option<(T, Bytes)>): Option<(seq<T>, Bytes)> {
    if n == 0 then Some(([], b))
    else
      var first := take(b);
      if first.None? then None
      else
        var rest := TakeMany(n - 1, first.value.1, take);
        if rest.None? then None else Some(([first.value.0] + rest.value.0, rest.value.1))
  }

  function TakePathField(b: Bytes): Option<(Bytes, Bytes)> {
    TakeField("structure_path", b)
  }

  function LevelOf(name: Bytes): Option<Level> {
    if name == Ascii(LevelName(Part)) then Some(Part)
    else if name == Ascii(LevelName(Chapter)) then Some(Chapter)
    else if name == Ascii(LevelName(Section)) then Some(Section)
    else if name == Ascii(LevelName(Article)) then Some(Article)
    else if name == Ascii(LevelName(Paragraph)) then Some(Paragraph)
    else if name == Ascii(LevelName(Item)) then Some(Item)
    else if name == Ascii(LevelName(SubItem)) then Some(SubItem)
    else None
  }

  function TakeHead(b: Bytes): Option<((Bytes, Level), Bytes)> {
    var start := Expect(Ascii("provision") + [0], b);
    if start.None? then None
    else
      var number := TakeField("provision_no", start.value);
      if number.None? then None
      else
        var name := TakeField("level", number.value.1);
        if name.None? || LevelOf(name.value.0).None? then None
        else Some(((number.value.0, LevelOf(name.value.0).value), name.value.1))
  }

  function TakeTail(b: Bytes): Option<((Option<Bytes>, Bytes), Bytes)> {
    var title := TakeNullable("title", b);
    if title.None? then None
    else
      var text := TakeField("full_text", title.value.1);
      if text.None? then None else Some(((title.value.0, text.value.0), text.value.1))
  }

  function TakeDraft(b: Bytes): Option<(Draft, Bytes)> {
    var head := TakeHead(b);
    if head.None? then None
    else
      var count := TakeCount(head.value.1);
      if count.None? then None
      else
        var path := TakeMany(count.value.0, count.value.1, TakePathField);
        if path.None? then None
        else
          var tail := TakeTail(path.value.1);
          if tail.None? then None
          else Some((Draft(head.value.0.0, head.value.0.1, path.value.0, tail.value.0.0, tail.value.0.1), tail.value.1))
  }

  function Decode(b: Bytes): Option<(Exact, seq<Draft>)> {
    var v := if Domain(V4) <= b then V4 else V5;
    var body := Expect(Domain(v), b);
    if body.None? then None
    else
      var count := TakeCount(body.value);
      if count.None? then None
      else
        var drafts := TakeMany(count.value.0, count.value.1, TakeDraft);
        if drafts.None? || drafts.value.1 != [] then None else Some((v, drafts.value.0))
  }

  // ----- the round trip, part by part -----

  lemma Split(b: Bytes, k: nat)
    requires k <= |b|
    ensures b == b[..k] + b[k..]
  {
  }

  lemma ExpectAfter(prefix: Bytes, rest: Bytes)
    ensures Expect(prefix, prefix + rest) == Some(rest)
  {
    assert (prefix + rest)[|prefix|..] == rest;
  }

  lemma ExpectBack(prefix: Bytes, b: Bytes)
    requires Expect(prefix, b).Some?
    ensures b == prefix + Expect(prefix, b).value
  {
    Split(b, |prefix|);
  }

  ghost function Pow256(k: nat): nat {
    if k == 0 then 1 else 256 * Pow256(k - 1)
  }

  lemma {:induction false} BigEndianRoundTrip(n: nat, width: nat)
    requires n < Pow256(width)
    ensures FromBigEndian(BigEndian(n, width)) == n
  {
    if width > 0 {
      BigEndianRoundTrip(n / 256, width - 1);
      assert BigEndian(n, width)[..width - 1] == BigEndian(n / 256, width - 1);
    }
  }

  lemma {:induction false} FromBigEndianBack(b: Bytes)
    ensures BigEndian(FromBigEndian(b), |b|) == b && FromBigEndian(b) < Pow256(|b|)
  {
    if b != [] {
      FromBigEndianBack(b[..|b| - 1]);
    }
  }

  lemma EightBytes()
    ensures Pow256(8) == LENGTH_LIMIT
  {
    assert Pow256(4) == 0x1_0000_0000;
    assert Pow256(5) == 256 * Pow256(4);
    assert Pow256(6) == 256 * Pow256(5);
    assert Pow256(7) == 256 * Pow256(6);
  }

  lemma CountRoundTrip(n: nat, rest: Bytes)
    requires n < LENGTH_LIMIT
    ensures TakeCount(BigEndian(n, 8) + rest) == Some((n, rest))
  {
    EightBytes();
    BigEndianRoundTrip(n, 8);
    assert (BigEndian(n, 8) + rest)[..8] == BigEndian(n, 8);
  }

  lemma CountBack(b: Bytes)
    requires TakeCount(b).Some?
    ensures TakeCount(b).value.0 < LENGTH_LIMIT
    ensures b == BigEndian(TakeCount(b).value.0, 8) + TakeCount(b).value.1
  {
    EightBytes();
    FromBigEndianBack(b[..8]);
  }

  lemma SizedRoundTrip(value: Bytes, rest: Bytes)
    requires |value| < LENGTH_LIMIT
    ensures TakeSized(Sized(value) + rest) == Some((value, rest))
  {
    CountRoundTrip(|value|, value + rest);
    Regroup(BigEndian(|value|, 8), value, rest);
  }

  lemma SizedBack(b: Bytes)
    requires TakeSized(b).Some?
    ensures |TakeSized(b).value.0| < LENGTH_LIMIT
    ensures b == Sized(TakeSized(b).value.0) + TakeSized(b).value.1
  {
    CountBack(b);
    var n := TakeCount(b).value;
    Split(n.1, n.0);
    Regroup(BigEndian(n.0, 8), n.1[..n.0], n.1[n.0..]);
  }

  lemma FieldRoundTrip(name: string, value: Bytes, rest: Bytes)
    requires |value| < LENGTH_LIMIT
    ensures TakeField(name, Field(name, value) + rest) == Some((value, rest))
  {
    Regroup(Named(name), Sized(value), rest);
    ExpectAfter(Named(name), Sized(value) + rest);
    SizedRoundTrip(value, rest);
  }

  lemma FieldBack(name: string, b: Bytes)
    requires TakeField(name, b).Some?
    ensures |TakeField(name, b).value.0| < LENGTH_LIMIT
    ensures b == Field(name, TakeField(name, b).value.0) + TakeField(name, b).value.1
  {
    ExpectBack(Named(name), b);
    var body := Expect(Named(name), b).value;
    SizedBack(body);
    Regroup(Named(name), Sized(TakeSized(body).value.0), TakeSized(body).value.1);
  }

  lemma NullableRoundTrip(name: string, value: Option<Bytes>, rest: Bytes)
    requires value.Some? ==> |value.value| < LENGTH_LIMIT
    ensures TakeNullable(name, NullableField(name, value) + rest) == Some((value, rest))
  {
    var body := if value.None? then [0] else [1] + Sized(value.value);
    Regroup(Named(name), body, rest);
    ExpectAfter(Named(name), body + rest);
    if value.Some? {
      Regroup([1], Sized(value.value), rest);
      SizedRoundTrip(value.value, rest);
      ExpectAfter([1], Sized(value.value) + rest);
    } else {
      ExpectAfter([0], rest);
    }
  }

  lemma NullableBack(name: string, b: Bytes)
    requires TakeNullable(name, b).Some?
    ensures var r := TakeNullable(name, b).value;
            (r.0.Some? ==> |r.0.value| < LENGTH_LIMIT) && b == NullableField(name, r.0) + r.1
  {
    ExpectBack(Named(name), b);
    var body := Expect(Named(name), b).value;
    Split(body, 1);
    if body[0] == 1 {
      SizedBack(body[1..]);
      var r := TakeSized(body[1..]).value;
      Regroup([1], Sized(r.0), r.1);
      Regroup(Named(name), [1] + Sized(r.0), r.1);
    } else {
      Regroup(Named(name), [0], body[1..]);
    }
  }

  /** What is written for the item is read back as the item, whatever follows. */
  ghost predicate Readable<T>(item: T, spell: T -> Bytes, take: Bytes -> Option<(T, Bytes)>) {
    forall rest :: take(spell(item) + rest) == Some((item, rest))
  }

  /** Whatever is read was written so, and fits. */
  ghost predicate ReadsBack<T>(spell: T -> Bytes, take: Bytes -> Option<(T, Bytes)>, fits: T -> bool) {
    forall b :: take(b).Some? ==> fits(take(b).value.0) && b == spell(take(b).value.0) + take(b).value.1
  }

  lemma {:induction false} ManyRoundTrip<T>(
    items: seq<T>, rest: Bytes, spell: T -> Bytes, take: Bytes -> Option<(T, Bytes)>)
    requires forall i :: 0 <= i < |items| ==> Readable(items[i], spell, take)
    ensures TakeMany(|items|, Many(items, spell) + rest, take) == Some((items, rest))
  {
    if items == [] {
      assert Many(items, spell) + rest == rest;
    } else {
      var others := Many(items[1..], spell);
      Regroup(spell(items[0]), others, rest);
      assert Readable(items[0], spell, take);
      ManyRoundTrip(items[1..], rest, spell, take);
      assert [items[0]] + items[1..] == items;
    }
  }

  lemma {:induction false} ManyBack<T>(
    n: nat, b: Bytes, spell: T -> Bytes, take: Bytes -> Option<(T, Bytes)>, fits: T -> bool)
    requires ReadsBack(spell, take, fits) && TakeMany(n, b, take).Some?
    ensures var r := TakeMany(n, b, take).value;
            && |r.0| == n && b == Many(r.0, spell) + r.1
            && forall i :: 0 <= i < n ==> fits(r.0[i])
  {
    if n == 0 {
      assert b == [] + b;
    } else {
      var first := take(b).value;
      ManyBack(n - 1, first.1, spell, take, fits);
      var others := TakeMany(n - 1, first.1, take).value;
      assert ([first.0] + others.0)[1..] == others.0;
      Regroup(spell(first.0), Many(others.0, spell), others.1);
    }
  }

  lemma PathRoundTrip(path: seq<Bytes>, rest: Bytes)
    requires forall i :: 0 <= i < |path| ==> |path[i]| < LENGTH_LIMIT
    ensures TakeMany(|path|, PathFields(path) + rest, TakePathField) == Some((path, rest))
  {
    forall i | 0 <= i < |path| ensures Readable(path[i], PathField, TakePathField) {
      forall after ensures TakePathField(PathField(path[i]) + after) == Some((path[i], after)) {
        FieldRoundTrip("structure_path", path[i], after);
      }
    }
    ManyRoundTrip(path, rest, PathField, TakePathField);
  }

  predicate ShortEnough(value: Bytes) {
    |value| < LENGTH_LIMIT
  }

  lemma PathBack(n: nat, b: Bytes)
    requires TakeMany(n, b, TakePathField).Some?
    ensures var r := TakeMany(n, b, TakePathField).value;
            && |r.0| == n && b == PathFields(r.0) + r.1
            && forall i :: 0 <= i < n ==> |r.0[i]| < LENGTH_LIMIT
  {
    forall input | TakePathField(input).Some?
      ensures ShortEnough(TakePathField(input).value.0)
      ensures input == PathField(TakePathField(input).value.0) + TakePathField(input).value.1
    {
      FieldBack("structure_path", input);
    }
    ManyBack(n, b, PathField, TakePathField, ShortEnough);
    var r := TakeMany(n, b, TakePathField).value;
    assert forall i :: 0 <= i < n ==> ShortEnough(r.0[i]);
  }

  lemma AsciiDiffers(a: string, b: string, i: nat)
    requires i < |a| && i < |b| && (a[i] as int) % 256 != (b[i] as int) % 256
    ensures Ascii(a) != Ascii(b)
  {
    assert Ascii(a)[i] != Ascii(b)[i];
  }

  lemma LevelRoundTrip(l: Level)
    ensures LevelOf(Ascii(LevelName(l))) == Some(l)
  {
    AsciiDiffers("part", "item", 0);
    AsciiDiffers("chapter", "section", 0);
    AsciiDiffers("chapter", "article", 0);
    AsciiDiffers("section", "article", 0);
    AsciiDiffers("paragraph", "sub_item", 0);
  }

  lemma LevelBack(name: Bytes)
    requires LevelOf(name).Some?
    ensures Ascii(LevelName(LevelOf(name).value)) == name
  {
  }

  lemma HeadRoundTrip(d: Draft, rest: Bytes)
    requires |d.number| < LENGTH_LIMIT
    ensures TakeHead(DraftHead(d) + rest) == Some(((d.number, d.level), rest))
  {
    var level := Ascii(LevelName(d.level));
    var afterNumber := Field("level", level) + rest;
    var start := Ascii("provision") + [0];
    Regroup(start, Field("provision_no", d.number) + Field("level", level), rest);
    Regroup(Field("provision_no", d.number), Field("level", level), rest);
    ExpectAfter(start, Field("provision_no", d.number) + afterNumber);
    FieldRoundTrip("provision_no", d.number, afterNumber);
    FieldRoundTrip("level", level, rest);
    LevelRoundTrip(d.level);
  }

  lemma HeadBack(b: Bytes, d: Draft)
    requires TakeHead(b).Some? && d.number == TakeHead(b).value.0.0 && d.level == TakeHead(b).value.0.1
    ensures |d.number| < LENGTH_LIMIT && b == DraftHead(d) + TakeHead(b).value.1
  {
    var start := Ascii("provision") + [0];
    ExpectBack(start, b);
    var body := Expect(start, b).value;
    FieldBack("provision_no", body);
    var number := TakeField("provision_no", body).value;
    FieldBack("level", number.1);
    var name := TakeField("level", number.1).value;
    LevelBack(name.0);
    Regroup(Field("provision_no", number.0), Field("level", name.0), name.1);
    Regroup(start, Field("provision_no", number.0) + Field("level", name.0), name.1);
  }

  lemma TailRoundTrip(d: Draft, rest: Bytes)
    requires Fits(d)
    ensures TakeTail(DraftTail(d) + rest) == Some(((d.title, d.text), rest))
  {
    var afterTitle := Field("full_text", d.text) + rest;
    Regroup(NullableField("title", d.title), Field("full_text", d.text), rest);
    NullableRoundTrip("title", d.title, afterTitle);
    FieldRoundTrip("full_text", d.text, rest);
  }

  lemma TailBack(b: Bytes, d: Draft)
    requires TakeTail(b).Some? && d.title == TakeTail(b).value.0.0 && d.text == TakeTail(b).value.0.1
    ensures b == DraftTail(d) + TakeTail(b).value.1
    ensures |d.text| < LENGTH_LIMIT && (d.title.Some? ==> |d.title.value| < LENGTH_LIMIT)
  {
    NullableBack("title", b);
    var title := TakeNullable("title", b).value;
    FieldBack("full_text", title.1);
    Regroup(NullableField("title", d.title), Field("full_text", d.text), TakeTail(b).value.1);
  }

  lemma DraftRoundTrip(d: Draft, rest: Bytes)
    requires Fits(d)
    ensures TakeDraft(DraftBytes(d) + rest) == Some((d, rest))
  {
    var afterPath := DraftTail(d) + rest;
    var afterCount := PathFields(d.path) + afterPath;
    DraftAssoc(d, rest);
    HeadRoundTrip(d, BigEndian(|d.path|, 8) + afterCount);
    CountRoundTrip(|d.path|, afterCount);
    PathRoundTrip(d.path, afterPath);
    TailRoundTrip(d, rest);
  }

  lemma DraftAssoc(d: Draft, rest: Bytes)
    ensures DraftBytes(d) + rest
            == DraftHead(d) + (BigEndian(|d.path|, 8) + (PathFields(d.path) + (DraftTail(d) + rest)))
  {
    var h, c, p, t := DraftHead(d), BigEndian(|d.path|, 8), PathFields(d.path), DraftTail(d);
    Regroup(h, c + (p + t), rest);
    Regroup(c, p + t, rest);
    Regroup(p, t, rest);
  }

  lemma DraftBack(b: Bytes)
    requires TakeDraft(b).Some?
    ensures Fits(TakeDraft(b).value.0) && b == DraftBytes(TakeDraft(b).value.0) + TakeDraft(b).value.1
  {
    var (d, rest) := TakeDraft(b).value;
    var head := TakeHead(b).value;
    HeadBack(b, d);
    CountBack(head.1);
    var count := TakeCount(head.1).value;
    PathBack(count.0, count.1);
    var path := TakeMany(count.0, count.1, TakePathField).value;
    TailBack(path.1, d);
    DraftAssoc(d, rest);
  }

  lemma DraftsRoundTrip(drafts: seq<Draft>, rest: Bytes)
    requires forall i :: 0 <= i < |drafts| ==> Fits(drafts[i])
    ensures TakeMany(|drafts|, Many(drafts, DraftBytes) + rest, TakeDraft) == Some((drafts, rest))
  {
    forall i | 0 <= i < |drafts| ensures Readable(drafts[i], DraftBytes, TakeDraft) {
      forall after ensures TakeDraft(DraftBytes(drafts[i]) + after) == Some((drafts[i], after)) {
        DraftRoundTrip(drafts[i], after);
      }
    }
    ManyRoundTrip(drafts, rest, DraftBytes, TakeDraft);
  }

  lemma DraftsBack(n: nat, b: Bytes)
    requires TakeMany(n, b, TakeDraft).Some?
    ensures var r := TakeMany(n, b, TakeDraft).value;
            && |r.0| == n && b == Many(r.0, DraftBytes) + r.1
            && forall i :: 0 <= i < n ==> Fits(r.0[i])
  {
    forall input | TakeDraft(input).Some?
      ensures Fits(TakeDraft(input).value.0)
      ensures input == DraftBytes(TakeDraft(input).value.0) + TakeDraft(input).value.1
    {
      DraftBack(input);
    }
    ManyBack(n, b, DraftBytes, TakeDraft, Fits);
  }

  lemma DomainsDiffer()
    ensures |Domain(V4)| == |Domain(V5)| && Domain(V4) != Domain(V5)
  {
    var a, b := "lawyer-agent:legal-provisions:v4", "lawyer-agent:legal-provisions:v5";
    assert a[31] == '4' && b[31] == '5';
    assert Domain(V4)[31] != Domain(V5)[31];
  }

  /** The stream can be read back: it determines the parser version and every draft, field by field. */
  lemma DecodePreimage(v: Exact, drafts: seq<Draft>)
    requires AllFit(drafts)
    ensures Decode(Preimage(v, drafts)) == Some((v, drafts))
  {
    var body := BigEndian(|drafts|, 8) + Many(drafts, DraftBytes);
    DomainIsRead(v, body);
    CountRoundTrip(|drafts|, Many(drafts, DraftBytes));
    DraftsRoundTrip(drafts, []);
    assert Many(drafts, DraftBytes) + [] == Many(drafts, DraftBytes);
  }

  lemma DomainIsRead(v: Exact, body: Bytes)
    ensures Domain(V4) <= Domain(v) + body <==> v == V4
    ensures Expect(Domain(v), Domain(v) + body) == Some(body)
  {
    DomainsDiffer();
    ExpectAfter(Domain(v), body);
    assert (Domain(v) + body)[..|Domain(v)|] == Domain(v);
  }

  /** And nothing else decodes: the decoder accepts exactly the streams that hashing produces. */
  lemma PreimageDecode(b: Bytes)
    ensures Decode(b).Some? <==>
            exists v, drafts :: AllFit(drafts) && Preimage(v, drafts) == b
    ensures Decode(b).Some? ==> Preimage(Decode(b).value.0, Decode(b).value.1) == b && AllFit(Decode(b).value.1)
  {
    if Decode(b).Some? {
      var v := Decode(b).value.0;
      ExpectBack(Domain(v), b);
      var body := Expect(Domain(v), b).value;
      CountBack(body);
      var count := TakeCount(body).value;
      DraftsBack(count.0, count.1);
      assert Many(Decode(b).value.1, DraftBytes) + [] == Many(Decode(b).value.1, DraftBytes);
      assert Preimage(v, Decode(b).value.1) == b;
    } else if exists v, drafts :: AllFit(drafts) && Preimage(v, drafts) == b {
      var v, drafts :| AllFit(drafts) && Preimage(v, drafts) == b;
      DecodePreimage(v, drafts);
    }
  }

  /** Equal streams come from equal parser versions and equal drafts. */
  lemma PreimageInjective(v: Exact, a: seq<Draft>, w: Exact, b: seq<Draft>)
    requires AllFit(a) && AllFit(b)
    ensures Preimage(v, a) == Preimage(w, b) <==> v == w && a == b
  {
    DecodePreimage(v, a);
    DecodePreimage(w, b);
  }
}

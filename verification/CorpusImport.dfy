/** The controlled import of one version of a legal instrument: hashing, offsets,
    replay and conflict. */
module CorpusImport {
  import opened Common
  import opened ContentHash

  /** The library's text functions: an injective encoding, and the removal of surrounding white space. */
  datatype Text = Text(utf8: string -> Bytes, strip: string -> string) {
    ghost predicate Injective() {
      forall a, b :: utf8(a) == utf8(b) ==> a == b
    }

    /** As of UTF-8: the encoding of a text is that of its parts. */
    ghost predicate Additive() {
      forall a, b :: utf8(a + b) == utf8(a) + utf8(b)
    }

    predicate Blank(s: string) {
      strip(s) == ""
    }
  }

  datatype ProvisionDraft =
    ProvisionDraft(number: string, level: Level, path: seq<string>, title: Option<string>, text: string)

  datatype Metadata = Metadata(
    status: string, publishedOn: Option<int>, effectiveOn: Option<int>, repealedOn: Option<int>,
    lawNumber: Option<string>, sourceRef: string, datasetVersion: string, parserVersion: string)

  datatype Command = Command(
    title: string, authority: string, jurisdiction: string, region: Option<string>, category: string,
    versionLabel: string, metadata: Metadata, provisions: seq<ProvisionDraft>)

  datatype Instrument = Instrument(id: nat, authority: string, region: Option<string>, category: string)

  datatype Version = Version(id: nat, metadata: Metadata, contentHash: Bytes)

  datatype Provision = Provision(
    versionId: nat, number: string, level: Level, path: seq<string>, title: Option<string>, text: string,
    start: nat, end: nat)

  datatype Error = Invalid | AuthorityConflict | CategoryConflict | RegionConflict | VersionConflict

  datatype ImportResult = ImportResult(instrumentId: nat, versionId: nat, replayed: bool)

  /** Instruments by (title, jurisdiction), versions by (instrument, label), provisions by version. */
  datatype Repo = Repo(
    instruments: map<(string, string), Instrument>, versions: map<(nat, string), Version>,
    provisions: map<nat, seq<Provision>>, nextId: nat)

  // ----- content -----

  function ExactOf(parserVersion: string): Option<Exact> {
    if parserVersion == "corpus-docx-v4" then Some(V4)
    else if parserVersion == "corpus-docx-v5" then Some(V5)
    else None
  }

  function EncodePath(path: seq<string>, t: Text): (encoded: seq<Bytes>)
    ensures |encoded| == |path| && forall i :: 0 <= i < |path| ==> encoded[i] == t.utf8(path[i])
  {
    seq(|path|, i requires 0 <= i < |path| => t.utf8(path[i]))
  }

  function Encode(d: ProvisionDraft, t: Text): Draft {
    Draft(t.utf8(d.number), d.level, EncodePath(d.path, t),
          if d.title.Some? then Some(t.utf8(d.title.value)) else None, t.utf8(d.text))
  }

  function EncodeAll(drafts: seq<ProvisionDraft>, t: Text): (encoded: seq<Draft>)
    ensures |encoded| == |drafts| && forall i :: 0 <= i < |drafts| ==> encoded[i] == Encode(drafts[i], t)
  {
    seq(|drafts|, i requires 0 <= i < |drafts| => Encode(drafts[i], t))
  }

  function StrippedBytes(drafts: seq<ProvisionDraft>, t: Text): Bytes {
    if drafts == [] then []
    else StrippedBytes(drafts[..|drafts| - 1], t) + t.utf8(t.strip(drafts[|drafts| - 1].text))
  }

  /** The bytes whose digest, taken to be injective, is the version's content hash. */
  function HashInput(drafts: seq<ProvisionDraft>, parserVersion: string, t: Text): Bytes {
    var exact := ExactOf(parserVersion);
    if exact.Some? then Preimage(exact.value, EncodeAll(drafts, t)) else StrippedBytes(drafts, t)
  }

  function StoredText(d: ProvisionDraft, parserVersion: string, t: Text): string {
    if ExactOf(parserVersion).Some? then d.text else t.strip(d.text)
  }

  function Provisions(versionId: nat, drafts: seq<ProvisionDraft>, parserVersion: string, t: Text): (ps: seq<Provision>)
    ensures |ps| == |drafts|
  {
    if drafts == [] then []
    else
      var d := drafts[|drafts| - 1];
      var before := Provisions(versionId, drafts[..|drafts| - 1], parserVersion, t);
      var start := if before == [] then 0 else before[|before| - 1].end;
      var text := StoredText(d, parserVersion, t);
      before + [Provision(versionId, d.number, d.level, d.path, d.title, text, start, start + |text|)]
  }

  function WholeText(ps: seq<Provision>): string {
    if ps == [] then "" else WholeText(ps[..|ps| - 1]) + ps[|ps| - 1].text
  }

  // ----- the import -----

  predicate ProvisionsValid(drafts: seq<ProvisionDraft>, t: Text) {
    && drafts != []
    && (forall i :: 0 <= i < |drafts| ==> !t.Blank(drafts[i].number) && !t.Blank(drafts[i].text))
    && (forall i, j :: 0 <= i < j < |drafts| ==> drafts[i].number != drafts[j].number)
  }

  predicate CommandValid(c: Command, t: Text) {
    && !t.Blank(c.title) && !t.Blank(c.authority) && !t.Blank(c.jurisdiction) && !t.Blank(c.versionLabel)
    && !t.Blank(c.metadata.sourceRef) && !t.Blank(c.metadata.datasetVersion) && !t.Blank(c.metadata.parserVersion)
    && ProvisionsValid(c.provisions, t)
  }

  predicate VersionMatches(v: Version, c: Command, t: Text) {
    v.metadata == c.metadata && v.contentHash == HashInput(c.provisions, c.metadata.parserVersion, t)
  }

  function Conflict(existing: Instrument, c: Command): Option<Error> {
    if existing.authority != c.authority then Some(AuthorityConflict)
    else if existing.category != c.category then Some(CategoryConflict)
    else if existing.region != c.region then Some(RegionConflict)
    else None
  }

  /** Adds the version and its provisions under a known instrument. */
  function WithVersion(repo: Repo, instrumentId: nat, c: Command, t: Text): Repo {
    var id := repo.nextId;
    var version := Version(id, c.metadata, HashInput(c.provisions, c.metadata.parserVersion, t));
    repo.(versions := repo.versions[(instrumentId, c.versionLabel) := version],
          provisions := repo.provisions[id := Provisions(id, c.provisions, c.metadata.parserVersion, t)],
          nextId := id + 1)
  }

  /** The version part: replay, conflict, or a new version. */
  function Placed(repo: Repo, instrumentId: nat, c: Command, t: Text): (Repo, Result<ImportResult, Error>) {
    if (instrumentId, c.versionLabel) in repo.versions then
      var existing := repo.versions[(instrumentId, c.versionLabel)];
      if VersionMatches(existing, c, t) then (repo, Ok(ImportResult(instrumentId, existing.id, true)))
      else (repo, Err(VersionConflict))
    else (WithVersion(repo, instrumentId, c, t), Ok(ImportResult(instrumentId, repo.nextId, false)))
  }

  function WithInstrument(repo: Repo, c: Command): Repo {
    repo.(instruments := repo.instruments[(c.title, c.jurisdiction) :=
                                            Instrument(repo.nextId, c.authority, c.region, c.category)],
          nextId := repo.nextId + 1)
  }

  function Imported(repo: Repo, c: Command, t: Text): (Repo, Result<ImportResult, Error>) {
    var key := (c.title, c.jurisdiction);
    if !CommandValid(c, t) then (repo, Err(Invalid))
    else if key !in repo.instruments then Placed(WithInstrument(repo, c), repo.nextId, c, t)
    else
      var instrument := repo.instruments[key];
      if Conflict(instrument, c).Some? then (repo, Err(Conflict(instrument, c).value))
      else Placed(repo, instrument.id, c, t)
  }

  /** Identifiers in use lie below the next one. */
  ghost predicate RepoValid(repo: Repo) {
    && (forall k :: k in repo.instruments ==> repo.instruments[k].id < repo.nextId)
    && (forall k :: k in repo.versions ==> k.0 < repo.nextId && repo.versions[k].id < repo.nextId)
    && (forall v :: v in repo.provisions ==> v < repo.nextId)
  }

  /** Everything stored before is stored after, unchanged. */
  ghost predicate Extends(before: Repo, after: Repo) {
    && (forall k :: k in before.instruments ==> k in after.instruments && after.instruments[k] == before.instruments[k])
    && (forall k :: k in before.versions ==> k in after.versions && after.versions[k] == before.versions[k])
    && (forall v :: v in before.provisions ==> v in after.provisions && after.provisions[v] == before.provisions[v])
  }

  ghost predicate Encodable(c: Command, t: Text) {
    AllFit(EncodeAll(c.provisions, t))
  }

  // ----- theorems -----

  lemma EncodeInjective(a: ProvisionDraft, b: ProvisionDraft, t: Text)
    requires t.Injective() && Encode(a, t) == Encode(b, t)
    ensures a == b
  {
    assert EncodePath(a.path, t) == EncodePath(b.path, t);
    forall i | 0 <= i < |a.path| ensures a.path[i] == b.path[i] {
      assert EncodePath(a.path, t)[i] == EncodePath(b.path, t)[i];
    }
  }

  /** Exact parsers hash equal bytes only for equal drafts. */
  lemma ExactHashInjective(a: seq<ProvisionDraft>, b: seq<ProvisionDraft>, parserVersion: string, t: Text)
    requires t.Injective() && ExactOf(parserVersion).Some?
    requires AllFit(EncodeAll(a, t)) && AllFit(EncodeAll(b, t))
    ensures HashInput(a, parserVersion, t) == HashInput(b, parserVersion, t) <==> a == b
  {
    var v := ExactOf(parserVersion).value;
    PreimageInjective(v, EncodeAll(a, t), v, EncodeAll(b, t));
    if EncodeAll(a, t) == EncodeAll(b, t) {
      forall i | 0 <= i < |a| ensures a[i] == b[i] {
        assert EncodeAll(a, t)[i] == EncodeAll(b, t)[i];
        EncodeInjective(a[i], b[i], t);
      }
    }
  }

  /** The stripped texts, one after another. */
  function StrippedText(drafts: seq<ProvisionDraft>, t: Text): string {
    if drafts == [] then "" else StrippedText(drafts[..|drafts| - 1], t) + t.strip(drafts[|drafts| - 1].text)
  }

  lemma {:induction false} StrippedBytesAreText(drafts: seq<ProvisionDraft>, t: Text)
    requires t.Additive()
    ensures StrippedBytes(drafts, t) == t.utf8(StrippedText(drafts, t))
  {
    if drafts == [] {
      assert t.utf8("" + "") == t.utf8("") + t.utf8("") && "" + "" == "";
      assert |t.utf8("")| == |t.utf8("") + t.utf8("")|;
    } else {
      StrippedBytesAreText(drafts[..|drafts| - 1], t);
    }
  }

  /** The older hash runs the texts together: it tells two lists of provisions apart if and only if their joined
      stripped texts differ, whatever their numbers, titles, paths and boundaries are. */
  lemma OlderHashIff(a: seq<ProvisionDraft>, b: seq<ProvisionDraft>, parserVersion: string, t: Text)
    requires t.Injective() && t.Additive() && ExactOf(parserVersion).None?
    ensures HashInput(a, parserVersion, t) == HashInput(b, parserVersion, t) <==>
            StrippedText(a, t) == StrippedText(b, t)
  {
    StrippedBytesAreText(a, t);
    StrippedBytesAreText(b, t);
  }

  /** What a parser's hash can tell of the provisions: everything, or the joined stripped texts. */
  ghost predicate SameContent(a: seq<ProvisionDraft>, b: seq<ProvisionDraft>, parserVersion: string, t: Text) {
    if ExactOf(parserVersion).Some? then a == b else StrippedText(a, t) == StrippedText(b, t)
  }

  lemma HashIff(a: seq<ProvisionDraft>, b: seq<ProvisionDraft>, parserVersion: string, t: Text)
    requires t.Injective() && (ExactOf(parserVersion).None? ==> t.Additive())
    requires ExactOf(parserVersion).Some? ==> AllFit(EncodeAll(a, t)) && AllFit(EncodeAll(b, t))
    ensures HashInput(a, parserVersion, t) == HashInput(b, parserVersion, t) <==> SameContent(a, b, parserVersion, t)
  {
    if ExactOf(parserVersion).Some? {
      ExactHashInjective(a, b, parserVersion, t);
    } else {
      OlderHashIff(a, b, parserVersion, t);
    }
  }

  lemma WithVersionAdds(repo: Repo, instrumentId: nat, c: Command, t: Text)
    requires RepoValid(repo) && instrumentId < repo.nextId && (instrumentId, c.versionLabel) !in repo.versions
    ensures RepoValid(WithVersion(repo, instrumentId, c, t)) && Extends(repo, WithVersion(repo, instrumentId, c, t))
  {
  }

  lemma PlacedAdds(repo: Repo, instrumentId: nat, c: Command, t: Text)
    requires RepoValid(repo) && instrumentId < repo.nextId
    ensures RepoValid(Placed(repo, instrumentId, c, t).0) && Extends(repo, Placed(repo, instrumentId, c, t).0)
  {
    if (instrumentId, c.versionLabel) !in repo.versions { WithVersionAdds(repo, instrumentId, c, t); }
  }

  lemma WithInstrumentAdds(repo: Repo, c: Command)
    requires RepoValid(repo) && (c.title, c.jurisdiction) !in repo.instruments
    ensures RepoValid(WithInstrument(repo, c)) && Extends(repo, WithInstrument(repo, c))
  {
  }

  /** Nothing is stored yet under an instrument that has just been created. */
  lemma NewInstrumentIsEmpty(repo: Repo, c: Command)
    requires RepoValid(repo)
    ensures (repo.nextId, c.versionLabel) !in WithInstrument(repo, c).versions
  {
  }

  /** An import keeps identifiers in order and never changes what is stored; a failed import writes nothing. */
  lemma ImportOnlyAdds(repo: Repo, c: Command, t: Text)
    requires RepoValid(repo)
    ensures RepoValid(Imported(repo, c, t).0) && Extends(repo, Imported(repo, c, t).0)
    ensures Imported(repo, c, t).1.Err? ==> Imported(repo, c, t).0 == repo
  {
    var key := (c.title, c.jurisdiction);
    if CommandValid(c, t) {
      if key in repo.instruments {
        PlacedAdds(repo, repo.instruments[key].id, c, t);
      } else {
        WithInstrumentAdds(repo, c);
        NewInstrumentIsEmpty(repo, c);
        PlacedAdds(WithInstrument(repo, c), repo.nextId, c, t);
      }
    }
  }

  lemma PlacedTwice(repo: Repo, instrumentId: nat, c: Command, t: Text)
    requires Placed(repo, instrumentId, c, t).1.Ok?
    ensures var (after, result) := Placed(repo, instrumentId, c, t);
            && after.instruments == repo.instruments
            && (instrumentId, c.versionLabel) in after.versions
            && VersionMatches(after.versions[(instrumentId, c.versionLabel)], c, t)
            && result.value.instrumentId == instrumentId
            && result.value.versionId == after.versions[(instrumentId, c.versionLabel)].id
  {
  }

  /** What a successful import leaves behind under the command's identity. */
  lemma ImportedIsStored(repo: Repo, c: Command, t: Text)
    requires RepoValid(repo) && Imported(repo, c, t).1.Ok?
    ensures var (after, result) := Imported(repo, c, t);
            && (c.title, c.jurisdiction) in after.instruments
            && var instrument := after.instruments[(c.title, c.jurisdiction)];
            && Conflict(instrument, c) == None
            && result.value.instrumentId == instrument.id
            && (instrument.id, c.versionLabel) in after.versions
            && VersionMatches(after.versions[(instrument.id, c.versionLabel)], c, t)
            && result.value.versionId == after.versions[(instrument.id, c.versionLabel)].id
  {
    var key := (c.title, c.jurisdiction);
    if key in repo.instruments {
      PlacedTwice(repo, repo.instruments[key].id, c, t);
    } else {
      PlacedTwice(WithInstrument(repo, c), repo.nextId, c, t);
    }
  }

  /** Importing the same command again replays the first import and writes nothing. */
  lemma ImportIsIdempotent(repo: Repo, c: Command, t: Text)
    requires RepoValid(repo) && Imported(repo, c, t).1.Ok?
    ensures var (after, result) := Imported(repo, c, t);
            Imported(after, c, t) == (after, Ok(ImportResult(result.value.instrumentId, result.value.versionId, true)))
  {
    ImportedIsStored(repo, c, t);
  }

  /** Two commands for one version that the service cannot tell apart. */
  ghost predicate SameVersion(a: Command, b: Command, t: Text) {
    && a.authority == b.authority && a.category == b.category && a.region == b.region && a.metadata == b.metadata
    && SameContent(a.provisions, b.provisions, a.metadata.parserVersion, t)
  }

  /** A valid command for a version that is there never writes; it is replayed if and only if instrument and version
      agree with it. */
  lemma ThereIsRead(repo: Repo, c: Command, t: Text)
    requires CommandValid(c, t) && VersionThere(repo, c)
    ensures var instrument := repo.instruments[(c.title, c.jurisdiction)];
            var version := repo.versions[(instrument.id, c.versionLabel)];
            var (after, result) := Imported(repo, c, t);
            && after == repo && (result.Ok? <==> Conflict(instrument, c).None? && VersionMatches(version, c, t))
            && (result.Ok? ==> result.value == ImportResult(instrument.id, version.id, true))
  {
  }

  /** After a successful import by any parser, another command for the same version is replayed if and only if it agrees
      in everything the service compares, and is refused otherwise; neither writes anything. */
  lemma ReplayIff(repo: Repo, first: Command, second: Command, t: Text)
    requires RepoValid(repo) && t.Injective()
    requires Imported(repo, first, t).1.Ok? && CommandValid(second, t)
    requires if ExactOf(first.metadata.parserVersion).Some? then Encodable(first, t) && Encodable(second, t)
             else t.Additive()
    requires second.title == first.title && second.jurisdiction == first.jurisdiction
    requires second.versionLabel == first.versionLabel
    ensures var after := Imported(repo, first, t).0;
            && (Imported(after, second, t).1.Ok? <==> SameVersion(first, second, t))
            && Imported(after, second, t).0 == after
  {
    ImportedIsStored(repo, first, t);
    ThereIsRead(Imported(repo, first, t).0, second, t);
    if second.metadata == first.metadata {
      HashIff(first.provisions, second.provisions, first.metadata.parserVersion, t);
    }
  }

  /** For an exact parser this means: if and only if it is the same command. */
  lemma ReplayIffIdentical(repo: Repo, first: Command, second: Command, t: Text)
    requires RepoValid(repo) && t.Injective()
    requires Imported(repo, first, t).1.Ok?
    requires CommandValid(second, t) && Encodable(first, t) && Encodable(second, t)
    requires ExactOf(first.metadata.parserVersion).Some?
    requires second.title == first.title && second.jurisdiction == first.jurisdiction
    requires second.versionLabel == first.versionLabel
    ensures var after := Imported(repo, first, t).0;
            && (Imported(after, second, t).1.Ok? <==> second == first)
            && Imported(after, second, t).0 == after
  {
    ReplayIff(repo, first, second, t);
  }

  /** For an older parser a different command can be replayed: here two provisions imported as two, and then as one. */
  lemma OlderImportReplaysOther(repo: Repo, first: Command, t: Text) returns (second: Command)
    requires RepoValid(repo) && t.Injective() && t.Additive() && Imported(repo, first, t).1.Ok?
    requires ExactOf(first.metadata.parserVersion).None? && |first.provisions| == 2
    requires t.strip(StrippedText(first.provisions, t)) == StrippedText(first.provisions, t)
    ensures second != first && |second.provisions| == 1
    ensures var (after, result) := Imported(repo, first, t);
            && var again := ImportResult(result.value.instrumentId, result.value.versionId, true);
            && Imported(after, second, t) == (after, Ok(again))
  {
    var a, b := first.provisions[0], first.provisions[1];
    var joined := StrippedText(first.provisions, t);
    second := first.(provisions := [a.(text := joined)]);
    StrippedTwo(a, b, t);
    assert first.provisions == [a, b];
    StrippedOne(second.provisions[0], t);
    ReplayIff(repo, first, second, t);
    ImportedIsStored(repo, first, t);
    ThereIsRead(Imported(repo, first, t).0, second, t);
  }

  lemma StrippedOne(d: ProvisionDraft, t: Text)
    ensures StrippedText([d], t) == t.strip(d.text)
  {
    assert [d][..0] == [];
  }

  lemma StrippedTwo(a: ProvisionDraft, b: ProvisionDraft, t: Text)
    ensures StrippedText([a, b], t) == t.strip(a.text) + t.strip(b.text)
  {
    assert [a, b][..1] == [a];
    StrippedOne(a, t);
  }

  /** The provision is the cut of the whole text that its offsets name. */
  ghost predicate CutFrom(whole: string, p: Provision) {
    p.start <= p.end <= |whole| && whole[p.start..p.end] == p.text
  }

  /** The offsets cut the provisions out of their joined text, without gap or overlap. */
  ghost predicate Tiles(ps: seq<Provision>) {
    && (forall i :: 0 <= i < |ps| ==> CutFrom(WholeText(ps), ps[i]))
    && (forall i :: 0 < i < |ps| ==> ps[i].start == ps[i - 1].end)
    && (ps != [] ==> ps[0].start == 0)
    && |WholeText(ps)| == if ps == [] then 0 else ps[|ps| - 1].end
  }

  lemma {:induction false} ProvisionsTile(versionId: nat, drafts: seq<ProvisionDraft>, parserVersion: string, t: Text)
    ensures Tiles(Provisions(versionId, drafts, parserVersion, t))
    decreases |drafts|
  {
    if drafts != [] {
      var d := drafts[|drafts| - 1];
      var before := Provisions(versionId, drafts[..|drafts| - 1], parserVersion, t);
      ProvisionsTile(versionId, drafts[..|drafts| - 1], parserVersion, t);
      var start := |WholeText(before)|;
      var text := StoredText(d, parserVersion, t);
      var p := Provision(versionId, d.number, d.level, d.path, d.title, text, start, start + |text|);
      assert Provisions(versionId, drafts, parserVersion, t) == before + [p];
      AppendTiles(before, p);
    }
  }

  /** The provision is made from the draft: under the version, with the draft's number, place and title, and its text as
      an exact parser keeps it or an older one strips it. */
  ghost predicate MadeFrom(p: Provision, d: ProvisionDraft, versionId: nat, parserVersion: string, t: Text) {
    && p.versionId == versionId && p.number == d.number && p.level == d.level && p.path == d.path && p.title == d.title
    && p.text == if ExactOf(parserVersion).Some? then d.text else t.strip(d.text)
  }

  /** Provision i is made from draft i. */
  lemma {:induction false} ProvisionsKeepText(
    versionId: nat, drafts: seq<ProvisionDraft>, parserVersion: string, t: Text, i: nat)
    requires i < |drafts|
    ensures MadeFrom(Provisions(versionId, drafts, parserVersion, t)[i], drafts[i], versionId, parserVersion, t)
    decreases |drafts|
  {
    if i < |drafts| - 1 { ProvisionsKeepText(versionId, drafts[..|drafts| - 1], parserVersion, t, i); }
  }

  /** The label is stored already for the command's instrument. */
  ghost predicate VersionThere(repo: Repo, c: Command) {
    && (c.title, c.jurisdiction) in repo.instruments
    && (repo.instruments[(c.title, c.jurisdiction)].id, c.versionLabel) in repo.versions
  }

  /** Where nothing was stored under the version, its provisions are: one from each draft, in order, tiling their
      text. */
  ghost predicate ProvisionsStored(before: Repo, after: Repo, versionId: nat, c: Command, t: Text) {
    && versionId !in before.provisions && after.provisions.Keys == before.provisions.Keys + {versionId}
    && var stored := after.provisions[versionId];
    && |stored| == |c.provisions| && Tiles(stored)
    && forall i :: 0 <= i < |stored| ==>
         MadeFrom(stored[i], c.provisions[i], versionId, c.metadata.parserVersion, t)
  }

  /** The version was stored before and nothing is written, or it was not and now is, with all its provisions and under
      the instrument, and nothing else. */
  ghost predicate Stored(before: Repo, after: Repo, result: ImportResult, c: Command, t: Text) {
    && (result.replayed <==> VersionThere(before, c))
    && if result.replayed then after == before
       else && ProvisionsStored(before, after, result.versionId, c, t)
            && after.versions.Keys == before.versions.Keys + {(result.instrumentId, c.versionLabel)}
            && after.instruments.Keys == before.instruments.Keys + {(c.title, c.jurisdiction)}
  }

  /** What a successful import writes. */
  lemma ImportStores(repo: Repo, c: Command, t: Text)
    ensures var (after, result) := Imported(repo, c, t);
            RepoValid(repo) && result.Ok? ==> Stored(repo, after, result.value, c, t)
  {
    if RepoValid(repo) && Imported(repo, c, t).1.Ok? {
      if (c.title, c.jurisdiction) in repo.instruments {
        KnownInstrumentStores(repo, c, t);
      } else {
        NewInstrumentStores(repo, c, t);
      }
    }
  }

  lemma KnownInstrumentStores(repo: Repo, c: Command, t: Text)
    requires RepoValid(repo) && Imported(repo, c, t).1.Ok? && (c.title, c.jurisdiction) in repo.instruments
    ensures Stored(repo, Imported(repo, c, t).0, Imported(repo, c, t).1.value, c, t)
  {
    var id := repo.instruments[(c.title, c.jurisdiction)].id;
    var (after, result) := Imported(repo, c, t);
    assert (after, result) == Placed(repo, id, c, t);
    assert repo.instruments.Keys + {(c.title, c.jurisdiction)} == repo.instruments.Keys;
    if VersionThere(repo, c) {
      assert after == repo && result.value.replayed;
    } else {
      PlacedStores(repo, repo, id, c, t);
    }
  }

  lemma NewInstrumentStores(repo: Repo, c: Command, t: Text)
    requires RepoValid(repo) && Imported(repo, c, t).1.Ok? && (c.title, c.jurisdiction) !in repo.instruments
    ensures Stored(repo, Imported(repo, c, t).0, Imported(repo, c, t).1.value, c, t)
  {
    NewInstrumentIsEmpty(repo, c);
    WithInstrumentAdds(repo, c);
    var with := WithInstrument(repo, c);
    assert Imported(repo, c, t) == Placed(with, repo.nextId, c, t);
    PlacedStores(repo, with, repo.nextId, c, t);
  }

  lemma PlacedStores(before: Repo, repo: Repo, instrumentId: nat, c: Command, t: Text)
    requires RepoValid(repo) && (instrumentId, c.versionLabel) !in repo.versions
    requires repo.provisions == before.provisions && repo.versions == before.versions
    ensures var (after, result) := Placed(repo, instrumentId, c, t);
            && result.Ok? && !result.value.replayed && result.value.instrumentId == instrumentId
            && ProvisionsStored(before, after, result.value.versionId, c, t)
            && after.versions.Keys == before.versions.Keys + {(instrumentId, c.versionLabel)}
            && after.instruments == repo.instruments
  {
    var id := repo.nextId;
    ProvisionsTile(id, c.provisions, c.metadata.parserVersion, t);
    forall i | 0 <= i < |c.provisions|
      ensures MadeFrom(Provisions(id, c.provisions, c.metadata.parserVersion, t)[i], c.provisions[i], id,
                       c.metadata.parserVersion, t)
    {
      ProvisionsKeepText(id, c.provisions, c.metadata.parserVersion, t, i);
    }
  }

  /** The stored instrument has the command's authority, category and region; a new one always does. */
  ghost predicate InstrumentAgrees(repo: Repo, c: Command) {
    (c.title, c.jurisdiction) in repo.instruments ==>
      var instrument := repo.instruments[(c.title, c.jurisdiction)];
      instrument.authority == c.authority && instrument.category == c.category && instrument.region == c.region
  }

  /** An import fails if and only if the command is invalid, the stored instrument is another one, or the stored version
      differs; the error says which. */
  lemma ImportFailsIff(repo: Repo, c: Command, t: Text)
    requires RepoValid(repo)
    ensures var result, instruments := Imported(repo, c, t).1, repo.instruments;
            && (result == Err(Invalid) <==> !CommandValid(c, t))
            && (result in {Err(AuthorityConflict), Err(CategoryConflict), Err(RegionConflict)} <==>
                  CommandValid(c, t) && !InstrumentAgrees(repo, c))
            && (result == Err(VersionConflict) <==>
                  && CommandValid(c, t) && InstrumentAgrees(repo, c) && VersionThere(repo, c)
                  && !VersionMatches(repo.versions[(instruments[(c.title, c.jurisdiction)].id, c.versionLabel)], c, t))
  {
    if (c.title, c.jurisdiction) !in repo.instruments { NewInstrumentIsEmpty(repo, c); }
  }

  lemma AppendTiles(before: seq<Provision>, p: Provision)
    requires Tiles(before) && p.start == |WholeText(before)| && p.end == p.start + |p.text|
    ensures Tiles(before + [p])
  {
    AppendCut(before, p);
    var ps := before + [p];
    forall i | 0 < i < |ps| ensures ps[i].start == ps[i - 1].end {
      if i < |before| { assert ps[i] == before[i] && ps[i - 1] == before[i - 1]; }
    }
  }

  lemma AppendCut(before: seq<Provision>, p: Provision)
    requires forall i :: 0 <= i < |before| ==> CutFrom(WholeText(before), before[i])
    requires p.start == |WholeText(before)| && p.end == p.start + |p.text|
    ensures var ps := before + [p];
            && |WholeText(ps)| == p.end
            && forall i :: 0 <= i < |ps| ==> CutFrom(WholeText(ps), ps[i])
  {
    var ps := before + [p];
    assert ps[..|ps| - 1] == before;
    var whole := WholeText(before);
    assert WholeText(ps) == whole + p.text;
    forall i | 0 <= i < |ps| ensures CutFrom(WholeText(ps), ps[i]) {
      if i < |before| {
        assert CutFrom(whole, before[i]);
        assert (whole + p.text)[ps[i].start..ps[i].end] == whole[ps[i].start..ps[i].end];
      }
    }
  }
}

/** The import as the program runs it: a hasher fed piece by piece, a cursor over the
    provisions, and a repository that is written in place. */
module CorpusImportService {
  import opened Sequences
  import opened Common
  import opened ContentHash
  import opened CorpusImport

  /** A hash object, as the bytes it has been fed. */
  class Hasher {
    var fed: Bytes

    constructor ()
      ensures fed == []
    {
      fed := [];
    }

    method Update(data: Bytes)
      modifies this
      ensures fed == old(fed) + data
    {
      fed := fed + data;
    }

    method UpdateField(name: string, value: Bytes)
      modifies this
      ensures fed == old(fed) + Field(name, value)
    {
      Update(BigEndian(|name|, 4));
      Update(Ascii(name));
      Update(BigEndian(|value|, 8));
      Update(value);
      ghost var a, b := BigEndian(|name|, 4), BigEndian(|value|, 8);
      Regroup(old(fed), a, Ascii(name));
      Regroup(old(fed) + Named(name), b, value);
      Regroup(old(fed), Named(name), Sized(value));
    }

    method UpdateNullableField(name: string, value: Option<Bytes>)
      modifies this
      ensures fed == old(fed) + NullableField(name, value)
    {
      Update(BigEndian(|name|, 4));
      Update(Ascii(name));
      Regroup(old(fed), BigEndian(|name|, 4), Ascii(name));
      if value.None? {
        Update([0]);
        Regroup(old(fed), Named(name), [0]);
        return;
      }
      Update([1]);
      ghost var flagged := fed;
      Update(BigEndian(|value.value|, 8));
      Update(value.value);
      Regroup(flagged, BigEndian(|value.value|, 8), value.value);
      Regroup(old(fed) + Named(name), [1], Sized(value.value));
      Regroup(old(fed), Named(name), [1] + Sized(value.value));
    }

    method UpdateDraft(d: Draft)
      modifies this
      ensures fed == old(fed) + DraftBytes(d)
    {
      Update(Ascii("provision") + [0]);
      UpdateField("provision_no", d.number);
      UpdateField("level", Ascii(LevelName(d.level)));
      ghost var number, level := Field("provision_no", d.number), Field("level", Ascii(LevelName(d.level)));
      Regroup(old(fed) + (Ascii("provision") + [0]), number, level);
      Regroup(old(fed), Ascii("provision") + [0], number + level);
      Update(BigEndian(|d.path|, 8));
      ghost var counted := fed;
      assert d.path[..0] == [] && counted + [] == counted;
      for i := 0 to |d.path|
        invariant fed == counted + PathFields(d.path[..i])
      {
        UpdateField("structure_path", d.path[i]);
        Regroup(counted, PathFields(d.path[..i]), PathField(d.path[i]));
        ManySnoc(d.path, i, PathField);
      }
      assert d.path[..|d.path|] == d.path;
      UpdateNullableField("title", d.title);
      UpdateField("full_text", d.text);
      Regroup(counted + PathFields(d.path), NullableField("title", d.title), Field("full_text", d.text));
      Regroup(counted, PathFields(d.path), DraftTail(d));
      Regroup(old(fed) + DraftHead(d), BigEndian(|d.path|, 8), PathFields(d.path) + DraftTail(d));
      Regroup(old(fed), DraftHead(d), BigEndian(|d.path|, 8) + (PathFields(d.path) + DraftTail(d)));
    }
  }

  lemma {:induction false} ManySnoc<T>(items: seq<T>, i: nat, spell: T -> Bytes)
    requires i < |items|
    ensures Many(items[..i + 1], spell) == Many(items[..i], spell) + spell(items[i])
  {
    if i == 0 {
      assert items[..1] == [items[0]] && [items[0]][1..] == [] && items[..0] == [];
      assert Many(items[..1], spell) == spell(items[0]) + [];
    } else {
      assert items[..i + 1][1..] == items[1..][..i] && items[..i][1..] == items[1..][..i - 1];
      ManySnoc(items[1..], i - 1, spell);
      Regroup(spell(items[0]), Many(items[1..][..i - 1], spell), spell(items[i]));
    }
  }

  method HashContent(drafts: seq<ProvisionDraft>, parserVersion: string, t: Text) returns (digested: Bytes)
    ensures digested == HashInput(drafts, parserVersion, t)
  {
    var hasher := new Hasher();
    var exact := ExactOf(parserVersion);
    if exact.Some? {
      hasher.Update(Domain(exact.value));
      hasher.Update(BigEndian(|drafts|, 8));
      ghost var head := hasher.fed;
      ghost var encoded := EncodeAll(drafts, t);
      assert [] + Domain(exact.value) == Domain(exact.value);
      assert encoded[..0] == [] && head + [] == head;
      for i := 0 to |drafts|
        invariant hasher.fed == head + Many(encoded[..i], DraftBytes)
      {
        hasher.UpdateDraft(Encode(drafts[i], t));
        Regroup(head, Many(encoded[..i], DraftBytes), DraftBytes(encoded[i]));
        ManySnoc(encoded, i, DraftBytes);
      }
      assert encoded[..|drafts|] == encoded;
      Regroup(Domain(exact.value), BigEndian(|drafts|, 8), Many(encoded, DraftBytes));
    } else {
      for i := 0 to |drafts|
        invariant hasher.fed == StrippedBytes(drafts[..i], t)
      {
        assert drafts[..i + 1][..i] == drafts[..i];
        hasher.Update(t.utf8(t.strip(drafts[i].text)));
      }
      assert drafts[..|drafts|] == drafts;
    }
    return hasher.fed;
  }

  method DeriveProvisions(versionId: nat, drafts: seq<ProvisionDraft>, parserVersion: string, t: Text)
    returns (derived: seq<Provision>)
    ensures derived == Provisions(versionId, drafts, parserVersion, t)
  {
    derived := [];
    var cursor := 0;
    for i := 0 to |drafts|
      invariant derived == Provisions(versionId, drafts[..i], parserVersion, t)
      invariant cursor == if derived == [] then 0 else derived[|derived| - 1].end
    {
      assert drafts[..i + 1][..i] == drafts[..i];
      var d := drafts[i];
      var text := StoredText(d, parserVersion, t);
      var start := cursor;
      cursor := start + |text|;
      derived := derived + [Provision(versionId, d.number, d.level, d.path, d.title, text, start, cursor)];
    }
    assert drafts[..|drafts|] == drafts;
  }

  method ValidateProvisions(drafts: seq<ProvisionDraft>, t: Text) returns (valid: bool)
    ensures valid <==> ProvisionsValid(drafts, t)
  {
    if drafts == [] { return false; }
    var numbers: set<string> := {};
    for i := 0 to |drafts|
      invariant forall j :: 0 <= j < i ==> !t.Blank(drafts[j].number) && !t.Blank(drafts[j].text)
      invariant forall n :: n in numbers <==> exists j :: 0 <= j < i && drafts[j].number == n
      invariant forall j, k :: 0 <= j < k < i ==> drafts[j].number != drafts[k].number
    {
      if t.Blank(drafts[i].number) || t.Blank(drafts[i].text) || drafts[i].number in numbers { return false; }
      numbers := numbers + {drafts[i].number};
    }
    return true;
  }

  class Repository {
    var instruments: map<(string, string), Instrument>
    var versions: map<(nat, string), Version>
    var provisions: map<nat, seq<Provision>>
    var nextId: nat

    function View(): Repo
      reads this
    {
      Repo(instruments, versions, provisions, nextId)
    }

    method FreshId() returns (id: nat)
      modifies this`nextId
      ensures id == old(nextId) && nextId == id + 1
    {
      id := nextId;
      nextId := nextId + 1;
    }

    method ImportVersion(c: Command, t: Text) returns (result: Result<ImportResult, Error>)
      modifies this
      ensures (View(), result) == Imported(old(View()), c, t)
      ensures old(RepoValid(View())) && result.Ok? ==> Stored(old(View()), View(), result.value, c, t)
    {
      ImportStores(View(), c, t);
      var drafts := ValidateProvisions(c.provisions, t);
      if t.Blank(c.title) || t.Blank(c.authority) || t.Blank(c.jurisdiction) || t.Blank(c.versionLabel)
        || t.Blank(c.metadata.sourceRef) || t.Blank(c.metadata.datasetVersion)
        || t.Blank(c.metadata.parserVersion) || !drafts
      {
        return Err(Invalid);
      }
      var key := (c.title, c.jurisdiction);
      if key !in instruments {
        var id := FreshId();
        instruments := instruments[key := Instrument(id, c.authority, c.region, c.category)];
      } else if instruments[key].authority != c.authority {
        return Err(AuthorityConflict);
      } else if instruments[key].category != c.category {
        return Err(CategoryConflict);
      } else if instruments[key].region != c.region {
        return Err(RegionConflict);
      }
      result := PlaceVersion(instruments[key].id, c, t);
    }

    method PlaceVersion(instrumentId: nat, c: Command, t: Text) returns (result: Result<ImportResult, Error>)
      modifies this
      ensures (View(), result) == Placed(old(View()), instrumentId, c, t)
    {
      var key := (instrumentId, c.versionLabel);
      var hash := HashContent(c.provisions, c.metadata.parserVersion, t);
      if key in versions {
        if versions[key].metadata == c.metadata && versions[key].contentHash == hash {
          return Ok(ImportResult(instrumentId, versions[key].id, true));
        }
        return Err(VersionConflict);
      }
      var id := FreshId();
      var derived := DeriveProvisions(id, c.provisions, c.metadata.parserVersion, t);
      versions := versions[key := Version(id, c.metadata, hash)];
      provisions := provisions[id := derived];
      return Ok(ImportResult(instrumentId, id, false));
    }
  }
}

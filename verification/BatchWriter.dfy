/** The writer that puts records into numbered files in a staging directory, one file a batch. */
module BatchWriter {
  import opened Sequences
  import opened Common
  import opened Packing

  /** What is reported of a finished batch; the digest is taken to be injective, and is the bytes it was fed. */
  datatype Batch = Batch(file: nat, rows: nat, bytes: nat, digest: string)

  datatype Raised = TooLarge | SyncFailed | FileExists | ReadbackFailed

  type Outcome = Option<Raised>  // none when nothing was raised

  class Writer {
    const maxBytes: int
    var handle: Option<nat>
    var size: nat
    var count: nat
    var digest: string
    var batches: seq<Batch>
    var files: map<nat, string>

    ghost var closed: seq<seq<string>>  // the records of the finished batches
    ghost var current: seq<string>      // the records of the open file
    ghost var broken: bool              // a file could not be synced

    ghost predicate Valid()
      reads this
    {
      && Stored(files, batches, closed)
      && (forall f :: f in files ==> 1 <= f <= |batches| + 1)
      && Fits(closed, maxBytes) && (current != [] ==> |Joined(current)| <= maxBytes)
      && (|batches| + 1 in files <==> handle.Some? || broken)
      && (handle.Some? ==>
            && !broken && handle.value == |batches| + 1 && current != []
            && files[|batches| + 1] == Joined(current)
            && size == |Joined(current)| && count == |current| && digest == Joined(current))
      && (handle.None? ==> current == [])
      && (handle.None? && !broken ==> size == 0 && count == 0 && digest == "")
    }

    /** The batches so far, the open one last. */
    ghost function Groups(): seq<seq<string>>
      reads this
    {
      WithOpen(closed, current)
    }

    constructor (maxBytes: int)
      ensures Valid() && this.maxBytes == maxBytes && Groups() == [] && closed == [] && handle.None? && !broken
    {
      this.maxBytes := maxBytes;
      handle, size, count, digest, batches, files := None, 0, 0, "", [], map[];
      closed, current, broken := [], [], false;
    }

    /** Finishes the open file. When it cannot be synced it is not reported, and its counts stay behind. */
    method Close(syncFails: bool) returns (raised: Outcome)
      requires Valid()
      modifies this
      ensures Valid() && handle.None?
      ensures old(handle.None?) ==> raised.None? && unchanged(this)
      ensures old(handle.Some?) ==> (raised == if syncFails then Some(SyncFailed) else None) && broken == syncFails
      ensures files == old(files)
      ensures closed == if old(handle.Some?) && !syncFails then old(Groups()) else old(closed)
    {
      if handle.None? { return None; }
      var name := handle.value;
      handle := None;
      if syncFails {
        broken, current := true, [];
        return Some(SyncFailed);
      }
      StoredMore(files, batches, closed, current);
      batches := batches + [Batch(name, count, size, digest)];
      closed, current := closed + [current], [];
      size, count, digest := 0, 0, "";
      return None;
    }

    /** Adds one record, in a new file if the open one has no room for it. */
    method Add(raw: string, syncFails: bool) returns (raised: Outcome)
      requires Valid()
      modifies this
      ensures Valid()
      ensures raised.None? ==> Groups() == AddTo(old(Groups()), old(handle.Some?), raw, maxBytes) && handle.Some?
      ensures raised == Some(TooLarge) <==> |raw| > maxBytes
      ensures raised == Some(TooLarge) ==> unchanged(this)
      ensures raised == Some(FileExists) <==> |raw| <= maxBytes && old(broken)
      ensures raised == Some(FileExists) ==> unchanged(this)
      ensures raised == Some(SyncFailed) <==>
                |raw| <= maxBytes && old(handle.Some?) && syncFails && old(size) + |raw| > maxBytes
      ensures raised == Some(SyncFailed) ==> closed == old(closed) && files == old(files)
      ensures broken <==> old(broken) || raised == Some(SyncFailed)
      ensures raised != Some(ReadbackFailed)
    {
      if |raw| > maxBytes { return Some(TooLarge); }
      AddToOpen(closed, current, raw, maxBytes);
      if handle.Some? && size + |raw| > maxBytes {
        raised := Close(syncFails);
        if raised.Some? { return; }
      }
      assert [] + [raw] == [raw];
      raised := Append(raw);
    }

    /** Writes a record that fits, to a new file when none is open. */
    method Append(raw: string) returns (raised: Outcome)
      requires Valid() && |raw| <= maxBytes && (handle.Some? ==> size + |raw| <= maxBytes)
      modifies this
      ensures Valid() && broken == old(broken)
      ensures raised == if old(broken) then Some(FileExists) else None
      ensures raised.Some? ==> unchanged(this)
      ensures raised.None? ==> handle.Some? && closed == old(closed) && current == old(current) + [raw]
    {
      if handle.None? {
        var name := |batches| + 1;
        if name in files { return Some(FileExists); }
        handle := Some(name);
        files := files[name := ""];
      }
      StoredAfterWrite(files, batches, closed, files[handle.value] + raw);
      JoinedSnoc(current, raw);
      files := files[handle.value := files[handle.value] + raw];
      digest := digest + raw;
      size := size + |raw|;
      count := count + 1;
      current := current + [raw];
      return None;
    }

    /** Reads every reported file back by lines. */
    method Verify() returns (raised: Outcome)
      requires forall i :: 0 <= i < |batches| ==> batches[i].file in files
      ensures raised.None? <==>
              forall i :: 0 <= i < |batches| ==>
                var b, content := batches[i], files[batches[i].file];
                content == b.digest && |content| == b.bytes && |Lines(content)| == b.rows
      ensures raised.Some? ==> raised == Some(ReadbackFailed)
    {
      for i := 0 to |batches|
        invariant forall j :: 0 <= j < i ==> ReadsBack(files[batches[j].file], batches[j])
      {
        var ok := ReadBack(files[batches[i].file], batches[i]);
        if !ok { return Some(ReadbackFailed); }
      }
      return None;
    }
  }

  function Report(i: nat, group: seq<string>): Batch {
    Batch(i + 1, |group|, |Joined(group)|, Joined(group))
  }

  function WithOpen(closed: seq<seq<string>>, current: seq<string>): seq<seq<string>> {
    if current == [] then closed else closed + [current]
  }

  /** File i holds the records of a finished batch, and is reported as such. */
  ghost predicate StoredAt(files: map<nat, string>, batch: Batch, group: seq<string>, i: nat) {
    batch == Report(i, group) && i + 1 in files && files[i + 1] == Joined(group)
  }

  ghost predicate Stored(files: map<nat, string>, batches: seq<Batch>, closed: seq<seq<string>>) {
    |batches| == |closed| && forall i :: 0 <= i < |batches| ==> StoredAt(files, batches[i], closed[i], i)
  }

  lemma StoredMore(files: map<nat, string>, batches: seq<Batch>, closed: seq<seq<string>>, current: seq<string>)
    requires Stored(files, batches, closed) && |batches| + 1 in files && files[|batches| + 1] == Joined(current)
    ensures Stored(files, batches + [Report(|batches|, current)], closed + [current])
  {
  }

  lemma StoredAfterWrite(files: map<nat, string>, batches: seq<Batch>, closed: seq<seq<string>>, content: string)
    requires Stored(files, batches, closed)
    ensures Stored(files[|batches| + 1 := content], batches, closed)
  {
    forall i | 0 <= i < |batches| ensures StoredAt(files[|batches| + 1 := content], batches[i], closed[i], i) {
      assert StoredAt(files, batches[i], closed[i], i);
    }
  }

  /** Where a record goes: into the open batch, or into a new one after the finished ones. */
  lemma AddToOpen(closed: seq<seq<string>>, current: seq<string>, raw: string, maxBytes: int)
    ensures AddTo(WithOpen(closed, current), current != [], raw, maxBytes) ==
            if current != [] && |Joined(current)| + |raw| <= maxBytes then closed + [current + [raw]]
            else WithOpen(closed, current) + [[raw]]
  {
    if current != [] { assert Front(closed + [current]) == closed; }
  }

  predicate ReadsBack(content: string, b: Batch) {
    content == b.digest && |content| == b.bytes && |Lines(content)| == b.rows
  }

  method ReadBack(content: string, b: Batch) returns (ok: bool)
    ensures ok <==> ReadsBack(content, b)
  {
    var digest, count, size := "", 0, 0;
    var lines := Lines(content);
    for i := 0 to |lines|
      invariant digest == Joined(lines[..i]) && count == i && size == |digest|
    {
      assert lines[..i + 1] == lines[..i] + [lines[i]];
      JoinedSnoc(lines[..i], lines[i]);
      digest := digest + lines[i];
      count := count + 1;
      size := size + |lines[i]|;
    }
    assert lines[..|lines|] == lines;
    JoinedLines(content);
    ok := count == b.rows && size == b.bytes && digest == b.digest;
  }

  /** The lines of a file are its content. */
  lemma {:induction false} JoinedLines(s: string)
    ensures Joined(Lines(s)) == s
  {
    if s != "" {
      var n := FirstLine(s);
      JoinedLines(s[n..]);
      assert s[..n] + s[n..] == s;
    }
  }

  /** Batches of whole lines are read back as reported. */
  lemma ReportReadsBack(i: nat, group: seq<string>)
    requires forall k :: 0 <= k < |group| ==> IsLine(group[k])
    ensures ReadsBack(Joined(group), Report(i, group))
  {
    LinesOfJoined(group);
  }

  /** Writes all the records, closes, and reads everything back; the first thing raised ends it. */
  method WriteAll(records: seq<string>, maxBytes: int, syncFails: seq<bool>) returns (w: Writer, raised: Outcome)
    requires |syncFails| == |records| + 1 && AllLines(records)
    ensures fresh(w) && w.Valid() && w.maxBytes == maxBytes
    ensures raised.None? ==>
              && w.handle.None? && AllFit(records, maxBytes) && |w.batches| == |Packed(records, maxBytes)|
              && forall i :: 0 <= i < |w.batches| ==>
                   FileHolds(w.files, w.batches[i], Packed(records, maxBytes)[i], i + 1)
    ensures raised == Some(TooLarge) ==> !AllFit(records, maxBytes)
    ensures raised == Some(SyncFailed) ==> true in syncFails
    ensures raised != Some(FileExists) && raised != Some(ReadbackFailed)
  {
    w, raised := AddAll(records, maxBytes, syncFails);
    if raised.Some? { return; }
    raised := w.Close(syncFails[|records|]);
    if raised.Some? { return; }
    PackedLines(records, maxBytes);
    forall i | 0 <= i < |w.batches| ensures FileHolds(w.files, w.batches[i], Packed(records, maxBytes)[i], i + 1) {
      assert StoredAt(w.files, w.batches[i], Packed(records, maxBytes)[i], i);
    }
    StoredReadsBack(w.files, w.batches, w.closed);
    raised := w.Verify();
  }

  /** File n holds the records one after another, and is reported with their number, their length and their digest. */
  ghost predicate FileHolds(files: map<nat, string>, batch: Batch, records: seq<string>, n: nat) {
    && n in files && files[n] == Joined(records) && batch.file == n && batch.rows == |records|
    && batch.bytes == |files[n]| && batch.digest == files[n]
  }

  ghost predicate AllLines(records: seq<string>) {
    forall i :: 0 <= i < |records| ==> IsLine(records[i])
  }

  predicate AllFit(records: seq<string>, maxBytes: int) {
    forall i :: 0 <= i < |records| ==> |records[i]| <= maxBytes
  }

  method AddAll(records: seq<string>, maxBytes: int, syncFails: seq<bool>) returns (w: Writer, raised: Outcome)
    requires |syncFails| == |records| + 1
    ensures fresh(w) && w.Valid() && w.maxBytes == maxBytes
    ensures raised.None? ==> w.Groups() == Packed(records, maxBytes) && !w.broken && AllFit(records, maxBytes)
    ensures raised == Some(TooLarge) ==> !AllFit(records, maxBytes)
    ensures raised == Some(SyncFailed) ==> true in syncFails
    ensures raised != Some(FileExists) && raised != Some(ReadbackFailed)
  {
    w := new Writer(maxBytes);
    for i := 0 to |records|
      invariant fresh(w) && w.Valid() && w.maxBytes == maxBytes && !w.broken
      invariant w.Groups() == Packed(records[..i], maxBytes) && (w.handle.Some? <==> i > 0)
      invariant forall j :: 0 <= j < i ==> |records[j]| <= maxBytes
    {
      PackedNext(records, i, maxBytes, w.handle.Some?);
      raised := w.Add(records[i], syncFails[i]);
      if raised.Some? { return; }
    }
    assert records[..|records|] == records;
    return w, None;
  }

  lemma PackedNext(records: seq<string>, i: nat, maxBytes: int, open: bool)
    requires i < |records| && (open <==> i > 0)
    ensures Packed(records[..i + 1], maxBytes) == AddTo(Packed(records[..i], maxBytes), open, records[i], maxBytes)
  {
    assert Front(records[..i + 1]) == records[..i] && Last(records[..i + 1]) == records[i];
  }

  ghost predicate GroupLines(groups: seq<seq<string>>) {
    forall i :: 0 <= i < |groups| ==> AllLines(groups[i])
  }

  lemma StoredReadsBack(files: map<nat, string>, batches: seq<Batch>, closed: seq<seq<string>>)
    requires Stored(files, batches, closed) && GroupLines(closed)
    ensures forall i :: 0 <= i < |batches| ==> batches[i].file in files && ReadsBack(files[batches[i].file], batches[i])
  {
    forall i | 0 <= i < |batches| ensures batches[i].file in files && ReadsBack(files[batches[i].file], batches[i]) {
      assert StoredAt(files, batches[i], closed[i], i) && AllLines(closed[i]);
      ReportReadsBack(i, closed[i]);
    }
  }

  lemma {:induction false} PackedLines(records: seq<string>, maxBytes: int)
    requires AllLines(records)
    ensures GroupLines(Packed(records, maxBytes))
  {
    if records != [] {
      PackedLines(Front(records), maxBytes);
      AddLines(Packed(Front(records), maxBytes), Last(records), maxBytes);
    }
  }

  lemma AddLines(groups: seq<seq<string>>, raw: string, maxBytes: int)
    requires GroupLines(groups) && IsLine(raw)
    ensures GroupLines(AddTo(groups, true, raw, maxBytes))
  {
    var more := AddTo(groups, true, raw, maxBytes);
    forall i | 0 <= i < |more| ensures AllLines(more[i]) {
      if i < |groups| { assert AllLines(groups[i]); }
    }
  }
}

/** The import of a release against a failing service and a mortal process. */
module WindowImportRun {
  import opened Common
  import opened Faults
  import opened Tables
  import opened WindowImport

  datatype Outcome = Going | Stopped | Refused | Mismatch | Published

  class World {
    var collection: Option<Collection>
    var progress: Option<Progress>
    var receipt: Option<Receipt>
    var nextCollection: nat
    var faults: seq<Fault>

    ghost predicate Consistent()
      reads this
    {
      Sound(collection, progress, receipt)
    }

    /** The state belongs to another release, or was written by another program, library, snapshot or target. */
    ghost predicate Conflicts(release: Release, setup: Setup)
      reads this
    {
      || (progress.Some? && (progress.value.release != release || progress.value.setup != setup))
      || (collection.Some? && collection.value.release != release)
    }

    /** An import of `p.release` is under way: its collection is there and no receipt is out. */
    ghost predicate UnderWay(p: Progress)
      reads this
    {
      && Consistent() && receipt == None
      && collection.Some? && ProgressSound(p, collection.value)
    }

    constructor (faults: seq<Fault>)
      ensures Consistent() && collection == None && progress == None && receipt == None && this.faults == faults
    {
      collection, progress, receipt := None, None, None;
      nextCollection := 0;
      this.faults := faults;
    }

    method NextFault() returns (fault: Fault)
      modifies this`faults
      ensures old(faults) == [] ==> fault.reply == Fine && faults == []
    {
      if faults == [] { return Fault(Fine, {}, true); }
      fault, faults := faults[0], faults[1..];
    }

    /** A call that changes nothing the program reads back. */
    method Call() returns (reply: Reply)
      modifies this`faults
      ensures old(faults) == [] ==> reply == Fine && faults == []
    {
      var fault := NextFault();
      reply := fault.reply;
    }

    /** Moves the old receipt aside. */
    method RetireReceipt() returns (reply: Reply)
      requires Consistent()
      modifies this`faults, this`receipt
      ensures Consistent() && (receipt == None || receipt == old(receipt))
      ensures reply == Fine ==> receipt == None
      ensures old(faults) == [] ==> reply == Fine && faults == []
    {
      var fault := NextFault();
      reply := fault.reply;
      if reply == Fine || (reply == Dead && fault.durable) { receipt := None; }
    }

    method CreateCollection(release: Release) returns (reply: Reply)
      requires Consistent() && collection == None && DistinctIds(release.rows)
      modifies this`faults, this`collection, this`nextCollection
      ensures Consistent() && receipt == None
      ensures collection == None || (collection.Some? && collection.value.release == release)
      ensures reply == Fine ==> collection.Some?
      ensures old(faults) == [] ==> reply == Fine && faults == []
    {
      var fault := NextFault();
      reply := fault.reply;
      if reply == Fine || fault.durable {
        collection := Some(Collection(release, nextCollection, map[]));
        nextCollection := nextCollection + 1;
      }
    }

    method SaveProgress(p: Progress) returns (reply: Reply)
      requires Consistent() && collection.Some? && ProgressSound(p, collection.value)
      modifies this`faults, this`progress
      ensures Consistent() && (progress == Some(p) || progress == old(progress))
      ensures reply == Fine ==> progress == Some(p)
      ensures old(faults) == [] ==> reply == Fine && faults == []
    {
      var fault := NextFault();
      reply := fault.reply;
      if reply == Fine || (reply == Dead && fault.durable) { progress := Some(p); }
    }

    /** Sends the next batch; a failed request has applied an arbitrary part of it. */
    method UpsertNext(p: Progress) returns (reply: Reply)
      requires UnderWay(p) && progress == Some(p) && |p.batches| < |Batches(p.release.rows)|
      modifies this`faults, this`collection
      ensures UnderWay(p)
      ensures reply == Fine ==>
                UnderWay(p.(batches := p.batches + [Batches(p.release.rows)[|p.batches|]]))
      ensures old(faults) == [] ==> reply == Fine && faults == []
    {
      var fault := NextFault();
      reply := fault.reply;
      var c := collection.value;
      var batch := Batches(p.release.rows)[|p.batches|];
      var applied := if reply == Fine then IdSet(batch) else fault.applied;
      UpsertBatchSound(p, c, applied);
      collection := Some(c.(table := Upserted(c.table, batch, applied)));
    }

    /** Writes the receipt in one replacement. */
    method PublishReceipt(r: Receipt) returns (reply: Reply)
      requires Consistent() && collection.Some? && ReceiptSound(r, collection.value)
      modifies this`faults, this`receipt
      ensures Consistent() && (receipt == Some(r) || receipt == old(receipt))
      ensures reply == Fine ==> receipt == Some(r)
      ensures old(faults) == [] ==> reply == Fine && faults == []
    {
      var fault := NextFault();
      reply := fault.reply;
      if reply == Fine || (reply == Dead && fault.durable) { receipt := Some(r); }
    }

    /** The remaining batches, each checkpointed once it is acknowledged. */
    method ImportBatches(start: Progress, batches: seq<seq<Row>>) returns (outcome: Outcome, p: Progress)
      requires UnderWay(start) && progress == Some(start) && batches == Batches(start.release.rows)
      modifies this`faults, this`collection, this`progress
      ensures Consistent() && receipt == None && collection.Some? && outcome in {Going, Stopped}
      ensures outcome == Going ==>
                UnderWay(p) && progress == Some(p) && p.release == start.release && |p.batches| == |batches|
      ensures old(faults) == [] ==> outcome == Going && faults == []
    {
      p := start;
      for i := 0 to |batches|
        invariant UnderWay(p) && progress == Some(p) && p.release == start.release
        invariant |p.batches| == if i < |start.batches| then |start.batches| else i
        invariant old(faults) == [] ==> faults == []
      {
        if i < |p.batches| {
          if p.batches[i] != batches[i] { return Mismatch, p; }
        } else {
          var reply := UpsertNext(p);
          if reply != Fine { return Stopped, p; }
          p := p.(batches := p.batches + [batches[i]], status := Importing);
          reply := SaveProgress(p);
          if reply != Fine { return Stopped, p; }
        }
      }
      outcome := Going;
    }

    /** Reads every batch back and counts, which forces the collection to equal the release. */
    method VerifyBatches(p: Progress, batches: seq<seq<Row>>) returns (outcome: Outcome)
      requires UnderWay(p) && batches == Batches(p.release.rows) && |p.batches| == |batches|
      modifies this`faults
      ensures outcome in {Going, Stopped}
      ensures outcome == Going ==> Exactly(collection.value.table, p.release.rows)
      ensures old(faults) == [] ==> outcome == Going && faults == []
    {
      ghost var rows := p.release.rows;
      AllBatchesIncluded(p, collection.value);
      var count := 0;
      for i := 0 to |batches|
        invariant count == Upto(rows, i) && Includes(collection.value.table, rows[..count])
        invariant old(faults) == [] ==> faults == []
      {
        var reply := Call();
        if reply != Fine { return Stopped; }
        IncludesStep(collection.value.table, rows, i);
        BatchIsSlice(rows, i);
        PrefixIncluded(collection.value.table, rows, Upto(rows, i + 1));
        var found := BatchFound(collection.value.table, batches[i]);
        if !found { return Mismatch; }
        count := count + |batches[i]|;
      }
      assert rows[..count] == rows;
      var reply := Call();
      if reply != Fine { return Stopped; }
      if !(|collection.value.table| == count == |p.release.rows|) { return Mismatch; }
      InclusionAndCountForceEquality(collection.value.table, rows);
      outcome := Going;
    }

    /** `verify_rows`: every row of the batch is there and unchanged. */
    static method BatchFound(table: Table, batch: seq<Row>) returns (found: bool)
      ensures found <==> Includes(table, batch)
    {
      for i := 0 to |batch|
        invariant Includes(table, batch[..i])
      {
        assert batch[..i + 1] == batch[..i] + [batch[i]];
        if batch[i].id !in table || table[batch[i].id] != batch[i] { return false; }
      }
      assert batch[..|batch|] == batch;
      return true;
    }

    /** One start on whatever earlier runs left. A receipt is out only while the collection equals the release it
        names; the run refuses nothing but the state of another release or setup, and without failures it
        publishes. */
    method Run(release: Release, setup: Setup) returns (outcome: Outcome)
      requires Consistent() && DistinctIds(release.rows)
      modifies this`faults, this`collection, this`progress, this`receipt, this`nextCollection
      ensures Consistent()
      ensures outcome in {Stopped, Refused, Published}
      ensures outcome == Published ==>
                && receipt.Some? && receipt.value.release == release
                && Exactly(collection.value.table, release.rows)
      ensures outcome == Refused ==> old(Conflicts(release, setup)) && collection == old(collection)
      ensures old(faults) == [] ==> outcome == if old(Conflicts(release, setup)) then Refused else Published
    {
      if progress.Some? && (progress.value.release != release || progress.value.setup != setup) { return Refused; }
      if receipt.Some? {
        var reply := RetireReceipt();
        if reply != Fine { return Stopped; }
      }
      if collection.Some? {
        if collection.value.release != release { return Refused; }
      } else {
        var reply := CreateCollection(release);
        if reply != Fine { return Stopped; }
      }
      outcome := Resume(release, setup);
    }

    /** From the collection on: checkpoint, import, verify, publish. */
    method Resume(release: Release, setup: Setup) returns (outcome: Outcome)
      requires Consistent() && receipt == None && collection.Some? && collection.value.release == release
      modifies this`faults, this`collection, this`progress, this`receipt
      ensures Consistent() && outcome in {Stopped, Published}
      ensures outcome == Published ==>
                && receipt.Some? && receipt.value.release == release
                && Exactly(collection.value.table, release.rows)
      ensures old(faults) == [] ==> outcome == Published
    {
      var p := Progress(release, setup, collection.value.id, [], Importing);
      if progress.Some? {
        if progress.value.collectionId != collection.value.id { return Mismatch; }
        p := progress.value;
      }
      assert release.rows[..Upto(release.rows, 0)] == [];
      var reply := SaveProgress(p);
      if reply != Fine { return Stopped; }
      var batches := CollectBatches(release.rows);
      outcome, p := ImportBatches(p, batches);
      if outcome != Going { return; }
      reply := Call();
      if reply != Fine { return Stopped; }
      p := p.(status := Verifying);
      reply := SaveProgress(p);
      if reply != Fine { return Stopped; }
      outcome := VerifyBatches(p, batches);
      if outcome != Going { return; }
      reply := PublishReceipt(Receipt(release, p.collectionId, |release.rows|));
      if reply != Fine { return Stopped; }
      reply := SaveProgress(p.(status := ReadyStatus));
      outcome := if reply == Fine then Published else Stopped;
    }

    /** Any number of starts, each for any release under any setup and stopped wherever the schedule says. */
    method Campaign(releases: seq<Release>, setups: seq<Setup>) returns (outcomes: seq<Outcome>)
      requires Consistent() && |setups| == |releases|
      requires forall i :: 0 <= i < |releases| ==> DistinctIds(releases[i].rows)
      modifies this`faults, this`collection, this`progress, this`receipt, this`nextCollection
      ensures Consistent() && |outcomes| == |releases| && Mismatch !in outcomes
      ensures receipt.Some? ==> collection.Some? && Exactly(collection.value.table, receipt.value.release.rows)
    {
      outcomes := [];
      for i := 0 to |releases|
        invariant Consistent() && |outcomes| == i && Mismatch !in outcomes
      {
        var outcome := Run(releases[i], setups[i]);
        outcomes := outcomes + [outcome];
      }
    }
  }

  lemma PrefixIncluded(table: Table, rows: seq<Row>, k: nat)
    requires Includes(table, rows) && k <= |rows|
    ensures Includes(table, rows[..k])
  {
  }
}

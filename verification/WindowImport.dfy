/** The checkpointed import of a verified release, which publishes a receipt only
    after it has read every row back: what its state files, its receipt and the
    collection may look like between two effects. */
module WindowImport {
  import opened Numbers
  import opened Common
  import opened Tables

  const BATCH_ROWS := 128

  /** A release, standing for the digest that names it. */
  datatype Release = Release(name: string, rows: seq<Row>)

  datatype Collection = Collection(release: Release, id: nat, table: Table)

  datatype Status = Importing | Verifying | ReadyStatus

  /** What else a checkpoint is bound to: digests of the program, its library, the source snapshot and the target. */
  type Setup = string

  /** The checkpoint: one digest, taken to be injective, for each batch written so far. */
  datatype Progress = Progress(
    release: Release, setup: Setup, collectionId: nat, batches: seq<seq<Row>>, status: Status)

  datatype Receipt = Receipt(release: Release, collectionId: nat, rows: nat)

  // ----- batches -----

  function Batches(rows: seq<Row>): (batches: seq<seq<Row>>)
    ensures |batches| == (|rows| + BATCH_ROWS - 1) / BATCH_ROWS
    decreases |rows|
  {
    if rows == [] then []
    else [rows[..Min(BATCH_ROWS, |rows|)]] + Batches(rows[Min(BATCH_ROWS, |rows|)..])
  }

  /** How many rows the first k batches hold. */
  function Upto(rows: seq<Row>, k: nat): nat {
    Min(k * BATCH_ROWS, |rows|)
  }

  /** Batch k is the next slice of the rows: the batches tile the release. */
  lemma {:induction false} BatchIsSlice(rows: seq<Row>, k: nat)
    requires k < |Batches(rows)|
    ensures Upto(rows, k) < Upto(rows, k + 1)
    ensures Batches(rows)[k] == rows[Upto(rows, k)..Upto(rows, k + 1)]
    decreases k
  {
    if k > 0 {
      var rest := rows[Min(BATCH_ROWS, |rows|)..];
      BatchIsSlice(rest, k - 1);
    }
  }

  /** The generator: full batches as rows arrive, then what is left. */
  method CollectBatches(rows: seq<Row>) returns (batches: seq<seq<Row>>)
    ensures batches == Batches(rows)
  {
    batches := [];
    var batch: seq<Row> := [];
    for i := 0 to |rows|
      invariant |batch| < BATCH_ROWS && i == |batches| * BATCH_ROWS + |batch|
      invariant batch == rows[|batches| * BATCH_ROWS..i]
      invariant |batches| <= |Batches(rows)| && batches == Batches(rows)[..|batches|]
    {
      ExtendSlice(rows, |batches| * BATCH_ROWS, i);
      batch := batch + [rows[i]];
      if |batch| == BATCH_ROWS {
        NextBatch(rows, |batches|);
        batches := batches + [batch];
        batch := [];
      }
    }
    if batch != [] {
      NextBatch(rows, |batches|);
      batches := batches + [batch];
    }
    AllTaken(rows, |batches|);
  }

  lemma ExtendSlice(rows: seq<Row>, from: nat, to: nat)
    requires from <= to < |rows|
    ensures rows[from..to] + [rows[to]] == rows[from..to + 1]
  {
  }

  lemma AllTaken(rows: seq<Row>, k: nat)
    requires |rows| <= k * BATCH_ROWS && k <= |Batches(rows)|
    ensures Batches(rows)[..k] == Batches(rows)
  {
  }

  lemma NextBatch(rows: seq<Row>, k: nat)
    requires k * BATCH_ROWS < |rows|
    ensures k < |Batches(rows)|
    ensures Batches(rows)[..k + 1] == Batches(rows)[..k] + [rows[Upto(rows, k)..Upto(rows, k + 1)]]
  {
    BatchIsSlice(rows, k);
  }

  // ----- the crash invariant -----

  /** One writer: the collection holds rows of its release only. */
  ghost predicate CollectionSound(c: Collection) {
    DistinctIds(c.release.rows) && Own(c.table, c.release.rows) && c.table.Keys <= IdSet(c.release.rows)
  }

  /** The checkpoint names batches of its release whose rows are all in its collection. */
  ghost predicate ProgressSound(p: Progress, c: Collection) {
    && c.id == p.collectionId && c.release == p.release
    && |p.batches| <= |Batches(p.release.rows)|
    && p.batches == Batches(p.release.rows)[..|p.batches|]
    && IdSet(p.release.rows[..Upto(p.release.rows, |p.batches|)]) <= c.table.Keys
  }

  /** A receipt is out only while the collection equals its release. */
  ghost predicate ReceiptSound(r: Receipt, c: Collection) {
    && c.id == r.collectionId && c.release == r.release
    && Exactly(c.table, r.release.rows) && r.rows == |r.release.rows|
  }

  ghost predicate Sound(collection: Option<Collection>, progress: Option<Progress>, receipt: Option<Receipt>) {
    && (collection.Some? ==> CollectionSound(collection.value))
    && (progress.Some? ==> collection.Some? && ProgressSound(progress.value, collection.value))
    && (receipt.Some? ==> collection.Some? && ReceiptSound(receipt.value, collection.value))
  }

  // ----- how the program's own moves keep it -----

  lemma UpsertBatchSound(p: Progress, c: Collection, applied: set<string>)
    requires CollectionSound(c) && ProgressSound(p, c) && |p.batches| < |Batches(p.release.rows)|
    ensures var batch := Batches(p.release.rows)[|p.batches|];
            var c' := c.(table := Upserted(c.table, batch, applied));
            && CollectionSound(c') && ProgressSound(p, c')
            && (IdSet(batch) <= applied ==> ProgressSound(p.(batches := p.batches + [batch]), c'))
  {
    var rows, k := p.release.rows, |p.batches|;
    BatchIsSlice(rows, k);
    NextBatch(rows, k);
    UpsertSliceIds(c.table, rows, Upto(rows, k), Upto(rows, k + 1), applied);
  }

  lemma UpsertSliceIds(table: Table, rows: seq<Row>, from: nat, to: nat, applied: set<string>)
    requires DistinctIds(rows) && Own(table, rows) && table.Keys <= IdSet(rows) && from <= to <= |rows|
    requires IdSet(rows[..from]) <= table.Keys
    ensures var after := Upserted(table, rows[from..to], applied);
            && Own(after, rows) && after.Keys <= IdSet(rows) && IdSet(rows[..from]) <= after.Keys
            && (IdSet(rows[from..to]) <= applied ==> IdSet(rows[..to]) <= after.Keys)
  {
    UpsertKeepsOwn(table, rows, from, to, applied);
    DistinctSlice(rows, from, to);
    IdSetConcat(rows[..to], rows[to..]);
    assert rows == rows[..to] + rows[to..];
  }

  /** With every batch checkpointed, every row reads back as it was sent. */
  lemma AllBatchesIncluded(p: Progress, c: Collection)
    requires CollectionSound(c) && ProgressSound(p, c) && |p.batches| == |Batches(p.release.rows)|
    ensures Includes(c.table, p.release.rows) && |c.table| == |p.release.rows|
  {
    var rows := p.release.rows;
    assert rows[..Upto(rows, |p.batches|)] == rows;
    forall i | 0 <= i < |rows| ensures rows[i].id in c.table { IdSetIndex(rows, i); }
    InclusionAndCountForceEquality(c.table, rows);
  }

  /** Reading back batch after batch reads back a growing prefix. */
  lemma IncludesStep(table: Table, rows: seq<Row>, k: nat)
    requires k < |Batches(rows)|
    ensures Includes(table, rows[..Upto(rows, k + 1)]) <==>
            Includes(table, rows[..Upto(rows, k)]) && Includes(table, Batches(rows)[k])
  {
    BatchIsSlice(rows, k);
    var from, to := Upto(rows, k), Upto(rows, k + 1);
    assert forall i :: 0 <= i < from ==> rows[..to][i] == rows[..from][i];
    assert forall i :: 0 <= i < to - from ==> Batches(rows)[k][i] == rows[..to][from + i];
    assert forall i :: from <= i < to ==> rows[..to][i] == Batches(rows)[k][i - from];
  }
}

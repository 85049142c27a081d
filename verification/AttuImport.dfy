/** The write-ahead import of exported rows into a table whose upsert may apply any
    part of a request and then fail: what is on disk, what is in the table, and
    what a restart checks before it goes on. */
module AttuImport {
  import opened Numbers
  import opened Sequences
  import opened Common
  import opened Tables

  const REQUEST_ROWS := 256
  const ATTEMPTS := 3

  datatype Status = Created | Running | Paused | Failed | DataVerified

  /** The group about to be written; the digest of its ids is taken to be injective. */
  datatype Pending = Pending(fileIndex: nat, rowOffset: nat, count: nat, ids: seq<string>)

  datatype State = State(
    binding: string, status: Status, fileIndex: nat, rowOffset: nat, acknowledged: nat, verifiedFiles: nat,
    requests: nat, pending: Option<Pending>)

  function Flatten(batches: seq<seq<Row>>): seq<Row> {
    if batches == [] then [] else Flatten(batches[..|batches| - 1]) + batches[|batches| - 1]
  }

  /** The source files laid end to end: `starts[f]` is the position of file f's first row in `rows`. */
  datatype Layout = Layout(batches: seq<seq<Row>>, rows: seq<Row>, starts: seq<nat>)

  ghost predicate FileAt(l: Layout, f: nat)
    requires f < |l.batches| && |l.starts| == |l.batches| + 1
  {
    && l.starts[f] + |l.batches[f]| == l.starts[f + 1] <= |l.rows|
    && l.rows[l.starts[f]..l.starts[f + 1]] == l.batches[f]
  }

  ghost predicate Placed(l: Layout) {
    && |l.starts| == |l.batches| + 1 && l.starts[0] == 0 && l.starts[|l.batches|] == |l.rows|
    && (forall f :: 0 <= f < |l.batches| ==> FileAt(l, f))
  }

  ghost predicate LaidOut(l: Layout) {
    Placed(l) && DistinctIds(l.rows)
  }

  ghost function LayoutOf(batches: seq<seq<Row>>): (l: Layout)
    ensures Placed(l) && l.batches == batches && l.rows == Flatten(batches)
  {
    if batches == [] then Layout(batches, [], [0])
    else
      var last := |batches| - 1;
      var rest := LayoutOf(batches[..last]);
      var l := Layout(batches, rest.rows + batches[last], rest.starts + [|rest.rows| + |batches[last]|]);
      assert batches == batches[..last] + [batches[last]];
      LayoutGrows(rest, batches[last], l);
      l
  }

  lemma LayoutGrows(rest: Layout, batch: seq<Row>, l: Layout)
    requires Placed(rest)
    requires l == Layout(rest.batches + [batch], rest.rows + batch, rest.starts + [|rest.rows| + |batch|])
    ensures Placed(l)
  {
    forall f | 0 <= f < |l.batches| ensures FileAt(l, f) {
      if f < |rest.batches| {
        assert FileAt(rest, f);
        assert l.rows[l.starts[f]..l.starts[f + 1]] == rest.rows[rest.starts[f]..rest.starts[f + 1]];
      }
    }
  }

  function GroupAt(rows: seq<Row>, offset: nat): seq<Row>
    requires offset <= |rows|
  {
    rows[offset..Min(offset + REQUEST_ROWS, |rows|)]
  }

  function PendingIdentity(fileIndex: nat, rowOffset: nat, group: seq<Row>): Pending {
    Pending(fileIndex, rowOffset, |group|, Ids(group))
  }

  // ----- the table -----

  /** The rows of the table whose ids occur in the group, in the group's order. */
  function Existing(table: Table, group: seq<Row>): seq<Row> {
    if group == [] then []
    else
      var rest := Existing(table, group[1..]);
      if group[0].id in table then [table[group[0].id]] + rest else rest
  }

  /** `validate_existing`: everything found is one of the expected rows, unchanged. */
  predicate ExistingValid(expected: seq<Row>, actual: seq<Row>) {
    && (forall i, j :: 0 <= i < j < |actual| ==> actual[i].id != actual[j].id)
    && (forall i :: 0 <= i < |actual| ==> actual[i] in expected)
  }

  /** `validate_resume_count`. */
  predicate CountValid(s: State, current: int, pendingExisting: int) {
    && (pendingExisting == 0 || s.pending.Some?)
    && (s.pending.Some? ==> pendingExisting <= s.pending.value.count)
    && current == s.acknowledged + pendingExisting
  }

  /** The samples read back after a request or a file are the source rows. */
  predicate SamplesValid(table: Table, rows: seq<Row>) {
    rows != [] ==>
      && rows[0].id in table && table[rows[0].id] == rows[0]
      && rows[|rows| - 1].id in table && table[rows[|rows| - 1].id] == rows[|rows| - 1]
  }

  /** The checks on a recorded pending group. */
  predicate PendingAccepted(batches: seq<seq<Row>>, s: State, table: Table)
    requires s.pending.Some?
  {
    && s.pending.value.fileIndex == s.fileIndex && s.pending.value.rowOffset == s.rowOffset
    && s.fileIndex < |batches| && s.rowOffset <= |batches[s.fileIndex]|
    && var group := GroupAt(batches[s.fileIndex], s.rowOffset);
    && s.pending.value == PendingIdentity(s.fileIndex, s.rowOffset, group)
    && ExistingValid(group, Existing(table, group))
    && CountValid(s, |table|, |Existing(table, group)|)
  }

  /** What `run` demands of a state file before it resumes. */
  predicate ResumeAccepted(binding: string, batches: seq<seq<Row>>, s: State, table: Table) {
    && s.binding == binding
    && if s.pending.Some? then PendingAccepted(batches, s, table) else CountValid(s, |table|, 0)
  }

  // ----- the crash invariant -----

  ghost function Position(l: Layout, s: State): nat
    requires |l.starts| == |l.batches| + 1 && s.fileIndex <= |l.batches|
  {
    l.starts[s.fileIndex] + s.rowOffset
  }

  /** The table holds the first `sure` source rows, nothing beyond the first `possible` ones, and no other content. */
  ghost predicate Between(table: Table, rows: seq<Row>, sure: nat, possible: nat) {
    && sure <= possible <= |rows|
    && IdSet(rows[..sure]) <= table.Keys <= IdSet(rows[..possible])
    && Own(table, rows)
  }

  ghost predicate CursorValid(l: Layout, s: State) {
    && |l.starts| == |l.batches| + 1
    && s.fileIndex <= |l.batches|
    && (if s.fileIndex < |l.batches| then s.rowOffset <= |l.batches[s.fileIndex]| else s.rowOffset == 0)
  }

  ghost predicate PendingValid(l: Layout, s: State)
    requires CursorValid(l, s)
  {
    s.pending.Some? ==>
      && s.fileIndex < |l.batches| && s.rowOffset < |l.batches[s.fileIndex]|
      && s.pending.value == PendingIdentity(s.fileIndex, s.rowOffset, GroupAt(l.batches[s.fileIndex], s.rowOffset))
  }

  ghost function PendingCount(s: State): nat {
    if s.pending.Some? then s.pending.value.count else 0
  }

  /** The table is the acknowledged rows plus some of the pending group. */
  ghost predicate Sound(binding: string, l: Layout, s: State, table: Table) {
    && s.binding == binding
    && CursorValid(l, s) && PendingValid(l, s)
    && s.acknowledged == Position(l, s) && s.verifiedFiles == s.fileIndex
    && Between(table, l.rows, s.acknowledged, s.acknowledged + PendingCount(s))
    && (s.status.DataVerified? ==> s.pending.None? && s.acknowledged == |l.rows|)
  }

  // ----- slices of the source -----

  lemma SliceOfFile(l: Layout, f: nat, from: nat, to: nat)
    requires LaidOut(l) && f < |l.batches| && from <= to <= |l.batches[f]|
    ensures l.starts[f] + to <= |l.rows|
    ensures l.batches[f][from..to] == l.rows[l.starts[f] + from..l.starts[f] + to]
  {
    assert FileAt(l, f);
    var start := l.starts[f];
    assert l.rows[start..l.starts[f + 1]][from..to] == l.rows[start + from..start + to];
  }

  // ----- counting -----

  lemma {:induction false} ExistingSize(table: Table, rows: seq<Row>)
    requires DistinctIds(rows)
    ensures |Existing(table, rows)| == |table.Keys * IdSet(rows)|
  {
    if rows == [] {
      assert table.Keys * IdSet(rows) == {};
    } else {
      DistinctHead(rows);
      ExistingSize(table, rows[1..]);
      OneIdMore(table.Keys, rows[0].id, IdSet(rows[1..]));
    }
  }

  lemma OneIdMore(keys: set<string>, id: string, ids: set<string>)
    requires id !in ids
    ensures |keys * ({id} + ids)| == |keys * ids| + if id in keys then 1 else 0
  {
    if id in keys {
      assert keys * ({id} + ids) == {id} + keys * ids;
    } else {
      assert keys * ({id} + ids) == keys * ids;
    }
  }

  /** The count that a restart computes: the sure rows, plus whatever of the possible ones is there. */
  lemma CountBetween(table: Table, rows: seq<Row>, sure: nat, possible: nat)
    requires DistinctIds(rows) && Between(table, rows, sure, possible)
    ensures |table| == sure + |Existing(table, rows[sure..possible])|
  {
    DistinctSlice(rows, sure, possible);
    ExistingSize(table, rows[sure..possible]);
    assert table.Keys == IdSet(rows[..sure]) + table.Keys * IdSet(rows[sure..possible]);
    assert |table.Keys| == |table|;
  }

  /** The rows found among own distinct rows are valid. */
  lemma {:induction false} ExistingMembers(table: Table, group: seq<Row>)
    requires DistinctIds(group) && Own(table, group)
    ensures ExistingValid(group, Existing(table, group)) && |Existing(table, group)| <= |group|
  {
    if group != [] {
      var rest := group[1..];
      DistinctHead(group);
      OwnTail(table, group);
      ExistingMembers(table, rest);
      var found := Existing(table, rest);
      forall i | 0 <= i < |found| ensures found[i].id != group[0].id && found[i] in group {
        var j :| 0 <= j < |rest| && rest[j] == found[i];
        IdSetIndex(rest, j);
      }
    }
  }

  lemma OwnTail(table: Table, rows: seq<Row>)
    requires rows != [] && Own(table, rows)
    ensures Own(table, rows[1..])
  {
    assert forall i :: 0 <= i < |rows[1..]| ==> rows[1..][i] == rows[i + 1];
  }

  // ----- what an upsert does to the bounds -----

  /** Whatever part of the pending rows an upsert applies, the table stays within the same bounds; applied in
      full, the pending rows become sure. */
  lemma UpsertKeepsBetween(table: Table, rows: seq<Row>, sure: nat, possible: nat, applied: set<string>)
    requires DistinctIds(rows) && Between(table, rows, sure, possible)
    ensures var after := Upserted(table, rows[sure..possible], applied);
            && Between(after, rows, sure, possible)
            && (IdSet(rows[sure..possible]) <= applied ==> Between(after, rows, possible, possible))
  {
    DistinctSlice(rows, sure, possible);
    UpsertKeepsOwn(table, rows, sure, possible, applied);
  }

  // ----- the theorems about states -----

  lemma SamplesInBounds(table: Table, all: seq<Row>, sure: nat, possible: nat, from: nat, to: nat)
    requires Between(table, all, sure, possible) && from <= to <= sure
    ensures SamplesValid(table, all[from..to])
  {
    if from < to {
      IdSetIndex(all[..sure], from);
      IdSetIndex(all[..sure], to - 1);
    }
  }

  /** The pending group is the slice of the source right after the acknowledged rows. */
  lemma PendingSlice(binding: string, l: Layout, s: State, table: Table)
    requires LaidOut(l) && Sound(binding, l, s, table) && s.pending.Some?
    ensures s.acknowledged + s.pending.value.count <= |l.rows|
    ensures GroupAt(l.batches[s.fileIndex], s.rowOffset)
            == l.rows[s.acknowledged..s.acknowledged + s.pending.value.count]
  {
    SliceOfFile(l, s.fileIndex, s.rowOffset, s.rowOffset + s.pending.value.count);
  }

  /** A restart never rejects a state that the program itself left behind. */
  lemma ResumeNeverRejects(binding: string, l: Layout, s: State, table: Table)
    requires LaidOut(l) && Sound(binding, l, s, table)
    ensures ResumeAccepted(binding, l.batches, s, table)
  {
    var p, n := s.acknowledged, PendingCount(s);
    CountBetween(table, l.rows, p, p + n);
    GroupIsOwn(table, l.rows, p, p + n);
    if s.pending.Some? {
      PendingSlice(binding, l, s, table);
    } else {
      assert l.rows[p..p + n] == [];
    }
  }

  lemma GroupIsOwn(table: Table, all: seq<Row>, sure: nat, possible: nat)
    requires DistinctIds(all) && Between(table, all, sure, possible)
    ensures ExistingValid(all[sure..possible], Existing(table, all[sure..possible]))
    ensures |Existing(table, all[sure..possible])| <= possible - sure
  {
    var group := all[sure..possible];
    DistinctSlice(all, sure, possible);
    assert forall i :: 0 <= i < |group| ==> group[i] == all[sure + i];
    ExistingMembers(table, group);
  }

  /** Nothing of the next group is in the table before its pending record is written. */
  lemma NextGroupIsAbsent(table: Table, all: seq<Row>, sure: nat, next: nat)
    requires DistinctIds(all) && Between(table, all, sure, sure) && sure <= next <= |all|
    ensures Existing(table, all[sure..next]) == []
  {
    DistinctSlice(all, sure, next);
    ExistingSize(table, all[sure..next]);
    assert table.Keys * IdSet(all[sure..next]) == {};
  }

  // ----- how the program's own moves keep a state sound -----

  lemma InitialSound(binding: string, l: Layout)
    requires LaidOut(l)
    ensures Sound(binding, l, State(binding, Created, 0, 0, 0, 0, 0, None), map[])
  {
    assert l.rows[..0] == [];
  }

  lemma StatusSound(binding: string, l: Layout, s: State, table: Table, status: Status)
    requires Sound(binding, l, s, table) && !status.DataVerified?
    ensures Sound(binding, l, s.(status := status), table)
  {
  }

  lemma RecordPendingSound(binding: string, l: Layout, s: State, table: Table)
    requires LaidOut(l) && Sound(binding, l, s, table) && s.pending.None? && !s.status.DataVerified?
    requires s.fileIndex < |l.batches| && s.rowOffset < |l.batches[s.fileIndex]|
    ensures var group := GroupAt(l.batches[s.fileIndex], s.rowOffset);
            Sound(binding, l, s.(pending := Some(PendingIdentity(s.fileIndex, s.rowOffset, group))), table)
  {
    var group := GroupAt(l.batches[s.fileIndex], s.rowOffset);
    SliceOfFile(l, s.fileIndex, s.rowOffset, s.rowOffset + |group|);
    DistinctSlice(l.rows, s.acknowledged, s.acknowledged + |group|);
  }

  /** All rows of the pending group are in the table. */
  ghost predicate GroupDone(l: Layout, s: State, table: Table) {
    Between(table, l.rows, s.acknowledged + PendingCount(s), s.acknowledged + PendingCount(s))
  }

  lemma UpsertSound(binding: string, l: Layout, s: State, table: Table, group: seq<Row>, applied: set<string>)
    requires LaidOut(l) && Sound(binding, l, s, table) && s.pending.Some?
    requires group == GroupAt(l.batches[s.fileIndex], s.rowOffset)
    ensures Sound(binding, l, s, Upserted(table, group, applied))
    ensures IdSet(group) <= applied ==> GroupDone(l, s, Upserted(table, group, applied))
  {
    PendingSlice(binding, l, s, table);
    UpsertKeepsBetween(table, l.rows, s.acknowledged, s.acknowledged + s.pending.value.count, applied);
  }

  function Acknowledge(s: State, count: nat): State {
    s.(rowOffset := s.rowOffset + count, acknowledged := s.acknowledged + count, requests := s.requests + 1,
       pending := None)
  }

  /** How many requests it takes to send so many rows. */
  function Requests(rows: int): nat {
    if rows <= 0 then 0 else 1 + Requests(rows - REQUEST_ROWS)
  }

  /** How many requests are left when the cursor is at a row of a file. */
  function RequestsLeft(batches: seq<seq<Row>>, fileIndex: nat, rowOffset: nat): nat
    decreases |batches| - fileIndex
  {
    if fileIndex >= |batches| then 0
    else Requests(|batches[fileIndex]| - rowOffset) + RequestsLeft(batches, fileIndex + 1, 0)
  }

  /** A request leaves one less. */
  lemma OneRequestLess(batches: seq<seq<Row>>, fileIndex: nat, rowOffset: nat, next: nat)
    requires fileIndex < |batches| && rowOffset < |batches[fileIndex]|
    requires next == Min(rowOffset + REQUEST_ROWS, |batches[fileIndex]|)
    ensures RequestsLeft(batches, fileIndex, rowOffset) == RequestsLeft(batches, fileIndex, next) + 1
  {
    var rows := |batches[fileIndex]|;
    assert Requests(rows - rowOffset) == 1 + Requests(rows - rowOffset - REQUEST_ROWS);
    assert Requests(rows - next) == Requests(rows - rowOffset - REQUEST_ROWS);
  }

  lemma AcknowledgeSound(binding: string, l: Layout, s: State, table: Table)
    requires Sound(binding, l, s, table) && s.pending.Some? && GroupDone(l, s, table)
    ensures Sound(binding, l, Acknowledge(s, s.pending.value.count), table)
    ensures s.pending.value.count == |GroupAt(l.batches[s.fileIndex], s.rowOffset)|
  {
  }

  function NextFile(s: State): State {
    s.(fileIndex := s.fileIndex + 1, rowOffset := 0, verifiedFiles := s.verifiedFiles + 1)
  }

  lemma NextFileSound(binding: string, l: Layout, s: State, table: Table)
    requires LaidOut(l) && Sound(binding, l, s, table) && s.pending.None?
    requires s.fileIndex < |l.batches| && s.rowOffset == |l.batches[s.fileIndex]|
    ensures Sound(binding, l, NextFile(s), table)
  {
    assert FileAt(l, s.fileIndex);
  }

  /** Any rows of the current file before the cursor pass the sample check. */
  lemma SamplesSound(binding: string, l: Layout, s: State, table: Table, from: nat, to: nat)
    requires LaidOut(l) && Sound(binding, l, s, table)
    requires s.fileIndex < |l.batches| && from <= to <= s.rowOffset
    ensures SamplesValid(table, l.batches[s.fileIndex][from..to])
  {
    SliceOfFile(l, s.fileIndex, from, to);
    var start := l.starts[s.fileIndex];
    SamplesInBounds(table, l.rows, s.acknowledged, s.acknowledged + PendingCount(s), start + from, start + to);
  }

  /** The checks made before a group is first written. */
  lemma BeforeGroupSound(binding: string, l: Layout, s: State, table: Table)
    requires LaidOut(l) && Sound(binding, l, s, table) && s.pending.None?
    requires s.fileIndex < |l.batches| && s.rowOffset < |l.batches[s.fileIndex]|
    ensures Existing(table, GroupAt(l.batches[s.fileIndex], s.rowOffset)) == []
    ensures CountValid(s, |table|, 0)
  {
    var group := GroupAt(l.batches[s.fileIndex], s.rowOffset);
    SliceOfFile(l, s.fileIndex, s.rowOffset, s.rowOffset + |group|);
    NextGroupIsAbsent(table, l.rows, s.acknowledged, s.acknowledged + |group|);
    ResumeNeverRejects(binding, l, s, table);
  }

  /** At the end of the last file the table is the source, and the final count agrees. */
  lemma EndIsComplete(binding: string, l: Layout, s: State, table: Table)
    requires LaidOut(l) && Sound(binding, l, s, table) && s.pending.None?
    requires s.acknowledged == |l.rows|
    ensures Exactly(table, l.rows) && |table| == |l.rows|
  {
    CountBetween(table, l.rows, s.acknowledged, s.acknowledged);
    assert l.rows[s.acknowledged..s.acknowledged] == [] && l.rows[..s.acknowledged] == l.rows;
  }

  /** A state file that says so is right: the table is then exactly the source. */
  lemma VerifiedIsExact(binding: string, l: Layout, s: State, table: Table)
    requires LaidOut(l) && Sound(binding, l, s, table) && s.status.DataVerified?
    ensures Exactly(table, l.rows)
  {
    EndIsComplete(binding, l, s, table);
  }

  // ----- a request that is applied after its reply was given up -----

  /** Whatever part of rows already sent the service applies late, the state stays one that a start accepts. */
  lemma LateUpsertSound(binding: string, l: Layout, s: State, table: Table, from: nat, to: nat, applied: set<string>)
    requires LaidOut(l) && Sound(binding, l, s, table)
    requires from <= to <= s.acknowledged + PendingCount(s)
    ensures var later := Upserted(table, l.rows[from..to], applied);
            Sound(binding, l, s, later) && ResumeAccepted(binding, l.batches, s, later)
  {
    var later := Upserted(table, l.rows[from..to], applied);
    LateBetween(table, l.rows, s.acknowledged, s.acknowledged + PendingCount(s), from, to, applied);
    ResumeNeverRejects(binding, l, s, later);
  }

  lemma LateBetween(table: Table, rows: seq<Row>, sure: nat, possible: nat, from: nat, to: nat, applied: set<string>)
    requires DistinctIds(rows) && Between(table, rows, sure, possible) && from <= to <= possible
    ensures Between(Upserted(table, rows[from..to], applied), rows, sure, possible)
  {
    UpsertKeepsOwn(table, rows, from, to, applied);
    DistinctSlice(rows, from, to);
    DistinctSlice(rows, to, possible);
  }

  /** Of the two reads made before a group is sent, the second may see more than the first. The check then rejects a
      state that the program itself caused, if and only if the late part has added a row; the next start accepts it. */
  lemma LateUpsertRejectedIff(binding: string, l: Layout, s: State, table: Table, group: seq<Row>, applied: set<string>)
    requires LaidOut(l) && Sound(binding, l, s, table) && s.pending.Some?
    requires group == GroupAt(l.batches[s.fileIndex], s.rowOffset)
    ensures var later := Upserted(table, group, applied);
            && (CountValid(s, |later|, |Existing(table, group)|) <==> later.Keys == table.Keys)
            && ResumeAccepted(binding, l.batches, s, later)
  {
    PendingSlice(binding, l, s, table);
    ResumeNeverRejects(binding, l, s, table);
    var from, to := s.acknowledged, s.acknowledged + s.pending.value.count;
    LateUpsertSound(binding, l, s, table, from, to, applied);
    MoreKeys(table, l.rows, from, to, applied);
  }

  lemma MoreKeys(table: Table, rows: seq<Row>, from: nat, to: nat, applied: set<string>)
    requires DistinctIds(rows) && Own(table, rows) && from <= to <= |rows|
    ensures var later := Upserted(table, rows[from..to], applied);
            |later| == |table| <==> later.Keys == table.Keys
  {
    UpsertKeepsOwn(table, rows, from, to, applied);
    SubsetSize(table.Keys, Upserted(table, rows[from..to], applied).Keys);
  }

  // ----- what the checks would see of another writer -----

  /** The collection's primary key is the row's id. */
  ghost predicate Keyed(table: Table) {
    forall id :: id in table ==> table[id].id == id
  }

  lemma {:induction false} ExistingHolds(table: Table, group: seq<Row>, k: nat)
    requires k < |group| && group[k].id in table
    ensures table[group[k].id] in Existing(table, group)
  {
    if k > 0 { ExistingHolds(table, group[1..], k - 1); }
  }

  lemma SameIdSameRow(rows: seq<Row>, i: nat, j: nat)
    requires DistinctIds(rows) && i < |rows| && j < |rows| && rows[i].id == rows[j].id
    ensures i == j
  {
    IdLocates(rows, i, i + 1, i);
    IdLocates(rows, i, i + 1, j);
  }

  /** What is found of a group is accepted if and only if it is unchanged. */
  lemma ExistingValidIff(table: Table, group: seq<Row>)
    requires DistinctIds(group) && Keyed(table)
    ensures ExistingValid(group, Existing(table, group)) <==> Own(table, group)
  {
    if Own(table, group) {
      ExistingMembers(table, group);
    }
    if ExistingValid(group, Existing(table, group)) {
      forall k | 0 <= k < |group| && group[k].id in table ensures table[group[k].id] == group[k] {
        ExistingHolds(table, group, k);
        var j :| 0 <= j < |group| && group[j] == table[group[k].id];
        SameIdSameRow(group, j, k);
      }
    }
  }

  /** The pending record names the group at the cursor. */
  ghost predicate PendingFits(batches: seq<seq<Row>>, s: State) {
    && s.pending.Some? && s.fileIndex < |batches| && s.rowOffset <= |batches[s.fileIndex]|
    && var group := GroupAt(batches[s.fileIndex], s.rowOffset);
    && s.pending.value.fileIndex == s.fileIndex && s.pending.value.rowOffset == s.rowOffset
    && s.pending.value.count == |group| && s.pending.value.ids == Ids(group)
  }

  /** On whatever table another writer may have left: without a pending group a state is accepted if and only if there
      are as many rows as were acknowledged; with one, if and only if the rows found of the group are unchanged and as
      many others are there as were acknowledged. */
  lemma ResumeAcceptedIff(binding: string, l: Layout, s: State, table: Table)
    requires LaidOut(l) && Keyed(table)
    ensures ResumeAccepted(binding, l.batches, s, table) <==>
              && s.binding == binding
              && if s.pending.None? then |table| == s.acknowledged
                 else && PendingFits(l.batches, s)
                      && var group := GroupAt(l.batches[s.fileIndex], s.rowOffset);
                         Own(table, group) && |table.Keys - IdSet(group)| == s.acknowledged
  {
    if PendingFits(l.batches, s) {
      GroupDistinct(l, s.fileIndex, s.rowOffset);
      GroupAcceptedIff(table, GroupAt(l.batches[s.fileIndex], s.rowOffset), s);
    }
  }

  lemma GroupDistinct(l: Layout, f: nat, offset: nat)
    requires LaidOut(l) && f < |l.batches| && offset <= |l.batches[f]|
    ensures DistinctIds(GroupAt(l.batches[f], offset))
  {
    var to := offset + |GroupAt(l.batches[f], offset)|;
    SliceOfFile(l, f, offset, to);
    DistinctSlice(l.rows, l.starts[f] + offset, l.starts[f] + to);
  }

  lemma GroupAcceptedIff(table: Table, group: seq<Row>, s: State)
    requires DistinctIds(group) && Keyed(table) && s.pending.Some? && s.pending.value.count == |group|
    ensures ExistingValid(group, Existing(table, group)) && CountValid(s, |table|, |Existing(table, group)|) <==>
              Own(table, group) && |table.Keys - IdSet(group)| == s.acknowledged
  {
    ExistingValidIff(table, group);
    CountIs(table, group);
  }

  lemma CountIs(table: Table, group: seq<Row>)
    requires DistinctIds(group)
    ensures |table| == |Existing(table, group)| + |table.Keys - IdSet(group)| && |Existing(table, group)| <= |group|
  {
    var keys, ids := table.Keys, IdSet(group);
    ExistingSize(table, group);
    assert keys == keys * ids + (keys - ids) && |keys| == |table|;
    assert ids == keys * ids + (ids - keys);
  }
}

/** Rows with a key, tables keyed by it, and an upsert that may stop half-way. */
module Tables {
  /** A row's key and its other columns; reading a row back compares all of them. */
  datatype Row = Row(id: string, columns: string)

  type Table = map<string, Row>

  function Ids(rows: seq<Row>): seq<string> {
    seq(|rows|, i requires 0 <= i < |rows| => rows[i].id)
  }

  function IdSet(rows: seq<Row>): set<string> {
    if rows == [] then {} else {rows[0].id} + IdSet(rows[1..])
  }

  /** There are as many ids as rows. */
  predicate DistinctIds(rows: seq<Row>) {
    |IdSet(rows)| == |rows|
  }

  /** An upsert that applied exactly the rows of the group whose ids are in `applied`. */
  function Upserted(table: Table, group: seq<Row>, applied: set<string>): Table
    decreases |group|
  {
    if group == [] then table
    else
      var row := group[0];
      Upserted(if row.id in applied then table[row.id := row] else table, group[1..], applied)
  }

  ghost predicate Includes(table: Table, rows: seq<Row>) {
    forall i :: 0 <= i < |rows| ==> rows[i].id in table && table[rows[i].id] == rows[i]
  }

  /** Wherever the table has one of the ids, it has the row unchanged. */
  ghost predicate Own(table: Table, rows: seq<Row>) {
    forall i :: 0 <= i < |rows| && rows[i].id in table ==> table[rows[i].id] == rows[i]
  }

  /** The table's rows are exactly the given ones. */
  ghost predicate Exactly(table: Table, rows: seq<Row>) {
    table.Keys == IdSet(rows) && Own(table, rows)
  }

  // ----- ids -----

  lemma {:induction false} IdSetConcat(a: seq<Row>, b: seq<Row>)
    ensures IdSet(a + b) == IdSet(a) + IdSet(b)
  {
    if a == [] {
      assert a + b == b;
    } else {
      assert (a + b)[1..] == a[1..] + b;
      IdSetConcat(a[1..], b);
    }
  }

  lemma {:induction false} IdSetBound(rows: seq<Row>)
    ensures |IdSet(rows)| <= |rows|
  {
    if rows != [] { IdSetBound(rows[1..]); }
  }

  lemma {:induction false} IdSetIndex(rows: seq<Row>, i: nat)
    requires i < |rows|
    ensures rows[i].id in IdSet(rows)
  {
    if i > 0 { IdSetIndex(rows[1..], i - 1); }
  }

  lemma UnionSize(a: set<string>, b: set<string>)
    ensures |a + b| == |a| + |b| - |a * b|
  {
    assert a + b == a + (b - a) && b == (b - a) + a * b;
  }

  /** Rows are distinct exactly when each part is and the parts share no id. */
  lemma DistinctConcat(a: seq<Row>, b: seq<Row>)
    ensures DistinctIds(a + b) <==> DistinctIds(a) && DistinctIds(b) && IdSet(a) !! IdSet(b)
  {
    IdSetConcat(a, b);
    IdSetBound(a);
    IdSetBound(b);
    UnionSize(IdSet(a), IdSet(b));
    if |IdSet(a) * IdSet(b)| == 0 { assert IdSet(a) * IdSet(b) == {}; }
    if IdSet(a) !! IdSet(b) { assert IdSet(a) * IdSet(b) == {}; }
  }

  lemma DistinctHead(rows: seq<Row>)
    requires rows != [] && DistinctIds(rows)
    ensures DistinctIds(rows[1..]) && rows[0].id !in IdSet(rows[1..])
  {
    assert rows == [rows[0]] + rows[1..] && [rows[0]][1..] == [];
    DistinctConcat([rows[0]], rows[1..]);
    assert IdSet([rows[0]]) == {rows[0].id};
  }

  /** What lies before, inside and after a slice of distinct rows shares no id. */
  lemma DistinctSlice(rows: seq<Row>, from: nat, to: nat)
    requires DistinctIds(rows) && from <= to <= |rows|
    ensures DistinctIds(rows[..from]) && DistinctIds(rows[from..to])
    ensures IdSet(rows[..to]) == IdSet(rows[..from]) + IdSet(rows[from..to])
    ensures IdSet(rows[..from]) !! IdSet(rows[from..to])
    ensures IdSet(rows[..to]) !! IdSet(rows[to..])
  {
    assert rows == rows[..to] + rows[to..] && rows[..to] == rows[..from] + rows[from..to];
    DistinctConcat(rows[..to], rows[to..]);
    DistinctConcat(rows[..from], rows[from..to]);
    IdSetConcat(rows[..from], rows[from..to]);
  }

  /** A row whose id occurs in a slice of distinct rows lies in that slice. */
  lemma IdLocates(rows: seq<Row>, from: nat, to: nat, i: nat)
    requires DistinctIds(rows) && from <= to <= |rows| && i < |rows|
    ensures rows[i].id in IdSet(rows[from..to]) <==> from <= i < to
  {
    DistinctSlice(rows, from, to);
    if i < from {
      IdSetIndex(rows[..from], i);
    } else if i < to {
      IdSetIndex(rows[from..to], i - from);
    } else {
      IdSetIndex(rows[to..], i - to);
    }
  }

  // ----- upserts -----

  lemma {:induction false} UpsertedEffect(table: Table, group: seq<Row>, applied: set<string>)
    requires DistinctIds(group)
    ensures var after := Upserted(table, group, applied);
            && after.Keys == table.Keys + IdSet(group) * applied
            && (forall i :: 0 <= i < |group| && group[i].id in applied ==>
                  group[i].id in after && after[group[i].id] == group[i])
            && (forall id :: id in table && id !in IdSet(group) * applied ==> after[id] == table[id])
    decreases |group|
  {
    if group != [] {
      var row, rest := group[0], group[1..];
      var next := if row.id in applied then table[row.id := row] else table;
      DistinctHead(group);
      UpsertedEffect(next, rest, applied);
      var after := Upserted(next, rest, applied);
      forall i | 0 <= i < |group| && group[i].id in applied
        ensures group[i].id in after && after[group[i].id] == group[i]
      {
        if i > 0 { assert rest[i - 1] == group[i]; }
      }
    }
  }

  /** An upsert of own rows, in full or in part, leaves own rows only. */
  lemma UpsertKeepsOwn(table: Table, rows: seq<Row>, from: nat, to: nat, applied: set<string>)
    requires DistinctIds(rows) && Own(table, rows) && from <= to <= |rows|
    ensures Own(Upserted(table, rows[from..to], applied), rows)
    ensures Upserted(table, rows[from..to], applied).Keys == table.Keys + IdSet(rows[from..to]) * applied
  {
    var group := rows[from..to];
    DistinctSlice(rows, from, to);
    UpsertedEffect(table, group, applied);
    var after := Upserted(table, group, applied);
    forall i | 0 <= i < |rows| && rows[i].id in after ensures after[rows[i].id] == rows[i] {
      IdLocates(rows, from, to, i);
      if from <= i < to { assert group[i - from] == rows[i]; }
    }
  }

  /** Every source row read back, and as many rows as the source has: the table is the source. */
  lemma InclusionAndCountForceEquality(table: Table, rows: seq<Row>)
    requires DistinctIds(rows) && Includes(table, rows)
    ensures Exactly(table, rows) <==> |table| == |rows|
  {
    IncludesIds(table, rows);
    assert |table.Keys| == |table|;
    if |table| == |rows| {
      assert |table.Keys - IdSet(rows)| == |table.Keys| - |IdSet(rows)|;
      assert table.Keys - IdSet(rows) == {};
    }
  }

  lemma {:induction false} IncludesIds(table: Table, rows: seq<Row>)
    requires Includes(table, rows)
    ensures IdSet(rows) <= table.Keys
  {
    if rows != [] {
      forall i | 0 <= i < |rows[1..]| ensures rows[1..][i].id in table && table[rows[1..][i].id] == rows[1..][i] {
        assert rows[1..][i] == rows[i + 1];
      }
      IncludesIds(table, rows[1..]);
    }
  }
}

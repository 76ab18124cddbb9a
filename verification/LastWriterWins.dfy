/** Row exchange by modification time: upserts that keep the newer row, and the rows since a time. */
module LastWriterWins {
  import opened Wrappers

  type Id = string
  type Column = string
  type Value = Option<string>

  /** Every column of the table, with what an insert stores when its row omits the column: the default, or none. */
  type Schema = map<Column, Value>

  /** A row as received: its identifier, its modification time and the columns it carries. */
  datatype Row = Row(id: Id, lastModified: int, columns: map<Column, Value>)

  /** The table, by identifier. */
  type Table = map<Id, Row>

  predicate Writes(t: Table, row: Row) {
    row.id !in t || row.lastModified > t[row.id].lastModified
  }

  /** The columns a row is written over: an update leaves what the row omits, an insert takes the schema's defaults. */
  function Base(schema: Schema, t: Table, id: Id): map<Column, Value> {
    if id in t then t[id].columns else schema
  }

  /** What a row becomes when it is written over some columns. */
  function Over(base: map<Column, Value>, row: Row): Row {
    row.(columns := base + row.columns)
  }

  function Upsert(schema: Schema, t: Table, row: Row): Table {
    if Writes(t, row) then t[row.id := Over(Base(schema, t, row.id), row)] else t
  }

  function UpsertAll(schema: Schema, t: Table, rows: seq<Row>): Table
    decreases rows
  {
    if rows == [] then t else UpsertAll(schema, Upsert(schema, t, rows[0]), rows[1..])
  }

  ghost predicate Filed(t: Table) {
    forall id :: id in t ==> t[id].id == id
  }

  class RowStore {
    const schema: Schema
    var rows: Table

    /** Rows are filed under their own identifier. */
    ghost predicate Valid()
      reads this
    {
      Filed(rows)
    }

    constructor (schema: Schema)
      ensures Valid() && this.schema == schema && rows == map[]
    {
      this.schema := schema;
      rows := map[];
    }

    /** `changesMade` tells whether the batch has to be saved. */
    method UpsertRows(batch: seq<Row>) returns (changesMade: bool)
      requires Valid()
      modifies this
      ensures Valid() && rows == UpsertAll(schema, old(rows), batch)
      ensures !changesMade ==> rows == old(rows)
      ensures changesMade ==>
                exists id :: id in rows && (id !in old(rows) || rows[id].lastModified > old(rows)[id].lastModified)
    {
      changesMade := false;
      ghost var changed: Id := "";
      for i := 0 to |batch|
        invariant Valid() && UpsertAll(schema, rows, batch[i..]) == UpsertAll(schema, old(rows), batch)
        invariant !changesMade ==> rows == old(rows)
        invariant forall id :: id in old(rows) ==> id in rows && rows[id].lastModified >= old(rows)[id].lastModified
        invariant changesMade ==> changed in rows
        invariant changesMade && changed in old(rows) ==> rows[changed].lastModified > old(rows)[changed].lastModified
      {
        var row := batch[i];
        assert batch[i..][1..] == batch[i + 1..];
        var shouldInsert := row.id !in rows;
        var shouldUpdate := row.id in rows && row.lastModified > rows[row.id].lastModified;
        if shouldInsert || shouldUpdate {
          if shouldInsert {
            rows := rows[row.id := Over(schema, row)];
          } else {
            rows := rows[row.id := Over(rows[row.id].columns, row)];
          }
          changesMade := true;
          changed := row.id;
        }
      }
    }

    /** The rows modified after a time, in some order. */
    method GetRowsSince(time: int) returns (r: seq<Row>)
      requires Valid()
      ensures forall row :: row in r <==> RowSince(rows, time, row)
    {
      r := [];
      var todo := rows.Keys;
      while todo != {}
        invariant todo <= rows.Keys
        invariant forall row :: row in r <==> RowSince(rows, time, row) && row.id !in todo
        decreases todo
      {
        var id :| id in todo;
        if rows[id].lastModified > time {
          r := r + [rows[id]];
        }
        todo := todo - {id};
      }
    }
  }

  predicate RowSince(t: Table, time: int, row: Row) {
    row.id in t && t[row.id] == row && row.lastModified > time
  }

  // ----- rows that agree -----

  /** Table rows are filed under their own identifier and have every column of the schema, and no other. */
  ghost predicate FullTable(schema: Schema, t: Table) {
    Filed(t) && forall id :: id in t ==> t[id].columns.Keys == schema.Keys
  }

  ghost predicate FullRows(schema: Schema, rows: seq<Row>) {
    forall r :: r in rows ==> r.columns.Keys == schema.Keys
  }

  /** One identifier and one modification time name one row. */
  ghost predicate Agree(rows: set<Row>) {
    forall a, b :: a in rows && b in rows && a.id == b.id && a.lastModified == b.lastModified ==> a == b
  }

  ghost function RowsOf(t: Table): set<Row> {
    set id | id in t :: t[id]
  }

  ghost function Listed(rows: seq<Row>): set<Row> {
    set r | r in rows
  }

  /** The table holds, for each identifier among `all`, the row of `all` with the greatest time, and nothing else. */
  ghost predicate Greatest(t: Table, all: set<Row>) {
    && (forall id :: id in t ==> t[id].id == id && t[id] in all)
    && (forall r :: r in all ==> r.id in t && r.lastModified <= t[r.id].lastModified)
  }

  lemma UpsertFull(schema: Schema, t: Table, row: Row)
    requires FullTable(schema, t) && row.columns.Keys == schema.Keys
    ensures FullTable(schema, Upsert(schema, t, row))
    ensures Upsert(schema, t, row) == if Writes(t, row) then t[row.id := row] else t
  {
    assert Base(schema, t, row.id) + row.columns == row.columns;
  }

  /** With no columns beyond the schema's, partial rows too leave every stored row with all of them. */
  lemma {:induction false} TablesStayFull(schema: Schema, t: Table, rows: seq<Row>)
    requires FullTable(schema, t) && forall r :: r in rows ==> r.columns.Keys <= schema.Keys
    ensures FullTable(schema, UpsertAll(schema, t, rows))
    decreases rows
  {
    if rows != [] {
      assert rows[0] in rows;
      TablesStayFull(schema, Upsert(schema, t, rows[0]), rows[1..]);
    }
  }

  lemma UpsertGreatest(schema: Schema, t: Table, all: set<Row>, row: Row)
    requires FullTable(schema, t) && row.columns.Keys == schema.Keys && Greatest(t, all)
    ensures Greatest(Upsert(schema, t, row), all + {row})
  {
    UpsertFull(schema, t, row);
  }

  lemma ListedFirst(rows: seq<Row>)
    requires rows != []
    ensures Listed(rows) == {rows[0]} + Listed(rows[1..])
  {
    assert rows == [rows[0]] + rows[1..];
  }

  lemma FullRowsRest(schema: Schema, rows: seq<Row>)
    requires rows != [] && FullRows(schema, rows)
    ensures rows[0].columns.Keys == schema.Keys && FullRows(schema, rows[1..])
  {
    assert rows[0] in rows;
  }

  lemma {:induction false} UpsertAllGreatest(schema: Schema, t: Table, all: set<Row>, rows: seq<Row>)
    requires FullTable(schema, t) && FullRows(schema, rows) && Greatest(t, all)
    ensures FullTable(schema, UpsertAll(schema, t, rows)) && Greatest(UpsertAll(schema, t, rows), all + Listed(rows))
    decreases rows
  {
    if rows == [] {
      assert all + Listed(rows) == all;
    } else {
      FullRowsRest(schema, rows);
      UpsertFull(schema, t, rows[0]);
      UpsertGreatest(schema, t, all, rows[0]);
      UpsertAllGreatest(schema, Upsert(schema, t, rows[0]), all + {rows[0]}, rows[1..]);
      ListedFirst(rows);
      assert all + {rows[0]} + Listed(rows[1..]) == all + Listed(rows);
    }
  }

  lemma GreatestUnique(t: Table, u: Table, all: set<Row>)
    requires Agree(all) && Greatest(t, all) && Greatest(u, all)
    ensures t == u
  {
    assert forall id :: id in t ==> t[id].id in u;
    assert forall id :: id in u ==> u[id].id in t;
    forall id | id in t ensures t[id] == u[id] {
      assert t[id] in all && u[id] in all;
    }
  }

  lemma TableIsGreatest(schema: Schema, t: Table)
    requires FullTable(schema, t)
    ensures Greatest(t, RowsOf(t))
  {
  }

  /** Batches with the same rows, in any order and with any repeats, lead to the same table: each identifier's
      newest row. */
  lemma OrderDoesNotMatter(schema: Schema, t: Table, a: seq<Row>, b: seq<Row>)
    requires FullTable(schema, t) && FullRows(schema, a) && FullRows(schema, b)
    requires (forall r :: r in a <==> r in b) && Agree(RowsOf(t) + Listed(a))
    ensures UpsertAll(schema, t, a) == UpsertAll(schema, t, b)
    ensures Greatest(UpsertAll(schema, t, a), RowsOf(t) + Listed(a))
  {
    TableIsGreatest(schema, t);
    var all := RowsOf(t) + Listed(a);
    assert RowsOf(t) + Listed(b) == all;
    UpsertsAgree(schema, t, RowsOf(t), all, a, b);
  }

  lemma UpsertsAgree(schema: Schema, t: Table, had: set<Row>, all: set<Row>, a: seq<Row>, b: seq<Row>)
    requires FullTable(schema, t) && FullRows(schema, a) && FullRows(schema, b) && Greatest(t, had)
    requires had + Listed(a) == had + Listed(b) == all && Agree(all)
    ensures UpsertAll(schema, t, a) == UpsertAll(schema, t, b) && Greatest(UpsertAll(schema, t, a), all)
  {
    UpsertAllGreatest(schema, t, had, a);
    UpsertAllGreatest(schema, t, had, b);
    GreatestUnique(UpsertAll(schema, t, a), UpsertAll(schema, t, b), all);
  }

  // ----- exchange -----

  /** b has each row of a that is not newer than `time`, or a newer one. */
  ghost predicate DominatesUpTo(b: Table, a: Table, time: int) {
    forall id :: id in a && a[id].lastModified <= time ==> id in b && a[id].lastModified <= b[id].lastModified
  }

  ghost predicate Dominates(b: Table, a: Table) {
    forall id :: id in a ==> id in b && a[id].lastModified <= b[id].lastModified
  }

  /** Rows a peer sends: its rows since a time. */
  ghost predicate Since(rows: seq<Row>, a: Table, time: int) {
    forall row :: row in rows <==> RowSince(a, time, row)
  }

  /** Who is up to date with a peer to some time, and then upserts its rows since, is up to date with all of it. */
  lemma PullCompletes(schema: Schema, a: Table, b: Table, time: int, rows: seq<Row>)
    requires FullTable(schema, a) && FullTable(schema, b)
    requires DominatesUpTo(b, a, time) && Since(rows, a, time)
    ensures Dominates(UpsertAll(schema, b, rows), a) && FullTable(schema, UpsertAll(schema, b, rows))
    ensures Greatest(UpsertAll(schema, b, rows), RowsOf(b) + Listed(rows))
  {
    assert FullRows(schema, rows);
    TableIsGreatest(schema, b);
    UpsertAllGreatest(schema, b, RowsOf(b), rows);
    var b' := UpsertAll(schema, b, rows);
    forall id | id in a ensures id in b' && a[id].lastModified <= b'[id].lastModified {
      if a[id].lastModified > time {
        assert RowSince(a, time, a[id]) && a[id] in Listed(rows);
      } else {
        assert b[id] in RowsOf(b);
      }
    }
  }

  /** Two tables that dominate each other are equal when their rows agree. */
  lemma MutualDominance(schema: Schema, a: Table, b: Table)
    requires FullTable(schema, a) && FullTable(schema, b) && Agree(RowsOf(a) + RowsOf(b))
    requires Dominates(a, b) && Dominates(b, a)
    ensures a == b
  {
    forall id | id in a ensures a[id] == b[id] {
      assert a[id] in RowsOf(a) && b[id] in RowsOf(b);
    }
  }

  /** One pull in each direction makes two tables equal. */
  lemma TwoPullsConverge(schema: Schema, a: Table, b: Table, ta: int, tb: int, fromA: seq<Row>, fromB: seq<Row>)
    requires FullTable(schema, a) && FullTable(schema, b) && Agree(RowsOf(a) + RowsOf(b))
    requires DominatesUpTo(b, a, ta) && Since(fromA, a, ta)
    requires var b' := UpsertAll(schema, b, fromA); DominatesUpTo(a, b', tb) && Since(fromB, b', tb)
    ensures UpsertAll(schema, a, fromB) == UpsertAll(schema, b, fromA)
  {
    var b' := UpsertAll(schema, b, fromA);
    var a' := UpsertAll(schema, a, fromB);
    PullCompletes(schema, a, b, ta, fromA);
    PullCompletes(schema, b', a, tb, fromB);
    PulledRows(schema, b, a, ta, fromA, b');
    PulledRows(schema, a, b', tb, fromB, a');
    NothingNewPulled(a, b', tb, fromB, a');
    AgreeShrinks(RowsOf(a) + RowsOf(b), RowsOf(a') + RowsOf(b'));
    MutualDominance(schema, a', b');
  }

  lemma AgreeShrinks(all: set<Row>, some: set<Row>)
    requires Agree(all) && some <= all
    ensures Agree(some)
  {
  }

  /** What a pull leaves comes from either side. */
  lemma PulledRows(schema: Schema, b: Table, a: Table, time: int, rows: seq<Row>, b': Table)
    requires Since(rows, a, time) && Greatest(b', RowsOf(b) + Listed(rows))
    ensures RowsOf(b') <= RowsOf(a) + RowsOf(b)
  {
    forall r | r in Listed(rows) ensures r in RowsOf(a) {
      assert RowSince(a, time, r) && a[r.id] == r;
    }
  }

  /** Pulling from a table that dominates adds nothing it does not have. */
  lemma NothingNewPulled(a: Table, b: Table, time: int, rows: seq<Row>, a': Table)
    requires Dominates(b, a) && Filed(a) && Filed(a') && Since(rows, b, time) && Greatest(a', RowsOf(a) + Listed(rows))
    ensures Dominates(b, a')
  {
    forall id | id in a' ensures id in b && a'[id].lastModified <= b[id].lastModified {
      var r := a'[id];
      if r in Listed(rows) {
        assert RowSince(b, time, r);
      } else {
        assert r in RowsOf(a);
      }
    }
  }
}

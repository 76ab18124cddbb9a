/** Rows that carry only some columns: when the order of a batch matters. */
module PartialRows {
  import opened LastWriterWins
  import opened Wrappers

  /** The newest of the rows with its identifier. */
  ghost predicate Newest(rows: seq<Row>, n: Row) {
    n in rows && forall x :: x in rows && x.id == n.id ==> x.lastModified <= n.lastModified
  }

  /** Writing r before n leaves nothing behind: each column that only r carries is stored already, with that value. */
  predicate LeavesNothing(base: map<Column, Value>, r: Row, n: Row) {
    forall c <- r.columns.Keys - n.columns.Keys :: c in base && base[c] == r.columns[c]
  }

  /** Two equally new rows come to the same over what is stored. */
  predicate ComeToTheSame(base: map<Column, Value>, r: Row, n: Row) {
    base + r.columns == base + n.columns
  }

  /** It makes no difference whether r is written before the newest row n or not at all. */
  predicate Yields(schema: Schema, t: Table, r: Row, n: Row) {
    var base := Base(schema, t, r.id);
    if r.lastModified < n.lastModified then LeavesNothing(base, r, n) else ComeToTheSame(base, r, n)
  }

  /** For each identifier, every row that can be written yields to the newest. */
  ghost predicate Settled(schema: Schema, t: Table, rows: seq<Row>) {
    forall r, n :: r in rows && Newest(rows, n) && r.id == n.id && Writes(t, r) ==> Yields(schema, t, r, n)
  }

  // ----- a settled batch -----

  /** Where the entry of an identifier may stand while a settled batch is under way. */
  ghost predicate Midway(schema: Schema, t: Table, rows: seq<Row>, id: Id, u: Table) {
    && (id in t ==> id in u)
    && (id in u ==> (id in t && u[id] == t[id]) || Touched(schema, t, rows, id, u[id]))
  }

  ghost predicate Touched(schema: Schema, t: Table, rows: seq<Row>, id: Id, e: Row) {
    && e.id == id && (id in t ==> e.lastModified > t[id].lastModified)
    && (exists r :: r in rows && r.id == id && r.lastModified == e.lastModified)
    && (forall n :: Newest(rows, n) && n.id == id ==> GivesWay(Base(schema, t, id), e, n))
  }

  /** Under the newest row the entry leaves what was stored before; once at its time it is what that row comes to. */
  ghost predicate GivesWay(base: map<Column, Value>, e: Row, n: Row) {
    && e.columns + n.columns == base + n.columns
    && (e.lastModified == n.lastModified ==> e.columns == base + n.columns)
  }

  /** What is written over an entry that gives way gives way too. */
  lemma OverGivesWay(schema: Schema, t: Table, rows: seq<Row>, held: map<Column, Value>, r: Row, n: Row)
    requires Settled(schema, t, rows) && r in rows && Newest(rows, n) && r.id == n.id && Writes(t, r)
    requires forall m :: Newest(rows, m) && m.id == r.id ==> held + m.columns == Base(schema, t, r.id) + m.columns
    ensures GivesWay(Base(schema, t, r.id), Over(held, r), n)
  {
    var base := Base(schema, t, r.id);
    assert Yields(schema, t, r, n);
    if r.lastModified < n.lastModified {
      assert LeavesNothing(base, r, n);
      OlderLeavesNothing(base, held, r, n);
    } else {
      assert Newest(rows, r) && ComeToTheSame(base, r, n);
      assert held + r.columns == base + n.columns;
      assert base + n.columns + n.columns == base + n.columns;
    }
  }

  lemma OlderLeavesNothing(base: map<Column, Value>, held: map<Column, Value>, r: Row, n: Row)
    requires LeavesNothing(base, r, n) && held + n.columns == base + n.columns
    ensures held + r.columns + n.columns == base + n.columns
  {
    var a, b, c := held + r.columns + n.columns, base + n.columns, held + n.columns;
    assert a.Keys == b.Keys by {
      assert c.Keys == b.Keys;
      forall k | k in r.columns ensures k in b { assert k in n.columns || k in base; }
    }
    forall k | k in a ensures a[k] == b[k] {
      if k !in n.columns && k !in r.columns { assert a[k] == c[k]; }
    }
  }

  lemma UpsertMidway(schema: Schema, t: Table, rows: seq<Row>, id: Id, u: Table, r: Row)
    requires Settled(schema, t, rows) && r in rows && Midway(schema, t, rows, id, u)
    ensures Midway(schema, t, rows, id, Upsert(schema, u, r))
  {
    if r.id == id && Writes(u, r) {
      var e := Over(Base(schema, u, id), r);
      assert Writes(t, r);
      forall m | Newest(rows, m) && m.id == id
        ensures Base(schema, u, id) + m.columns == Base(schema, t, id) + m.columns
      {
        if id in u && !(id in t && u[id] == t[id]) { assert GivesWay(Base(schema, t, id), u[id], m); }
      }
      forall n | Newest(rows, n) && n.id == id ensures GivesWay(Base(schema, t, id), e, n) {
        OverGivesWay(schema, t, rows, Base(schema, u, id), r, n);
      }
      assert Touched(schema, t, rows, id, e);
    } else if Writes(u, r) {
    }
  }

  lemma {:induction false} UpsertAllMidway(schema: Schema, t: Table, rows: seq<Row>, id: Id, u: Table, a: seq<Row>)
    requires Settled(schema, t, rows) && Midway(schema, t, rows, id, u) && forall r :: r in a ==> r in rows
    ensures Midway(schema, t, rows, id, UpsertAll(schema, u, a))
    decreases a
  {
    if a != [] {
      UpsertMidway(schema, t, rows, id, u, a[0]);
      UpsertAllMidway(schema, t, rows, id, Upsert(schema, u, a[0]), a[1..]);
    }
  }

  ghost predicate Reached(u: Table, id: Id, time: int) {
    id in u && time <= u[id].lastModified
  }

  lemma {:induction false} UpsertAllKeepsReached(schema: Schema, u: Table, a: seq<Row>, id: Id, time: int)
    requires Reached(u, id, time)
    ensures Reached(UpsertAll(schema, u, a), id, time)
    decreases a
  {
    if a != [] { UpsertAllKeepsReached(schema, Upsert(schema, u, a[0]), a[1..], id, time); }
  }

  lemma {:induction false} UpsertAllReaches(schema: Schema, u: Table, a: seq<Row>, r: Row)
    requires r in a
    ensures Reached(UpsertAll(schema, u, a), r.id, r.lastModified)
    decreases a
  {
    if r == a[0] {
      UpsertAllKeepsReached(schema, Upsert(schema, u, r), a[1..], r.id, r.lastModified);
    } else {
      UpsertAllReaches(schema, Upsert(schema, u, a[0]), a[1..], r);
    }
  }

  lemma {:induction false} SomeNewest(rows: seq<Row>, id: Id) returns (n: Row)
    requires exists r :: r in rows && r.id == id
    ensures Newest(rows, n) && n.id == id
  {
    var front, last := rows[..|rows| - 1], rows[|rows| - 1];
    assert rows == front + [last];
    if exists r :: r in front && r.id == id {
      n := SomeNewest(front, id);
      if last.id == id && last.lastModified > n.lastModified { n := last; }
    } else {
      n := last;
    }
  }

  /** The entry a settled batch leaves for an identifier: the newest row over what was stored, if it can be written. */
  lemma SettledEntry(schema: Schema, t: Table, rows: seq<Row>, id: Id, u: Table, n: Row)
    requires Midway(schema, t, rows, id, u) && Newest(rows, n) && n.id == id && Reached(u, id, n.lastModified)
    ensures id in u && u[id] == if Writes(t, n) then Over(Base(schema, t, id), n) else t[id]
  {
    if !(id in t && u[id] == t[id]) {
      assert GivesWay(Base(schema, t, id), u[id], n);
    }
  }

  ghost predicate SameRows(a: seq<Row>, b: seq<Row>) {
    forall r :: r in a <==> r in b
  }

  lemma SettledEntries(schema: Schema, t: Table, rows: seq<Row>, a: seq<Row>, id: Id)
    requires Settled(schema, t, rows) && SameRows(a, rows)
    ensures id in UpsertAll(schema, t, a) <==> id in UpsertAll(schema, t, rows)
    ensures id in UpsertAll(schema, t, a) ==> UpsertAll(schema, t, a)[id] == UpsertAll(schema, t, rows)[id]
  {
    UpsertAllMidway(schema, t, rows, id, t, a);
    UpsertAllMidway(schema, t, rows, id, t, rows);
    if exists r :: r in rows && r.id == id {
      var n := SomeNewest(rows, id);
      UpsertAllReaches(schema, t, a, n);
      UpsertAllReaches(schema, t, rows, n);
      SettledEntry(schema, t, rows, id, UpsertAll(schema, t, a), n);
      SettledEntry(schema, t, rows, id, UpsertAll(schema, t, rows), n);
    }
  }

  /** Every order of a settled batch, with any repeats, leaves the same table. */
  lemma SettledAnyOrder(schema: Schema, t: Table, rows: seq<Row>, a: seq<Row>)
    requires Settled(schema, t, rows) && SameRows(a, rows)
    ensures UpsertAll(schema, t, a) == UpsertAll(schema, t, rows)
  {
    var u, v := UpsertAll(schema, t, a), UpsertAll(schema, t, rows);
    forall id ensures (id in u <==> id in v) && (id in u ==> u[id] == v[id]) {
      SettledEntries(schema, t, rows, a, id);
    }
  }

  // ----- a batch that is not settled -----

  lemma {:induction false} NewestStays(schema: Schema, u: Table, a: seq<Row>, id: Id)
    requires id in u && forall r :: r in a && r.id == id ==> r.lastModified <= u[id].lastModified
    ensures id in UpsertAll(schema, u, a) && UpsertAll(schema, u, a)[id] == u[id]
    decreases a
  {
    if a != [] {
      assert a[0] in a && forall r :: r in a[1..] ==> r in a;
      NewestStays(schema, Upsert(schema, u, a[0]), a[1..], id);
    }
  }

  lemma TakeOut(s: seq<Row>, x: Row) returns (rest: seq<Row>)
    requires x in s
    ensures multiset(s) == multiset{x} + multiset(rest)
  {
    var i :| 0 <= i < |s| && s[i] == x;
    rest := s[..i] + s[i + 1..];
    assert s == s[..i] + [s[i]] + s[i + 1..];
  }

  /** A batch with two of its rows taken to the front. */
  lemma TwoFirst(rows: seq<Row>, r: Row, n: Row) returns (rest: seq<Row>)
    requires r in rows && n in rows && r != n
    ensures multiset([r, n] + rest) == multiset(rows) == multiset([n, r] + rest)
    ensures forall x :: x in rest ==> x in rows
  {
    var without := TakeOut(rows, r);
    assert n in multiset(rows) && n in without;
    rest := TakeOut(without, n);
    assert multiset([r, n] + rest) == multiset{r, n} + multiset(rest) == multiset([n, r] + rest);
    forall x | x in rest ensures x in rows { assert x in multiset(rows); }
  }

  lemma UpsertTwo(schema: Schema, t: Table, a: Row, b: Row, rest: seq<Row>)
    ensures UpsertAll(schema, t, [a, b] + rest) == UpsertAll(schema, Upsert(schema, Upsert(schema, t, a), b), rest)
  {
    assert ([a, b] + rest)[1..] == [b] + rest && ([b] + rest)[1..] == rest;
  }

  /** What two rows of one identifier leave when the second is the newest of the batch, whatever follows. */
  lemma TwoThenRest(schema: Schema, t: Table, rows: seq<Row>, a: Row, b: Row, rest: seq<Row>)
    requires a.id == b.id && Newest(rows, b) && a in rows && Writes(t, a) && forall x :: x in rest ==> x in rows
    ensures var u := UpsertAll(schema, t, [a, b] + rest);
            && b.id in u
            && u[b.id] == if a.lastModified < b.lastModified
                          then Over(Base(schema, t, b.id) + a.columns, b) else Over(Base(schema, t, b.id), a)
  {
    var m := Upsert(schema, t, a);
    var u := Upsert(schema, m, b);
    if a.lastModified < b.lastModified {
      assert Base(schema, m, b.id) == Base(schema, t, b.id) + a.columns;
    }
    UpsertTwo(schema, t, a, b, rest);
    NewestStays(schema, u, rest, b.id);
  }

  /** The newest row first: the other leaves no trace. */
  lemma NewestThenOther(schema: Schema, t: Table, rows: seq<Row>, n: Row, r: Row, rest: seq<Row>)
    requires n.id == r.id && Newest(rows, n) && r in rows && Writes(t, n) && forall x :: x in rest ==> x in rows
    ensures var u := UpsertAll(schema, t, [n, r] + rest); n.id in u && u[n.id] == Over(Base(schema, t, n.id), n)
  {
    var u := Upsert(schema, t, n);
    UpsertTwo(schema, t, n, r, rest);
    assert Upsert(schema, u, r) == u;
    NewestStays(schema, u, rest, n.id);
  }

  lemma SameOverSettles(base: map<Column, Value>, r: Row, n: Row)
    requires base + r.columns + n.columns == base + n.columns
    ensures LeavesNothing(base, r, n)
  {
    var a, b := base + r.columns + n.columns, base + n.columns;
    forall c | c in r.columns.Keys - n.columns.Keys ensures c in base && base[c] == r.columns[c] {
      assert c in a && a[c] == r.columns[c] && c in b && b[c] == a[c];
    }
  }

  /** Every order of the batch leaves the table this one leaves. */
  ghost predicate OrderIndifferent(schema: Schema, t: Table, rows: seq<Row>) {
    forall a :: multiset(a) == multiset(rows) ==> UpsertAll(schema, t, a) == UpsertAll(schema, t, rows)
  }

  /** If two orders that differ in one pair agree, the older row of the pair yields. */
  lemma AgreeingPair(schema: Schema, t: Table, rows: seq<Row>, r: Row, n: Row, rest: seq<Row>)
    requires r in rows && Newest(rows, n) && r.id == n.id && Writes(t, r) && forall x :: x in rest ==> x in rows
    requires UpsertAll(schema, t, [r, n] + rest) == UpsertAll(schema, t, [n, r] + rest)
    ensures Yields(schema, t, r, n)
  {
    TwoThenRest(schema, t, rows, r, n, rest);
    NewestThenOther(schema, t, rows, n, r, rest);
    if r.lastModified < n.lastModified { SameOverSettles(Base(schema, t, r.id), r, n); }
  }

  lemma IndifferentYields(schema: Schema, t: Table, rows: seq<Row>, r: Row, n: Row)
    requires OrderIndifferent(schema, t, rows)
    requires r in rows && Newest(rows, n) && r.id == n.id && Writes(t, r)
    ensures Yields(schema, t, r, n)
  {
    if r != n {
      var rest := TwoFirst(rows, r, n);
      AgreeingPair(schema, t, rows, r, n, rest);
    }
  }

  lemma SettledIsIndifferent(schema: Schema, t: Table, rows: seq<Row>)
    requires Settled(schema, t, rows)
    ensures OrderIndifferent(schema, t, rows)
  {
    forall a | multiset(a) == multiset(rows) ensures UpsertAll(schema, t, a) == UpsertAll(schema, t, rows) {
      forall r ensures r in a <==> r in rows { assert r in multiset(a) <==> r in multiset(rows); }
      SettledAnyOrder(schema, t, rows, a);
    }
  }

  /** All orders of a batch leave one table exactly when the batch is settled. */
  lemma BatchOrderExactly(schema: Schema, t: Table, rows: seq<Row>)
    ensures OrderIndifferent(schema, t, rows) <==> Settled(schema, t, rows)
  {
    if Settled(schema, t, rows) {
      SettledIsIndifferent(schema, t, rows);
    } else if OrderIndifferent(schema, t, rows) {
      var r, n :| r in rows && Newest(rows, n) && r.id == n.id && Writes(t, r) && !Yields(schema, t, r, n);
      IndifferentYields(schema, t, rows, r, n);
    }
  }

  /** Two rows of one identifier commute exactly when the older cannot be written or leaves nothing behind. */
  lemma PartialRowsDepend(schema: Schema, t: Table, older: Row, newer: Row)
    requires older.id == newer.id && older.lastModified < newer.lastModified
    ensures UpsertAll(schema, t, [older, newer]) == UpsertAll(schema, t, [newer, older])
      <==> !Writes(t, older) || LeavesNothing(Base(schema, t, older.id), older, newer)
  {
    var rows := [older, newer];
    assert older in rows && newer in rows && Newest(rows, newer);
    assert [older, newer] + [] == rows && [newer, older] + [] == [newer, older];
    UpsertTwo(schema, t, older, newer, []);
    UpsertTwo(schema, t, newer, older, []);
    if Writes(t, older) {
      TwoThenRest(schema, t, rows, older, newer, []);
      NewestThenOther(schema, t, rows, newer, older, []);
      if LeavesNothing(Base(schema, t, older.id), older, newer) {
        OlderLeavesNothing(Base(schema, t, older.id), Base(schema, t, older.id), older, newer);
      } else if UpsertAll(schema, t, [older, newer]) == UpsertAll(schema, t, [newer, older]) {
        SameOverSettles(Base(schema, t, older.id), older, newer);
      }
    } else {
      assert Upsert(schema, t, older) == t;
      assert Writes(t, newer) ==> Upsert(schema, Upsert(schema, t, newer), older) == Upsert(schema, t, newer);
    }
  }

  // ----- a batch whose order matters -----

  const PERSONE: Schema := map["nome" := Some(""), "cognome" := Some("")]
  const NAMED := Row("1", 1, map["nome" := Some("Anna")])
  const SURNAMED := Row("1", 2, map["cognome" := Some("Rossi")])

  function Fields(t: Table, id: Id): map<Column, Value> {
    if id in t then t[id].columns else map[]
  }

  lemma NewestOfTwo(r: Row, n: Row)
    requires r.lastModified < n.lastModified
    ensures forall rows :: rows == [r, n] || rows == [n, r] ==> r in rows && n in rows && Newest(rows, n)
  {
  }

  lemma NameFirst()
    ensures Fields(UpsertAll(PERSONE, map[], [NAMED, SURNAMED]), "1")
         == map["nome" := Some("Anna"), "cognome" := Some("Rossi")]
  {
    NewestOfTwo(NAMED, SURNAMED);
    assert [NAMED, SURNAMED] + [] == [NAMED, SURNAMED];
    TwoThenRest(PERSONE, map[], [NAMED, SURNAMED], NAMED, SURNAMED, []);
    assert PERSONE + NAMED.columns + SURNAMED.columns == map["nome" := Some("Anna"), "cognome" := Some("Rossi")];
  }

  lemma SurnameFirst()
    ensures Fields(UpsertAll(PERSONE, map[], [SURNAMED, NAMED]), "1")
         == map["nome" := Some(""), "cognome" := Some("Rossi")]
  {
    NewestOfTwo(NAMED, SURNAMED);
    assert [SURNAMED, NAMED] + [] == [SURNAMED, NAMED];
    NewestThenOther(PERSONE, map[], [SURNAMED, NAMED], SURNAMED, NAMED, []);
    assert PERSONE + SURNAMED.columns == map["nome" := Some(""), "cognome" := Some("Rossi")];
  }

  /** Of a new person the name comes with one row and the surname with a later one; in the other order the name stays
      empty. */
  lemma OrderMatters()
    ensures !OrderIndifferent(PERSONE, map[], [NAMED, SURNAMED])
    ensures Fields(UpsertAll(PERSONE, map[], [NAMED, SURNAMED]), "1")
         == map["nome" := Some("Anna"), "cognome" := Some("Rossi")]
    ensures Fields(UpsertAll(PERSONE, map[], [SURNAMED, NAMED]), "1")
         == map["nome" := Some(""), "cognome" := Some("Rossi")]
  {
    NameFirst();
    SurnameFirst();
    var a := map["nome" := Some("Anna"), "cognome" := Some("Rossi")];
    var b := map["nome" := Some(""), "cognome" := Some("Rossi")];
    assert a["nome"] == Some("Anna") && b["nome"] == Some("") && a["nome"].value != b["nome"].value;
    assert multiset([SURNAMED, NAMED]) == multiset([NAMED, SURNAMED]);
  }
}

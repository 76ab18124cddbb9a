/** The revision history of a record: field-by-field diffs between successive payloads, newest first. */
module RevisionHistory {
  import opened Wrappers

  /** A JSON value; objects and arrays are compared by identity, so two parsed ones are never the same. `Inherited` is
      what a field reads as that a payload lacks but every object has. */
  datatype Value = Null | Scalar(text: string) | Composite(json: string) | Inherited(name: string)

  /** What a parsed payload can hold. */
  type Json = v: Value | !v.Inherited? witness Null

  type Payload = map<string, Json>

  /** A record as rebuilt from changes. */
  type Record = map<string, Value>

  /** A ledger row, its payload parsed; text that does not parse counts as an empty payload. */
  datatype Row = Row(blockId: string, deleted: bool, payload: Payload)

  datatype Change = Change(field: string, oldValue: Value, newValue: Value)

  datatype Revision = Revision(blockId: string, deleted: bool, changes: seq<Change>)

  const IGNORED_FIELDS := {"id", "last_modified", "_actor_user_id"}

  /** The members every object has. */
  const OBJECT_MEMBERS := {
    "constructor", "__defineGetter__", "__defineSetter__", "hasOwnProperty", "__lookupGetter__", "__lookupSetter__",
    "isPrototypeOf", "propertyIsEnumerable", "toString", "valueOf", "__proto__", "toLocaleString"}

  /** What reading a field yields; None stands for undefined. */
  function Lookup(p: Option<Payload>, field: string): Option<Value> {
    if p.None? then None
    else if field in p.value then Some(p.value[field])
    else if field in OBJECT_MEMBERS then Some(Inherited(field))
    else None
  }

  function OrNull(v: Option<Value>): Value {
    if v.Some? then v.value else Null
  }

  predicate Identical(a: Option<Value>, b: Option<Value>) {
    a == b && !(a.Some? && a.value.Composite?)
  }

  function Fields(p: Option<Payload>): set<string> {
    if p.Some? then p.value.Keys else {}
  }

  /** The field is reported: not ignored, present on a side, and not identical on both. */
  predicate Reported(before: Option<Payload>, after: Payload, field: string) {
    && field !in IGNORED_FIELDS && field in Fields(before) + after.Keys
    && !Identical(Lookup(before, field), Lookup(Some(after), field))
  }

  /** One change for each reported field, from the old value read to the new one, undefined as null. */
  ghost predicate IsDiff(before: Option<Payload>, after: Payload, changes: seq<Change>) {
    && DistinctFields(changes)
    && (forall f :: Reported(before, after, f) ==> exists c :: c in changes && c.field == f)
    && (forall c :: c in changes ==>
          && Reported(before, after, c.field)
          && c.oldValue == OrNull(Lookup(before, c.field)) && c.newValue == OrNull(Lookup(Some(after), c.field)))
  }

  method ComputeChanges(previousPayload: Option<Payload>, currentPayload: Payload) returns (changes: seq<Change>)
    ensures IsDiff(previousPayload, currentPayload, changes)
  {
    changes := [];
    var keys := Fields(previousPayload) + currentPayload.Keys;
    var todo := keys;
    while todo != {}
      invariant todo <= keys
      invariant forall i, j :: 0 <= i < j < |changes| ==> changes[i].field != changes[j].field
      invariant forall f :: Reported(previousPayload, currentPayload, f) && f !in todo ==>
                  exists c :: c in changes && c.field == f
      invariant forall c :: c in changes ==>
                  && c.field !in todo && Reported(previousPayload, currentPayload, c.field)
                  && c.oldValue == OrNull(Lookup(previousPayload, c.field))
                  && c.newValue == OrNull(Lookup(Some(currentPayload), c.field))
      decreases todo
    {
      var key :| key in todo;
      ghost var before := changes;
      if key !in IGNORED_FIELDS {
        var oldValue := Lookup(previousPayload, key);
        var newValue := Lookup(Some(currentPayload), key);
        if !Identical(oldValue, newValue) {
          changes := changes + [Change(key, OrNull(oldValue), OrNull(newValue))];
          assert changes[|before|] in changes;
        }
      }
      assert forall c :: c in before ==> c in changes;
      todo := todo - {key};
    }
  }

  /** Between two payloads exactly the fields change, of all but three, that one side lacks, or whose values differ or
      are objects; each change carries the values on both sides. */
  lemma ChangesAre(before: Payload, after: Payload, changes: seq<Change>, f: string)
    requires IsDiff(Some(before), after, changes) && f !in {"id", "last_modified", "_actor_user_id"}
    ensures (exists c :: c in changes && c.field == f) <==>
              if f in before && f in after then before[f] != after[f] || before[f].Composite?
              else f in before || f in after
    ensures forall c :: c in changes && c.field == f ==>
              && (f in before ==> c.oldValue == before[f]) && (f in after ==> c.newValue == after[f])
  {
    assert Reported(Some(before), after, f) <==>
             if f in before && f in after then before[f] != after[f] || before[f].Composite?
             else f in before || f in after;
  }

  /** The first payload changes all its fields but three, from nothing. */
  lemma FirstChangesAre(after: Payload, changes: seq<Change>, f: string)
    requires IsDiff(None, after, changes)
    ensures Change(f, Null, if f in after then after[f] else Null) in changes
      <==> f in after && f !in {"id", "last_modified", "_actor_user_id"}
  {
    if f in after && f !in {"id", "last_modified", "_actor_user_id"} {
      assert Reported(None, after, f);
      var c :| c in changes && c.field == f;
    }
  }

  /** The payload of the latest row that is not a deletion. */
  function Latest(rows: seq<Row>): Option<Payload> {
    if rows == [] then None
    else if rows[|rows| - 1].deleted then Latest(rows[..|rows| - 1])
    else Some(rows[|rows| - 1].payload)
  }

  ghost predicate IsRevision(rows: seq<Row>, i: nat, r: Revision)
    requires i < |rows|
  {
    && r.blockId == rows[i].blockId && r.deleted == rows[i].deleted
    && if rows[i].deleted then r.changes == [] else IsDiff(Latest(rows[..i]), rows[i].payload, r.changes)
  }

  /** Revision i describes what row i changed. */
  ghost predicate Chronicle(rows: seq<Row>, revisions: seq<Revision>) {
    |revisions| == |rows| && forall i :: 0 <= i < |rows| ==> IsRevision(rows, i, revisions[i])
  }

  function Reversed(s: seq<Revision>): (r: seq<Revision>)
    ensures |r| == |s| && forall i :: 0 <= i < |s| ==> r[i] == s[|s| - 1 - i]
  {
    if s == [] then [] else Reversed(s[1..]) + [s[0]]
  }

  /** The history of the rows, oldest row last. */
  method GetHistory(rows: seq<Row>) returns (revisions: seq<Revision>)
    ensures Chronicle(rows, Reversed(revisions))
  {
    var chronological := [];
    var previousPayload := None;
    for i := 0 to |rows|
      invariant previousPayload == Latest(rows[..i])
      invariant |chronological| == i && forall k :: 0 <= k < i ==> IsRevision(rows, k, chronological[k])
    {
      var row := rows[i];
      assert rows[..i + 1][..i] == rows[..i];
      var changes := [];
      if !row.deleted {
        changes := ComputeChanges(previousPayload, row.payload);
        previousPayload := Some(row.payload);
      }
      chronological := chronological + [Revision(row.blockId, row.deleted, changes)];
    }
    revisions := Reversed(chronological);
    assert Reversed(revisions) == chronological;
  }

  // ----- replaying the history -----

  function Replay(record: Record, changes: seq<Change>): Record {
    if changes == [] then record
    else
      var last := changes[|changes| - 1];
      Replay(record, changes[..|changes| - 1])[last.field := last.newValue]
  }

  function ReplayAll(revisions: seq<Revision>): Record {
    if revisions == [] then map[]
    else Replay(ReplayAll(revisions[..|revisions| - 1]), revisions[|revisions| - 1].changes)
  }

  /** What a replayed record shows for a field, absent as null. */
  function Shown(record: Record, field: string): Value {
    if field in record then record[field] else Null
  }

  /** Some row that is not a deletion held the field. */
  predicate EverHeld(rows: seq<Row>, field: string) {
    exists row <- rows :: !row.deleted && field in row.payload
  }

  /** What the latest payload holds; once a field named like a member of every object is gone, that member. */
  function Expected(rows: seq<Row>, field: string): Value {
    var p := Latest(rows);
    if p.Some? && field in p.value then p.value[field]
    else if field in OBJECT_MEMBERS && EverHeld(rows, field) then Inherited(field)
    else Null
  }

  ghost predicate Shows(record: Record, rows: seq<Row>) {
    forall f :: f !in IGNORED_FIELDS ==> Shown(record, f) == Expected(rows, f)
  }

  ghost predicate DistinctFields(changes: seq<Change>) {
    forall i, j :: 0 <= i < j < |changes| ==> changes[i].field != changes[j].field
  }

  lemma {:induction false} ReplayOther(record: Record, changes: seq<Change>, field: string)
    requires forall i :: 0 <= i < |changes| ==> changes[i].field != field
    ensures Shown(Replay(record, changes), field) == Shown(record, field)
  {
    if changes != [] { ReplayOther(record, changes[..|changes| - 1], field); }
  }

  lemma {:induction false} ReplayField(record: Record, changes: seq<Change>, i: nat)
    requires DistinctFields(changes) && i < |changes|
    ensures Shown(Replay(record, changes), changes[i].field) == changes[i].newValue
  {
    if i < |changes| - 1 { ReplayField(record, changes[..|changes| - 1], i); }
  }

  lemma LatestIsHeld(rows: seq<Row>, field: string)
    requires Latest(rows).Some? && field in Latest(rows).value
    ensures EverHeld(rows, field)
  {
    var last := rows[|rows| - 1];
    if last.deleted {
      LatestIsHeld(rows[..|rows| - 1], field);
      var row :| row in rows[..|rows| - 1] && !row.deleted && field in row.payload;
      assert row in rows;
    } else {
      assert last in rows;
    }
  }

  lemma {:induction false} HeldHasLatest(rows: seq<Row>, field: string)
    requires EverHeld(rows, field)
    ensures Latest(rows).Some?
  {
    var front, last := rows[..|rows| - 1], rows[|rows| - 1];
    assert rows == front + [last];
    if last.deleted {
      HeldNext(front, last, field);
      HeldHasLatest(front, field);
    }
  }

  lemma HeldNext(rows: seq<Row>, row: Row, field: string)
    ensures EverHeld(rows + [row], field) <==> EverHeld(rows, field) || (!row.deleted && field in row.payload)
  {
    assert forall x :: x in rows + [row] <==> x in rows || x == row;
  }

  lemma LatestNext(rows: seq<Row>, row: Row)
    ensures Latest(rows + [row]) == if row.deleted then Latest(rows) else Some(row.payload)
  {
    assert (rows + [row])[..|rows|] == rows;
  }

  lemma UnreportedExpected(rows: seq<Row>, row: Row, f: string)
    requires !row.deleted && f !in IGNORED_FIELDS && !Reported(Latest(rows), row.payload, f)
    ensures Expected(rows + [row], f) == Expected(rows, f)
  {
    HeldNext(rows, row, f);
    LatestNext(rows, row);
    if Latest(rows).Some? && f in Latest(rows).value { LatestIsHeld(rows, f); }
  }

  lemma ReportedExpected(rows: seq<Row>, row: Row, f: string)
    requires !row.deleted && Reported(Latest(rows), row.payload, f)
    ensures Expected(rows + [row], f) == OrNull(Lookup(Some(row.payload), f))
  {
    HeldNext(rows, row, f);
    LatestNext(rows, row);
    if Latest(rows).Some? && f in Latest(rows).value { LatestIsHeld(rows, f); }
  }

  lemma DiffMovesOn(record: Record, rows: seq<Row>, row: Row, changes: seq<Change>)
    requires Shows(record, rows) && !row.deleted && IsDiff(Latest(rows), row.payload, changes)
    ensures Shows(Replay(record, changes), rows + [row])
  {
    forall f | f !in IGNORED_FIELDS ensures Shown(Replay(record, changes), f) == Expected(rows + [row], f) {
      if Reported(Latest(rows), row.payload, f) {
        var c :| c in changes && c.field == f;
        var i :| 0 <= i < |changes| && changes[i] == c;
        ReplayField(record, changes, i);
        ReportedExpected(rows, row, f);
      } else {
        forall i | 0 <= i < |changes| ensures changes[i].field != f { assert changes[i] in changes; }
        ReplayOther(record, changes, f);
        UnreportedExpected(rows, row, f);
      }
    }
  }

  lemma DeletionShowsTheSame(record: Record, rows: seq<Row>, row: Row)
    requires Shows(record, rows) && row.deleted
    ensures Shows(record, rows + [row])
  {
    LatestNext(rows, row);
    forall f | f !in IGNORED_FIELDS ensures Expected(rows + [row], f) == Expected(rows, f) {
      HeldNext(rows, row, f);
    }
  }

  /** Replaying the revisions up to any point shows the latest payload that was not a deletion. */
  lemma {:induction false} ReplayShowsLatest(rows: seq<Row>, revisions: seq<Revision>, k: nat)
    requires Chronicle(rows, revisions) && k <= |rows|
    ensures Shows(ReplayAll(revisions[..k]), rows[..k])
  {
    if k > 0 {
      ReplayShowsLatest(rows, revisions, k - 1);
      var before, row := rows[..k - 1], rows[k - 1];
      assert IsRevision(rows, k - 1, revisions[k - 1]);
      assert revisions[..k][..k - 1] == revisions[..k - 1] && rows[..k] == before + [row];
      if row.deleted {
        DeletionShowsTheSame(ReplayAll(revisions[..k - 1]), before, row);
      } else {
        DiffMovesOn(ReplayAll(revisions[..k - 1]), before, row, revisions[k - 1].changes);
      }
    }
  }

  /** A field shows what the latest payload holds, absent as null, exactly unless it is named like a member of every
      object, was held once and is gone. */
  lemma RoundTripExactly(rows: seq<Row>, revisions: seq<Revision>, k: nat, f: string)
    requires Chronicle(rows, revisions) && k <= |rows| && f !in IGNORED_FIELDS
    ensures var p := Latest(rows[..k]);
            var held := p.Some? && f in p.value;
            Shown(ReplayAll(revisions[..k]), f) == (if held then p.value[f] else Null)
            <==> !(f in OBJECT_MEMBERS && EverHeld(rows[..k], f) && !held)
  {
    ReplayShowsLatest(rows, revisions, k);
  }

  /** Every change of a revision names the value shown before it, or the object member an absent field reads as, and the
      value shown after it; a deletion changes nothing. */
  lemma ChangesConnect(rows: seq<Row>, revisions: seq<Revision>, k: nat)
    requires Chronicle(rows, revisions) && k < |rows|
    ensures var before, after := ReplayAll(revisions[..k]), ReplayAll(revisions[..k + 1]);
            && (rows[k].deleted ==> after == before)
            && forall c :: c in revisions[k].changes ==>
                 && c.newValue == Shown(after, c.field)
                 && c.oldValue == if MissingMember(Latest(rows[..k]), c.field) then Inherited(c.field)
                                  else Shown(before, c.field)
  {
    ReplayShowsLatest(rows, revisions, k);
    assert IsRevision(rows, k, revisions[k]);
    assert revisions[..k + 1][..k] == revisions[..k];
    forall c | c in revisions[k].changes
      ensures c.newValue == Shown(ReplayAll(revisions[..k + 1]), c.field)
      ensures c.oldValue == if MissingMember(Latest(rows[..k]), c.field) then Inherited(c.field)
                            else Shown(ReplayAll(revisions[..k]), c.field)
    {
      var i :| 0 <= i < |revisions[k].changes| && revisions[k].changes[i] == c;
      ReplayField(ReplayAll(revisions[..k]), revisions[k].changes, i);
      if EverHeld(rows[..k], c.field) { HeldHasLatest(rows[..k], c.field); }
    }
  }

  /** A payload lacks the field, which reads as a member of every object. */
  predicate MissingMember(p: Option<Payload>, field: string) {
    p.Some? && field !in p.value && field in OBJECT_MEMBERS
  }

  /** A field is held and then gone. */
  function HeldAndGone(field: string): seq<Row> {
    [Row("b1", false, map[field := Scalar("x")]), Row("b2", false, map[])]
  }

  /** Any history of it replays to the member of every object, if the field is named like one. */
  lemma GoneFieldShowsMember(field: string, revisions: seq<Revision>)
    requires Chronicle(HeldAndGone(field), revisions) && field in OBJECT_MEMBERS
    ensures Latest(HeldAndGone(field)) == Some(map[])
    ensures Shown(ReplayAll(revisions), field) == Inherited(field)
  {
    var rows := HeldAndGone(field);
    assert rows[0] in rows && EverHeld(rows, field);
    assert rows[..2] == rows && revisions[..2] == revisions;
    ReplayShowsLatest(rows, revisions, 2);
  }
}

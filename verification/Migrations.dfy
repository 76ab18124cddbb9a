/** Schema migrations: the transactional upgrade at start and the step-by-step reconciliation agent. */
module Migrations {
  import opened StableSorting
  import opened Filtering
  import opened Wrappers

  datatype Migration = Migration(version: int, script: string)

  /** A database: its schema and contents, and its user_version. */
  datatype Db<S> = Db(schema: S, version: int)

  /** What a script does to a schema; None when it throws. */
  type Effect<!S> = (Migration, S) -> Option<S>

  predicate ByVersion(a: Migration, b: Migration) {
    a.version <= b.version
  }

  predicate Below(a: Migration, b: Migration) {
    a.version < b.version
  }

  function Newer(current: int): Migration -> bool {
    (m: Migration) => m.version > current
  }

  /** The migrations above the current version, in ascending order. */
  function Pending(ms: seq<Migration>, current: int): seq<Migration> {
    Sort(ByVersion, Filter(Newer(current), ms))
  }

  function ApplyAll<S>(eff: Effect<S>, ms: seq<Migration>, s: S): Option<S> {
    if ms == [] then Some(s)
    else
      match ApplyAll(eff, ms[..|ms| - 1], s)
      case None => None
      case Some(t) => eff(ms[|ms| - 1], t)
  }

  function VersionAfter(ms: seq<Migration>, current: int): int {
    if ms == [] then current else ms[|ms| - 1].version
  }

  /** One transaction over everything pending. */
  function Upgraded<S>(eff: Effect<S>, ms: seq<Migration>, db: Db<S>): (Db<S>, bool) {
    var p := Pending(ms, db.version);
    match ApplyAll(eff, p, db.schema)
    case None => (db, false)
    case Some(s) => (Db(s, VersionAfter(p, db.version)), true)
  }

  /** The steps of p that succeed, at most `allowed` of them: where the agent stops. */
  function Reach<S>(eff: Effect<S>, p: seq<Migration>, s: S, allowed: nat): (k: nat)
    ensures k <= |p| && ApplyAll(eff, p[..k], s).Some?
  {
    if p == [] || allowed == 0 then 0
    else
      match eff(p[0], s)
      case None => 0
      case Some(t) =>
        var k := 1 + Reach(eff, p[1..], t, allowed - 1);
        ApplyFirst(eff, p[..k], s);
        assert p[..k][1..] == p[1..][..k - 1];
        k
  }

  /** One visit of the agent: each step commits alone; it stops at the first that fails, or after `allowed` steps. */
  function Reconciled<S>(eff: Effect<S>, ms: seq<Migration>, db: Db<S>, allowed: nat): (Db<S>, seq<int>) {
    var p := Pending(ms, db.version);
    var k := Reach(eff, p, db.schema, allowed);
    (Db(ApplyAll(eff, p[..k], db.schema).value, VersionAfter(p[..k], db.version)), VersionsOf(p[..k]))
  }

  function VersionsOf(p: seq<Migration>): (r: seq<int>)
    ensures |r| == |p| && forall i :: 0 <= i < |p| ==> r[i] == p[i].version
  {
    if p == [] then [] else [p[0].version] + VersionsOf(p[1..])
  }

  /** Successive visits, and everything they report as applied. */
  function Ticks<S>(eff: Effect<S>, ms: seq<Migration>, db: Db<S>, allowed: seq<nat>): (Db<S>, seq<int>) {
    if allowed == [] then (db, [])
    else
      var (mid, before) := Ticks(eff, ms, db, allowed[..|allowed| - 1]);
      var (end, now) := Reconciled(eff, ms, mid, allowed[|allowed| - 1]);
      (end, before + now)
  }

  // ----- the adapter and the agent as they run -----

  class SqlJsAdapter<!S> {
    const effect: Effect<S>
    var schema: S
    var userVersion: int

    function State(): Db<S>
      reads this
    {
      Db(schema, userVersion)
    }

    constructor (eff: Effect<S>, db: Db<S>)
      ensures effect == eff && State() == db
    {
      effect, schema, userVersion := eff, db.schema, db.version;
    }

    method RunMigrations(migrations: seq<Migration>) returns (ok: bool)
      modifies this
      ensures (State(), ok) == Upgraded(effect, migrations, old(State()))
    {
      if |migrations| == 0 { return true; }
      var pending := Pending(migrations, userVersion);
      var saved := schema;
      var lastVersion := userVersion;
      for i := 0 to |pending|
        invariant ApplyAll(effect, pending[..i], saved) == Some(schema)
        invariant lastVersion == VersionAfter(pending[..i], userVersion) && userVersion == old(userVersion)
      {
        assert pending[..i + 1][..i] == pending[..i];
        match effect(pending[i], schema)
        case None =>
          ApplyStops(effect, pending, i, saved);
          schema := saved;
          return false;
        case Some(s) => schema := s;
        lastVersion := pending[i].version;
      }
      assert pending[..|pending|] == pending;
      userVersion := lastVersion;
      ok := true;
    }
  }

  class SchemaReconciliationAgent {
    /** One visit to a domain; `allowed` is how many of its steps can succeed. */
    method ReconcileDomain<S>(adapter: SqlJsAdapter<S>, migrations: seq<Migration>, allowed: nat)
        returns (applied: seq<int>)
      modifies adapter
      ensures (adapter.State(), applied) == Reconciled(adapter.effect, migrations, old(adapter.State()), allowed)
    {
      applied := RunSteps(adapter, Pending(migrations, adapter.userVersion), allowed);
    }

    method RunSteps<S>(adapter: SqlJsAdapter<S>, pending: seq<Migration>, allowed: nat) returns (applied: seq<int>)
      modifies adapter
      ensures var start := old(adapter.State());
              Stopped(adapter.effect, pending, start, Reach(adapter.effect, pending, start.schema, allowed),
                      adapter.State(), applied)
    {
      applied := [];
      var i := 0;
      ghost var effect, start := adapter.effect, adapter.State();
      ghost var target := Reach(effect, pending, start.schema, allowed);
      while i < |pending| && i < allowed && adapter.effect(pending[i], adapter.schema).Some?
        invariant 0 <= i <= |pending| && i <= allowed
        invariant Stopped(effect, pending, start, i, adapter.State(), applied)
        invariant ReachFrom(effect, pending, i, adapter.schema, allowed) == target
      {
        OneStep(effect, pending, start, i, adapter.State(), applied, allowed);
        adapter.schema := adapter.effect(pending[i], adapter.schema).value;
        adapter.userVersion := pending[i].version;
        applied := applied + [pending[i].version];
        i := i + 1;
      }
    }
  }

  /** The database, and the versions reported, after the first k steps. */
  ghost predicate Stopped<S>(eff: Effect<S>, p: seq<Migration>, start: Db<S>, k: nat, db: Db<S>, applied: seq<int>) {
    AtStep(eff, p, start, k, db) && applied == VersionsOf(p[..k])
  }

  // ----- lists of migrations -----

  /** Where the agent stops, seen from step i. */
  ghost function ReachFrom<S>(eff: Effect<S>, p: seq<Migration>, i: nat, s: S, allowed: nat): nat
    requires i <= |p| && i <= allowed
  {
    i + Reach(eff, p[i..], s, allowed - i)
  }

  lemma ReachNext<S>(eff: Effect<S>, p: seq<Migration>, i: nat, s: S, allowed: nat)
    requires i < |p| && i < allowed && eff(p[i], s).Some?
    ensures ReachFrom(eff, p, i, s, allowed) == ReachFrom(eff, p, i + 1, eff(p[i], s).value, allowed)
  {
    assert p[i..][0] == p[i] && p[i..][1..] == p[i + 1..];
  }

  lemma VersionsOfOne(p: seq<Migration>, i: nat)
    requires i < |p|
    ensures VersionsOf(p[..i + 1]) == VersionsOf(p[..i]) + [p[i].version]
  {
  }

  lemma OneStep<S>(eff: Effect<S>, p: seq<Migration>, start: Db<S>, i: nat, db: Db<S>, applied: seq<int>, allowed: nat)
    requires i < |p| && i < allowed && Stopped(eff, p, start, i, db, applied) && eff(p[i], db.schema).Some?
    ensures var t := eff(p[i], db.schema).value;
            && Stopped(eff, p, start, i + 1, Db(t, p[i].version), applied + [p[i].version])
            && ReachFrom(eff, p, i, db.schema, allowed) == ReachFrom(eff, p, i + 1, t, allowed)
  {
    assert p[..i + 1][..i] == p[..i] && p[..i + 1][i] == p[i];
    VersionsOfOne(p, i);
    ReachNext(eff, p, i, db.schema, allowed);
  }

  lemma {:induction false} ApplyFirst<S>(eff: Effect<S>, p: seq<Migration>, s: S)
    requires p != []
    ensures ApplyAll(eff, p, s) == if eff(p[0], s).None? then None else ApplyAll(eff, p[1..], eff(p[0], s).value)
  {
    if |p| > 1 {
      ApplyFirst(eff, p[..|p| - 1], s);
      assert p[..|p| - 1][1..] == p[1..][..|p| - 2];
    } else {
      assert p[..0] == [] && p[1..] == [];
    }
  }

  lemma {:induction false} ApplyStops<S>(eff: Effect<S>, p: seq<Migration>, i: nat, s: S)
    requires i < |p| && ApplyAll(eff, p[..i + 1], s) == None
    ensures ApplyAll(eff, p, s) == None
  {
    if i + 1 < |p| {
      assert p[..|p| - 1][..i + 1] == p[..i + 1];
      ApplyStops(eff, p[..|p| - 1], i, s);
    } else {
      assert p[..i + 1] == p;
    }
  }

  lemma {:induction false} ApplyConcat<S>(eff: Effect<S>, p: seq<Migration>, q: seq<Migration>, s: S)
    ensures ApplyAll(eff, p + q, s) == match ApplyAll(eff, p, s) case None => None case Some(t) => ApplyAll(eff, q, t)
  {
    if q == [] {
      assert p + q == p;
      assert forall t: S :: ApplyAll(eff, [], t) == Some(t);
    } else {
      var front := q[..|q| - 1];
      assert (p + q)[..|p + q| - 1] == p + front;
      ApplyConcat(eff, p, front, s);
    }
  }

  predicate OtherVersion(a: Migration, b: Migration) {
    a.version != b.version
  }

  ghost predicate DistinctVersions(ms: seq<Migration>) {
    Sorted(OtherVersion, ms)
  }

  /** What is pending ascends; with distinct versions it ascends strictly. */
  lemma PendingAscends(ms: seq<Migration>, current: int)
    ensures Sorted(ByVersion, Pending(ms, current))
    ensures DistinctVersions(ms) ==> Sorted(Below, Pending(ms, current))
    ensures forall m :: m in Pending(ms, current) <==> m in ms && m.version > current
  {
    var n := Filter(Newer(current), ms);
    FilterMembers(Newer(current), ms);
    SameElements(ByVersion, n);
    SortOrders(ByVersion, n);
    if DistinctVersions(ms) {
      FilterPairs(Newer(current), OtherVersion, ms);
      assert TiesInOrder(ByVersion, Below, n);
      SortStable(ByVersion, Below, n);
      assert forall i, j :: 0 <= i < j < |n| ==> OtherVersion(n[i], n[j]);
      DistinctAscends(n);
    }
  }

  lemma DistinctAscends(n: seq<Migration>)
    requires TiesInOrder(ByVersion, Below, Sort(ByVersion, n)) && Sorted(ByVersion, Sort(ByVersion, n))
    ensures Sorted(Below, Sort(ByVersion, n))
  {
    var p := Sort(ByVersion, n);
    forall i, j | 0 <= i < j < |p| ensures Below(p[i], p[j]) {
      assert ByVersion(p[i], p[j]);
      assert Tie(ByVersion, p[i], p[j]) ==> Below(p[i], p[j]);
    }
  }

  lemma SameMembersSamePending(p: seq<Migration>, q: seq<Migration>)
    requires Sorted(Below, p) && Sorted(Below, q) && forall m :: m in p <==> m in q
    ensures p == q
  {
    StrictlySortedUnique(Below, p, q);
  }

  /** From a version on: what was pending, less what that version covers. */
  lemma PendingLater(ms: seq<Migration>, v: int, w: int)
    requires v <= w
    ensures Pending(ms, w) == Filter(Newer(w), Pending(ms, v))
  {
    SortFiltered(ByVersion, Newer(w), Filter(Newer(v), ms));
    FilterTwice(Newer(v), Newer(w), Newer(w), ms);
  }

  /** A stop after k of the pending migrations does not part two of one version. */
  predicate CleanStop(p: seq<Migration>, k: nat)
    requires k <= |p|
  {
    0 < k < |p| ==> p[k - 1].version < p[k].version
  }

  /** Of an ascending list in two parts, what exceeds the end of the first is the second, when the two differ there. */
  lemma RestIsNewer(a: seq<Migration>, b: seq<Migration>)
    requires Sorted(ByVersion, a + b) && a != [] && (b != [] ==> a[|a| - 1].version < b[0].version)
    ensures Filter(Newer(a[|a| - 1].version), a + b) == b
  {
    var v, p := a[|a| - 1].version, a + b;
    forall m | m in a ensures !Newer(v)(m) {
      var i :| 0 <= i < |a| && a[i] == m;
      assert i == |a| - 1 || ByVersion(p[i], p[|a| - 1]);
    }
    forall m | m in b ensures Newer(v)(m) {
      var i :| 0 <= i < |b| && b[i] == m;
      assert i == 0 || ByVersion(p[|a|], p[|a| + i]);
    }
    FilterRest(Newer(v), a, b);
  }

  /** The version reached after the first k. */
  function VersionAt(p: seq<Migration>, k: nat, current: int): int
    requires k <= |p|
  {
    if k == 0 then current else p[k - 1].version
  }

  lemma CleanStopPending(ms: seq<Migration>, current: int, k: nat, a: seq<Migration>, b: seq<Migration>)
    requires 0 < k == |a| && Pending(ms, current) == a + b && CleanStop(a + b, k)
    ensures Pending(ms, a[k - 1].version) == b
  {
    PendingAscends(ms, current);
    assert (a + b)[k - 1] == a[k - 1] && a[k - 1] in a + b;
    assert b != [] ==> (a + b)[k] == b[0];
    PendingLater(ms, current, a[k - 1].version);
    RestIsNewer(a, b);
  }

  lemma UncleanStopSkips(ms: seq<Migration>, current: int, k: nat)
    requires 0 < k < |Pending(ms, current)| && !CleanStop(Pending(ms, current), k)
    ensures var p := Pending(ms, current); p[k] in p[k..] && p[k] !in Pending(ms, p[k - 1].version)
  {
    var p := Pending(ms, current);
    PendingAscends(ms, p[k - 1].version);
    assert p[k..][0] == p[k];
  }

  /** After the first k pending migrations the others are what is pending, exactly when the stop is clean. */
  lemma PendingAfter(ms: seq<Migration>, current: int, k: nat)
    requires k <= |Pending(ms, current)|
    ensures var p := Pending(ms, current);
            var q := Pending(ms, VersionAt(p, k, current));
            && (CleanStop(p, k) ==> q == p[k..])
            && (CleanStop(p, k) <==> forall m :: m in p[k..] ==> m in q)
  {
    var p := Pending(ms, current);
    if k == 0 {
      assert p[0..] == p;
    } else if CleanStop(p, k) {
      assert p == p[..k] + p[k..];
      CleanStopPending(ms, current, k, p[..k], p[k..]);
    } else {
      UncleanStopSkips(ms, current, k);
    }
  }

  // ----- the transactional upgrade -----

  /** All or nothing: an upgrade that fails leaves the database as it was, one that succeeds has every
      migration behind it. */
  lemma AllOrNothing<S>(eff: Effect<S>, ms: seq<Migration>, db: Db<S>)
    ensures var (db', ok) := Upgraded(eff, ms, db);
            && (!ok ==> db' == db)
            && (ok ==> db'.version >= db.version && forall m :: m in ms ==> m.version <= db'.version)
            && (ok ==> ApplyAll(eff, Pending(ms, db.version), db.schema) == Some(db'.schema))
  {
    var p := Pending(ms, db.version);
    PendingAscends(ms, db.version);
    forall m | m in p ensures m.version <= VersionAfter(p, db.version) && VersionAfter(p, db.version) > db.version {
      var i :| 0 <= i < |p| && p[i] == m;
      assert i == |p| - 1 || ByVersion(p[i], p[|p| - 1]);
      assert p[|p| - 1] in p;
    }
    if p != [] { assert p[|p| - 1] in p; }
  }

  /** Upgrading again changes nothing. */
  lemma Idempotent<S>(eff: Effect<S>, ms: seq<Migration>, db: Db<S>)
    requires Upgraded(eff, ms, db).1
    ensures Upgraded(eff, ms, Upgraded(eff, ms, db).0) == Upgraded(eff, ms, db)
  {
    var p := Pending(ms, db.version);
    PendingAfter(ms, db.version, |p|);
    assert p[|p|..] == [];
  }

  /** An earlier release: the migrations up to some version. */
  ghost predicate EarlierRelease(early: seq<Migration>, all: seq<Migration>, cut: int) {
    DistinctVersions(early) && forall m :: m in early <==> m in all && m.version <= cut
  }

  lemma AscendingBound(p: seq<Migration>, m: Migration)
    requires Sorted(Below, p) && m in p
    ensures m.version <= p[|p| - 1].version
  {
    var i :| 0 <= i < |p| && p[i] == m;
    assert i == |p| - 1 || Below(p[i], p[|p| - 1]);
  }

  lemma SortedConcat(p: seq<Migration>, q: seq<Migration>, v: int)
    requires Sorted(Below, p) && Sorted(Below, q)
    requires (forall m :: m in p ==> m.version <= v) && (forall m :: m in q ==> m.version > v)
    ensures Sorted(Below, p + q)
  {
    var r := p + q;
    forall i, j | 0 <= i < j < |r| ensures Below(r[i], r[j]) {
      assert i < |p| ==> r[i] in p;
      assert j >= |p| ==> r[j] in q;
    }
  }

  /** What is pending at the early release, and what is pending after it, split what is pending at once. */
  lemma StageMembers(early: seq<Migration>, all: seq<Migration>, cut: int, current: int, v: int)
    requires DistinctVersions(all) && EarlierRelease(early, all, cut) && v >= current
    requires forall m :: m in Pending(early, current) ==> m.version <= v
    requires v > current ==> v <= cut
    ensures forall m :: m in Pending(early, current) + Pending(all, v) <==> m in Pending(all, current)
  {
    PendingAscends(early, current);
    PendingAscends(all, current);
    PendingAscends(all, v);
    forall m ensures m in Pending(early, current) || m in Pending(all, v) <==> m in Pending(all, current) {
      assert m in Pending(early, current) ==> m in early;
      assert m in all && current < m.version <= cut ==> m in early && m in Pending(early, current);
    }
  }

  lemma StageEnds(early: seq<Migration>, current: int)
    requires DistinctVersions(early)
    ensures var p := Pending(early, current);
            var v := VersionAfter(p, current);
            && v >= current && (p != [] ==> p[|p| - 1] in early)
            && (forall m :: m in p ==> m.version <= v)
  {
    var p := Pending(early, current);
    PendingAscends(early, current);
    if p != [] { assert p[|p| - 1] in p; }
    forall m | m in p ensures m.version <= VersionAfter(p, current) { AscendingBound(p, m); }
  }

  lemma PendingInStages(early: seq<Migration>, all: seq<Migration>, cut: int, current: int)
    requires DistinctVersions(all) && EarlierRelease(early, all, cut)
    ensures var p := Pending(early, current);
            Pending(all, current) == p + Pending(all, VersionAfter(p, current))
  {
    var p := Pending(early, current);
    var v := VersionAfter(p, current);
    var q := Pending(all, v);
    PendingAscends(early, current);
    PendingAscends(all, current);
    PendingAscends(all, v);
    StageEnds(early, current);
    SortedConcat(p, q, v);
    StageMembers(early, all, cut, current, v);
    SameMembersSamePending(p + q, Pending(all, current));
  }

  /** Upgrading by way of an earlier release succeeds exactly when upgrading at once does, and ends in the same
      place. */
  lemma StagedEqualsAtOnce<S>(eff: Effect<S>, early: seq<Migration>, all: seq<Migration>, cut: int, db: Db<S>)
    requires DistinctVersions(all) && EarlierRelease(early, all, cut)
    ensures var (mid, ok1) := Upgraded(eff, early, db);
            var (end, ok2) := Upgraded(eff, all, mid);
            var (once, ok) := Upgraded(eff, all, db);
            (ok <==> ok1 && ok2) && (ok ==> once == end)
  {
    var p := Pending(early, db.version);
    var q := Pending(all, VersionAfter(p, db.version));
    PendingInStages(early, all, cut, db.version);
    ApplyConcat(eff, p, q, db.schema);
    if !Upgraded(eff, early, db).1 {
      assert ApplyAll(eff, p, db.schema) == None;
    } else {
      assert VersionAfter(p + q, db.version) == VersionAfter(q, VersionAfter(p, db.version));
    }
  }

  // ----- the reconciliation agent -----

  /** The database after the first k pending migrations. */
  ghost predicate AtStep<S>(eff: Effect<S>, p: seq<Migration>, start: Db<S>, k: nat, db: Db<S>) {
    && k <= |p| && ApplyAll(eff, p[..k], start.schema) == Some(db.schema)
    && db.version == VersionAt(p, k, start.version)
  }

  lemma OneTick<S>(eff: Effect<S>, ms: seq<Migration>, start: Db<S>, k: nat, db: Db<S>, allowed: nat) returns (j: nat)
    requires AtStep(eff, Pending(ms, start.version), start, k, db) && CleanStop(Pending(ms, start.version), k)
    ensures var p := Pending(ms, start.version);
            var (db', applied) := Reconciled(eff, ms, db, allowed);
            && Pending(ms, db.version) == p[k..] && j == Reach(eff, p[k..], db.schema, allowed)
            && AtStep(eff, p, start, k + j, db') && applied == VersionsOf(p[k..][..j])
  {
    var p := Pending(ms, start.version);
    PendingAfter(ms, start.version, k);
    j := Reach(eff, p[k..], db.schema, allowed);
    StepsAdd(eff, p, start, k, db, p[k..], j);
  }

  /** The first j of what is left after k steps lead to step k + j. */
  lemma StepsAdd<S>(eff: Effect<S>, p: seq<Migration>, start: Db<S>, k: nat, db: Db<S>, q: seq<Migration>, j: nat)
    requires AtStep(eff, p, start, k, db) && q == p[k..] && j <= |q| && ApplyAll(eff, q[..j], db.schema).Some?
    ensures AtStep(eff, p, start, k + j, Db(ApplyAll(eff, q[..j], db.schema).value, VersionAfter(q[..j], db.version)))
  {
    assert p[..k + j] == p[..k] + q[..j];
    ApplyConcat(eff, p[..k], q[..j], start.schema);
  }

  /** No visit stops between two migrations of one version. */
  ghost predicate CleanTicks<S>(eff: Effect<S>, ms: seq<Migration>, db: Db<S>, allowed: seq<nat>) {
    allowed == [] ||
    (&& CleanTicks(eff, ms, db, allowed[..|allowed| - 1])
     && var mid := Ticks(eff, ms, db, allowed[..|allowed| - 1]).0;
        var q := Pending(ms, mid.version);
        CleanStop(q, Reach(eff, q, mid.schema, allowed[|allowed| - 1])))
  }

  lemma StopsAdd(p: seq<Migration>, i: nat, j: nat)
    requires i <= |p| && j <= |p| - i && CleanStop(p, i)
    ensures CleanStop(p[i..], j) ==> CleanStop(p, i + j)
  {
  }

  /** What some visits have done: the first k steps, reported in order. */
  ghost predicate AppliedTo<S>(eff: Effect<S>, ms: seq<Migration>, db: Db<S>, k: nat, result: (Db<S>, seq<int>)) {
    var p := Pending(ms, db.version);
    AtStep(eff, p, db, k, result.0) && result.1 == VersionsOf(p[..k])
  }

  /** One more visit after a clean stop. */
  lemma TickAdds<S>(eff: Effect<S>, ms: seq<Migration>, db: Db<S>, i: nat, mid: (Db<S>, seq<int>), allowed: nat)
    returns (k: nat)
    requires AppliedTo(eff, ms, db, i, mid) && CleanStop(Pending(ms, db.version), i)
    ensures var (end, now) := Reconciled(eff, ms, mid.0, allowed);
            AppliedTo(eff, ms, db, k, (end, mid.1 + now))
    ensures var q := Pending(ms, mid.0.version);
            CleanStop(q, Reach(eff, q, mid.0.schema, allowed)) ==> CleanStop(Pending(ms, db.version), k)
  {
    var p := Pending(ms, db.version);
    var j := OneTick(eff, ms, db, i, mid.0, allowed);
    k := i + j;
    StopsAdd(p, i, j);
    VersionsOfNext(p, i, j);
  }

  lemma VersionsOfNext(p: seq<Migration>, i: nat, j: nat)
    requires i + j <= |p|
    ensures VersionsOf(p[..i + j]) == VersionsOf(p[..i]) + VersionsOf(p[i..][..j])
  {
    var a, b := VersionsOf(p[..i + j]), VersionsOf(p[..i]) + VersionsOf(p[i..][..j]);
    forall t | 0 <= t < i + j ensures a[t] == b[t] {
      assert a[t] == p[t].version;
    }
    assert |a| == |b|;
  }

  /** Any number of visits, the last however it stops, applies a prefix of what was pending: no skips, no repeats. */
  lemma {:induction false} TicksApplyPrefix<S>(eff: Effect<S>, ms: seq<Migration>, db: Db<S>, allowed: seq<nat>)
    returns (k: nat)
    requires allowed != [] ==> CleanTicks(eff, ms, db, allowed[..|allowed| - 1])
    ensures AppliedTo(eff, ms, db, k, Ticks(eff, ms, db, allowed))
    ensures CleanTicks(eff, ms, db, allowed) ==> CleanStop(Pending(ms, db.version), k)
  {
    if allowed == [] {
      k := 0;
    } else {
      var front := allowed[..|allowed| - 1];
      assert CleanTicks(eff, ms, db, front);
      var i := TicksApplyPrefix(eff, ms, db, front);
      k := TickAdds(eff, ms, db, i, Ticks(eff, ms, db, front), allowed[|allowed| - 1]);
    }
  }

  /** With distinct versions every stop is clean. */
  lemma {:induction false} DistinctIsClean<S>(eff: Effect<S>, ms: seq<Migration>, db: Db<S>, allowed: seq<nat>)
    requires DistinctVersions(ms)
    ensures CleanTicks(eff, ms, db, allowed)
  {
    if allowed != [] {
      var front := allowed[..|allowed| - 1];
      DistinctIsClean(eff, ms, db, front);
      var mid := Ticks(eff, ms, db, front).0;
      PendingAscends(ms, mid.version);
      var q := Pending(ms, mid.version);
      forall k | 0 < k < |q| ensures q[k - 1].version < q[k].version { assert Below(q[k - 1], q[k]); }
    }
  }

  lemma NothingLeft(ms: seq<Migration>, current: int, k: nat)
    requires k <= |Pending(ms, current)| && CleanStop(Pending(ms, current), k)
    requires Pending(ms, VersionAt(Pending(ms, current), k, current)) == []
    ensures k == |Pending(ms, current)|
  {
    PendingAfter(ms, current, k);
  }

  lemma AllStepsAreUpgrade<S>(eff: Effect<S>, ms: seq<Migration>, db: Db<S>, end: Db<S>)
    requires AtStep(eff, Pending(ms, db.version), db, |Pending(ms, db.version)|, end)
    ensures Upgraded(eff, ms, db) == (end, true)
  {
    var p := Pending(ms, db.version);
    assert p[..|p|] == p;
  }

  /** The agent runs each of these migrations to the effect the upgrade has. */
  ghost predicate SameEffects<S(!new)>(run: Effect<S>, eff: Effect<S>, ms: seq<Migration>) {
    forall m, s :: m in ms ==> run(m, s) == eff(m, s)
  }

  lemma {:induction false} ApplySame<S(!new)>(run: Effect<S>, eff: Effect<S>, ms: seq<Migration>, s: S)
    requires SameEffects(run, eff, ms)
    ensures ApplyAll(run, ms, s) == ApplyAll(eff, ms, s)
  {
    if ms != [] {
      assert ms[|ms| - 1] in ms;
      ApplySame(run, eff, ms[..|ms| - 1], s);
    }
  }

  /** Visits that have left nothing pending end where the transactional upgrade ends. */
  lemma TicksReachUpgrade<S(!new)>(run: Effect<S>, eff: Effect<S>, ms: seq<Migration>, db: Db<S>, allowed: seq<nat>)
    requires CleanTicks(run, ms, db, allowed) && Pending(ms, Ticks(run, ms, db, allowed).0.version) == []
    requires SameEffects(run, eff, Pending(ms, db.version))
    ensures Upgraded(eff, ms, db) == (Ticks(run, ms, db, allowed).0, true)
  {
    var k := TicksApplyPrefix(run, ms, db, allowed);
    NothingLeft(ms, db.version, k);
    AllStepsAreUpgrade(run, ms, db, Ticks(run, ms, db, allowed).0);
    ApplySame(run, eff, Pending(ms, db.version), db.schema);
  }

  lemma VisitOnlyRises<S>(eff: Effect<S>, ms: seq<Migration>, db: Db<S>, allowed: nat)
    ensures Reconciled(eff, ms, db, allowed).0.version >= db.version
  {
    var p := Pending(ms, db.version);
    var k := Reach(eff, p, db.schema, allowed);
    PendingAscends(ms, db.version);
    if k > 0 { assert p[..k][k - 1] in p; }
  }

  lemma {:induction false} TicksOnlyRise<S>(eff: Effect<S>, ms: seq<Migration>, db: Db<S>, allowed: seq<nat>)
    ensures Ticks(eff, ms, db, allowed).0.version >= db.version
  {
    if allowed != [] {
      var front := allowed[..|allowed| - 1];
      TicksOnlyRise(eff, ms, db, front);
      VisitOnlyRises(eff, ms, Ticks(eff, ms, db, front).0, allowed[|allowed| - 1]);
    }
  }

  /** Of two pending migrations with one version, a stop after the first leaves the second out for good. */
  lemma EqualVersionsAreSkipped<S>(eff: Effect<S>, ms: seq<Migration>, db: Db<S>, i: nat, later: seq<nat>)
    requires i + 1 < |Pending(ms, db.version)|
    requires Pending(ms, db.version)[i].version == Pending(ms, db.version)[i + 1].version
    requires Reach(eff, Pending(ms, db.version), db.schema, i + 1) == i + 1
    ensures var (db', applied) := Reconciled(eff, ms, db, i + 1);
            && |applied| == i + 1
            && Pending(ms, db.version)[i + 1] !in Pending(ms, Ticks(eff, ms, db', later).0.version)
  {
    var p := Pending(ms, db.version);
    var db' := Reconciled(eff, ms, db, i + 1).0;
    assert db'.version == p[i].version;
    TicksOnlyRise(eff, ms, db', later);
    PendingAscends(ms, Ticks(eff, ms, db', later).0.version);
  }
}

/** The package archive of one application: a table of versions beside a folder of files, cut to the newest five. */
module VersionArchive {
  import opened StableSorting
  import opened Filtering
  import opened Wrappers

  const KEPT: nat := 5

  type Bytes = string

  datatype Row = Row(id: nat, version: string, path: string, sha: string, size: nat, time: int)

  /** The application's rows in order of insertion, the next row number, and its folder. */
  datatype Archive = Archive(rows: seq<Row>, nextId: nat, files: map<string, Bytes>)

  const EMPTY := Archive([], 0, map[])

  /** The digest of a package and the file name of a version. */
  datatype Env = Env(sha: Bytes -> string, name: string -> string)

  function Clean(s: string): string {
    if s == [] then []
    else
      var c := s[0];
      [if '0' <= c <= '9' || 'A' <= c <= 'Z' || 'a' <= c <= 'z' || c in {'.', '_', '-'} then c else '_'] + Clean(s[1..])
  }

  function FileName(version: string): string {
    Clean(if version == "" then "0.0.0" else version)
  }

  function FileNames(): string -> string {
    (version: string) => FileName(version)
  }

  /** Query order: newest time first, then highest row number. */
  predicate Before(a: Row, b: Row) {
    a.time > b.time || (a.time == b.time && a.id >= b.id)
  }

  function Existing(files: map<string, Bytes>): Row -> bool {
    (r: Row) => r.path in files
  }

  function OtherVersion(version: string): Row -> bool {
    (r: Row) => r.version != version
  }

  function OtherIds(ids: set<nat>): Row -> bool {
    (r: Row) => r.id !in ids
  }

  /** The rows whose file exists, newest first. */
  function Listed(a: Archive): seq<Row> {
    Filter(Existing(a.files), Sort(Before, a.rows))
  }

  /** Writes the file and replaces the version's row by a new one. */
  function Stored(env: Env, a: Archive, version: string, buffer: Bytes, time: int): Archive {
    var path := env.name(version);
    var row := Row(a.nextId, version, path, env.sha(buffer), |buffer|, time);
    Archive(Filter(OtherVersion(version), a.rows) + [row], a.nextId + 1, a.files[path := buffer])
  }

  function Ids(rows: seq<Row>): set<nat> {
    set r | r in rows :: r.id
  }

  function Paths(rows: seq<Row>): set<string> {
    set r | r in rows :: r.path
  }

  function Removed(a: Archive, rows: seq<Row>): Archive {
    a.(rows := Filter(OtherIds(Ids(rows)), a.rows), files := a.files - Paths(rows))
  }

  function Pruned(a: Archive): Archive {
    var l := Listed(a);
    if |l| <= KEPT then a else Removed(a, l[KEPT..])
  }

  function Conserved(env: Env, a: Archive, version: string, buffer: Bytes, time: int): Archive {
    if buffer == [] then a else Pruned(Stored(env, a, version, buffer, time))
  }

  function Find(rows: seq<Row>, version: string): Option<Row> {
    if rows == [] then None else if rows[0].version == version then Some(rows[0]) else Find(rows[1..], version)
  }

  function Read(env: Env, a: Archive, version: string): Option<Bytes> {
    match Find(Listed(a), version)
    case None => None
    case Some(row) =>
      if row.path !in a.files || (row.sha != "" && env.sha(a.files[row.path]) != row.sha) then None
      else Some(a.files[row.path])
  }

  // ----- the archive as it runs -----

  class AppVersionArchive {
    const env: Env
    var rows: seq<Row>
    var nextId: nat
    var files: map<string, Bytes>

    function State(): Archive
      reads this
    {
      Archive(rows, nextId, files)
    }

    constructor (sha: Bytes -> string)
      ensures env == Env(sha, FileNames()) && State() == EMPTY
    {
      env, rows, nextId, files := Env(sha, FileNames()), [], 0, map[];
    }

    method Conserva(versione: string, buffer: Bytes, time: int) returns (stored: bool)
      modifies this
      ensures State() == Conserved(env, old(State()), versione, buffer, time) && (stored <==> buffer != [])
    {
      if |buffer| == 0 { return false; }
      var destinazione := env.name(versione);
      files := files[destinazione := buffer];
      rows := Filter(OtherVersion(versione), rows) +
        [Row(nextId, versione, destinazione, env.sha(buffer), |buffer|, time)];
      nextId := nextId + 1;
      assert State() == Stored(env, old(State()), versione, buffer, time);
      var _ := Pota();
      stored := true;
    }

    method Pota() returns (removed: nat)
      modifies this
      ensures State() == Pruned(old(State()))
    {
      var righe := Listed(State());
      if |righe| <= KEPT { return 0; }
      var eccedenti := righe[KEPT..];
      RemovedNone(State());
      assert eccedenti[..0] == [];
      for i := 0 to |eccedenti|
        invariant State() == Removed(old(State()), eccedenti[..i])
      {
        RemovedOneMore(old(State()), eccedenti, i);
        files := files - {eccedenti[i].path};
        rows := Filter(OtherIds({eccedenti[i].id}), rows);
      }
      assert eccedenti[..|eccedenti|] == eccedenti;
      removed := |eccedenti|;
    }

    method Leggi(versione: string) returns (r: Option<Bytes>)
      ensures r == Read(env, State(), versione)
    {
      var riga := Find(Listed(State()), versione);
      if riga.None? { return None; }
      if riga.value.path !in files { return None; }
      var buffer := files[riga.value.path];
      if riga.value.sha != "" && env.sha(buffer) != riga.value.sha { return None; }
      r := Some(buffer);
    }
  }

  lemma RemovedNone(a: Archive)
    ensures Removed(a, []) == a
  {
    FilterSize(OtherIds({}), a.rows);
    assert Ids([]) == {} && Paths([]) == {};
  }

  lemma RemovedOneMore(a: Archive, rows: seq<Row>, i: nat)
    requires i < |rows|
    ensures var m := Removed(a, rows[..i]);
            Removed(a, rows[..i + 1])
            == m.(rows := Filter(OtherIds({rows[i].id}), m.rows), files := m.files - {rows[i].path})
  {
    assert rows[..i + 1] == rows[..i] + [rows[i]];
    assert Ids(rows[..i + 1]) == Ids(rows[..i]) + {rows[i].id};
    assert Paths(rows[..i + 1]) == Paths(rows[..i]) + {rows[i].path};
    FilterTwice(OtherIds(Ids(rows[..i])), OtherIds({rows[i].id}), OtherIds(Ids(rows[..i + 1])), a.rows);
  }

  // ----- what a run of stores leaves -----

  datatype Package = Package(version: string, buffer: Bytes)
  datatype Store = Store(version: string, buffer: Bytes, time: int)

  function NotOf(version: string): Package -> bool {
    (p: Package) => p.version != version
  }

  /** Every version ever stored with its last package, the most recently stored one last. */
  function Recency(stores: seq<Store>): seq<Package> {
    if stores == [] then []
    else
      var last := stores[|stores| - 1];
      var before := Recency(stores[..|stores| - 1]);
      if last.buffer == [] then before else Filter(NotOf(last.version), before) + [Package(last.version, last.buffer)]
  }

  function Newest(ps: seq<Package>): seq<Package> {
    if |ps| <= KEPT then ps else ps[|ps| - KEPT..]
  }

  function Run(env: Env, stores: seq<Store>): Archive {
    if stores == [] then EMPTY
    else
      var last := stores[|stores| - 1];
      Conserved(env, Run(env, stores[..|stores| - 1]), last.version, last.buffer, last.time)
  }

  predicate DifferentVersion(a: Package, b: Package) {
    a.version != b.version
  }

  ghost predicate DistinctVersions(ps: seq<Package>) {
    Sorted(DifferentVersion, ps)
  }

  /** The package moved to the end, or added there. */
  function Moved(ps: seq<Package>, p: Package): seq<Package> {
    Filter(NotOf(p.version), ps) + [p]
  }

  lemma MovedDistinct(ps: seq<Package>, p: Package)
    requires DistinctVersions(ps)
    ensures DistinctVersions(Moved(ps, p)) && VersionsIn(Moved(ps, p)) <= VersionsIn(ps) + {p.version}
  {
    FilterPairs(NotOf(p.version), DifferentVersion, ps);
    FilterMembers(NotOf(p.version), ps);
    var o := Filter(NotOf(p.version), ps);
    forall i | 0 <= i < |o| ensures o[i].version != p.version { assert o[i] in o; }
    forall x | x in o + [p] ensures x.version in VersionsIn(ps) + {p.version} {
      if x in o { assert x in ps; }
    }
  }

  /** Leaving out one version shortens a list of distinct ones by one at most. */
  lemma {:induction false} LosesOne(ps: seq<Package>, version: string)
    requires DistinctVersions(ps)
    ensures |Filter(NotOf(version), ps)| >= |ps| - 1
  {
    if ps != [] {
      var front, last := ps[..|ps| - 1], ps[|ps| - 1];
      if last.version == version {
        forall x | x in front ensures x.version != version {
          var i :| 0 <= i < |front| && front[i] == x;
          assert DifferentVersion(ps[i], ps[|ps| - 1]);
        }
        FilterSize(NotOf(version), front);
      } else {
        LosesOne(front, version);
      }
    }
  }

  lemma NewestOfConcat(a: seq<Package>, b: seq<Package>)
    requires |b| >= KEPT
    ensures Newest(a + b) == Newest(b)
  {
  }

  /** Cutting before or after moving a version to the end comes to the same newest five. */
  lemma CutCommutes(ps: seq<Package>, p: Package)
    requires DistinctVersions(ps)
    ensures Newest(Moved(Newest(ps), p)) == Newest(Moved(ps, p))
  {
    if |ps| > KEPT {
      var a, b := ps[..|ps| - KEPT], ps[|ps| - KEPT..];
      assert ps == a + b;
      FilterConcat(NotOf(p.version), a, b);
      assert DistinctVersions(b);
      LosesOne(b, p.version);
      var fa := Filter(NotOf(p.version), a);
      assert Moved(ps, p) == fa + Moved(b, p);
      NewestOfConcat(fa, Moved(b, p));
    }
  }

  // ----- the archive mirrors its newest packages -----

  /** Row, file and package belong together. */
  ghost predicate Match(env: Env, row: Row, p: Package, files: map<string, Bytes>) {
    && row.version == p.version && row.path == env.name(p.version)
    && row.sha == env.sha(p.buffer) && row.size == |p.buffer|
    && row.path in files && files[row.path] == p.buffer
  }

  predicate Earlier(a: Row, b: Row) {
    a.id < b.id && a.time <= b.time
  }

  ghost predicate Ascending(rows: seq<Row>, nextId: nat, now: int) {
    Sorted(Earlier, rows) && forall r :: r in rows ==> r.id < nextId && r.time <= now
  }

  ghost predicate AllMatch(env: Env, rows: seq<Row>, ps: seq<Package>, files: map<string, Bytes>) {
    |rows| == |ps| && forall i :: 0 <= i < |ps| ==> Match(env, rows[i], ps[i], files)
  }

  ghost predicate Mirrors(env: Env, a: Archive, ps: seq<Package>) {
    AllMatch(env, a.rows, ps, a.files) && a.files.Keys <= Paths(a.rows) && Sorted(DifferentPath, a.rows)
  }

  predicate DifferentPath(a: Row, b: Row) {
    a.path != b.path
  }

  /** Different versions in use get different file names. */
  ghost predicate DistinctNames(env: Env, versions: set<string>) {
    forall v, w :: v in versions && w in versions && env.name(v) == env.name(w) ==> v == w
  }

  ghost function VersionsIn(ps: seq<Package>): set<string> {
    set p | p in ps :: p.version
  }

  lemma {:induction false} FilterMatch(env: Env, rows: seq<Row>, ps: seq<Package>, files: map<string, Bytes>,
      version: string)
    requires AllMatch(env, rows, ps, files)
    ensures AllMatch(env, Filter(OtherVersion(version), rows), Filter(NotOf(version), ps), files)
  {
    if ps != [] {
      FilterMatch(env, rows[..|rows| - 1], ps[..|ps| - 1], files, version);
    }
  }

  lemma StoredAscends(env: Env, a: Archive, p: Package, now: int, time: int)
    requires Ascending(a.rows, a.nextId, now) && now <= time
    ensures var s := Stored(env, a, p.version, p.buffer, time); Ascending(s.rows, s.nextId, time)
  {
    FilterPairs(OtherVersion(p.version), Earlier, a.rows);
    FilterMembers(OtherVersion(p.version), a.rows);
    var f := Filter(OtherVersion(p.version), a.rows);
    forall i | 0 <= i < |f| ensures f[i].id < a.nextId && f[i].time <= time { assert f[i] in f; }
  }

  lemma StoredFiles(env: Env, a: Archive, ps: seq<Package>, p: Package, time: int)
    requires Mirrors(env, a, ps)
    ensures var s := Stored(env, a, p.version, p.buffer, time); s.files.Keys <= Paths(s.rows)
  {
    var s := Stored(env, a, p.version, p.buffer, time);
    FilterMembers(OtherVersion(p.version), a.rows);
    assert s.rows[|s.rows| - 1] in s.rows;
    forall path | path in s.files ensures path in Paths(s.rows) {
      if path != env.name(p.version) {
        var r :| r in a.rows && r.path == path;
        var i :| 0 <= i < |ps| && a.rows[i] == r;
        assert Match(env, r, ps[i], a.files);
        assert r in s.rows;
      }
    }
  }

  lemma StoredPaths(env: Env, a: Archive, ps: seq<Package>, p: Package, time: int)
    requires Mirrors(env, a, ps) && DistinctNames(env, VersionsIn(ps) + {p.version})
    ensures Sorted(DifferentPath, Stored(env, a, p.version, p.buffer, time).rows)
    ensures forall r :: r in Filter(OtherVersion(p.version), a.rows) ==> r.path != env.name(p.version)
  {
    FilterPairs(OtherVersion(p.version), DifferentPath, a.rows);
    FilterMembers(OtherVersion(p.version), a.rows);
    var f := Filter(OtherVersion(p.version), a.rows);
    forall r | r in f ensures r.path != env.name(p.version) {
      var i :| 0 <= i < |ps| && a.rows[i] == r;
      assert Match(env, a.rows[i], ps[i], a.files) && ps[i] in ps;
    }
    forall i | 0 <= i < |f| ensures f[i].path != env.name(p.version) { assert f[i] in f; }
  }

  lemma StoredMirrors(env: Env, a: Archive, ps: seq<Package>, p: Package, time: int)
    requires Mirrors(env, a, ps) && DistinctNames(env, VersionsIn(ps) + {p.version})
    ensures Mirrors(env, Stored(env, a, p.version, p.buffer, time), Moved(ps, p))
  {
    StoredPaths(env, a, ps, p, time);
    StoredMatch(env, a, ps, p, time);
    StoredFiles(env, a, ps, p, time);
  }

  lemma StoredMatch(env: Env, a: Archive, ps: seq<Package>, p: Package, time: int)
    requires AllMatch(env, a.rows, ps, a.files)
    requires forall r :: r in Filter(OtherVersion(p.version), a.rows) ==> r.path != env.name(p.version)
    ensures var s := Stored(env, a, p.version, p.buffer, time); AllMatch(env, s.rows, Moved(ps, p), s.files)
  {
    var s := Stored(env, a, p.version, p.buffer, time);
    var rest, q := Filter(OtherVersion(p.version), a.rows), Filter(NotOf(p.version), ps);
    FilterMatch(env, a.rows, ps, a.files, p.version);
    forall i | 0 <= i < |q| ensures Match(env, rest[i], q[i], s.files) {
      assert Match(env, rest[i], q[i], a.files) && rest[i] in rest;
    }
  }

  // ----- file names -----

  predicate Plain(c: char) {
    '0' <= c <= '9' || 'A' <= c <= 'Z' || 'a' <= c <= 'z' || c in {'.', '_', '-'}
  }

  /** What is named after a version: the version, or 0.0.0 for an empty one. */
  function Named(version: string): string {
    if version == "" then "0.0.0" else version
  }

  /** An underscore, or a character one is put for. */
  predicate Blanked(c: char) {
    c == '_' || !Plain(c)
  }

  /** Two texts of one length that differ only where both have such a character. */
  predicate Alike(v: string, w: string) {
    |v| == |w| && forall i :: 0 <= i < |v| ==> v[i] == w[i] || (Blanked(v[i]) && Blanked(w[i]))
  }

  lemma {:induction false} CleanChars(s: string)
    ensures |Clean(s)| == |s| && forall i :: 0 <= i < |s| ==> Clean(s)[i] == if Plain(s[i]) then s[i] else '_'
  {
    if s != [] { CleanChars(s[1..]); }
  }

  /** Two versions share a file exactly when their texts are alike in this way. */
  lemma NamesCollideExactly(v: string, w: string)
    ensures FileName(v) == FileName(w) <==> Alike(Named(v), Named(w))
  {
    var x, y := Named(v), Named(w);
    CleanChars(x);
    CleanChars(y);
    if Alike(x, y) {
      assert forall i :: 0 <= i < |x| ==> Clean(x)[i] == Clean(y)[i];
    }
    if Clean(x) == Clean(y) {
      forall i | 0 <= i < |x| ensures x[i] == y[i] || (Blanked(x[i]) && Blanked(y[i])) {
        assert Clean(x)[i] == Clean(y)[i];
      }
    }
  }

  /** Versions of letters, digits, dots, underscores and hyphens have a file each. */
  lemma PlainVersionsHaveOwnFiles(sha: Bytes -> string, versions: set<string>)
    requires forall v :: v in versions ==> v != "" && forall i :: 0 <= i < |v| ==> Plain(v[i])
    ensures DistinctNames(Env(sha, FileNames()), versions)
  {
    forall v, w | v in versions && w in versions && FileName(v) == FileName(w) ensures v == w {
      NamesCollideExactly(v, w);
    }
  }

  /** Such versions exist. */
  lemma SignsCollide()
    ensures FileName("1+0") == FileName("1 0")
  {
    NamesCollideExactly("1+0", "1 0");
  }

  /** Of two versions that share a file the second overwrites the first, which then is not read back. */
  lemma SharedFileLosesVersion(env: Env, none: seq<Store>, first: Store, second: Store)
    requires none == [] && env.name(first.version) == env.name(second.version)
    requires first.buffer != [] && second.buffer != [] && first.buffer != second.buffer
    ensures Read(env, Run(env, none + [first] + [second]), first.version) != Some(first.buffer)
  {
    SecondOverwrites(env, none, first, second);
    ReadHasFile(env, Run(env, none + [first] + [second]), first.version);
  }

  lemma ReadHasFile(env: Env, a: Archive, version: string)
    ensures Read(env, a, version).Some? ==> Read(env, a, version).value in a.files.Values
  {
  }

  lemma StoreFew(env: Env, stores: seq<Store>, s: Store)
    requires |Run(env, stores).rows| < 5 && s.buffer != []
    ensures var a, c := Run(env, stores), Run(env, stores + [s]);
            c.files == a.files[env.name(s.version) := s.buffer] && |c.rows| <= |a.rows| + 1
  {
    var a := Run(env, stores);
    assert (stores + [s])[..|stores|] == stores;
    FilterSize(OtherVersion(s.version), a.rows);
    FewRowsStay(Stored(env, a, s.version, s.buffer, s.time));
  }

  lemma SecondOverwrites(env: Env, stores: seq<Store>, s1: Store, s2: Store)
    requires s1.buffer != [] && s2.buffer != [] && env.name(s1.version) == env.name(s2.version)
    requires stores == [] && Run(env, stores) == EMPTY
    ensures Run(env, stores + [s1] + [s2]).files == map[env.name(s1.version) := s2.buffer]
  {
    var front := stores + [s1];
    StoreFew(env, stores, s1);
    Overwrites(env, front, env.name(s1.version), s1.buffer, s2);
  }

  lemma Overwrites(env: Env, front: seq<Store>, path: string, held: Bytes, s: Store)
    requires |Run(env, front).rows| < 5 && Run(env, front).files == map[path := held]
    requires s.buffer != [] && env.name(s.version) == path
    ensures Run(env, front + [s]).files == map[path := s.buffer]
  {
    StoreFew(env, front, s);
  }

  lemma FewRowsStay(a: Archive)
    requires |a.rows| <= 5
    ensures Pruned(a) == a
  {
    FilterSize(Existing(a.files), Sort(Before, a.rows));
  }

  // ----- the listing -----

  predicate StrictlyBefore(a: Row, b: Row) {
    a.time > b.time || (a.time == b.time && a.id > b.id)
  }

  function Backwards(rows: seq<Row>): seq<Row> {
    seq(|rows|, i requires 0 <= i < |rows| => rows[|rows| - 1 - i])
  }

  lemma BackwardsMembers(rows: seq<Row>)
    ensures forall r :: r in Backwards(rows) <==> r in rows
  {
    var b := Backwards(rows);
    forall r | r in rows ensures r in b {
      var i :| 0 <= i < |rows| && rows[i] == r;
      assert b[|rows| - 1 - i] == r;
    }
  }

  /** A sorted permutation without ties is strictly sorted. */
  lemma SortedIsStrict(rows: seq<Row>)
    requires Sorted(Earlier, rows)
    ensures Sorted(StrictlyBefore, Sort(Before, rows))
  {
    var l := Sort(Before, rows);
    assert TiesInOrder(Before, StrictlyBefore, rows);
    SortStable(Before, StrictlyBefore, rows);
    forall i, j | 0 <= i < j < |l| ensures StrictlyBefore(l[i], l[j]) {
      assert Before(l[i], l[j]);
      assert Tie(Before, l[i], l[j]) ==> StrictlyBefore(l[i], l[j]);
    }
  }

  lemma BackwardsStrict(rows: seq<Row>)
    requires Sorted(Earlier, rows)
    ensures Sorted(StrictlyBefore, Backwards(rows))
  {
    var b, n := Backwards(rows), |rows|;
    forall i, j | 0 <= i < j < n ensures StrictlyBefore(b[i], b[j]) {
      assert Earlier(rows[n - 1 - j], rows[n - 1 - i]);
    }
  }

  lemma SortIsBackwards(rows: seq<Row>)
    requires Sorted(Earlier, rows)
    ensures Sort(Before, rows) == Backwards(rows)
  {
    SortedIsStrict(rows);
    BackwardsStrict(rows);
    SameElements(Before, rows);
    BackwardsMembers(rows);
    StrictlySortedUnique(StrictlyBefore, Sort(Before, rows), Backwards(rows));
  }

  lemma RowsHaveFiles(env: Env, a: Archive, ps: seq<Package>)
    requires AllMatch(env, a.rows, ps, a.files)
    ensures forall r :: r in a.rows ==> r.path in a.files
  {
    forall r | r in a.rows ensures r.path in a.files {
      var i :| 0 <= i < |a.rows| && a.rows[i] == r;
      assert Match(env, a.rows[i], ps[i], a.files);
    }
  }

  lemma ListedWhenAllExist(a: Archive)
    requires forall r :: r in a.rows ==> r.path in a.files
    ensures Listed(a) == Sort(Before, a.rows)
  {
    SameElements(Before, a.rows);
    FilterSize(Existing(a.files), Sort(Before, a.rows));
  }

  /** With a clock that never goes back the listing is the table read backwards. */
  lemma ListedIsBackwards(env: Env, a: Archive, ps: seq<Package>)
    requires Mirrors(env, a, ps) && Sorted(Earlier, a.rows)
    ensures Listed(a) == Backwards(a.rows)
  {
    RowsHaveFiles(env, a, ps);
    ListedWhenAllExist(a);
    SortIsBackwards(a.rows);
  }

  // ----- pruning -----

  lemma BackwardsTail(rows: seq<Row>, n: nat)
    requires n <= |rows|
    ensures Backwards(rows)[|rows| - n..] == Backwards(rows[..n])
  {
    var tail, c := Backwards(rows)[|rows| - n..], Backwards(rows[..n]);
    assert |tail| == n == |c|;
    forall i | 0 <= i < n ensures tail[i] == c[i] {
      assert tail[i] == rows[n - 1 - i];
    }
  }

  lemma ExcessIsOldest(rows: seq<Row>, n: nat)
    requires n <= |rows|
    ensures Ids(Backwards(rows)[|rows| - n..]) == Ids(rows[..n])
    ensures Paths(Backwards(rows)[|rows| - n..]) == Paths(rows[..n])
  {
    BackwardsTail(rows, n);
    BackwardsMembers(rows[..n]);
  }

  lemma NewerIds(rows: seq<Row>, n: nat)
    requires Sorted(Earlier, rows) && n <= |rows|
    ensures forall r :: r in rows[n..] ==> r.id !in Ids(rows[..n])
  {
    forall r, q | r in rows[n..] && q in rows[..n] ensures q.id != r.id {
      var j :| n <= j < |rows| && rows[j] == r;
      var i :| 0 <= i < n && rows[i] == q;
      assert Earlier(rows[i], rows[j]);
    }
  }

  lemma OldestGo(rows: seq<Row>, n: nat)
    requires Sorted(Earlier, rows) && n <= |rows|
    ensures Filter(OtherIds(Ids(rows[..n])), rows) == rows[n..]
  {
    var keep := OtherIds(Ids(rows[..n]));
    NewerIds(rows, n);
    assert rows == rows[..n] + rows[n..];
    FilterConcat(keep, rows[..n], rows[n..]);
    FilterSize(keep, rows[..n]);
    FilterSize(keep, rows[n..]);
  }

  lemma PrunedIs(env: Env, a: Archive, ps: seq<Package>)
    requires Mirrors(env, a, ps) && Sorted(Earlier, a.rows) && |ps| > KEPT
    ensures var n := |ps| - KEPT;
            Pruned(a) == Suffix(a, n)
  {
    ListedIsBackwards(env, a, ps);
    RemovedOldest(a, |ps| - KEPT);
  }

  lemma RemovedOldest(a: Archive, n: nat)
    requires Sorted(Earlier, a.rows) && n <= |a.rows|
    ensures Removed(a, Backwards(a.rows)[|a.rows| - n..]) == Suffix(a, n)
  {
    ExcessIsOldest(a.rows, n);
    OldestGo(a.rows, n);
  }

  lemma KeptFilesStay(env: Env, a: Archive, ps: seq<Package>, n: nat)
    requires Mirrors(env, a, ps) && n <= |ps|
    ensures AllMatch(env, a.rows[n..], ps[n..], a.files - Paths(a.rows[..n]))
  {
    forall i, q | n <= i < |ps| && q in a.rows[..n] ensures q.path != a.rows[i].path {
      var k :| 0 <= k < n && a.rows[k] == q;
      assert DifferentPath(a.rows[k], a.rows[i]);
    }
  }

  lemma RemainingFiles(a: Archive, n: nat)
    requires a.files.Keys <= Paths(a.rows) && n <= |a.rows|
    ensures (a.files - Paths(a.rows[..n])).Keys <= Paths(a.rows[n..])
  {
    assert a.rows == a.rows[..n] + a.rows[n..];
  }

  lemma PrunedNothing(env: Env, a: Archive, ps: seq<Package>)
    requires Mirrors(env, a, ps) && Sorted(Earlier, a.rows) && |ps| <= KEPT
    ensures Pruned(a) == a
  {
    ListedIsBackwards(env, a, ps);
  }

  /** The archive without its oldest n rows and their files. */
  ghost function Suffix(a: Archive, n: nat): Archive
    requires n <= |a.rows|
  {
    a.(rows := a.rows[n..], files := a.files - Paths(a.rows[..n]))
  }

  lemma SuffixMirrors(env: Env, a: Archive, ps: seq<Package>, n: nat)
    requires Mirrors(env, a, ps) && n <= |ps|
    ensures Mirrors(env, Suffix(a, n), ps[n..])
  {
    KeptFilesStay(env, a, ps, n);
    RemainingFiles(a, n);
  }

  /** How many are beyond the newest five. */
  function Excess(n: nat): nat {
    if n <= KEPT then 0 else n - KEPT
  }

  lemma SuffixNothing(a: Archive)
    ensures Suffix(a, 0) == a
  {
    assert Paths(a.rows[..0]) == {};
  }

  /** Pruning takes away the oldest rows beyond five, with their files. */
  lemma PrunedIsSuffix(env: Env, a: Archive, ps: seq<Package>)
    requires Mirrors(env, a, ps) && Sorted(Earlier, a.rows)
    ensures Pruned(a) == Suffix(a, Excess(|a.rows|))
  {
    if |ps| > KEPT {
      PrunedIs(env, a, ps);
    } else {
      PrunedNothing(env, a, ps);
      SuffixNothing(a);
    }
  }

  lemma NewestIsSuffix(ps: seq<Package>)
    ensures Newest(ps) == ps[Excess(|ps|)..]
  {
  }

  lemma PrunedMirrors(env: Env, a: Archive, ps: seq<Package>)
    requires Mirrors(env, a, ps) && Sorted(Earlier, a.rows)
    ensures Mirrors(env, Pruned(a), Newest(ps))
  {
    PrunedIsSuffix(env, a, ps);
    NewestIsSuffix(ps);
    SuffixMirrors(env, a, ps, Excess(|ps|));
  }

  lemma PrunedAscends(env: Env, a: Archive, ps: seq<Package>, now: int)
    requires Mirrors(env, a, ps) && Ascending(a.rows, a.nextId, now)
    ensures Ascending(Pruned(a).rows, Pruned(a).nextId, now)
  {
    PrunedIsSuffix(env, a, ps);
  }

  // ----- whole runs -----

  ghost predicate ClockForward(stores: seq<Store>) {
    forall i, j :: 0 <= i < j < |stores| ==> stores[i].time <= stores[j].time
  }

  ghost function StoredVersions(stores: seq<Store>): set<string> {
    set s | s in stores :: s.version
  }

  lemma StoredVersionsNext(stores: seq<Store>)
    requires stores != []
    ensures StoredVersions(stores) == StoredVersions(stores[..|stores| - 1]) + {stores[|stores| - 1].version}
  {
    assert stores == stores[..|stores| - 1] + [stores[|stores| - 1]];
  }

  lemma {:induction false} RecencyMembers(stores: seq<Store>)
    ensures DistinctVersions(Recency(stores)) && VersionsIn(Recency(stores)) <= StoredVersions(stores)
  {
    if stores != [] {
      var last := stores[|stores| - 1];
      RecencyMembers(stores[..|stores| - 1]);
      StoredVersionsNext(stores);
      MovedDistinct(Recency(stores[..|stores| - 1]), Package(last.version, last.buffer));
    }
  }

  lemma NewestPart(ps: seq<Package>)
    requires DistinctVersions(ps)
    ensures DistinctVersions(Newest(ps)) && VersionsIn(Newest(ps)) <= VersionsIn(ps)
  {
  }

  /** No row is newer than the last store, or there is none. */
  ghost predicate UpToDate(a: Archive, stores: seq<Store>) {
    if stores == [] then a == EMPTY else Ascending(a.rows, a.nextId, stores[|stores| - 1].time)
  }

  /** After any run of stores the archive mirrors the newest five of the distinct versions stored. */
  lemma {:induction false} RunMirrors(env: Env, stores: seq<Store>)
    requires ClockForward(stores) && DistinctNames(env, StoredVersions(stores))
    ensures Mirrors(env, Run(env, stores), Newest(Recency(stores))) && UpToDate(Run(env, stores), stores)
  {
    if stores != [] {
      var front, last := stores[..|stores| - 1], stores[|stores| - 1];
      StoredVersionsNext(stores);
      RunMirrors(env, front);
      assert front != [] ==> front[|front| - 1].time <= last.time;
      if last.buffer != [] {
        RecencyMembers(front);
        StoreStep(env, Run(env, front), Recency(front), last, StoredVersions(stores));
      }
    }
  }

  lemma StoreStep(env: Env, a: Archive, all: seq<Package>, s: Store, versions: set<string>)
    requires Mirrors(env, a, Newest(all)) && Ascending(a.rows, a.nextId, s.time) && s.buffer != []
    requires DistinctVersions(all) && DistinctNames(env, versions) && VersionsIn(all) + {s.version} <= versions
    ensures var c := Conserved(env, a, s.version, s.buffer, s.time);
            Mirrors(env, c, Newest(Moved(all, Package(s.version, s.buffer)))) && Ascending(c.rows, c.nextId, s.time)
  {
    var p, ps := Package(s.version, s.buffer), Newest(all);
    NewestPart(all);
    StoredMirrors(env, a, ps, p, s.time);
    StoredAscends(env, a, p, s.time, s.time);
    MovedDistinct(ps, p);
    PrunedMirrors(env, Stored(env, a, p.version, p.buffer, s.time), Moved(ps, p));
    PrunedAscends(env, Stored(env, a, p.version, p.buffer, s.time), Moved(ps, p), s.time);
    CutCommutes(all, p);
  }

  /** Rows and files correspond one to one, and are the five most recently stored distinct versions. */
  lemma RowsAndFilesAreTheNewestFive(env: Env, stores: seq<Store>)
    requires ClockForward(stores) && DistinctNames(env, StoredVersions(stores))
    ensures var a, ps := Run(env, stores), Newest(Recency(stores));
            && |a.rows| == |ps| == (if |Recency(stores)| < 5 then |Recency(stores)| else 5)
            && (forall i :: 0 <= i < |ps| ==>
                  a.rows[i].version == ps[i].version && a.rows[i].path == env.name(ps[i].version))
            && (forall i, j :: 0 <= i < j < |a.rows| ==> a.rows[i].path != a.rows[j].path)
            && a.files.Keys == Paths(a.rows)
  {
    var a, ps := Run(env, stores), Newest(Recency(stores));
    RunMirrors(env, stores);
    RecencyMembers(stores);
    NewestPart(Recency(stores));
    forall i, j | 0 <= i < j < |a.rows| ensures a.rows[i].path != a.rows[j].path {
      assert DifferentPath(a.rows[i], a.rows[j]);
    }
    forall path | path in Paths(a.rows) ensures path in a.files {
      var r :| r in a.rows && r.path == path;
      var i :| 0 <= i < |a.rows| && a.rows[i] == r;
      assert Match(env, r, ps[i], a.files);
    }
  }

  lemma {:induction false} FindFirst(rows: seq<Row>, version: string)
    ensures match Find(rows, version)
            case None => forall r :: r in rows ==> r.version != version
            case Some(row) => row in rows && row.version == version
  {
    if rows != [] { FindFirst(rows[1..], version); }
  }

  /** Reading a version gives the bytes last stored for it, if it is among the newest five, and nothing otherwise. */
  lemma ReadReturnsLastStored(env: Env, stores: seq<Store>, version: string)
    requires ClockForward(stores) && DistinctNames(env, StoredVersions(stores))
    ensures var ps := Newest(Recency(stores));
            && (forall p :: p in ps && p.version == version ==> Read(env, Run(env, stores), version) == Some(p.buffer))
            && ((forall p :: p in ps ==> p.version != version) ==> Read(env, Run(env, stores), version) == None)
  {
    RunMirrors(env, stores);
    RecencyMembers(stores);
    NewestPart(Recency(stores));
    ReadMirrored(env, Run(env, stores), Newest(Recency(stores)), version);
  }

  lemma ReadMirrored(env: Env, a: Archive, ps: seq<Package>, version: string)
    requires Mirrors(env, a, ps) && Sorted(Earlier, a.rows) && DistinctVersions(ps)
    ensures forall p :: p in ps && p.version == version ==> Read(env, a, version) == Some(p.buffer)
    ensures (forall p :: p in ps ==> p.version != version) ==> Read(env, a, version) == None
  {
    ListedIsBackwards(env, a, ps);
    BackwardsMembers(a.rows);
    FindFirst(Listed(a), version);
    var found := Find(Listed(a), version);
    if found.Some? {
      var i :| 0 <= i < |a.rows| && a.rows[i] == found.value;
      assert Match(env, a.rows[i], ps[i], a.files) && ps[i] in ps;
      forall p | p in ps && p.version == version ensures p == ps[i] {
        var k :| 0 <= k < |ps| && ps[k] == p;
        assert k < i ==> DifferentVersion(ps[k], ps[i]);
        assert i < k ==> DifferentVersion(ps[i], ps[k]);
      }
    } else {
      forall p | p in ps ensures p.version != version {
        var k :| 0 <= k < |ps| && ps[k] == p;
        assert Match(env, a.rows[k], ps[k], a.files) && a.rows[k] in Listed(a);
      }
    }
  }
}

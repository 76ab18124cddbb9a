/** The hash-chained audit log: a window over an unbounded chain, its verification and its exports. */
module AuditChain {
  import opened Wrappers
  import opened Filtering

  const ZEROS := "0000000000000000"
  const GENESIS_HASH := ZEROS + ZEROS + (ZEROS + ZEROS)
  const MAX_RECORDS: nat := 5000

  /** What the caller reports, with personal data already masked. */
  datatype Facts = Facts(category: string, actorId: string, actor: string, action: string, target: string,
      data: string, status: string)

  /** The fields that are serialised and hashed. */
  datatype Content = Content(seqNo: nat, id: string, timestamp: int, prevHash: string, facts: Facts)

  datatype Entry = Entry(content: Content, hash: string)

  datatype Engine = Engine(sequence: nat, lastHash: string, records: seq<Entry>)

  const FRESH := Engine(0, GENESIS_HASH, [])

  datatype Event = Record(facts: Facts, id: string, clock: int) | Clear

  type Hasher = Content -> string

  function NewEntry(digest: Hasher, sequence: nat, prevHash: string, e: Event): Entry
    requires e.Record?
  {
    var c := Content(sequence, e.id, e.clock, prevHash, e.facts);
    Entry(c, digest(c))
  }

  function Step(digest: Hasher, s: Engine, e: Event): Engine {
    match e
    case Clear => FRESH
    case Record(_, _, _) =>
      var entry := NewEntry(digest, s.sequence + 1, s.lastHash, e);
      var all := s.records + [entry];
      Engine(s.sequence + 1, entry.hash, if |all| > MAX_RECORDS then all[1..] else all)
  }

  function Run(digest: Hasher, events: seq<Event>): Engine {
    if events == [] then FRESH else Step(digest, Run(digest, events[..|events| - 1]), events[|events| - 1])
  }

  // ----- chains -----

  ghost predicate Chained(digest: Hasher, list: seq<Entry>) {
    && (forall i :: 0 <= i < |list| ==> digest(list[i].content) == list[i].hash)
    && (forall i :: 0 < i < |list| ==> list[i].content.prevHash == list[i - 1].hash)
  }

  ghost predicate Numbered(list: seq<Entry>) {
    forall i, j :: 0 <= i < j < |list| ==> list[i].content.seqNo < list[j].content.seqNo
  }

  /** Two different contents, one from each list, share a digest. */
  ghost predicate Collision(digest: Hasher, a: seq<Entry>, b: seq<Entry>) {
    exists x, y :: x in a && y in b && x.content != y.content && digest(x.content) == digest(y.content)
  }

  datatype Verdict =
    | Valid(verifiedCount: nat, lastHash: string)
    | LinkBroken(failedAtSeq: nat)
    | Tampered(failedAtSeq: nat)

  /** The first entry that fails, with its link looked at before its hash. */
  ghost predicate FirstFailure(digest: Hasher, list: seq<Entry>, i: nat, v: Verdict)
    requires i < |list|
  {
    && Chained(digest, list[..i]) && !Chained(digest, list[..i + 1])
    && v == if i > 0 && list[i].content.prevHash != list[i - 1].hash then LinkBroken(list[i].content.seqNo)
            else Tampered(list[i].content.seqNo)
  }

  method VerifyIntegrity(digest: Hasher, list: seq<Entry>) returns (v: Verdict)
    ensures v.Valid? <==> Chained(digest, list)
    ensures v.Valid? ==> v.verifiedCount == |list| && (list != [] ==> v.lastHash == list[|list| - 1].hash)
    ensures !v.Valid? ==> exists i :: 0 <= i < |list| && FirstFailure(digest, list, i, v)
  {
    if |list| == 0 {
      return Valid(0, "");
    }
    var expectedPrevHash := list[0].content.prevHash;
    for i := 0 to |list|
      invariant Chained(digest, list[..i])
      invariant expectedPrevHash == if i == 0 then list[0].content.prevHash else list[i - 1].hash
    {
      var entry := list[i];
      assert list[..i + 1][i] == entry && list[..i + 1][..i] == list[..i];
      if entry.content.prevHash != expectedPrevHash {
        v := LinkBroken(entry.content.seqNo);
        assert FirstFailure(digest, list, i, v);
        return;
      }
      if digest(entry.content) != entry.hash {
        v := Tampered(entry.content.seqNo);
        assert FirstFailure(digest, list, i, v);
        return;
      }
      expectedPrevHash := entry.hash;
    }
    assert list[..|list|] == list;
    v := Valid(|list|, expectedPrevHash);
  }

  // ----- the window over the unbounded chain -----

  /** Everything recorded since the last clear. */
  function Entries(digest: Hasher, events: seq<Event>): seq<Entry> {
    if events == [] then []
    else
      var before, e := Entries(digest, events[..|events| - 1]), events[|events| - 1];
      if e.Clear? then []
      else
        var prevHash := if before == [] then GENESIS_HASH else before[|before| - 1].hash;
        before + [NewEntry(digest, |before| + 1, prevHash, e)]
  }

  function Newest(s: seq<Entry>, n: nat): seq<Entry> {
    if |s| <= n then s else s[|s| - n..]
  }

  lemma GenesisIsZeros()
    ensures |GENESIS_HASH| == 64 && forall x :: x in GENESIS_HASH ==> x == '0'
  {
    assert forall x :: x in ZEROS ==> x == '0';
    assert forall x :: x in ZEROS + ZEROS ==> x in ZEROS;
  }

  lemma {:induction false} EntriesChained(digest: Hasher, events: seq<Event>)
    ensures var c := Entries(digest, events);
            && Chained(digest, c) && Numbered(c)
            && (forall i :: 0 <= i < |c| ==> c[i].content.seqNo == i + 1)
            && (c != [] ==> |c[0].content.prevHash| == 64 && forall x :: x in c[0].content.prevHash ==> x == '0')
  {
    GenesisIsZeros();
    if events != [] {
      EntriesChained(digest, events[..|events| - 1]);
    }
  }

  lemma NewestNext(c: seq<Entry>, e: Entry, n: nat)
    requires n >= 1
    ensures var all := Newest(c, n) + [e]; Newest(c + [e], n) == if |all| > n then all[1..] else all
  {
  }

  /** In every run the records in memory are the newest ones of the whole chain, which continues from them. */
  lemma {:induction false} WindowOfChain(digest: Hasher, events: seq<Event>)
    ensures var s, c := Run(digest, events), Entries(digest, events);
            && s.records == Newest(c, 5000)
            && s.sequence == |c|
            && s.lastHash == if c == [] then GENESIS_HASH else c[|c| - 1].hash
  {
    if events != [] {
      var before, e := events[..|events| - 1], events[|events| - 1];
      WindowOfChain(digest, before);
      if e.Record? {
        var c := Entries(digest, before);
        var prevHash := if c == [] then GENESIS_HASH else c[|c| - 1].hash;
        NewestNext(c, NewEntry(digest, |c| + 1, prevHash, e), 5000);
      }
    }
  }

  lemma SliceChained(digest: Hasher, list: seq<Entry>, lo: nat, hi: nat)
    requires lo <= hi <= |list| && Chained(digest, list)
    ensures Chained(digest, list[lo..hi])
  {
    var s := list[lo..hi];
    assert forall i :: 0 <= i < |s| ==> s[i] == list[lo + i];
  }

  /** Every window a run can reach, and every contiguous part of it, passes verification. */
  lemma EveryWindowVerifies(digest: Hasher, events: seq<Event>, lo: nat, hi: nat)
    requires lo <= hi <= |Run(digest, events).records|
    ensures Chained(digest, Run(digest, events).records[lo..hi])
  {
    WindowOfChain(digest, events);
    EntriesChained(digest, events);
    var c := Entries(digest, events);
    SliceChained(digest, c, |c| - |Newest(c, MAX_RECORDS)|, |c|);
    SliceChained(digest, Run(digest, events).records, lo, hi);
  }

  lemma SuffixLast(a: seq<Entry>, k: nat)
    requires 0 < k <= |a|
    ensures a[|a| - k..] == a[..|a| - 1][|a| - k..] + [a[|a| - 1]]
  {
  }

  /** Two lists that verify and end in the same hash agree backwards as far as both go, or show a collision. */
  lemma {:induction false} SameEndSameHistory(digest: Hasher, a: seq<Entry>, b: seq<Entry>, k: nat)
    requires Chained(digest, a) && Chained(digest, b) && k <= |a| && k <= |b|
    requires k > 0 ==> a[|a| - 1].hash == b[|b| - 1].hash
    ensures a[|a| - k..] == b[|b| - k..] || Collision(digest, a, b)
    decreases k
  {
    if k > 0 {
      var x, y := a[|a| - 1], b[|b| - 1];
      assert x in a && y in b;
      if x.content == y.content {
        var a', b' := a[..|a| - 1], b[..|b| - 1];
        SliceChained(digest, a, 0, |a| - 1);
        SliceChained(digest, b, 0, |b| - 1);
        SameEndSameHistory(digest, a', b', k - 1);
        if Collision(digest, a', b') {
          var u, v :| u in a' && v in b' && u.content != v.content && digest(u.content) == digest(v.content);
          assert u in a && v in b;
        } else {
          SuffixLast(a, k);
          SuffixLast(b, k);
        }
      }
    }
  }

  // ----- exports -----

  datatype Query = Query(dateFrom: int, dateTo: Option<int>, actorId: Option<string>)

  /** An absent upper date is unbounded; an absent or empty actor selects every actor. */
  predicate Selected(q: Query, e: Entry) {
    && e.content.timestamp >= q.dateFrom
    && (q.dateTo.Some? ==> e.content.timestamp <= q.dateTo.value)
    && (q.actorId.Some? && q.actorId.value != "" ==> e.content.facts.actorId == q.actorId.value)
  }

  function By(q: Query): Entry -> bool {
    (e: Entry) => Selected(q, e)
  }

  /** Nothing between two selected records is left out. */
  ghost predicate Contiguous(keep: Entry -> bool, list: seq<Entry>) {
    forall i, j, k :: 0 <= i < j < k < |list| && keep(list[i]) && keep(list[k]) ==> keep(list[j])
  }

  /** The last selected record is the last of the filtered list. */
  lemma {:induction false} LastKept(keep: Entry -> bool, list: seq<Entry>) returns (i: nat)
    requires Filter(keep, list) != []
    ensures i < |list| && keep(list[i]) && list[i] == Filter(keep, list)[|Filter(keep, list)| - 1]
    ensures forall j :: i < j < |list| ==> !keep(list[j])
  {
    if keep(list[|list| - 1]) {
      i := |list| - 1;
    } else {
      i := LastKept(keep, list[..|list| - 1]);
    }
  }

  /** A selection without holes is a slice. */
  lemma ContiguousIsSlice(keep: Entry -> bool, list: seq<Entry>) returns (lo: nat, hi: nat)
    requires Contiguous(keep, list)
    ensures lo <= hi <= |list| && Filter(keep, list) == list[lo..hi]
  {
    lo := 0;
    while lo < |list| && !keep(list[lo])
      invariant lo <= |list| && forall i :: 0 <= i < lo ==> !keep(list[i])
    {
      lo := lo + 1;
    }
    hi := |list|;
    while lo < hi && !keep(list[hi - 1])
      invariant lo <= hi <= |list| && forall i :: hi <= i < |list| ==> !keep(list[i])
    {
      hi := hi - 1;
    }
    FilterSlice(keep, list, lo, hi);
  }

  /** A part of a chain verifies exactly when nothing inside it was left out, short of a collision. */
  lemma ExportVerifiesExactly(digest: Hasher, keep: Entry -> bool, list: seq<Entry>)
    requires Chained(digest, list) && Numbered(list) && !Collision(digest, list, list)
    ensures Chained(digest, Filter(keep, list)) <==> Contiguous(keep, list)
  {
    if Contiguous(keep, list) {
      var lo, hi := ContiguousIsSlice(keep, list);
      SliceChained(digest, list, lo, hi);
    }
    if Chained(digest, Filter(keep, list)) {
      ChainedFilterContiguous(digest, keep, list);
    }
  }

  /** Two entries of a chain with the same hash are the same entry. */
  lemma SameHashSamePlace(digest: Hasher, list: seq<Entry>, i: nat, j: nat)
    requires Chained(digest, list) && Numbered(list) && !Collision(digest, list, list)
    requires i <= j < |list| && list[i].hash == list[j].hash
    ensures i == j
  {
    assert list[i] in list && list[j] in list;
  }

  lemma FrontChained(digest: Hasher, keep: Entry -> bool, list: seq<Entry>)
    requires list != [] && Chained(digest, list) && Numbered(list) && !Collision(digest, list, list)
    requires Chained(digest, Filter(keep, list))
    ensures var front := list[..|list| - 1];
            && Chained(digest, front) && Numbered(front) && !Collision(digest, front, front)
            && Chained(digest, Filter(keep, front))
  {
    var front := list[..|list| - 1];
    var f := Filter(keep, front);
    SliceChained(digest, list, 0, |list| - 1);
    assert f == Filter(keep, list)[..|f|];
    SliceChained(digest, Filter(keep, list), 0, |f|);
    assert forall x :: x in front ==> x in list;
  }

  lemma {:induction false} ChainedFilterContiguous(digest: Hasher, keep: Entry -> bool, list: seq<Entry>)
    requires Chained(digest, list) && Numbered(list) && !Collision(digest, list, list)
    requires Chained(digest, Filter(keep, list))
    ensures Contiguous(keep, list)
  {
    if list != [] {
      var n := |list| - 1;
      var f := Filter(keep, list[..n]);
      FrontChained(digest, keep, list);
      ChainedFilterContiguous(digest, keep, list[..n]);
      FilterSize(keep, list[..n]);
      if keep(list[n]) && f != [] {
        NextKeptFollows(digest, keep, list);
      }
      ExtendContiguous(keep, list);
    }
  }

  /** A last record that is kept links to the one kept before it. */
  lemma KeptLink(digest: Hasher, keep: Entry -> bool, list: seq<Entry>) returns (i: nat)
    requires Chained(digest, Filter(keep, list))
    requires list != [] && keep(list[|list| - 1]) && Filter(keep, list[..|list| - 1]) != []
    ensures i < |list| - 1 && keep(list[i]) && list[|list| - 1].content.prevHash == list[i].hash
  {
    var n := |list| - 1;
    var f, g := Filter(keep, list[..n]), Filter(keep, list);
    i := LastKept(keep, list[..n]);
    assert |g| == |f| + 1 && g[|f|] == list[n] && g[|f| - 1] == f[|f| - 1];
  }

  lemma NextKeptFollows(digest: Hasher, keep: Entry -> bool, list: seq<Entry>)
    requires Chained(digest, list) && Numbered(list) && !Collision(digest, list, list)
    requires Chained(digest, Filter(keep, list))
    requires list != [] && keep(list[|list| - 1]) && Filter(keep, list[..|list| - 1]) != []
    ensures |list| > 1 && keep(list[|list| - 2])
  {
    var i := KeptLink(digest, keep, list);
    SameHashSamePlace(digest, list, i, |list| - 2);
  }

  lemma ExtendContiguous(keep: Entry -> bool, list: seq<Entry>)
    requires list != [] && Contiguous(keep, list[..|list| - 1])
    requires keep(list[|list| - 1]) ==>
               || (forall i :: 0 <= i < |list| - 1 ==> !keep(list[i]))
               || (|list| > 1 && keep(list[|list| - 2]))
    ensures Contiguous(keep, list)
  {
    var front := list[..|list| - 1];
    forall i, j, k | 0 <= i < j < k < |list| && keep(list[i]) && keep(list[k]) ensures keep(list[j]) {
      assert front[i] == list[i] && front[j] == list[j];
      if k == |list| - 1 && j < |list| - 2 {
        assert front[|list| - 2] == list[|list| - 2];
      }
    }
  }

  ghost predicate ClockMonotone(list: seq<Entry>) {
    forall i, j :: 0 <= i < j < |list| ==> list[i].content.timestamp <= list[j].content.timestamp
  }

  /** With a clock that never goes back, an export by dates alone always verifies. */
  lemma DateExportVerifies(digest: Hasher, events: seq<Event>, q: Query)
    requires ClockMonotone(Entries(digest, events)) && (q.actorId.None? || q.actorId.value == "")
    ensures Chained(digest, Filter(By(q), Run(digest, events).records))
  {
    WindowOfChain(digest, events);
    var s := Run(digest, events);
    assert ClockMonotone(s.records);
    var lo, hi := ContiguousIsSlice(By(q), s.records);
    EveryWindowVerifies(digest, events, lo, hi);
  }

  /** With such a clock the exports of two date ranges that adjoin are together the export of both. */
  lemma RangesAdjoin(list: seq<Entry>, from: int, mid: int, to: int, actor: Option<string>)
    requires ClockMonotone(list) && from <= mid + 1 && mid <= to
    ensures Filter(By(Query(from, Some(mid), actor)), list) + Filter(By(Query(mid + 1, Some(to), actor)), list)
         == Filter(By(Query(from, Some(to), actor)), list)
  {
    var early, late := By(Query(from, Some(mid), actor)), By(Query(mid + 1, Some(to), actor));
    FilterAdjoin(early, late, By(Query(from, Some(to), actor)), list);
  }

  /** An export of a run's window verifies exactly when the query leaves out nothing inside what it selects. */
  lemma ExportOfRunExactly(digest: Hasher, events: seq<Event>, q: Query)
    requires var r := Run(digest, events).records; !Collision(digest, r, r)
    ensures var r := Run(digest, events).records;
            Chained(digest, Filter(By(q), r)) <==> Contiguous(By(q), r)
  {
    var r := Run(digest, events).records;
    EveryWindowVerifies(digest, events, 0, |r|);
    assert r[0..|r|] == r;
    WindowOfChain(digest, events);
    EntriesChained(digest, events);
    ExportVerifiesExactly(digest, By(q), r);
  }

  /** An export for one of two actors that take turns is reported as broken, though nothing was altered. */
  lemma ActorExportCanFail(digest: Hasher, a: Facts, b: Facts)
    requires a.actorId != "" && a.actorId != b.actorId
    requires var r := Run(digest, [Record(a, "1", 0), Record(b, "2", 0), Record(a, "3", 0)]).records;
             !Collision(digest, r, r)
    ensures var r := Run(digest, [Record(a, "1", 0), Record(b, "2", 0), Record(a, "3", 0)]).records;
            !Chained(digest, Filter(By(Query(0, None, Some(a.actorId))), r))
  {
    var q := Query(0, None, Some(a.actorId));
    var e1, e2, e3 := Record(a, "1", 0), Record(b, "2", 0), Record(a, "3", 0);
    assert [e1, e2, e3][..2] == [e1, e2] && [e1, e2][..1] == [e1];
    var r := Run(digest, [e1, e2, e3]).records;
    assert Run(digest, [e1]).records[0].content.facts == a;
    assert |Run(digest, [e1, e2]).records| == 2;
    assert r[0].content.facts == a && r[1].content.facts == b && r[2].content.facts == a;
    assert Selected(q, r[0]) && !Selected(q, r[1]) && Selected(q, r[2]);
    assert By(q)(r[0]) && !By(q)(r[1]) && By(q)(r[2]);
    ExportOfRunExactly(digest, [e1, e2, e3], q);
  }
}

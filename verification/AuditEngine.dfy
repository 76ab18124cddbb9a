/** The audit engine: it records into a window, and exports a selection with its verdict and its Merkle root. */
module AuditEngine {
  import opened Filtering
  import opened AuditChain
  import opened MerkleRoot

  class MatterAuditEngine {
    const digest: Hasher
    const sha: string -> string
    const rawDigest: Entry -> string
    var lastHash: string
    var sequence: nat
    var records: seq<Entry>
    ghost var history: seq<Event>

    function State(): Engine
      reads this
    {
      Engine(sequence, lastHash, records)
    }

    ghost predicate Valid()
      reads this
    {
      State() == Run(digest, history)
    }

    constructor (d: Hasher, s: string -> string, raw: Entry -> string)
      ensures Valid() && history == [] && digest == d && sha == s && rawDigest == raw
    {
      digest, sha, rawDigest, lastHash, sequence, records, history := d, s, raw, GENESIS_HASH, 0, [], [];
    }

    method RecordEvent(e: Event) returns (entry: Entry)
      requires Valid() && e.Record?
      modifies this
      ensures Valid() && history == old(history) + [e]
      ensures entry == NewEntry(digest, old(sequence) + 1, old(lastHash), e)
      ensures records != [] && records[|records| - 1] == entry && |records| <= MAX_RECORDS
    {
      WindowOfChain(digest, history);
      sequence := sequence + 1;
      var content := Content(sequence, e.id, e.clock, lastHash, e.facts);
      entry := Entry(content, digest(content));
      lastHash := entry.hash;
      records := records + [entry];
      if |records| > MAX_RECORDS {
        records := records[1..];
      }
      history := history + [e];
      assert history[..|history| - 1] == old(history);
    }

    method Clear()
      requires Valid()
      modifies this
      ensures Valid() && history == old(history) + [Event.Clear] && records == []
    {
      records, lastHash, sequence := [], GENESIS_HASH, 0;
      history := history + [Event.Clear];
      assert history[..|history| - 1] == old(history);
    }

    method ExportGdprRegister(q: Query) returns (activities: seq<Entry>, integrityVerified: bool, merkleRoot: string)
      requires Valid()
      ensures activities == Filter(By(q), records)
      ensures forall e :: e in activities ==>
                && e in records && q.dateFrom <= e.content.timestamp
                && (q.dateTo.Some? ==> e.content.timestamp <= q.dateTo.value)
                && (q.actorId.Some? && q.actorId.value != "" ==> e.content.facts.actorId == q.actorId.value)
      ensures forall e :: e in records && q.dateFrom <= e.content.timestamp
                          && (q.dateTo.None? || e.content.timestamp <= q.dateTo.value)
                          && (q.actorId.None? || q.actorId.value in {"", e.content.facts.actorId})
                ==> e in activities
      ensures merkleRoot == RootOf(sha, Leaves(rawDigest, activities))
      ensures (forall e :: e in activities ==> e.hash != "") ==> merkleRoot == RootOf(sha, Hashes(activities))
      ensures integrityVerified <==> Chained(digest, activities)
    {
      activities := [];
      for i := 0 to |records|
        invariant activities == Filter(By(q), records[..i])
      {
        FilterNext(By(q), records, i);
        if Selected(q, records[i]) {
          activities := activities + [records[i]];
        }
      }
      assert records[..|records|] == records;
      FilterMembers(By(q), records);
      if forall e :: e in activities ==> e.hash != "" { LeavesAreHashes(rawDigest, activities); }
      var v := VerifyIntegrity(digest, activities);
      integrityVerified := v.Valid?;
      merkleRoot := RootOfRecords(sha, rawDigest, activities);
    }
  }

  // ----- what an export says -----

  ghost function Hashes(list: seq<Entry>): seq<string> {
    seq(|list|, i requires 0 <= i < |list| => list[i].hash)
  }

  /** The leaves of hashed records are their hashes; a record without one contributes its own digest. */
  lemma LeavesAreHashes(rawDigest: Entry -> string, list: seq<Entry>)
    ensures |Leaves(rawDigest, list)| == |list|
    ensures forall i :: 0 <= i < |list| && list[i].hash == "" ==> Leaves(rawDigest, list)[i] == rawDigest(list[i])
    ensures (forall e :: e in list ==> e.hash != "") ==> Leaves(rawDigest, list) == Hashes(list)
  {
    assert forall i :: 0 <= i < |list| ==> list[i] in list;
  }

  ghost predicate Hashed(digest: Hasher, list: seq<Entry>) {
    forall e :: e in list ==> digest(e.content) == e.hash && e.hash != ""
  }

  lemma SameHashesSameRecords(digest: Hasher, a: seq<Entry>, b: seq<Entry>)
    requires Hashed(digest, a) && Hashed(digest, b) && Hashes(a) == Hashes(b)
    ensures a == b || Collision(digest, a, b)
  {
    assert |Hashes(a)| == |a| && |Hashes(b)| == |b|;
    if a != b {
      var i :| 0 <= i < |a| && a[i] != b[i];
      assert a[i] in a && b[i] in b && Hashes(a)[i] == Hashes(b)[i];
    }
  }

  /** Two exports of equally many hashed records with one Merkle root hold the same records, or two different records,
      or two different texts hashed on the way to the root, collide. */
  lemma SameRootSameRecords(digest: Hasher, sha: string -> string, rawDigest: Entry -> string,
                            a: seq<Entry>, b: seq<Entry>)
    returns (left: (string, string), right: (string, string))
    requires |a| == |b| && Hashed(digest, a) && Hashed(digest, b) && Uniform(sha, Hashes(a)) && Uniform(sha, Hashes(b))
    requires RootOf(sha, Leaves(rawDigest, a)) == RootOf(sha, Leaves(rawDigest, b))
    ensures || a == b || Collision(digest, a, b)
            || (left.0 + left.1 != right.0 + right.1 && sha(left.0 + left.1) == sha(right.0 + right.1))
  {
    LeavesAreHashes(rawDigest, a);
    LeavesAreHashes(rawDigest, b);
    left, right := RootCommitsToLeaves(sha, Hashes(a), Hashes(b));
    if Hashes(a) == Hashes(b) { SameHashesSameRecords(digest, a, b); }
  }
}

/** What creating, extracting and merging operations keep true of one log. */
module CrdtLog {
  import opened StableSorting
  import opened Filtering
  import opened Crdt

  ghost function Keys(log: seq<Op>): set<(NodeId, nat)> {
    set op | op in log :: (op.nodeId, op.seqNo)
  }

  ghost predicate WellMade(op: Op) {
    Genuine(op) && op.id.node == op.nodeId && op.id.seqNo == op.seqNo && op.seqNo >= 1
  }

  ghost predicate DistinctKeys(log: seq<Op>) {
    forall i, j :: 0 <= i < j < |log| ==> (log[i].nodeId, log[i].seqNo) != (log[j].nodeId, log[j].seqNo)
  }

  ghost predicate LogOk(log: seq<Op>) {
    && (forall op :: op in log ==> WellMade(op))
    && DistinctKeys(log)
    && TiesInOrder(LogOrder, EarlierSeq, log)
  }

  /** The log holds exactly the operations 1..vector[n] of every node n. */
  ghost predicate GapFree(r: Replica) {
    forall n: NodeId, s: nat :: (n, s) in Keys(r.log) <==> 1 <= s <= Get(r.vector, n)
  }

  /** The vector names, for each node, the greatest sequence number in the log. */
  ghost predicate VectorIsMax(r: Replica) {
    && (forall n: NodeId, s: nat :: (n, s) in Keys(r.log) ==> s <= Get(r.vector, n))
    && (forall n: NodeId :: Get(r.vector, n) == 0 || (n, Get(r.vector, n)) in Keys(r.log))
  }

  ghost predicate SameOps(a: seq<Op>, b: seq<Op>) {
    forall x, y :: x in a && y in b && x.nodeId == y.nodeId && x.seqNo == y.seqNo ==> x == y
  }

  /** What is new in `ops` comes, among operations that tie with one of the log, later in its node's numbering. */
  ghost predicate NewerOnTies(log: seq<Op>, ops: seq<Op>) {
    forall x, y :: x in log && y in ops && (y.nodeId, y.seqNo) !in Keys(log) && Tie(LogOrder, x, y) ==>
      x.seqNo < y.seqNo
  }

  /** The total order (timestamp, node, sequence number). */
  predicate Before(a: Op, b: Op) {
    || a.timestamp < b.timestamp
    || (a.timestamp == b.timestamp && a.nodeId < b.nodeId)
    || (a.timestamp == b.timestamp && a.nodeId == b.nodeId && a.seqNo < b.seqNo)
  }

  lemma KeyWitness(log: seq<Op>, n: NodeId, s: nat) returns (op: Op)
    requires (n, s) in Keys(log)
    ensures op in log && op.nodeId == n && op.seqNo == s
  {
    op :| op in log && op.nodeId == n && op.seqNo == s;
  }

  lemma KeysAppend(log: seq<Op>, op: Op)
    ensures Keys(log + [op]) == Keys(log) + {(op.nodeId, op.seqNo)}
  {
    assert forall x :: x in log + [op] <==> x in log || x == op;
  }

  lemma KeysTail(ops: seq<Op>)
    requires ops != []
    ensures Keys(ops) == {(ops[0].nodeId, ops[0].seqNo)} + Keys(ops[1..])
  {
    assert ops == [ops[0]] + ops[1..];
    assert forall x :: x in ops <==> x == ops[0] || x in ops[1..];
  }

  lemma {:induction false} DistinctMembers(log: seq<Op>, x: Op, y: Op)
    requires DistinctKeys(log) && x in log && y in log && x.nodeId == y.nodeId && x.seqNo == y.seqNo
    ensures x == y
  {
    var i :| 0 <= i < |log| && log[i] == x;
    var j :| 0 <= j < |log| && log[j] == y;
    assert i == j;
  }

  lemma LogOkAppend(log: seq<Op>, op: Op)
    requires LogOk(log) && WellMade(op)
    requires (op.nodeId, op.seqNo) !in Keys(log)
    requires forall x :: x in log && Tie(LogOrder, x, op) ==> x.seqNo < op.seqNo
    ensures LogOk(log + [op])
  {
    var r := log + [op];
    forall i, j | 0 <= i < j < |r|
      ensures (r[i].nodeId, r[i].seqNo) != (r[j].nodeId, r[j].seqNo)
      ensures Tie(LogOrder, r[i], r[j]) ==> EarlierSeq(r[i], r[j])
    {
      if j == |log| {
        assert r[i] in log;
        assert (r[i].nodeId, r[i].seqNo) in Keys(log);
      }
    }
  }

  lemma LogOkTail(ops: seq<Op>)
    requires LogOk(ops) && ops != []
    ensures LogOk(ops[1..])
    ensures (ops[0].nodeId, ops[0].seqNo) !in Keys(ops[1..])
    ensures forall y :: y in ops[1..] && Tie(LogOrder, ops[0], y) ==> ops[0].seqNo < y.seqNo
  {
    forall y | y in ops[1..]
      ensures (ops[0].nodeId, ops[0].seqNo) != (y.nodeId, y.seqNo)
      ensures Tie(LogOrder, ops[0], y) ==> ops[0].seqNo < y.seqNo
    {
      var j :| 0 < j < |ops| && ops[j] == y;
    }
  }

  /** A well-made operation is accepted exactly when its key is new. */
  lemma AcceptsNewKeys(r: Replica, op: Op)
    requires LogOk(r.log) && WellMade(op) && SameOps(r.log, [op])
    ensures Accepts(r, op) <==> (op.nodeId, op.seqNo) !in Keys(r.log)
  {
    if (op.nodeId, op.seqNo) in Keys(r.log) {
      var x := KeyWitness(r.log, op.nodeId, op.seqNo);
      assert op in [op];
    }
  }

  /** `r'` is `r` with the operations `ops` in it, still a good log with an exact vector. */
  ghost predicate Took(r: Replica, ops: seq<Op>, r': Replica) {
    && LogOk(r'.log) && VectorIsMax(r')
    && Keys(r'.log) == Keys(r.log) + Keys(ops)
    && (forall x :: x in r'.log ==> x in r.log || x in ops)
  }

  /** An operation with a new key raises its node's entry just when it exceeds it. */
  lemma AppendKeepsMax(r: Replica, op: Op)
    requires VectorIsMax(r) && op.seqNo >= 1
    ensures VectorIsMax(Replica(
      if op.seqNo > Get(r.vector, op.nodeId) then r.vector[op.nodeId := op.seqNo] else r.vector, r.log + [op]))
  {
    KeysAppend(r.log, op);
  }

  lemma KeysOne(op: Op)
    ensures Keys([op]) == {(op.nodeId, op.seqNo)}
  {
    assert forall x :: x in [op] <==> x == op;
  }

  lemma AbsorbOne(r: Replica, op: Op)
    requires LogOk(r.log) && VectorIsMax(r) && WellMade(op)
    requires SameOps(r.log, [op]) && NewerOnTies(r.log, [op])
    ensures Took(r, [op], Absorb(r, op))
  {
    AcceptsNewKeys(r, op);
    KeysOne(op);
    if Accepts(r, op) {
      assert op in [op];
      LogOkAppend(r.log, op);
      KeysAppend(r.log, op);
      AppendKeepsMax(r, op);
    }
  }

  lemma FirstIsNew(r: Replica, ops: seq<Op>)
    requires ops != [] && LogOk(ops) && SameOps(r.log, ops) && NewerOnTies(r.log, ops)
    ensures WellMade(ops[0]) && SameOps(r.log, [ops[0]]) && NewerOnTies(r.log, [ops[0]])
  {
    assert ops[0] in ops;
  }

  /** The rest of a batch meets, after its first operation is absorbed, what it met before. */
  lemma RestStaysNew(r: Replica, m: Replica, ops: seq<Op>)
    requires LogOk(ops) && ops != [] && Took(r, [ops[0]], m)
    requires SameOps(r.log, ops) && NewerOnTies(r.log, ops)
    ensures SameOps(m.log, ops[1..]) && NewerOnTies(m.log, ops[1..])
  {
    LogOkTail(ops);
    var rest := ops[1..];
    forall x, y | x in m.log && y in rest
      ensures x.nodeId == y.nodeId && x.seqNo == y.seqNo ==> x == y
      ensures (y.nodeId, y.seqNo) !in Keys(m.log) && Tie(LogOrder, x, y) ==> x.seqNo < y.seqNo
    {
      assert y in ops && (y.nodeId, y.seqNo) in Keys(rest);
    }
  }

  lemma TookCompose(r: Replica, op: Op, m: Replica, rest: seq<Op>, r': Replica)
    requires Took(r, [op], m) && Took(m, rest, r')
    ensures Took(r, [op] + rest, r')
  {
    KeysTail([op] + rest);
    KeysTail([op]);
    assert ([op] + rest)[1..] == rest;
    assert forall x :: x in [op] + rest <==> x in [op] || x in rest;
  }

  lemma {:induction false} AbsorbAllTakes(r: Replica, ops: seq<Op>)
    requires LogOk(r.log) && VectorIsMax(r) && LogOk(ops)
    requires SameOps(r.log, ops) && NewerOnTies(r.log, ops)
    ensures Took(r, ops, AbsorbAll(r, ops))
    decreases ops
  {
    if ops != [] {
      var m := Absorb(r, ops[0]);
      FirstIsNew(r, ops);
      AbsorbOne(r, ops[0]);
      RestStaysNew(r, m, ops);
      AbsorbAllTakes(m, ops[1..]);
      TookCompose(r, ops[0], m, ops[1..], AbsorbAll(m, ops[1..]));
      assert ops == [ops[0]] + ops[1..];
    }
  }

  /** What a merge reports as applied is what it adds behind the old log. */
  lemma {:induction false} AcceptedIsAdded(r: Replica, ops: seq<Op>)
    ensures AbsorbAll(r, ops).log == r.log + Accepted(r, ops)
    decreases ops
  {
    if ops != [] { AcceptedIsAdded(Absorb(r, ops[0]), ops[1..]); }
  }

  lemma SortKeepsLog(log: seq<Op>)
    requires LogOk(log)
    ensures var s := Sort(LogOrder, log);
            LogOk(s) && Keys(s) == Keys(log) && Sorted(Before, s) && (forall x :: x in s <==> x in log)
  {
    SortStable(LogOrder, EarlierSeq, log);
    SameElements(LogOrder, log);
    SortDistinct(log);
  }

  lemma SortDistinct(log: seq<Op>)
    requires DistinctKeys(log)
    ensures DistinctKeys(Sort(LogOrder, log))
  {
    var s := Sort(LogOrder, log);
    SameElements(LogOrder, log);
    forall i, j | 0 <= i < j < |s|
      ensures (s[i].nodeId, s[i].seqNo) != (s[j].nodeId, s[j].seqNo)
    {
      assert s[i] in s && s[j] in s;
      if (s[i].nodeId, s[i].seqNo) == (s[j].nodeId, s[j].seqNo) {
        DistinctMembers(log, s[i], s[j]);
        DistinctCounts(log, s[i]);
        TwiceCounts(s, i, j);
      }
    }
  }

  lemma TwiceCounts<T>(s: seq<T>, i: nat, j: nat)
    requires i < j < |s| && s[i] == s[j]
    ensures multiset(s)[s[i]] >= 2
  {
    assert s == s[..i] + [s[i]] + s[i + 1..j] + [s[j]] + s[j + 1..];
  }

  lemma {:induction false} DistinctCounts(log: seq<Op>, x: Op)
    requires DistinctKeys(log)
    ensures multiset(log)[x] <= 1
  {
    if log != [] {
      var front, last := log[..|log| - 1], log[|log| - 1];
      assert log == front + [last];
      DistinctCounts(front, x);
      forall y | y in front ensures y != last {
        var i :| 0 <= i < |front| && front[i] == y;
        assert log[i] == y;
      }
      assert last !in multiset(front);
    }
  }

  predicate OtherKey(a: Op, b: Op) {
    (a.nodeId, a.seqNo) != (b.nodeId, b.seqNo)
  }

  predicate TieBySeq(a: Op, b: Op) {
    Tie(LogOrder, a, b) ==> EarlierSeq(a, b)
  }

  /** A good log stays good when some of its operations are left out. */
  lemma FilterKeepsLog(keep: Op -> bool, log: seq<Op>)
    requires LogOk(log)
    ensures LogOk(Filter(keep, log)) && forall op :: op in Filter(keep, log) <==> op in log && keep(op)
  {
    assert Sorted(OtherKey, log) && Sorted(TieBySeq, log);
    FilterPairs(keep, OtherKey, log);
    FilterPairs(keep, TieBySeq, log);
    FilterMembers(keep, log);
    PairsMakeLog(Filter(keep, log));
  }

  lemma PairsMakeLog(log: seq<Op>)
    requires Sorted(OtherKey, log) && Sorted(TieBySeq, log) && forall op :: op in log ==> WellMade(op)
    ensures LogOk(log)
  {
    forall i, j | 0 <= i < j < |log|
      ensures (log[i].nodeId, log[i].seqNo) != (log[j].nodeId, log[j].seqNo)
      ensures Tie(LogOrder, log[i], log[j]) ==> EarlierSeq(log[i], log[j])
    {
      assert OtherKey(log[i], log[j]) && TieBySeq(log[i], log[j]);
    }
  }

  /** A delta is what the peer has not seen, in the order of the log it was taken from. */
  lemma OpsSinceKeepsLog(log: seq<Op>, known: Vector)
    requires LogOk(log)
    ensures LogOk(OpsSince(log, known))
    ensures forall op :: op in OpsSince(log, known) <==> op in log && op.seqNo > Get(known, op.nodeId)
  {
    FilterKeepsLog(Unseen(known), log);
  }
}

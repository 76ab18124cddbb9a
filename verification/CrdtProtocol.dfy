/** Replicas exchanging deltas over a network that may lose, duplicate, delay and reorder messages. */
module CrdtProtocol {
  import opened StableSorting
  import opened Filtering
  import opened Crdt
  import opened CrdtLog

  function Max(a: nat, b: nat): nat {
    if a < b then b else a
  }

  // ----- one delivery -----

  /** `ops` is what a replica with vector `sender` has beyond `since`, and r is at least at `since`. */
  ghost predicate CleanBatch(r: Replica, since: Vector, sender: Vector, ops: seq<Op>) {
    && LogOk(ops) && SameOps(r.log, ops)
    && (forall n: NodeId, s: nat :: (n, s) in Keys(ops) <==> Get(since, n) < s <= Get(sender, n))
    && (forall n: NodeId :: Get(since, n) <= Get(r.vector, n))
  }

  lemma GapFreeVector(r: Replica)
    requires GapFree(r)
    ensures VectorIsMax(r)
  {
  }

  lemma CleanIsNewer(r: Replica, since: Vector, sender: Vector, ops: seq<Op>)
    requires GapFree(r) && LogOk(r.log) && CleanBatch(r, since, sender, ops)
    ensures NewerOnTies(r.log, ops)
  {
    forall x, y | x in r.log && y in ops && (y.nodeId, y.seqNo) !in Keys(r.log) && Tie(LogOrder, x, y)
      ensures x.seqNo < y.seqNo
    {
      assert (x.nodeId, x.seqNo) in Keys(r.log) && WellMade(y);
    }
  }

  /** Merging a delta leaves no gap, raises the vector to the pointwise maximum and sorts the log. */
  lemma MergeCleanBatch(r: Replica, since: Vector, sender: Vector, ops: seq<Op>)
    requires GapFree(r) && LogOk(r.log) && CleanBatch(r, since, sender, ops)
    ensures Took(r, ops, Merged(r, ops)) && GapFree(Merged(r, ops))
    ensures Sorted(Before, Merged(r, ops).log)
    ensures forall n: NodeId :: Get(Merged(r, ops).vector, n) == Max(Get(r.vector, n), Get(sender, n))
  {
    GapFreeVector(r);
    CleanIsNewer(r, since, sender, ops);
    AbsorbAllTakes(r, ops);
    var a := AbsorbAll(r, ops);
    SortKeepsLog(a.log);
    assert Keys(Merged(r, ops).log) == Keys(a.log);
    forall n: NodeId
      ensures Get(a.vector, n) == Max(Get(r.vector, n), Get(sender, n))
    {
      VectorMeets(r, since, sender, ops, a, n);
    }
  }

  lemma VectorMeets(r: Replica, since: Vector, sender: Vector, ops: seq<Op>, a: Replica, n: NodeId)
    requires VectorIsMax(r) && VectorIsMax(a) && Get(since, n) <= Get(r.vector, n)
    requires forall s: nat :: (n, s) in Keys(a.log) <==> (n, s) in Keys(r.log) || (n, s) in Keys(ops)
    requires forall s: nat :: (n, s) in Keys(ops) <==> Get(since, n) < s <= Get(sender, n)
    ensures Get(a.vector, n) == Max(Get(r.vector, n), Get(sender, n))
  {
    var m := Get(a.vector, n);
    assert m == 0 || (n, m) in Keys(r.log) || (n, m) in Keys(ops);
    assert Get(r.vector, n) == 0 || (n, Get(r.vector, n)) in Keys(a.log);
    assert Get(sender, n) <= Get(since, n) || (n, Get(sender, n)) in Keys(a.log);
  }

  // ----- a damaged delivery -----

  /** What can happen to an operation on its way: its hash is lost, its fields change under the hash, the hash changes,
      or both change and the hash is not that of the fields. */
  predicate Hurt(sent: Op, arrived: Op) {
    || arrived.hash == Blank
    || (arrived.hash == sent.hash && arrived != sent)
    || (arrived.hash != sent.hash && arrived.(hash := sent.hash) == sent)
    || (arrived.hash.Digest? && !SameFields(arrived.hash, arrived))
  }

  predicate SameFields(h: Digest, op: Op)
    requires h.Digest?
  {
    && h.id == op.id && h.nodeId == op.nodeId && h.seqNo == op.seqNo && h.timestamp == op.timestamp
    && h.body.table == op.body.table && h.body.primaryKey == op.body.primaryKey
    && h.body.action == op.body.action && h.body.payload == op.body.payload
  }

  /** Each operation of the batch arrives as it was sent or hurt. */
  predicate Damaged(ops: seq<Op>, d: seq<Op>) {
    |d| == |ops| && forall i :: 0 <= i < |d| ==> d[i] == ops[i] || Hurt(ops[i], d[i])
  }

  /** What does not arrive as it was sent will be refused. */
  predicate RestRefused(ops: seq<Op>, d: seq<Op>) {
    |d| == |ops| && forall i :: 0 <= i < |d| ==> d[i] == ops[i] || !Genuine(d[i])
  }

  /** An operation whose fields changed under its hash, or whose hash is missing, is not taken. */
  lemma HurtIsRefused(r: Replica, n: NodeId, body: Body, idClock: int, clock: int, x: Op, s: Replica)
    requires x != NewOp(r, n, body, idClock, clock)
    requires x.hash == NewOp(r, n, body, idClock, clock).hash || x.hash == Blank
    ensures Accepted(s, [x]) == [] && AbsorbAll(s, [x]) == s
    ensures Merged(s, [x]).vector == s.vector && multiset(Merged(s, [x]).log) == multiset(s.log)
  {
    assert !Genuine(x);
    assert [x][1..] == [] && AbsorbAll(s, []) == s;
    SameElements(LogOrder, s.log);
  }

  /** Of a batch that its makers hashed, exactly what was hurt is refused. */
  lemma DamagedExactly(ops: seq<Op>, d: seq<Op>)
    requires forall op :: op in ops ==> Genuine(op)
    ensures Damaged(ops, d) <==> RestRefused(ops, d)
  {
    if |d| == |ops| {
      forall i | 0 <= i < |d| ensures Hurt(ops[i], d[i]) && d[i] != ops[i] <==> !Genuine(d[i]) && d[i] != ops[i] {
        assert Genuine(ops[i]);
      }
    }
  }

  ghost function Survivors(d: seq<Op>): seq<Op> {
    Filter(Genuine, d)
  }

  lemma {:induction false} DamagedSkipped(r: Replica, d: seq<Op>)
    ensures AbsorbAll(r, d) == AbsorbAll(r, Survivors(d))
    decreases d
  {
    if d != [] {
      assert d == [d[0]] + d[1..];
      FilterConcat(Genuine, [d[0]], d[1..]);
      assert [d[0]][..0] == [];
      DamagedSkipped(Absorb(r, d[0]), d[1..]);
      if Genuine(d[0]) {
        assert Survivors(d)[1..] == Survivors(d[1..]);
      } else {
        assert Survivors(d) == Survivors(d[1..]);
      }
    }
  }

  lemma SurvivorsMembers(d: seq<Op>)
    ensures forall x :: x in Survivors(d) <==> x in d && Genuine(x)
  {
    FilterMembers(Genuine, d);
  }

  predicate IfGenuine(a: Op, b: Op) {
    Genuine(a) && Genuine(b) ==> OtherKey(a, b) && TieBySeq(a, b)
  }

  lemma SurvivorsKeepLog(ops: seq<Op>, d: seq<Op>)
    requires LogOk(ops) && RestRefused(ops, d)
    ensures LogOk(Survivors(d)) && forall x :: x in Survivors(d) ==> x in ops
  {
    var s := Survivors(d);
    assert Sorted(IfGenuine, d);
    FilterPairs(Genuine, IfGenuine, d);
    SurvivorsMembers(d);
    forall x | x in s ensures x in ops {
      var i :| 0 <= i < |d| && d[i] == x;
      assert ops[i] == x;
    }
    forall i, j | 0 <= i < j < |s| ensures OtherKey(s[i], s[j]) && TieBySeq(s[i], s[j]) {
      assert s[i] in s && s[j] in s && IfGenuine(s[i], s[j]);
    }
    PairsMakeLog(s);
  }

  /** Every operation that survives precedes, in its node's numbering, every new one that was lost. */
  ghost predicate OnlyTailsLost(r: Replica, ops: seq<Op>, d: seq<Op>)
    requires |d| == |ops|
  {
    forall i, j ::
      && 0 <= i < |d| && 0 <= j < |d| && !Genuine(d[i]) && Genuine(d[j])
      && ops[i].nodeId == ops[j].nodeId && ops[i].seqNo > Get(r.vector, ops[i].nodeId)
      ==> ops[j].seqNo < ops[i].seqNo
  }

  /** What a damaged delta brings is what survived of it. */
  lemma DamagedTakes(r: Replica, since: Vector, sender: Vector, ops: seq<Op>, d: seq<Op>)
    requires GapFree(r) && LogOk(r.log) && CleanBatch(r, since, sender, ops) && RestRefused(ops, d)
    ensures Took(r, Survivors(d), AbsorbAll(r, d))
  {
    var sv := Survivors(d);
    SurvivorsKeepLog(ops, d);
    GapFreeVector(r);
    CleanIsNewer(r, since, sender, ops);
    assert SameOps(r.log, sv) && NewerOnTies(r.log, sv);
    AbsorbAllTakes(r, sv);
    DamagedSkipped(r, d);
  }

  /** A damaged delta leaves the log without gaps exactly when it only lost tails. */
  lemma DamagedBatchGaps(r: Replica, since: Vector, sender: Vector, ops: seq<Op>, d: seq<Op>)
    requires GapFree(r) && LogOk(r.log) && CleanBatch(r, since, sender, ops) && Damaged(ops, d)
    ensures GapFree(Merged(r, d)) <==> OnlyTailsLost(r, ops, d)
  {
    DamagedExactly(ops, d);
    DamagedTakes(r, since, sender, ops, d);
    var a := AbsorbAll(r, d);
    SortKeepsLog(a.log);
    assert GapFree(Merged(r, d)) <==> GapFree(a);
    if OnlyTailsLost(r, ops, d) {
      TailsLeaveNoGap(r, since, sender, ops, d, a);
    }
    if GapFree(a) {
      NoGapMeansTails(r, since, sender, ops, d, a);
    }
  }

  lemma TailsLeaveNoGap(r: Replica, since: Vector, sender: Vector, ops: seq<Op>, d: seq<Op>, a: Replica)
    requires GapFree(r) && CleanBatch(r, since, sender, ops) && RestRefused(ops, d)
    requires Took(r, Survivors(d), a) && OnlyTailsLost(r, ops, d)
    ensures GapFree(a)
  {
    forall n: NodeId, s: nat
      ensures (n, s) in Keys(a.log) <==> 1 <= s <= Get(a.vector, n)
    {
      var m := Get(a.vector, n);
      if Get(r.vector, n) < s <= m {
        assert (n, m) in Keys(Survivors(d));
        BelowSurvivor(r, since, sender, ops, d, n, s, m);
      }
      if (n, s) in Keys(a.log) {
        var x := KeyWitness(a.log, n, s);
      }
    }
  }

  /** When only tails are lost, what stands before a survivor survives too. */
  lemma BelowSurvivor(r: Replica, since: Vector, sender: Vector, ops: seq<Op>, d: seq<Op>, n: NodeId, s: nat, m: nat)
    requires CleanBatch(r, since, sender, ops) && RestRefused(ops, d) && OnlyTailsLost(r, ops, d)
    requires Get(r.vector, n) < s <= m && (n, m) in Keys(Survivors(d))
    ensures (n, s) in Keys(Survivors(d))
  {
    SurvivorsMembers(d);
    var top := KeyWitness(Survivors(d), n, m);
    var j :| 0 <= j < |d| && d[j] == top;
    assert ops[j] in ops && (n, m) in Keys(ops);
    var lost := KeyWitness(ops, n, s);
    var i :| 0 <= i < |ops| && ops[i] == lost;
    assert d[i] in Survivors(d);
  }

  lemma SurvivorIndex(ops: seq<Op>, d: seq<Op>, i: nat, x: Op)
    requires DistinctKeys(ops) && RestRefused(ops, d) && i < |ops|
    requires x in Survivors(d) && x.nodeId == ops[i].nodeId && x.seqNo == ops[i].seqNo
    ensures Genuine(d[i])
  {
    SurvivorsMembers(d);
    var k :| 0 <= k < |d| && d[k] == x;
    assert k == i;
  }

  lemma NoGapMeansTails(r: Replica, since: Vector, sender: Vector, ops: seq<Op>, d: seq<Op>, a: Replica)
    requires GapFree(r) && CleanBatch(r, since, sender, ops) && RestRefused(ops, d)
    requires Took(r, Survivors(d), a) && GapFree(a)
    ensures OnlyTailsLost(r, ops, d)
  {
    SurvivorsMembers(d);
    forall i, j |
      && 0 <= i < |d| && 0 <= j < |d| && !Genuine(d[i]) && Genuine(d[j])
      && ops[i].nodeId == ops[j].nodeId && ops[i].seqNo > Get(r.vector, ops[i].nodeId)
      ensures ops[j].seqNo < ops[i].seqNo
    {
      var n, s := ops[i].nodeId, ops[i].seqNo;
      assert d[j] in Survivors(d) && (n, d[j].seqNo) in Keys(a.log);
      if ops[j].seqNo >= s {
        assert ops[i] in ops && WellMade(ops[i]);
        assert (n, s) in Keys(a.log);
        var x := KeyWitness(Survivors(d), n, s);
        SurvivorIndex(ops, d, i, x);
      }
    }
  }

  // ----- the network -----

  datatype Node = Node(r: Replica, justMerged: bool)
  datatype Request = Request(from: NodeId, vector: Vector)
  datatype Batch = Batch(to: NodeId, since: Vector, sender: Vector, ops: seq<Op>)

  /** Messages once sent stay available until they are lost: answering or delivering one twice, late, never or damaged
      are all runs. */
  datatype World = World(nodes: seq<Node>, requests: set<Request>, batches: set<Batch>)

  datatype Step =
    | Create(node: NodeId, body: Body, idClock: int, clock: int)
    | Ask(node: NodeId)
    | Answer(node: NodeId, request: Request)
    | Deliver(batch: Batch, arrived: seq<Op>)
    | Lose(requests: set<Request>, batches: set<Batch>)

  function Init(n: nat): World {
    World(seq(n, _ => Node(EMPTY, true)), {}, {})
  }

  /** A step that is not possible changes nothing. */
  function Next(w: World, step: Step): World {
    match step
    case Create(n, body, idClock, clock) =>
      if n < |w.nodes| then
        w.(nodes := w.nodes[n := Node(Created(w.nodes[n].r, n, body, idClock, clock), false)])
      else w
    case Ask(n) =>
      if n < |w.nodes| then w.(requests := w.requests + {Request(n, w.nodes[n].r.vector)}) else w
    case Answer(n, req) =>
      if n < |w.nodes| && req in w.requests then
        var r := w.nodes[n].r;
        w.(batches := w.batches + {Batch(req.from, req.vector, r.vector, OpsSince(r.log, req.vector))})
      else w
    case Deliver(b, arrived) =>
      if Deliverable(w, b, arrived) then
        w.(nodes := w.nodes[b.to := Node(Merged(w.nodes[b.to].r, arrived), true)])
      else w
    case Lose(requests, batches) => w.(requests := w.requests - requests, batches := w.batches - batches)
  }

  /** The batch was sent, and some of its operations may have been damaged on the way. */
  predicate Deliverable(w: World, b: Batch, arrived: seq<Op>) {
    b in w.batches && b.to < |w.nodes| && Damaged(b.ops, arrived)
  }

  function Run(n: nat, steps: seq<Step>): World {
    if steps == [] then Init(n) else Next(Run(n, steps[..|steps| - 1]), steps[|steps| - 1])
  }

  /** Every operation is in the log of the node that made it. */
  ghost predicate Owned(nodes: seq<Node>, ops: seq<Op>) {
    forall op :: op in ops ==> op.nodeId < |nodes| && op in nodes[op.nodeId].r.log
  }

  ghost predicate AtLeast(v: Vector, since: Vector) {
    forall n: NodeId :: Get(since, n) <= Get(v, n)
  }

  ghost predicate NodeOk(nodes: seq<Node>, node: Node) {
    GapFree(node.r) && LogOk(node.r.log) && Owned(nodes, node.r.log) && (node.justMerged ==> Sorted(Before, node.r.log))
  }

  ghost predicate BatchOk(nodes: seq<Node>, b: Batch) {
    && b.to < |nodes| && AtLeast(nodes[b.to].r.vector, b.since)
    && LogOk(b.ops) && Owned(nodes, b.ops)
    && (forall n: NodeId, s: nat :: (n, s) in Keys(b.ops) <==> Get(b.since, n) < s <= Get(b.sender, n))
  }

  ghost predicate RequestOk(nodes: seq<Node>, req: Request) {
    req.from < |nodes| && AtLeast(nodes[req.from].r.vector, req.vector)
  }

  ghost predicate Inv(w: World) {
    && (forall i :: 0 <= i < |w.nodes| ==> NodeOk(w.nodes, w.nodes[i]))
    && (forall req :: req in w.requests ==> RequestOk(w.nodes, req))
    && (forall b :: b in w.batches ==> BatchOk(w.nodes, b))
  }

  /** Each log only gains operations and each vector only grows. */
  ghost predicate Grows(nodes: seq<Node>, nodes': seq<Node>) {
    && |nodes'| == |nodes|
    && (forall i, op :: 0 <= i < |nodes| && op in nodes[i].r.log ==> op in nodes'[i].r.log)
    && (forall i :: 0 <= i < |nodes| ==> AtLeast(nodes'[i].r.vector, nodes[i].r.vector))
  }

  lemma OwnedGrows(nodes: seq<Node>, nodes': seq<Node>, ops: seq<Op>)
    requires Grows(nodes, nodes') && Owned(nodes, ops)
    ensures Owned(nodes', ops)
  {
  }

  /** Replacing one node by a grown, good one keeps the whole world good. */
  lemma ReplaceNode(w: World, n: nat, node: Node)
    requires Inv(w) && n < |w.nodes|
    requires var nodes' := w.nodes[n := node]; Grows(w.nodes, nodes') && NodeOk(nodes', node)
    ensures Inv(w.(nodes := w.nodes[n := node]))
  {
    var nodes' := w.nodes[n := node];
    forall i | 0 <= i < |nodes'| ensures NodeOk(nodes', nodes'[i]) {
      if i != n { OwnedGrows(w.nodes, nodes', w.nodes[i].r.log); }
    }
    forall req | req in w.requests ensures RequestOk(nodes', req) {
      assert RequestOk(w.nodes, req);
    }
    forall b | b in w.batches ensures BatchOk(nodes', b) {
      assert BatchOk(w.nodes, b);
      OwnedGrows(w.nodes, nodes', b.ops);
    }
  }

  lemma GrowsAt(nodes: seq<Node>, n: nat, node: Node)
    requires n < |nodes| && AtLeast(node.r.vector, nodes[n].r.vector)
    requires forall op :: op in nodes[n].r.log ==> op in node.r.log
    ensures Grows(nodes, nodes[n := node])
  {
  }

  lemma OwnedUnion(nodes: seq<Node>, a: seq<Op>, b: seq<Op>, c: seq<Op>)
    requires Owned(nodes, a) && Owned(nodes, b)
    requires forall op :: op in c ==> op in a || op in b
    ensures Owned(nodes, c)
  {
  }

  /** The node's own next operation keeps its replica good. */
  lemma CreatedIsGood(r: Replica, n: NodeId, body: Body, idClock: int, clock: int)
    requires GapFree(r) && LogOk(r.log)
    ensures GapFree(Created(r, n, body, idClock, clock)) && LogOk(Created(r, n, body, idClock, clock).log)
  {
    var op := NewOp(r, n, body, idClock, clock);
    KeysAppend(r.log, op);
    forall x | x in r.log && Tie(LogOrder, x, op) ensures x.seqNo < op.seqNo {
      assert (x.nodeId, x.seqNo) in Keys(r.log);
    }
    LogOkAppend(r.log, op);
  }

  lemma CreateKeeps(w: World, n: NodeId, body: Body, idClock: int, clock: int)
    requires Inv(w) && n < |w.nodes|
    ensures Inv(Next(w, Create(n, body, idClock, clock)))
  {
    var r := w.nodes[n].r;
    var op := NewOp(r, n, body, idClock, clock);
    var node := Node(Created(r, n, body, idClock, clock), false);
    assert NodeOk(w.nodes, w.nodes[n]);
    CreatedIsGood(r, n, body, idClock, clock);
    GrowsAt(w.nodes, n, node);
    var nodes' := w.nodes[n := node];
    OwnedGrows(w.nodes, nodes', r.log);
    assert Owned(nodes', [op]);
    OwnedUnion(nodes', r.log, [op], node.r.log);
    ReplaceNode(w, n, node);
  }

  lemma AnswerKeeps(w: World, n: NodeId, req: Request)
    requires Inv(w) && n < |w.nodes| && req in w.requests
    ensures Inv(Next(w, Answer(n, req)))
  {
    var r := w.nodes[n].r;
    var ops := OpsSince(r.log, req.vector);
    assert NodeOk(w.nodes, w.nodes[n]) && RequestOk(w.nodes, req);
    OpsSinceKeepsLog(r.log, req.vector);
    forall m: NodeId, s: nat
      ensures (m, s) in Keys(ops) <==> Get(req.vector, m) < s <= Get(r.vector, m)
    {
      assert (m, s) in Keys(ops) ==> (m, s) in Keys(r.log);
      if Get(req.vector, m) < s <= Get(r.vector, m) {
        var x := KeyWitness(r.log, m, s);
        assert x in ops;
      }
    }
    assert BatchOk(w.nodes, Batch(req.from, req.vector, r.vector, ops));
  }

  lemma OwnedSameOps(w: World, a: seq<Op>, b: seq<Op>)
    requires Inv(w) && Owned(w.nodes, a) && Owned(w.nodes, b)
    ensures SameOps(a, b)
  {
    forall x, y | x in a && y in b && x.nodeId == y.nodeId && x.seqNo == y.seqNo ensures x == y {
      assert NodeOk(w.nodes, w.nodes[x.nodeId]);
      DistinctMembers(w.nodes[x.nodeId].r.log, x, y);
    }
  }

  lemma BatchIsClean(w: World, b: Batch)
    requires Inv(w) && b in w.batches
    ensures b.to < |w.nodes| && CleanBatch(w.nodes[b.to].r, b.since, b.sender, b.ops)
  {
    assert BatchOk(w.nodes, b) && NodeOk(w.nodes, w.nodes[b.to]);
    OwnedSameOps(w, w.nodes[b.to].r.log, b.ops);
  }

  lemma {:induction false} AbsorbAllKeepsOld(r: Replica, ops: seq<Op>)
    ensures forall x :: x in r.log ==> x in AbsorbAll(r, ops).log
    decreases ops
  {
    if ops != [] { AbsorbAllKeepsOld(Absorb(r, ops[0]), ops[1..]); }
  }

  /** `m` is a good replica with at least what `r` has, and otherwise only operations of `ops`. */
  ghost predicate Improves(r: Replica, ops: seq<Op>, m: Replica) {
    && GapFree(m) && LogOk(m.log) && Sorted(Before, m.log) && AtLeast(m.vector, r.vector)
    && (forall op :: op in r.log ==> op in m.log)
    && (forall op :: op in m.log ==> op in r.log || op in ops)
  }

  lemma VectorGrows(r: Replica, m: Replica)
    requires VectorIsMax(r) && VectorIsMax(m) && Keys(r.log) <= Keys(m.log)
    ensures AtLeast(m.vector, r.vector)
  {
    forall n: NodeId ensures Get(r.vector, n) <= Get(m.vector, n) {
      assert Get(r.vector, n) == 0 || (n, Get(r.vector, n)) in Keys(m.log);
    }
  }

  /** What a damaged delta that only lost tails does to the receiver. */
  lemma MergeImproves(r: Replica, since: Vector, sender: Vector, ops: seq<Op>, d: seq<Op>)
    requires GapFree(r) && LogOk(r.log) && CleanBatch(r, since, sender, ops) && Damaged(ops, d)
    requires OnlyTailsLost(r, ops, d)
    ensures Improves(r, ops, Merged(r, d))
  {
    var sv, a := Survivors(d), AbsorbAll(r, d);
    DamagedBatchGaps(r, since, sender, ops, d);
    DamagedExactly(ops, d);
    DamagedTakes(r, since, sender, ops, d);
    SortKeepsLog(a.log);
    AbsorbAllKeepsOld(r, d);
    GapFreeVector(r);
    VectorGrows(r, a);
    SurvivorsKeepLog(ops, d);
  }

  lemma DeliveryImproves(w: World, b: Batch, arrived: seq<Op>)
    requires Inv(w) && Deliverable(w, b, arrived) && OnlyTailsLost(w.nodes[b.to].r, b.ops, arrived)
    ensures Owned(w.nodes, b.ops) && Improves(w.nodes[b.to].r, b.ops, Merged(w.nodes[b.to].r, arrived))
  {
    BatchIsClean(w, b);
    assert NodeOk(w.nodes, w.nodes[b.to]) && BatchOk(w.nodes, b);
    MergeImproves(w.nodes[b.to].r, b.since, b.sender, b.ops, arrived);
  }

  lemma DeliveryLeavesGap(w: World, b: Batch, arrived: seq<Op>)
    requires Inv(w) && Deliverable(w, b, arrived) && !OnlyTailsLost(w.nodes[b.to].r, b.ops, arrived)
    ensures !GapFree(Merged(w.nodes[b.to].r, arrived))
  {
    BatchIsClean(w, b);
    assert NodeOk(w.nodes, w.nodes[b.to]);
    DamagedBatchGaps(w.nodes[b.to].r, b.since, b.sender, b.ops, arrived);
  }

  /** A delivery keeps the world good exactly when it only loses tails. */
  lemma DeliverExactly(w: World, b: Batch, arrived: seq<Op>)
    requires Inv(w) && Deliverable(w, b, arrived)
    ensures Inv(Next(w, Deliver(b, arrived))) <==> OnlyTailsLost(w.nodes[b.to].r, b.ops, arrived)
  {
    if OnlyTailsLost(w.nodes[b.to].r, b.ops, arrived) {
      TailLossKeeps(w, b, arrived);
    } else {
      DeliveryLeavesGap(w, b, arrived);
      GapDelivered(w, b, arrived);
    }
  }

  lemma GapDelivered(w: World, b: Batch, arrived: seq<Op>)
    requires Deliverable(w, b, arrived) && !GapFree(Merged(w.nodes[b.to].r, arrived))
    ensures !Inv(Next(w, Deliver(b, arrived)))
  {
    GapBreaks(w, b.to, Node(Merged(w.nodes[b.to].r, arrived), true));
  }

  lemma TailLossKeeps(w: World, b: Batch, arrived: seq<Op>)
    requires Inv(w) && Deliverable(w, b, arrived) && OnlyTailsLost(w.nodes[b.to].r, b.ops, arrived)
    ensures Inv(Next(w, Deliver(b, arrived)))
  {
    DeliveryImproves(w, b, arrived);
    ReplaceReceiver(w, b.to, Merged(w.nodes[b.to].r, arrived), b.ops);
  }

  lemma GapBreaks(w: World, n: nat, node: Node)
    requires n < |w.nodes| && !GapFree(node.r)
    ensures !Inv(w.(nodes := w.nodes[n := node]))
  {
    assert !NodeOk(w.nodes[n := node], w.nodes[n := node][n]);
  }

  /** A batch that arrives as it was sent loses nothing. */
  lemma UndamagedIsHarmless(w: World, b: Batch)
    requires Inv(w) && b in w.batches
    ensures Deliverable(w, b, b.ops) && OnlyTailsLost(w.nodes[b.to].r, b.ops, b.ops)
  {
    assert BatchOk(w.nodes, b);
    forall i | 0 <= i < |b.ops| ensures Genuine(b.ops[i]) { assert b.ops[i] in b.ops && WellMade(b.ops[i]); }
  }

  lemma ReplaceReceiver(w: World, n: nat, m: Replica, ops: seq<Op>)
    requires Inv(w) && n < |w.nodes| && Owned(w.nodes, ops) && Improves(w.nodes[n].r, ops, m)
    ensures Inv(w.(nodes := w.nodes[n := Node(m, true)]))
  {
    var node := Node(m, true);
    var nodes' := w.nodes[n := node];
    assert NodeOk(w.nodes, w.nodes[n]);
    GrowsAt(w.nodes, n, node);
    OwnedGrows(w.nodes, nodes', w.nodes[n].r.log);
    OwnedGrows(w.nodes, nodes', ops);
    OwnedUnion(nodes', w.nodes[n].r.log, ops, m.log);
    ReplaceNode(w, n, node);
  }

  /** The step is not a delivery that lost an operation behind which a later one of the same node survived. */
  ghost predicate Harmless(w: World, step: Step) {
    match step
    case Deliver(b, arrived) =>
      Deliverable(w, b, arrived) ==> OnlyTailsLost(w.nodes[b.to].r, b.ops, arrived)
    case _ => true
  }

  /** A step keeps the world good exactly when it is harmless. */
  lemma StepExactly(w: World, step: Step)
    requires Inv(w)
    ensures Inv(Next(w, step)) <==> Harmless(w, step)
  {
    match step
    case Create(n, body, idClock, clock) => if n < |w.nodes| { CreateKeeps(w, n, body, idClock, clock); }
    case Ask(n) =>
    case Answer(n, req) => if n < |w.nodes| && req in w.requests { AnswerKeeps(w, n, req); }
    case Deliver(b, arrived) => if Deliverable(w, b, arrived) { DeliverExactly(w, b, arrived); }
    case Lose(_, _) =>
  }

  ghost predicate HarmlessRun(n: nat, steps: seq<Step>) {
    steps == [] ||
    (HarmlessRun(n, steps[..|steps| - 1]) && Harmless(Run(n, steps[..|steps| - 1]), steps[|steps| - 1]))
  }

  lemma {:induction false} RunKeeps(n: nat, steps: seq<Step>)
    requires HarmlessRun(n, steps)
    ensures Inv(Run(n, steps))
  {
    if steps != [] {
      RunKeeps(n, steps[..|steps| - 1]);
      StepExactly(Run(n, steps[..|steps| - 1]), steps[|steps| - 1]);
    }
  }

  /** Runs in which batches arrive as they were sent, whenever, in whatever order and however often, are harmless. */
  lemma {:induction false} UndamagedRunsAreHarmless(n: nat, steps: seq<Step>)
    requires forall step :: step in steps && step.Deliver? ==> step.arrived == step.batch.ops
    ensures HarmlessRun(n, steps)
  {
    if steps != [] {
      var front, step := steps[..|steps| - 1], steps[|steps| - 1];
      UndamagedRunsAreHarmless(n, front);
      RunKeeps(n, front);
      if step.Deliver? && step.batch in Run(n, front).batches {
        assert step in steps;
        UndamagedIsHarmless(Run(n, front), step.batch);
      }
    }
  }

  // ----- the theorems -----

  /** In every harmless run every log holds exactly the operations 1..vector[n] of each node n, each once, all
      genuine. */
  lemma EveryRunGapFree(n: nat, steps: seq<Step>, i: nat)
    requires HarmlessRun(n, steps) && i < |Run(n, steps).nodes|
    ensures var r := Run(n, steps).nodes[i].r;
            GapFree(r) && DistinctKeys(r.log) && forall op :: op in r.log ==> Genuine(op)
  {
    RunKeeps(n, steps);
    assert NodeOk(Run(n, steps).nodes, Run(n, steps).nodes[i]);
  }

  lemma DeliveryMerges(w: World, b: Batch)
    requires b in w.batches && b.to < |w.nodes|
    ensures var w' := Next(w, Deliver(b, b.ops));
            |w'.nodes| == |w.nodes| && w'.nodes[b.to].r == Merged(w.nodes[b.to].r, b.ops)
  {
  }

  /** Whenever a batch arrives whole, the receiver ends at the maximum of its vector and the one the sender had. */
  lemma DeliveryReachesSender(n: nat, steps: seq<Step>, b: Batch)
    requires HarmlessRun(n, steps) && b in Run(n, steps).batches
    ensures var w, w' := Run(n, steps), Run(n, steps + [Deliver(b, b.ops)]);
            && b.to < |w.nodes| == |w'.nodes|
            && var v, v' := w.nodes[b.to].r.vector, w'.nodes[b.to].r.vector;
               forall m: NodeId :: Get(v', m) == Max(Get(v, m), Get(b.sender, m))
  {
    var w := Run(n, steps);
    RunKeeps(n, steps);
    BatchIsClean(w, b);
    assert NodeOk(w.nodes, w.nodes[b.to]);
    MergeCleanBatch(w.nodes[b.to].r, b.since, b.sender, b.ops);
    DeliveryMerges(w, b);
    assert (steps + [Deliver(b, b.ops)])[..|steps|] == steps;
  }

  /** Two replicas that have just merged and name the same vector hold the same log, element by element. */
  lemma Convergence(n: nat, steps: seq<Step>, i: nat, j: nat)
    requires HarmlessRun(n, steps)
    requires var w := Run(n, steps);
             && i < |w.nodes| && j < |w.nodes|
             && w.nodes[i].justMerged && w.nodes[j].justMerged
             && forall m: NodeId :: Get(w.nodes[i].r.vector, m) == Get(w.nodes[j].r.vector, m)
    ensures Run(n, steps).nodes[i].r.log == Run(n, steps).nodes[j].r.log
  {
    var w := Run(n, steps);
    RunKeeps(n, steps);
    assert NodeOk(w.nodes, w.nodes[i]) && NodeOk(w.nodes, w.nodes[j]);
    SameVectorSameOps(w, i, j);
    SameVectorSameOps(w, j, i);
    StrictlySortedUnique(Before, w.nodes[i].r.log, w.nodes[j].r.log);
  }

  lemma SameVectorSameOps(w: World, i: nat, j: nat)
    requires Inv(w) && i < |w.nodes| && j < |w.nodes|
    requires forall m: NodeId :: Get(w.nodes[i].r.vector, m) == Get(w.nodes[j].r.vector, m)
    ensures forall x :: x in w.nodes[i].r.log ==> x in w.nodes[j].r.log
  {
    var a, b := w.nodes[i].r, w.nodes[j].r;
    assert NodeOk(w.nodes, w.nodes[i]) && NodeOk(w.nodes, w.nodes[j]);
    OwnedSameOps(w, a.log, b.log);
    forall x | x in a.log ensures x in b.log {
      assert (x.nodeId, x.seqNo) in Keys(a.log);
      var y := KeyWitness(b.log, x.nodeId, x.seqNo);
    }
  }
}

/** Gaps that damaged deliveries leave: what every run keeps all the same, and when a gap can still be filled. */
module CrdtGaps {
  import opened StableSorting
  import opened Filtering
  import opened Crdt
  import opened CrdtLog
  import opened CrdtProtocol

  // ----- one log -----

  ghost predicate LogFine(log: seq<Op>) {
    DistinctKeys(log) && forall op :: op in log ==> WellMade(op)
  }

  ghost predicate ReplicaFine(r: Replica) {
    LogFine(r.log) && VectorIsMax(r)
  }

  /** `r'` is `r` with the operations `ops` in it, gaps or not. */
  ghost predicate TookKeys(r: Replica, ops: seq<Op>, r': Replica) {
    && ReplicaFine(r') && Keys(r'.log) == Keys(r.log) + Keys(ops)
    && (forall x :: x in r.log ==> x in r'.log) && (forall x :: x in r'.log ==> x in r.log || x in ops)
  }

  lemma NewKeyAppends(log: seq<Op>, op: Op)
    requires LogFine(log) && WellMade(op) && (op.nodeId, op.seqNo) !in Keys(log)
    ensures LogFine(log + [op])
  {
    var r := log + [op];
    forall i, j | 0 <= i < j < |r| ensures (r[i].nodeId, r[i].seqNo) != (r[j].nodeId, r[j].seqNo) {
      if j == |log| { assert r[i] in log && (r[i].nodeId, r[i].seqNo) in Keys(log); }
    }
  }

  lemma KnownKey(r: Replica, op: Op)
    requires ReplicaFine(r) && WellMade(op) && SameOps(r.log, [op])
    ensures Accepts(r, op) <==> (op.nodeId, op.seqNo) !in Keys(r.log)
  {
    assert op in [op];
    if (op.nodeId, op.seqNo) in Keys(r.log) {
      var x := KeyWitness(r.log, op.nodeId, op.seqNo);
    }
    if Known(r.log, op.id) {
      var x :| x in r.log && x.id == op.id;
      assert (x.nodeId, x.seqNo) in Keys(r.log);
    }
  }

  lemma AbsorbFine(r: Replica, op: Op)
    requires ReplicaFine(r) && WellMade(op) && SameOps(r.log, [op])
    ensures TookKeys(r, [op], Absorb(r, op))
  {
    KnownKey(r, op);
    KeysOne(op);
    if Accepts(r, op) {
      NewKeyAppends(r.log, op);
      KeysAppend(r.log, op);
      AppendKeepsMax(r, op);
    }
  }

  /** Operations that agree with a log and with each other. */
  ghost predicate Agreeing(log: seq<Op>, ops: seq<Op>) {
    SameOps(log, ops) && SameOps(ops, ops) && forall op :: op in ops ==> WellMade(op)
  }

  lemma AgreeingSteps(r: Replica, ops: seq<Op>)
    requires ops != [] && Agreeing(r.log, ops)
    ensures WellMade(ops[0]) && SameOps(r.log, [ops[0]])
    ensures forall m :: TookKeys(r, [ops[0]], m) ==> Agreeing(m.log, ops[1..])
  {
    assert ops[0] in ops && forall x :: x in ops[1..] ==> x in ops;
  }

  lemma TookKeysCompose(r: Replica, op: Op, rest: seq<Op>, m: Replica, r': Replica)
    requires TookKeys(r, [op], m) && TookKeys(m, rest, r')
    ensures TookKeys(r, [op] + rest, r')
  {
    KeysTail([op] + rest);
    KeysOne(op);
    assert ([op] + rest)[1..] == rest;
    assert forall x :: x in [op] + rest <==> x == op || x in rest;
    assert forall x :: x in [op] <==> x == op;
  }

  lemma {:induction false} AbsorbAllFine(r: Replica, ops: seq<Op>)
    requires ReplicaFine(r) && Agreeing(r.log, ops)
    ensures TookKeys(r, ops, AbsorbAll(r, ops))
    decreases ops
  {
    if ops == [] {
      assert Keys(r.log) + Keys(ops) == Keys(r.log);
    } else {
      AgreeingSteps(r, ops);
      AbsorbFine(r, ops[0]);
      AbsorbAllFine(Absorb(r, ops[0]), ops[1..]);
      TookKeysCompose(r, ops[0], ops[1..], Absorb(r, ops[0]), AbsorbAll(r, ops));
      assert ops == [ops[0]] + ops[1..];
    }
  }

  lemma SortedFine(r: Replica)
    requires ReplicaFine(r)
    ensures var s := r.(log := Sort(LogOrder, r.log)); ReplicaFine(s) && Keys(s.log) == Keys(r.log)
    ensures forall x :: x in Sort(LogOrder, r.log) <==> x in r.log
  {
    SameElements(LogOrder, r.log);
    SortDistinct(r.log);
  }

  /** A merge of a damaged batch adds exactly the keys of what survived. */
  lemma MergedFine(r: Replica, ops: seq<Op>, d: seq<Op>)
    requires ReplicaFine(r) && Agreeing(r.log, ops) && Damaged(ops, d)
    ensures TookKeys(r, Survivors(d), Merged(r, d)) && forall x :: x in Survivors(d) ==> x in ops
  {
    SurvivorsSent(ops, d);
    AbsorbAllFine(r, Survivors(d));
    DamagedSkipped(r, d);
    SortedFine(AbsorbAll(r, d));
  }

  lemma SurvivorsSent(ops: seq<Op>, d: seq<Op>)
    requires Damaged(ops, d) && forall op :: op in ops ==> WellMade(op)
    ensures forall x :: x in Survivors(d) ==> x in ops
  {
    DamagedExactly(ops, d);
    SurvivorsMembers(d);
    forall x | x in Survivors(d) ensures x in ops {
      var i :| 0 <= i < |d| && d[i] == x;
      assert ops[i] == x;
    }
  }

  // ----- what every run keeps -----

  /** A node's log has all the operations it made itself. */
  ghost predicate OwnComplete(r: Replica, i: nat) {
    forall s: nat :: 1 <= s <= Get(r.vector, i) ==> (i, s) in Keys(r.log)
  }

  ghost predicate NodeFine(nodes: seq<Node>, i: nat)
    requires i < |nodes|
  {
    ReplicaFine(nodes[i].r) && Owned(nodes, nodes[i].r.log) && OwnComplete(nodes[i].r, i)
  }

  ghost predicate BatchFine(w: World, b: Batch) {
    b.to < |w.nodes| && Owned(w.nodes, b.ops) && forall op :: op in b.ops ==> WellMade(op)
  }

  ghost predicate Fine(w: World) {
    && (forall i :: 0 <= i < |w.nodes| ==> NodeFine(w.nodes, i))
    && (forall req :: req in w.requests ==> RequestOk(w.nodes, req))
    && (forall b :: b in w.batches ==> BatchFine(w, b))
  }

  /** Operations found in their makers' logs agree. */
  lemma OwnedAgree(w: World, a: seq<Op>, b: seq<Op>)
    requires Fine(w) && Owned(w.nodes, a) && Owned(w.nodes, b)
    ensures SameOps(a, b)
  {
    forall x, y | x in a && y in b && x.nodeId == y.nodeId && x.seqNo == y.seqNo ensures x == y {
      assert NodeFine(w.nodes, x.nodeId);
      DistinctMembers(w.nodes[x.nodeId].r.log, x, y);
    }
  }

  /** Replacing one node by a grown, fine one keeps the world fine. */
  lemma ReplaceFine(w: World, n: nat, node: Node)
    requires Fine(w) && n < |w.nodes|
    requires var nodes' := w.nodes[n := node]; Grows(w.nodes, nodes') && NodeFine(nodes', n)
    ensures Fine(w.(nodes := w.nodes[n := node]))
  {
    var nodes' := w.nodes[n := node];
    forall i | 0 <= i < |nodes'| ensures NodeFine(nodes', i) {
      if i != n {
        assert NodeFine(w.nodes, i);
        OwnedGrows(w.nodes, nodes', w.nodes[i].r.log);
      }
    }
    forall req | req in w.requests ensures RequestOk(nodes', req) {
      assert RequestOk(w.nodes, req);
    }
    forall b | b in w.batches ensures BatchFine(w.(nodes := nodes'), b) {
      assert BatchFine(w, b);
      OwnedGrows(w.nodes, nodes', b.ops);
    }
  }

  lemma CreatedFine(r: Replica, n: NodeId, body: Body, idClock: int, clock: int)
    requires ReplicaFine(r) && OwnComplete(r, n)
    ensures var m := Created(r, n, body, idClock, clock);
            && ReplicaFine(m) && OwnComplete(m, n) && AtLeast(m.vector, r.vector)
            && Keys(m.log) == Keys(r.log) + {(n, Get(r.vector, n) + 1)}
  {
    var op := NewOp(r, n, body, idClock, clock);
    NewKeyAppends(r.log, op);
    KeysAppend(r.log, op);
    AppendKeepsMax(r, op);
  }

  lemma CreateFine(w: World, n: NodeId, body: Body, idClock: int, clock: int)
    requires Fine(w) && n < |w.nodes|
    ensures Fine(Next(w, Create(n, body, idClock, clock)))
  {
    var r := w.nodes[n].r;
    var op := NewOp(r, n, body, idClock, clock);
    var node := Node(Created(r, n, body, idClock, clock), false);
    assert NodeFine(w.nodes, n);
    CreatedFine(r, n, body, idClock, clock);
    GrowsAt(w.nodes, n, node);
    var nodes' := w.nodes[n := node];
    OwnedGrows(w.nodes, nodes', r.log);
    assert Owned(nodes', [op]);
    OwnedUnion(nodes', r.log, [op], node.r.log);
    ReplaceFine(w, n, node);
  }

  lemma AnswerFine(w: World, n: NodeId, req: Request)
    requires Fine(w) && n < |w.nodes| && req in w.requests
    ensures Fine(Next(w, Answer(n, req)))
  {
    var r := w.nodes[n].r;
    var w' := Next(w, Answer(n, req));
    assert NodeFine(w.nodes, n) && RequestOk(w.nodes, req);
    FilterMembers(Unseen(req.vector), r.log);
    forall b | b in w'.batches ensures BatchFine(w', b) {
      if b in w.batches { assert BatchFine(w, b); }
    }
  }

  lemma AskFine(w: World, n: NodeId)
    requires Fine(w) && n < |w.nodes|
    ensures Fine(Next(w, Ask(n)))
  {
    var w' := Next(w, Ask(n));
    forall b | b in w'.batches ensures BatchFine(w', b) { assert BatchFine(w, b); }
  }

  lemma BatchAgrees(w: World, b: Batch)
    requires Fine(w) && b in w.batches
    ensures b.to < |w.nodes| && Agreeing(w.nodes[b.to].r.log, b.ops)
  {
    assert BatchFine(w, b) && NodeFine(w.nodes, b.to);
    OwnedAgree(w, w.nodes[b.to].r.log, b.ops);
    OwnedAgree(w, b.ops, b.ops);
  }

  /** Nothing a batch brings raises the receiver's count of its own operations. */
  lemma OwnStaysComplete(nodes: seq<Node>, i: nat, ops: seq<Op>, m: Replica)
    requires i < |nodes| && NodeFine(nodes, i) && Owned(nodes, ops) && TookKeys(nodes[i].r, ops, m)
    ensures OwnComplete(m, i)
  {
    var r := nodes[i].r;
    forall s: nat | (i, s) in Keys(m.log) ensures (i, s) in Keys(r.log) {
      if (i, s) in Keys(ops) {
        var op := KeyWitness(ops, i, s);
        assert op in r.log;
      }
    }
  }

  lemma DeliveryTakes(w: World, b: Batch, arrived: seq<Op>)
    requires Fine(w) && Deliverable(w, b, arrived)
    ensures var r := w.nodes[b.to].r;
            && VectorIsMax(r) && TookKeys(r, Survivors(arrived), Merged(r, arrived))
            && forall x :: x in Survivors(arrived) ==> x in b.ops
  {
    assert NodeFine(w.nodes, b.to);
    BatchAgrees(w, b);
    MergedFine(w.nodes[b.to].r, b.ops, arrived);
  }

  lemma DeliverFine(w: World, b: Batch, arrived: seq<Op>)
    requires Fine(w) && Deliverable(w, b, arrived)
    ensures Fine(Next(w, Deliver(b, arrived)))
  {
    var r, sv := w.nodes[b.to].r, Survivors(arrived);
    var m := Merged(r, arrived);
    assert NodeFine(w.nodes, b.to) && BatchFine(w, b);
    DeliveryTakes(w, b, arrived);
    assert Owned(w.nodes, sv);
    OwnStaysComplete(w.nodes, b.to, sv, m);
    VectorGrows(r, m);
    ReceiverFine(w, b.to, m, sv);
  }

  lemma ReceiverFine(w: World, n: nat, m: Replica, ops: seq<Op>)
    requires Fine(w) && n < |w.nodes| && Owned(w.nodes, ops) && TookKeys(w.nodes[n].r, ops, m)
    requires OwnComplete(m, n) && AtLeast(m.vector, w.nodes[n].r.vector)
    ensures Fine(w.(nodes := w.nodes[n := Node(m, true)]))
  {
    var node := Node(m, true);
    var nodes' := w.nodes[n := node];
    assert NodeFine(w.nodes, n);
    GrowsAt(w.nodes, n, node);
    OwnedGrows(w.nodes, nodes', w.nodes[n].r.log);
    OwnedGrows(w.nodes, nodes', ops);
    OwnedUnion(nodes', w.nodes[n].r.log, ops, m.log);
    ReplaceFine(w, n, node);
  }

  lemma LoseFine(w: World, requests: set<Request>, batches: set<Batch>)
    requires Fine(w)
    ensures Fine(Next(w, Lose(requests, batches)))
  {
    var w' := Next(w, Lose(requests, batches));
    forall b | b in w'.batches ensures BatchFine(w', b) { assert BatchFine(w, b); }
  }

  lemma StepFine(w: World, step: Step)
    requires Fine(w)
    ensures Fine(Next(w, step))
  {
    match step
    case Create(n, body, idClock, clock) => if n < |w.nodes| { CreateFine(w, n, body, idClock, clock); }
    case Ask(n) => if n < |w.nodes| { AskFine(w, n); }
    case Answer(n, req) => if n < |w.nodes| && req in w.requests { AnswerFine(w, n, req); }
    case Deliver(b, arrived) => if Deliverable(w, b, arrived) { DeliverFine(w, b, arrived); }
    case Lose(requests, batches) => LoseFine(w, requests, batches);
  }

  /** Even with damaged deliveries: each operation at most once, none invented, and the vector names the greatest. */
  lemma {:induction false} EveryRunFine(n: nat, steps: seq<Step>)
    ensures Fine(Run(n, steps))
  {
    if steps != [] {
      EveryRunFine(n, steps[..|steps| - 1]);
      StepFine(Run(n, steps[..|steps| - 1]), steps[|steps| - 1]);
    }
  }

  // ----- how long a gap lasts -----

  function Continue(w: World, steps: seq<Step>): World
    decreases steps
  {
    if steps == [] then w else Continue(Next(w, steps[0]), steps[1..])
  }

  ghost predicate Has(w: World, i: nat, m: NodeId, s: nat) {
    i < |w.nodes| && (m, s) in Keys(w.nodes[i].r.log)
  }

  /** Node i's vector claims operation s of node m, which its log does not hold. */
  ghost predicate Gap(w: World, i: nat, m: NodeId, s: nat) {
    i < |w.nodes| && 1 <= s <= Get(w.nodes[i].r.vector, m) && !Has(w, i, m, s)
  }

  /** Some request that node i sent when its vector did not yet reach s may still be answered. */
  ghost predicate AskedBefore(w: World, i: nat, m: NodeId, s: nat) {
    exists req :: req in w.requests && req.from == i && Get(req.vector, m) < s
  }

  /** Some batch under way to node i carries the operation. */
  ghost predicate Carried(w: World, i: nat, m: NodeId, s: nat) {
    exists b :: b in w.batches && b.to == i && (m, s) in Keys(b.ops)
  }

  ghost predicate UnderWay(w: World, i: nat, m: NodeId, s: nat) {
    AskedBefore(w, i, m, s) || Carried(w, i, m, s)
  }

  lemma CreateKeepsGap(w: World, i: nat, m: NodeId, s: nat, n: NodeId, body: Body, idClock: int, clock: int)
    requires Fine(w) && Gap(w, i, m, s) && n < |w.nodes|
    ensures Gap(Next(w, Create(n, body, idClock, clock)), i, m, s)
  {
    assert NodeFine(w.nodes, n);
    CreatedFine(w.nodes[n].r, n, body, idClock, clock);
  }

  lemma BatchLacks(w: World, i: nat, m: NodeId, s: nat, b: Batch, arrived: seq<Op>)
    requires Fine(w) && !Carried(w, i, m, s) && Deliverable(w, b, arrived) && b.to == i
    ensures (m, s) !in Keys(Survivors(arrived))
  {
    assert BatchFine(w, b);
    SurvivorsSent(b.ops, arrived);
    forall op | op in Survivors(arrived) ensures op.nodeId != m || op.seqNo != s {
      assert op in b.ops && (op.nodeId, op.seqNo) in Keys(b.ops);
    }
  }

  /** The answer to a request that claims the operation already does not carry it. */
  lemma AnswerLacks(w: World, i: nat, m: NodeId, s: nat, n: NodeId, req: Request)
    requires !UnderWay(w, i, m, s) && n < |w.nodes| && req in w.requests
    ensures !UnderWay(Next(w, Answer(n, req)), i, m, s)
  {
    var log, w' := w.nodes[n].r.log, Next(w, Answer(n, req));
    FilterMembers(Unseen(req.vector), log);
    forall b | b in w'.batches && b.to == i ensures (m, s) !in Keys(b.ops) {
      if b !in w.batches {
        forall op | op in b.ops ensures op.nodeId != m || op.seqNo != s { assert Unseen(req.vector)(op); }
      }
    }
  }

  lemma TookKeepsGap(r: Replica, ops: seq<Op>, r': Replica, m: NodeId, s: nat)
    requires VectorIsMax(r) && TookKeys(r, ops, r') && (m, s) !in Keys(ops)
    requires s <= Get(r.vector, m) && (m, s) !in Keys(r.log)
    ensures s <= Get(r'.vector, m) && (m, s) !in Keys(r'.log)
  {
    VectorGrows(r, r');
  }

  lemma DeliverKeepsGap(w: World, i: nat, m: NodeId, s: nat, b: Batch, arrived: seq<Op>)
    requires Fine(w) && Gap(w, i, m, s) && !Carried(w, i, m, s) && Deliverable(w, b, arrived) && b.to == i
    ensures Gap(Next(w, Deliver(b, arrived)), i, m, s)
  {
    DeliveryTakes(w, b, arrived);
    BatchLacks(w, i, m, s, b, arrived);
    ReceiverKeepsGap(w, i, m, s, b, arrived);
  }

  lemma DeliverIs(w: World, b: Batch, arrived: seq<Op>)
    requires Deliverable(w, b, arrived)
    ensures var w' := Next(w, Deliver(b, arrived));
            |w'.nodes| == |w.nodes| && w'.nodes[b.to].r == Merged(w.nodes[b.to].r, arrived)
  {
  }

  lemma ReceiverKeepsGap(w: World, i: nat, m: NodeId, s: nat, b: Batch, arrived: seq<Op>)
    requires Gap(w, i, m, s) && Deliverable(w, b, arrived) && b.to == i
    requires var r := w.nodes[i].r; VectorIsMax(r) && TookKeys(r, Survivors(arrived), Merged(r, arrived))
    requires (m, s) !in Keys(Survivors(arrived))
    ensures Gap(Next(w, Deliver(b, arrived)), i, m, s)
  {
    DeliverIs(w, b, arrived);
    TookKeepsGap(w.nodes[i].r, Survivors(arrived), Merged(w.nodes[i].r, arrived), m, s);
  }

  lemma StepKeepsGap(w: World, i: nat, m: NodeId, s: nat, step: Step)
    requires Fine(w) && Gap(w, i, m, s) && !UnderWay(w, i, m, s)
    ensures Gap(Next(w, step), i, m, s) && !UnderWay(Next(w, step), i, m, s)
  {
    match step
    case Create(n, body, idClock, clock) =>
      if n < |w.nodes| { CreateKeepsGap(w, i, m, s, n, body, idClock, clock); }
    case Ask(n) =>
    case Answer(n, req) => if n < |w.nodes| && req in w.requests { AnswerLacks(w, i, m, s, n, req); }
    case Deliver(b, arrived) =>
      if Deliverable(w, b, arrived) && b.to == i { DeliverKeepsGap(w, i, m, s, b, arrived); }
    case Lose(_, _) =>
  }

  lemma {:induction false} GapLasts(w: World, i: nat, m: NodeId, s: nat, later: seq<Step>)
    requires Fine(w) && Gap(w, i, m, s) && !UnderWay(w, i, m, s)
    ensures !Has(Continue(w, later), i, m, s)
    decreases later
  {
    if later != [] {
      StepFine(w, later[0]);
      StepKeepsGap(w, i, m, s, later[0]);
      GapLasts(Next(w, later[0]), i, m, s, later[1..]);
    }
  }

  /** The node that made the operation has it. */
  lemma MakerHas(w: World, i: nat, m: NodeId, s: nat)
    requires Fine(w) && Gap(w, i, m, s)
    ensures Has(w, m, m, s)
  {
    var r := w.nodes[i].r;
    var k := Get(r.vector, m);
    assert NodeFine(w.nodes, i) && (m, k) in Keys(r.log);
    var op := KeyWitness(r.log, m, k);
    assert op in w.nodes[m].r.log && NodeFine(w.nodes, m);
    assert (m, k) in Keys(w.nodes[m].r.log);
  }

  /** The maker's answer to an old request fills the gap. */
  lemma OldRequestFills(w: World, i: nat, m: NodeId, s: nat, req: Request) returns (later: seq<Step>)
    requires Fine(w) && Gap(w, i, m, s) && req in w.requests && req.from == i && Get(req.vector, m) < s
    ensures Has(Continue(w, later), i, m, s)
  {
    MakerHas(w, i, m, s);
    var maker := w.nodes[m].r;
    var b := Batch(i, req.vector, maker.vector, OpsSince(maker.log, req.vector));
    var w1 := Next(w, Answer(m, req));
    AnswerFine(w, m, req);
    FilterMembers(Unseen(req.vector), maker.log);
    var op := KeyWitness(maker.log, m, s);
    assert op in b.ops && (m, s) in Keys(b.ops);
    DeliveredWhole(w1, b, m, s);
    later := [Answer(m, req), Deliver(b, b.ops)];
    assert later[1..] == [Deliver(b, b.ops)] && later[1..][1..] == [];
    assert Continue(w1, [Deliver(b, b.ops)]) == Next(w1, Deliver(b, b.ops));
  }

  lemma DeliveredWhole(w: World, b: Batch, m: NodeId, s: nat)
    requires Fine(w) && b in w.batches && (m, s) in Keys(b.ops)
    ensures Has(Next(w, Deliver(b, b.ops)), b.to, m, s)
  {
    assert BatchFine(w, b) && Deliverable(w, b, b.ops);
    DeliveryTakes(w, b, b.ops);
    AllSurvive(b.ops, m, s);
    DeliverIs(w, b, b.ops);
  }

  lemma AllSurvive(ops: seq<Op>, m: NodeId, s: nat)
    requires (m, s) in Keys(ops) && forall op :: op in ops ==> WellMade(op)
    ensures (m, s) in Keys(Survivors(ops))
  {
    SurvivorsMembers(ops);
    var op := KeyWitness(ops, m, s);
    assert op in Survivors(ops);
  }

  ghost predicate CanFill(w: World, i: nat, m: NodeId, s: nat) {
    exists later :: Has(Continue(w, later), i, m, s)
  }

  /** From any reachable moment a gap can still be filled exactly when the operation is under way, or a request from
      before the gap is about: no answer to a later request brings it, in any continuation. */
  lemma GapPermanentExactly(n: nat, steps: seq<Step>, i: nat, m: NodeId, s: nat)
    requires Gap(Run(n, steps), i, m, s)
    ensures CanFill(Run(n, steps), i, m, s) <==> UnderWay(Run(n, steps), i, m, s)
  {
    EveryRunFine(n, steps);
    FillExactly(Run(n, steps), i, m, s);
  }

  lemma FillExactly(w: World, i: nat, m: NodeId, s: nat)
    requires Fine(w) && Gap(w, i, m, s)
    ensures CanFill(w, i, m, s) <==> UnderWay(w, i, m, s)
  {
    if AskedBefore(w, i, m, s) {
      var req :| req in w.requests && req.from == i && Get(req.vector, m) < s;
      var later := OldRequestFills(w, i, m, s, req);
      assert Has(Continue(w, later), i, m, s);
    } else if Carried(w, i, m, s) {
      var b :| b in w.batches && b.to == i && (m, s) in Keys(b.ops);
      DeliveredWhole(w, b, m, s);
      ContinueOne(w, Deliver(b, b.ops));
    } else {
      forall later ensures !Has(Continue(w, later), i, m, s) {
        GapLasts(w, i, m, s, later);
      }
    }
  }

  lemma ContinueOne(w: World, step: Step)
    ensures Continue(w, [step]) == Next(w, step)
  {
    assert [step][1..] == [];
  }

  // ----- a run with a gap -----

  const BODY := Body("persone", "1", "insert", "")
  const ONE := Created(EMPTY, 0, BODY, 1, 1)
  const TWO := Created(ONE, 0, BODY, 2, 2)
  const FIRST := NewOp(EMPTY, 0, BODY, 1, 1)
  const SECOND := NewOp(ONE, 0, BODY, 2, 2)
  const WANTED := Request(1, map[])
  const REPLY := Batch(1, map[], map[0 := 2], [FIRST, SECOND])
  const BROKEN := FIRST.(hash := Blank)
  const MADE := [Create(0, BODY, 1, 1), Create(0, BODY, 2, 2), Ask(1), Answer(0, WANTED)]
  const HURT := MADE + [Deliver(REPLY, [BROKEN, SECOND])]
  const QUIET := HURT + [Lose({WANTED}, {REPLY})]

  lemma RunNext(n: nat, steps: seq<Step>, step: Step)
    ensures Run(n, steps + [step]) == Next(Run(n, steps), step)
  {
    assert (steps + [step])[..|steps|] == steps;
  }

  lemma OpsMade()
    ensures TWO == Replica(map[0 := 2], [FIRST, SECOND])
    ensures FIRST.seqNo == 1 && SECOND.seqNo == 2 && FIRST.nodeId == SECOND.nodeId == 0 && Genuine(SECOND)
  {
    assert ONE == Replica(map[0 := 1], [FIRST]);
    assert Get(ONE.vector, 0) == 1 && [FIRST] + [SECOND] == [FIRST, SECOND];
  }

  lemma AnswerIsReply()
    ensures Batch(1, map[], TWO.vector, OpsSince(TWO.log, map[])) == REPLY
  {
    OpsMade();
    FilterAll(Unseen(map[]), TWO.log);
  }

  lemma AfterMade()
    ensures Run(2, MADE) == World([Node(TWO, false), Node(EMPTY, true)], {WANTED}, {REPLY})
  {
    var a, b := Create(0, BODY, 1, 1), Create(0, BODY, 2, 2);
    assert Init(2).nodes == [Node(EMPTY, true), Node(EMPTY, true)];
    assert [] + [a] == [a] && [a] + [b] == [a, b] && [a, b] + [Ask(1)] == [a, b, Ask(1)];
    assert [a, b, Ask(1)] + [Answer(0, WANTED)] == MADE;
    RunNext(2, [], a);
    assert Run(2, [a]).nodes == [Node(ONE, false), Node(EMPTY, true)];
    RunNext(2, [a], b);
    assert Run(2, [a, b]).nodes == [Node(TWO, false), Node(EMPTY, true)];
    RunNext(2, [a, b], Ask(1));
    RunNext(2, [a, b, Ask(1)], Answer(0, WANTED));
    AnswerIsReply();
  }

  lemma MergedBroken()
    ensures var r := Merged(EMPTY, [BROKEN, SECOND]); r.vector == map[0 := 2] && (0, 1) !in Keys(r.log)
  {
    OpsMade();
    var r := Merged(EMPTY, [BROKEN, SECOND]);
    assert [BROKEN, SECOND][1..] == [SECOND] && [SECOND][1..] == [];
    assert Absorb(EMPTY, BROKEN) == EMPTY;
    assert AbsorbAll(EMPTY, [BROKEN, SECOND]) == AbsorbAll(Absorb(EMPTY, SECOND), []);
    assert Absorb(EMPTY, SECOND) == Replica(map[0 := 2], [SECOND]);
    SameElements(LogOrder, [SECOND]);
    forall op | op in r.log ensures op.seqNo == 2 { assert op in [SECOND]; }
  }

  /** The first of two operations arrives damaged: node 1 then claims both and holds only the second. While the old
      request is about the gap can be filled; once the messages are lost, never. */
  lemma DamagedRunLeavesGap()
    ensures Gap(Run(2, HURT), 1, 0, 1) && CanFill(Run(2, HURT), 1, 0, 1)
    ensures Gap(Run(2, QUIET), 1, 0, 1) && !CanFill(Run(2, QUIET), 1, 0, 1)
  {
    var d := [BROKEN, SECOND];
    AfterMade();
    OpsMade();
    MergedBroken();
    RunNext(2, MADE, Deliver(REPLY, d));
    assert Damaged(REPLY.ops, d) && Deliverable(Run(2, MADE), REPLY, d);
    DeliverIs(Run(2, MADE), REPLY, d);
    RunNext(2, HURT, Lose({WANTED}, {REPLY}));
    assert WANTED in Run(2, HURT).requests && Get(WANTED.vector, 0) < 1;
    GapPermanentExactly(2, HURT, 1, 0, 1);
    GapPermanentExactly(2, QUIET, 1, 0, 1);
  }
}

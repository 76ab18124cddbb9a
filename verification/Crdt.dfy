/** The replicated operation log of one node: sequence numbers, state vector, delta and merge. */
module Crdt {
  import opened StableSorting
  import opened Filtering

  /** A node, named by the rank of its identifier in collation order (what localeCompare compares). */
  type NodeId = nat

  /** The parts joined into the text of an operation identifier; the joined text determines them. */
  datatype OpId = OpId(node: NodeId, seqNo: nat, stamp: int)

  datatype Body = Body(table: string, primaryKey: string, action: string, payload: string)

  /** What computeOpHash digests, as a free term: equal digests mean equal fields. */
  datatype Digest = Blank | Digest(id: OpId, nodeId: NodeId, seqNo: nat, timestamp: int, body: Body)

  datatype Op = Op(id: OpId, nodeId: NodeId, seqNo: nat, timestamp: int, body: Body, hash: Digest)

  type Vector = map<NodeId, nat>

  datatype Replica = Replica(vector: Vector, log: seq<Op>)

  const EMPTY := Replica(map[], [])

  function Get(v: Vector, n: NodeId): nat {
    if n in v then v[n] else 0
  }

  function OpHash(op: Op): Digest {
    Digest(op.id, op.nodeId, op.seqNo, op.timestamp, op.body)
  }

  /** The hash is present and recomputes. */
  predicate Genuine(op: Op) {
    op.hash == OpHash(op)
  }

  predicate Known(log: seq<Op>, id: OpId) {
    exists item <- log :: item.id == id
  }

  /** The comparator of the merge: timestamp first, then node. */
  predicate LogOrder(a: Op, b: Op) {
    a.timestamp < b.timestamp || (a.timestamp == b.timestamp && a.nodeId <= b.nodeId)
  }

  predicate EarlierSeq(a: Op, b: Op) {
    a.seqNo < b.seqNo
  }

  // ----- specification of the three operations -----

  /** A new operation of node n; the identifier and the timestamp read the clock separately. */
  function NewOp(r: Replica, n: NodeId, body: Body, idClock: int, clock: int): Op {
    var k := Get(r.vector, n) + 1;
    var op := Op(OpId(n, k, idClock), n, k, clock, body, Blank);
    op.(hash := OpHash(op))
  }

  function Created(r: Replica, n: NodeId, body: Body, idClock: int, clock: int): Replica {
    var op := NewOp(r, n, body, idClock, clock);
    Replica(r.vector[n := op.seqNo], r.log + [op])
  }

  predicate Accepts(r: Replica, op: Op) {
    Genuine(op) && !Known(r.log, op.id)
  }

  function Absorb(r: Replica, op: Op): Replica {
    if !Accepts(r, op) then r
    else
      var newer := op.seqNo > Get(r.vector, op.nodeId);
      Replica(if newer then r.vector[op.nodeId := op.seqNo] else r.vector, r.log + [op])
  }

  function AbsorbAll(r: Replica, ops: seq<Op>): Replica
    decreases ops
  {
    if ops == [] then r else AbsorbAll(Absorb(r, ops[0]), ops[1..])
  }

  function Accepted(r: Replica, ops: seq<Op>): seq<Op>
    decreases ops
  {
    if ops == [] then []
    else (if Accepts(r, ops[0]) then [ops[0]] else []) + Accepted(Absorb(r, ops[0]), ops[1..])
  }

  lemma AbsorbNext(r: Replica, ops: seq<Op>, i: nat)
    requires i < |ops|
    ensures AbsorbAll(r, ops[i..]) == AbsorbAll(Absorb(r, ops[i]), ops[i + 1..])
    ensures Accepted(r, ops[i..])
         == (if Accepts(r, ops[i]) then [ops[i]] else []) + Accepted(Absorb(r, ops[i]), ops[i + 1..])
  {
    assert ops[i..][0] == ops[i] && ops[i..][1..] == ops[i + 1..];
  }

  function Merged(r: Replica, ops: seq<Op>): Replica {
    var a := AbsorbAll(r, ops);
    a.(log := Sort(LogOrder, a.log))
  }

  /** The operations a peer with state vector `known` has not seen, in log order. */
  function OpsSince(log: seq<Op>, known: Vector): seq<Op> {
    Filter(Unseen(known), log)
  }

  function Unseen(known: Vector): Op -> bool {
    (op: Op) => op.seqNo > Get(known, op.nodeId)
  }

  // ----- the engine object -----

  class CrdtEngine {
    var nodeId: NodeId
    var stateVector: Vector
    var opLog: seq<Op>

    function State(): Replica
      reads this
    {
      Replica(stateVector, opLog)
    }

    constructor (id: NodeId)
      ensures nodeId == id && State() == EMPTY
    {
      nodeId, stateVector, opLog := id, map[], [];
    }

    method CreateOperation(body: Body, idClock: int, clock: int) returns (op: Op)
      modifies this`stateVector, this`opLog
      ensures op == NewOp(old(State()), nodeId, body, idClock, clock)
      ensures State() == Created(old(State()), nodeId, body, idClock, clock)
      ensures op.nodeId == nodeId && op.seqNo == Get(old(stateVector), nodeId) + 1 && op.timestamp == clock
      ensures op.id == OpId(nodeId, op.seqNo, idClock) && op.body == body && Genuine(op)
      ensures opLog == old(opLog) + [op]
    {
      var currentSeq := Get(stateVector, nodeId) + 1;
      stateVector := stateVector[nodeId := currentSeq];
      op := Op(OpId(nodeId, currentSeq, idClock), nodeId, currentSeq, clock, body, Blank);
      op := op.(hash := OpHash(op));
      opLog := opLog + [op];
    }

    method MergeOperations(remoteOps: seq<Op>) returns (appliedOps: seq<Op>)
      modifies this`stateVector, this`opLog
      ensures State() == Merged(old(State()), remoteOps)
      ensures appliedOps == Accepted(old(State()), remoteOps)
    {
      appliedOps := [];
      for i := 0 to |remoteOps|
        invariant AbsorbAll(old(State()), remoteOps) == AbsorbAll(State(), remoteOps[i..])
        invariant Accepted(old(State()), remoteOps) == appliedOps + Accepted(State(), remoteOps[i..])
      {
        var op := remoteOps[i];
        AbsorbNext(State(), remoteOps, i);
        if op.hash == OpHash(op) && !Known(opLog, op.id) {
          if op.seqNo > Get(stateVector, op.nodeId) {
            stateVector := stateVector[op.nodeId := op.seqNo];
          }
          opLog := opLog + [op];
          appliedOps := appliedOps + [op];
        }
      }
      opLog := Sort(LogOrder, opLog);
    }

    method GetOpsSince(remoteStateVector: Vector) returns (missing: seq<Op>)
      ensures missing == OpsSince(opLog, remoteStateVector)
    {
      missing := [];
      for i := 0 to |opLog|
        invariant missing == OpsSince(opLog[..i], remoteStateVector)
      {
        FilterNext(Unseen(remoteStateVector), opLog, i);
        if opLog[i].seqNo > Get(remoteStateVector, opLog[i].nodeId) {
          missing := missing + [opLog[i]];
        }
      }
      assert opLog[..|opLog|] == opLog;
    }
  }
}

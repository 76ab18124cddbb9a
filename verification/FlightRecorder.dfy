/** The flight recorder: a ring buffer that shows the newest events of an unbounded log. */
module FlightRecorder {

  const CAPACITY: nat := 1000

  datatype Event = Event(time: int, source: string, kind: string, data: string)

  /** Where the k-th newest event lies once the buffer is full and the next write goes to `cursor`. */
  function Slot(cursor: nat, k: nat): (i: nat)
    requires cursor < CAPACITY && k < CAPACITY
    ensures i < CAPACITY
  {
    if k < cursor then cursor - 1 - k else cursor - 1 - k + CAPACITY
  }

  /** The buffer shows the end of the log. */
  ghost predicate Mirrors(buffer: seq<Event>, cursor: nat, log: seq<Event>) {
    && cursor < CAPACITY
    && (|log| <= CAPACITY ==> buffer == log && cursor == 0)
    && (|log| > CAPACITY ==> |buffer| == CAPACITY)
    && (|log| >= CAPACITY ==> forall k :: 0 <= k < CAPACITY ==> buffer[Slot(cursor, k)] == log[|log| - 1 - k])
  }

  /** The newest n events, newest first. */
  function NewestFirst(log: seq<Event>, n: nat): (r: seq<Event>)
    requires n <= |log|
    ensures |r| == n && forall k :: 0 <= k < n ==> r[k] == log[|log| - 1 - k]
  {
    if n == 0 then [] else NewestFirst(log, n - 1) + [log[|log| - n]]
  }

  /** How many events a request for `limit` shows of a buffer of `total`: asking for none shows all of a buffer
      that is not full, a negative limit all but that many, and a full buffer never shows fewer than one. */
  function Count(total: nat, limit: int): (n: nat)
    ensures n <= total
  {
    if limit >= 1 then (if limit < total then limit else total)
    else if total < CAPACITY then (if -limit < total then total + limit else 0)
    else 1
  }

  lemma RecordKeepsMirror(buffer: seq<Event>, cursor: nat, log: seq<Event>, e: Event)
    requires Mirrors(buffer, cursor, log) && |buffer| == CAPACITY
    ensures Mirrors(buffer[cursor := e], (cursor + 1) % CAPACITY, log + [e])
  {
    var c, b, l := (cursor + 1) % CAPACITY, buffer[cursor := e], log + [e];
    forall k | 0 <= k < CAPACITY ensures b[Slot(c, k)] == l[|l| - 1 - k] {
      if k == 0 {
        assert Slot(c, 0) == cursor;
      } else {
        assert Slot(c, k) == Slot(cursor, k - 1) != cursor;
      }
    }
  }

  class FlightRecorder {
    var ringBuffer: seq<Event>
    var cursor: nat
    ghost var log: seq<Event>

    ghost predicate Valid()
      reads this
    {
      Mirrors(ringBuffer, cursor, log)
    }

    constructor ()
      ensures Valid() && log == []
    {
      ringBuffer, cursor, log := [], 0, [];
    }

    method RecordEvent(e: Event)
      requires Valid()
      modifies this
      ensures Valid() && log == old(log) + [e]
    {
      if |ringBuffer| < CAPACITY {
        ringBuffer := ringBuffer + [e];
      } else {
        RecordKeepsMirror(ringBuffer, cursor, log, e);
        ringBuffer := ringBuffer[cursor := e];
        cursor := (cursor + 1) % CAPACITY;
      }
      log := log + [e];
    }

    /** For any limit, and across wrap-around, what is shown is the newest events of the whole log, newest first. */
    method GetEvents(limit: int) returns (ordered: seq<Event>)
      requires Valid()
      ensures ordered == NewestFirst(log, Count(|ringBuffer|, limit))
      ensures |ordered| <= |log| && forall k :: 0 <= k < |ordered| ==> ordered[k] == log[|log| - 1 - k]
      ensures limit >= 1 ==> |ordered| == Min(limit, Min(|log|, 1000))
      ensures limit < 1 && |log| < 1000 ==> |ordered| == if |log| + limit > 0 then |log| + limit else 0
      ensures limit < 1 && |log| >= 1000 ==> |ordered| == 1
    {
      var total := |ringBuffer|;
      if total == 0 { return []; }
      if total < CAPACITY {
        var start :=
          if limit > 0 then (if limit < total then total - limit else 0)
          else (if -limit < total then -limit else total);
        ordered := ReversedFrom(start);
      } else {
        ordered := AroundRing(limit);
      }
    }

    method ReversedFrom(start: nat) returns (ordered: seq<Event>)
      requires Valid() && |ringBuffer| < CAPACITY && start <= |ringBuffer|
      ensures ordered == NewestFirst(log, |ringBuffer| - start)
    {
      ordered := [];
      for i := 0 to |ringBuffer| - start
        invariant ordered == NewestFirst(log, i)
      {
        ordered := ordered + [ringBuffer[|ringBuffer| - 1 - i]];
      }
    }

    method AroundRing(limit: int) returns (ordered: seq<Event>)
      requires Valid() && |ringBuffer| == CAPACITY
      ensures ordered == NewestFirst(log, Count(CAPACITY, limit))
    {
      ordered := [];
      var total := |ringBuffer|;
      for i := 0 to total
        invariant ordered == NewestFirst(log, i) && (i > 0 ==> i < limit)
      {
        var idx := (cursor - 1 - i + total) % total;
        SlotIs(cursor, i);
        ordered := ordered + [ringBuffer[idx]];
        if |ordered| >= limit { break; }
      }
    }
  }

  function Min(a: int, b: int): int {
    if a < b then a else b
  }

  lemma SlotIs(cursor: nat, i: nat)
    requires cursor < CAPACITY && i < CAPACITY
    ensures (cursor - 1 - i + CAPACITY) % CAPACITY == Slot(cursor, i)
  {
  }
}

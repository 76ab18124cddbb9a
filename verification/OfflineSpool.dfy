/** The offline spool: one pass walks a queue that other senders extend while the pass waits. */
module OfflineSpool {
  import opened Wrappers
  import opened Filtering

  datatype Message = Message(channel: string, request: string)

  /** A spooled message; `key` counts the messages handed to the gateway before it. */
  datatype Item = Item(key: nat, message: Message, attempts: nat)

  /** The locals of a running pass: where it is, what it keeps, how many it delivered. */
  datatype Pass = Pass(cursor: nat, remaining: seq<Item>, processed: nat)

  /** The gateway, with the history of what it was handed, what a provider accepted at once, what the caller was told
      has failed, and what left the spool. */
  datatype Spool = Spool(
    queue: seq<Item>, pass: Option<Pass>,
    handed: seq<Message>, atOnce: set<nat>, returned: set<nat>, delivered: seq<Item>, dropped: seq<Item>)

  const EMPTY := Spool([], None, [], {}, {}, [], [])
  const MAX_ATTEMPTS: nat := 5

  /** What a provider does; `ThrewNothing` rejects without an error value. */
  datatype Reply = NoProvider | Sent | Refused | ThrewError | ThrewNothing

  /** What the caller of a send learns. */
  datatype Told = Accepted | Spooled | Failure

  datatype Step =
    | Send(message: Message, reply: Reply, queueIfUnavailable: bool, queueOnFailure: bool)
    | BeginPass
    | Process(reply: Reply)
    | EndPass

  predicate Queues(reply: Reply, queueIfUnavailable: bool, queueOnFailure: bool) {
    match reply
    case NoProvider => queueIfUnavailable
    case Sent => false
    case Refused => queueOnFailure
    case ThrewError => queueOnFailure
    case ThrewNothing => false
  }

  /** The caller is told, or learns from the rejection, that the message was not sent and is not kept. */
  predicate TellsFailure(reply: Reply, queueIfUnavailable: bool, queueOnFailure: bool) {
    match reply
    case NoProvider => !queueIfUnavailable
    case Sent => false
    case Refused => !queueOnFailure
    case ThrewError => !queueOnFailure
    case ThrewNothing => true
  }

  function Handed(s: Spool, m: Message, reply: Reply, onAbsent: bool, onFailure: bool): Spool {
    var key := |s.handed|;
    s.(handed := s.handed + [m],
       atOnce := if reply == Sent then s.atOnce + {key} else s.atOnce,
       returned := if TellsFailure(reply, onAbsent, onFailure) then s.returned + {key} else s.returned,
       queue := if Queues(reply, onAbsent, onFailure) then s.queue + [Item(key, m, 1)] else s.queue)
  }

  predicate Working(s: Spool) {
    s.pass.Some? && s.pass.value.cursor < |s.queue|
  }

  function Processed(s: Spool, reply: Reply): Spool
    requires Working(s)
  {
    var p := s.pass.value;
    var item := s.queue[p.cursor];
    var tried := item.(attempts := item.attempts + 1);
    var moved := p.(cursor := p.cursor + 1);
    match reply
    case NoProvider => s.(pass := Some(moved.(remaining := p.remaining + [item])))
    case Sent => s.(pass := Some(moved.(processed := p.processed + 1)), delivered := s.delivered + [item])
    case ThrewNothing => s.(queue := s.queue[p.cursor := tried], pass := None)
    case _ =>
      var t := s.(queue := s.queue[p.cursor := tried]);
      if tried.attempts < MAX_ATTEMPTS then t.(pass := Some(moved.(remaining := p.remaining + [tried])))
      else t.(pass := Some(moved), dropped := s.dropped + [tried])
  }

  function Next(s: Spool, step: Step): Spool {
    match step
    case Send(m, reply, onAbsent, onFailure) => Handed(s, m, reply, onAbsent, onFailure)
    case BeginPass =>
      if s.pass.None? && s.queue != [] then s.(pass := Some(Pass(0, [], 0))) else s
    case Process(reply) => if Working(s) then Processed(s, reply) else s
    case EndPass =>
      if s.pass.Some? && s.pass.value.cursor >= |s.queue| then
        s.(queue := s.pass.value.remaining, pass := None)
      else s
  }

  function Run(s: Spool, steps: seq<Step>): Spool
    decreases steps
  {
    if steps == [] then s else Run(Next(s, steps[0]), steps[1..])
  }

  // ----- conservation -----

  ghost function Keys(items: seq<Item>): set<nat> {
    set x | x in items :: x.key
  }

  /** What is still spooled: the queue, or during a pass what it keeps and what it has not reached. */
  function Live(s: Spool): seq<Item> {
    match s.pass
    case None => s.queue
    case Some(p) => p.remaining + if p.cursor <= |s.queue| then s.queue[p.cursor..] else []
  }

  ghost predicate Ascending(items: seq<Item>) {
    forall i, j :: 0 <= i < j < |items| ==> items[i].key < items[j].key
  }

  ghost predicate DistinctKeys(items: seq<Item>) {
    forall i, j :: 0 <= i < j < |items| ==> items[i].key != items[j].key
  }

  /** What was handed over, and where it is now. */
  datatype Ledger = Ledger(handed: seq<Message>, atOnce: set<nat>, returned: set<nat>,
                           delivered: seq<Item>, dropped: seq<Item>, live: seq<Item>)

  function Books(s: Spool): Ledger {
    Ledger(s.handed, s.atOnce, s.returned, s.delivered, s.dropped, Live(s))
  }

  /** Every item carries the message it was spooled with. */
  ghost predicate Faithful(handed: seq<Message>, items: seq<Item>) {
    forall x :: x in items ==> x.key < |handed| && x.message == handed[x.key]
  }

  /** The keys 0..n-1, each in exactly one of four sets. */
  ghost predicate Partition(d: set<nat>, p: set<nat>, l: set<nat>, o: set<nat>, n: nat) {
    d !! p !! l !! o && forall k: nat :: k in d || k in p || k in l || k in o <==> k < n
  }

  /** Every message handed over so far is exactly one of sent at once, given back, delivered by a pass, dropped at five
      attempts, or live and in order. */
  ghost predicate Balanced(l: Ledger) {
    && Ascending(l.live) && DistinctKeys(l.delivered) && DistinctKeys(l.dropped) && l.atOnce !! l.returned
    && Partition(Keys(l.delivered), Keys(l.dropped), Keys(l.live), l.atOnce + l.returned, |l.handed|)
    && Faithful(l.handed, l.delivered) && Faithful(l.handed, l.dropped) && Faithful(l.handed, l.live)
    && (forall x :: x in l.live ==> 1 <= x.attempts < MAX_ATTEMPTS)
    && (forall x :: x in l.dropped ==> x.attempts == MAX_ATTEMPTS)
  }

  ghost predicate Conserved(s: Spool) {
    Balanced(Books(s))
  }

  ghost function Outside(gone: set<nat>): Item -> bool {
    (x: Item) => x.key !in gone
  }

  /** The keys of what left the spool. */
  ghost function Gone(s: Spool): set<nat> {
    Keys(s.delivered) + Keys(s.dropped)
  }

  /** During a pass: what it keeps is what it has walked past without what left the spool. */
  ghost predicate PassOk(s: Spool) {
    s.pass.Some? ==>
      var p := s.pass.value;
      && p.cursor <= |s.queue| && Ascending(s.queue)
      && p.remaining == Filter(Outside(Gone(s)), s.queue[..p.cursor])
  }

  ghost predicate Inv(s: Spool) {
    Conserved(s) && PassOk(s)
  }

  lemma KeysAppend(a: seq<Item>, b: seq<Item>)
    ensures Keys(a + b) == Keys(a) + Keys(b)
  {
    assert forall x :: x in a + b <==> x in a || x in b;
  }

  /** The item a pass is about to process is the first live one behind what it keeps. */
  lemma LiveAtCursor(s: Spool)
    requires Working(s)
    ensures var p := s.pass.value;
            && Live(s) == p.remaining + [s.queue[p.cursor]] + s.queue[p.cursor + 1..]
            && Keys(Live(s)) == Keys(p.remaining) + {s.queue[p.cursor].key} + Keys(s.queue[p.cursor + 1..])
            && s.queue[p.cursor] in Live(s)
  {
    var p := s.pass.value;
    var item, rest := s.queue[p.cursor], s.queue[p.cursor + 1..];
    assert s.queue[p.cursor..] == [item] + rest;
    KeysAppend(p.remaining, [item]);
    KeysAppend(p.remaining + [item], rest);
    KeysOfOne(item);
  }

  lemma KeysOfOne(x: Item)
    ensures Keys([x]) == {x.key}
  {
    assert forall y :: y in [x] <==> y == x;
  }

  lemma PartitionGrows(d: set<nat>, p: set<nat>, l: set<nat>, o: set<nat>, n: nat)
    requires Partition(d, p, l, o, n)
    ensures Partition(d, p, l + {n}, o, n + 1) && Partition(d, p, l, o + {n}, n + 1)
  {
  }

  lemma PartitionMoves(d: set<nat>, p: set<nat>, l: set<nat>, o: set<nat>, k: nat, n: nat)
    requires Partition(d, p, l + {k}, o, n) && k !in l
    ensures Partition(d + {k}, p, l, o, n) && Partition(d, p + {k}, l, o, n)
  {
  }

  lemma BooksEnqueue(l: Ledger, m: Message)
    requires Balanced(l)
    ensures Balanced(l.(handed := l.handed + [m], live := l.live + [Item(|l.handed|, m, 1)]))
  {
    var item := Item(|l.handed|, m, 1);
    KeysAppend(l.live, [item]);
    KeysOfOne(item);
    PartitionGrows(Keys(l.delivered), Keys(l.dropped), Keys(l.live), l.atOnce + l.returned, |l.handed|);
    forall i | 0 <= i < |l.live| ensures l.live[i].key < item.key { assert l.live[i] in l.live; }
  }

  /** A message that is not kept is written off in the books at once. */
  lemma BooksSettle(l: Ledger, m: Message)
    requires Balanced(l)
    ensures Balanced(l.(handed := l.handed + [m], atOnce := l.atOnce + {|l.handed|}))
    ensures Balanced(l.(handed := l.handed + [m], returned := l.returned + {|l.handed|}))
  {
    var n, o := |l.handed|, l.atOnce + l.returned;
    PartitionGrows(Keys(l.delivered), Keys(l.dropped), Keys(l.live), o, n);
    assert n !in o;
    assert (l.atOnce + {n}) + l.returned == o + {n} && l.atOnce + (l.returned + {n}) == o + {n};
  }

  lemma SendKeeps(s: Spool, m: Message, reply: Reply, a: bool, f: bool)
    requires Inv(s)
    ensures Inv(Handed(s, m, reply, a, f))
  {
    if Queues(reply, a, f) {
      EnqueueKeeps(s, m);
    } else {
      BooksSettle(Books(s), m);
    }
  }

  lemma EnqueueKeeps(s: Spool, m: Message)
    requires Inv(s)
    ensures Inv(s.(handed := s.handed + [m], queue := s.queue + [Item(|s.handed|, m, 1)]))
  {
    var item := Item(|s.handed|, m, 1);
    var t := s.(handed := s.handed + [m], queue := s.queue + [item]);
    BooksEnqueue(Books(s), m);
    assert Live(t) == Live(s) + [item] by {
      if s.pass.Some? {
        assert t.queue[s.pass.value.cursor..] == s.queue[s.pass.value.cursor..] + [item];
      }
    }
    if s.pass.Some? {
      assert t.queue[..s.pass.value.cursor] == s.queue[..s.pass.value.cursor];
      QueueKeysBounded(s);
      AscendingAppend(s.queue, item);
    }
  }

  lemma AscendingAppend(items: seq<Item>, x: Item)
    requires Ascending(items) && forall y :: y in items ==> y.key < x.key
    ensures Ascending(items + [x])
  {
  }

  /** Even what a pass has finished with was spooled before. */
  lemma QueueKeysBounded(s: Spool)
    requires Inv(s) && s.pass.Some?
    ensures forall x :: x in s.queue ==> x.key < |s.handed|
  {
    var p := s.pass.value;
    var gone := Gone(s);
    FilterMembers(Outside(gone), s.queue[..p.cursor]);
    assert s.queue == s.queue[..p.cursor] + s.queue[p.cursor..];
    forall x | x in s.queue ensures x.key < |s.handed| {
      if x in s.queue[..p.cursor] && x.key !in gone {
        assert x in Live(s);
      } else if x in s.queue[p.cursor..] {
        assert x in Live(s);
      }
    }
  }

  /** A pass that has moved on by one item, keeping it or not, is as it should be. */
  lemma PassAfter(s: Spool, t: Spool, keep: seq<Item>)
    requires PassOk(s) && Working(s) && t.pass.Some?
    requires var i := s.pass.value.cursor;
             && t.pass.value.cursor == i + 1 && t.pass.value.remaining == s.pass.value.remaining + keep
             && |t.queue| == |s.queue| && t.queue[..i] == s.queue[..i]
             && t.queue[i].key == s.queue[i].key && t.queue[i + 1..] == s.queue[i + 1..]
             && keep == (if s.queue[i].key in Gone(t) then [] else [t.queue[i]])
             && Gone(s) <= Gone(t) <= Gone(s) + {s.queue[i].key}
    ensures PassOk(t)
  {
    var i := s.pass.value.cursor;
    assert t.queue[..i + 1][..i] == s.queue[..i] && t.queue[..i + 1][i] == t.queue[i];
    forall x | x in s.queue[..i] ensures x.key in Gone(s) <==> x.key in Gone(t) {
      EarlierKey(s.queue, i, x);
    }
    FilterSame(Outside(Gone(s)), Outside(Gone(t)), s.queue[..i]);
    FilterNext(Outside(Gone(t)), t.queue, i);
    SameKeysAscending(s, t, i);
  }

  lemma EarlierKey(q: seq<Item>, i: nat, x: Item)
    requires i < |q| && Ascending(q) && x in q[..i]
    ensures x.key < q[i].key
  {
    var j :| 0 <= j < i && q[j] == x;
  }

  lemma SameKeysAscending(s: Spool, t: Spool, i: nat)
    requires i < |s.queue| == |t.queue| && Ascending(s.queue)
    requires t.queue[..i] == s.queue[..i] && t.queue[i].key == s.queue[i].key && t.queue[i + 1..] == s.queue[i + 1..]
    ensures Ascending(t.queue)
  {
    forall j, k | 0 <= j < k < |t.queue| ensures t.queue[j].key < t.queue[k].key {
      SameKeyAt(s, t, i, j);
      SameKeyAt(s, t, i, k);
    }
  }

  lemma SameKeyAt(s: Spool, t: Spool, i: nat, j: nat)
    requires i < |s.queue| == |t.queue| && j < |s.queue|
    requires t.queue[..i] == s.queue[..i] && t.queue[i].key == s.queue[i].key && t.queue[i + 1..] == s.queue[i + 1..]
    ensures t.queue[j].key == s.queue[j].key
  {
    if j < i {
      assert t.queue[j] == t.queue[..i][j] && s.queue[j] == s.queue[..i][j];
    } else if j > i {
      assert t.queue[j] == t.queue[i + 1..][j - i - 1] && s.queue[j] == s.queue[i + 1..][j - i - 1];
    }
  }

  // ----- one item changes its place in the books -----

  lemma KeysOfThree(a: seq<Item>, x: Item, b: seq<Item>)
    ensures Keys(a + [x] + b) == Keys(a) + {x.key} + Keys(b)
    ensures forall z :: z in a + [x] + b <==> z in a || z == x || z in b
  {
    KeysAppend(a + [x], b);
    KeysAppend(a, [x]);
    KeysOfOne(x);
  }

  lemma SameOrder(a: seq<Item>, x: Item, y: Item, b: seq<Item>)
    requires Ascending(a + [x] + b) && x.key == y.key
    ensures Ascending(a + [y] + b)
  {
    var u, v := a + [x] + b, a + [y] + b;
    assert forall i :: 0 <= i < |u| ==> v[i].key == u[i].key;
  }

  /** Counting an attempt on one live item changes neither keys nor order. */
  lemma BooksRetry(l: Ledger, a: seq<Item>, x: Item, y: Item, b: seq<Item>)
    requires Balanced(l) && l.live == a + [x] + b
    requires y == x.(attempts := y.attempts) && 1 <= y.attempts < MAX_ATTEMPTS
    ensures Balanced(l.(live := a + [y] + b))
  {
    KeysOfThree(a, x, b);
    KeysOfThree(a, y, b);
    SameOrder(a, x, y, b);
  }

  /** Taking one item out leaves the others in order. */
  lemma RemoveKeepsOrder(a: seq<Item>, x: Item, b: seq<Item>)
    requires Ascending(a + [x] + b)
    ensures Ascending(a + b) && x.key !in Keys(a) && x.key !in Keys(b) && Keys(a + b) == Keys(a) + Keys(b)
  {
    var s, t := a + [x] + b, a + b;
    KeysAppend(a, b);
    assert s[|a|] == x;
    forall i, j | 0 <= i < j < |t| ensures t[i].key < t[j].key {
      assert t[i] == s[if i < |a| then i else i + 1] && t[j] == s[if j < |a| then j else j + 1];
    }
    forall y | y in a ensures y.key != x.key { var i :| 0 <= i < |a| && a[i] == y; assert s[i] == y; }
    forall y | y in b ensures y.key != x.key { var i :| 0 <= i < |b| && b[i] == y; assert s[|a| + 1 + i] == y; }
  }

  lemma DistinctAppend(items: seq<Item>, x: Item)
    requires DistinctKeys(items) && x.key !in Keys(items)
    ensures DistinctKeys(items + [x]) && Keys(items + [x]) == Keys(items) + {x.key}
  {
    KeysAppend(items, [x]);
    KeysOfOne(x);
    forall i | 0 <= i < |items| ensures items[i].key != x.key { assert items[i] in items; }
  }

  lemma BooksSent(l: Ledger, a: seq<Item>, x: Item, b: seq<Item>)
    requires Balanced(l) && l.live == a + [x] + b
    ensures Balanced(l.(live := a + b, delivered := l.delivered + [x]))
  {
    KeysOfThree(a, x, b);
    RemoveKeepsOrder(a, x, b);
    assert x in l.live && x.key in Keys(l.live);
    DistinctAppend(l.delivered, x);
    assert Keys(a + [x] + b) == Keys(a + b) + {x.key};
    PartitionMoves(Keys(l.delivered), Keys(l.dropped), Keys(a + b), l.atOnce + l.returned, x.key, |l.handed|);
  }

  lemma BooksDropped(l: Ledger, a: seq<Item>, x: Item, y: Item, b: seq<Item>)
    requires Balanced(l) && l.live == a + [x] + b
    requires y == x.(attempts := MAX_ATTEMPTS)
    ensures Balanced(l.(live := a + b, dropped := l.dropped + [y]))
  {
    KeysOfThree(a, x, b);
    RemoveKeepsOrder(a, x, b);
    assert x in l.live && x.key in Keys(l.live);
    DistinctAppend(l.dropped, y);
    assert Keys(a + [x] + b) == Keys(a + b) + {x.key};
    PartitionMoves(Keys(l.delivered), Keys(l.dropped), Keys(a + b), l.atOnce + l.returned, x.key, |l.handed|);
  }

  // ----- one answer -----

  /** What the books show after one item was looked at: kept, sent or dropped. */
  ghost function KeptBooks(s: Spool, y: Item): Ledger
    requires Working(s)
  {
    var p := s.pass.value;
    Books(s).(live := p.remaining + [y] + s.queue[p.cursor + 1..])
  }

  lemma BooksAfterKept(s: Spool, t: Spool, y: Item)
    requires Working(s)
    requires var p := s.pass.value;
             t == s.(queue := s.queue[p.cursor := y],
                     pass := Some(p.(cursor := p.cursor + 1, remaining := p.remaining + [y])))
    ensures Books(t) == KeptBooks(s, y)
  {
    var p := s.pass.value;
    assert t.queue[p.cursor + 1..] == s.queue[p.cursor + 1..];
  }

  ghost function SentBooks(s: Spool): Ledger
    requires Working(s)
  {
    var p := s.pass.value;
    Books(s).(live := p.remaining + s.queue[p.cursor + 1..], delivered := s.delivered + [s.queue[p.cursor]])
  }

  lemma BooksAfterSent(s: Spool)
    requires Working(s)
    ensures Books(Processed(s, Sent)) == SentBooks(s)
  {
  }

  ghost function DroppedBooks(s: Spool): Ledger
    requires Working(s)
  {
    var p := s.pass.value;
    Books(s).(live := p.remaining + s.queue[p.cursor + 1..],
              dropped := s.dropped + [s.queue[p.cursor].(attempts := MAX_ATTEMPTS)])
  }

  lemma BooksAfterDrop(s: Spool, reply: Reply)
    requires Working(s) && reply in {Refused, ThrewError}
    requires s.queue[s.pass.value.cursor].attempts + 1 == MAX_ATTEMPTS
    ensures Books(Processed(s, reply)) == DroppedBooks(s)
  {
    var p, t := s.pass.value, Processed(s, reply);
    assert t.queue[p.cursor + 1..] == s.queue[p.cursor + 1..];
  }

  lemma LiveIsNotGone(l: Ledger, a: seq<Item>, y: Item, b: seq<Item>)
    requires Balanced(l) && l.live == a + [y] + b
    ensures y.attempts < MAX_ATTEMPTS
    ensures forall x :: x in a + [y] ==> x.key !in Keys(l.delivered) + Keys(l.dropped)
  {
    assert y in l.live;
    forall x | x in a + [y] ensures x.key !in Keys(l.delivered) + Keys(l.dropped) {
      assert x in l.live && x.key in Keys(l.live);
    }
  }

  lemma KeptPass(s: Spool, t: Spool, y: Item)
    requires PassOk(s) && Working(s) && s.queue[s.pass.value.cursor].key !in Gone(s)
    requires var p := s.pass.value;
             && y.key == s.queue[p.cursor].key
             && t == s.(queue := s.queue[p.cursor := y],
                        pass := Some(p.(cursor := p.cursor + 1, remaining := p.remaining + [y])))
    ensures PassOk(t)
  {
    assert Gone(t) == Gone(s);
    PassAfter(s, t, [y]);
  }

  lemma KeptBalanced(s: Spool, y: Item)
    requires Conserved(s) && Working(s)
    requires y == s.queue[s.pass.value.cursor].(attempts := y.attempts) && 1 <= y.attempts < MAX_ATTEMPTS
    ensures Balanced(KeptBooks(s, y))
  {
    var p := s.pass.value;
    LiveAtCursor(s);
    BooksRetry(Books(s), p.remaining, s.queue[p.cursor], y, s.queue[p.cursor + 1..]);
  }

  /** The item at hand has not left the spool. */
  lemma AtHandIsNotGone(s: Spool)
    requires Conserved(s) && Working(s)
    ensures s.queue[s.pass.value.cursor].key !in Gone(s)
  {
    var p := s.pass.value;
    var x := s.queue[p.cursor];
    LiveAtCursor(s);
    LiveIsNotGone(Books(s), p.remaining, x, s.queue[p.cursor + 1..]);
    assert x in p.remaining + [x];
  }

  lemma KeptKeeps(s: Spool, t: Spool, y: Item)
    requires Inv(s) && Working(s)
    requires var p := s.pass.value;
             && y == s.queue[p.cursor].(attempts := y.attempts) && 1 <= y.attempts < MAX_ATTEMPTS
             && t == s.(queue := s.queue[p.cursor := y],
                        pass := Some(p.(cursor := p.cursor + 1, remaining := p.remaining + [y])))
    ensures Inv(t)
  {
    KeptBalanced(s, y);
    BooksAfterKept(s, t, y);
    AtHandIsNotGone(s);
    KeptPass(s, t, y);
  }

  lemma SentBalanced(s: Spool)
    requires Conserved(s) && Working(s)
    ensures Balanced(SentBooks(s))
  {
    var p := s.pass.value;
    LiveAtCursor(s);
    BooksSent(Books(s), p.remaining, s.queue[p.cursor], s.queue[p.cursor + 1..]);
  }

  lemma SentPass(s: Spool)
    requires PassOk(s) && Working(s)
    ensures PassOk(Processed(s, Sent))
  {
    var x := s.queue[s.pass.value.cursor];
    KeysAppend(s.delivered, [x]);
    KeysOfOne(x);
    PassAfter(s, Processed(s, Sent), []);
  }

  lemma SentKeeps(s: Spool)
    requires Inv(s) && Working(s)
    ensures Inv(Processed(s, Sent))
  {
    SentBalanced(s);
    BooksAfterSent(s);
    SentPass(s);
  }

  lemma DroppedBalanced(s: Spool)
    requires Conserved(s) && Working(s)
    ensures Balanced(DroppedBooks(s))
  {
    var p := s.pass.value;
    var x := s.queue[p.cursor];
    LiveAtCursor(s);
    BooksDropped(Books(s), p.remaining, x, x.(attempts := MAX_ATTEMPTS), s.queue[p.cursor + 1..]);
  }

  lemma DroppedPass(s: Spool, reply: Reply)
    requires PassOk(s) && Working(s) && reply in {Refused, ThrewError}
    requires s.queue[s.pass.value.cursor].attempts + 1 == MAX_ATTEMPTS
    ensures PassOk(Processed(s, reply))
  {
    var y := s.queue[s.pass.value.cursor].(attempts := MAX_ATTEMPTS);
    KeysAppend(s.dropped, [y]);
    KeysOfOne(y);
    PassAfter(s, Processed(s, reply), []);
  }

  lemma DroppedKeeps(s: Spool, reply: Reply)
    requires Inv(s) && Working(s) && reply in {Refused, ThrewError}
    requires s.queue[s.pass.value.cursor].attempts + 1 == MAX_ATTEMPTS
    ensures Inv(Processed(s, reply))
  {
    DroppedBalanced(s);
    BooksAfterDrop(s, reply);
    DroppedPass(s, reply);
  }

  lemma UnavailableKeeps(s: Spool)
    requires Inv(s) && Working(s)
    ensures Inv(Processed(s, NoProvider))
  {
    var item := s.queue[s.pass.value.cursor];
    LiveAttempts(s);
    assert s.queue[s.pass.value.cursor := item] == s.queue;
    KeptKeeps(s, Processed(s, NoProvider), item);
  }

  lemma RetriedIs(s: Spool, reply: Reply)
    requires Working(s) && reply in {Refused, ThrewError}
    requires s.queue[s.pass.value.cursor].attempts + 1 < MAX_ATTEMPTS
    ensures var p := s.pass.value;
            var tried := s.queue[p.cursor].(attempts := s.queue[p.cursor].attempts + 1);
            var moved := p.(cursor := p.cursor + 1, remaining := p.remaining + [tried]);
            Processed(s, reply) == s.(queue := s.queue[p.cursor := tried], pass := Some(moved))
  {
  }

  lemma RetriedKeeps(s: Spool, reply: Reply)
    requires Inv(s) && Working(s) && reply in {Refused, ThrewError}
    requires s.queue[s.pass.value.cursor].attempts + 1 < MAX_ATTEMPTS
    ensures Inv(Processed(s, reply))
  {
    var item := s.queue[s.pass.value.cursor];
    RetriedIs(s, reply);
    KeptKeeps(s, Processed(s, reply), item.(attempts := item.attempts + 1));
  }

  lemma ProcessKeeps(s: Spool, reply: Reply)
    requires Inv(s) && Working(s) && reply != ThrewNothing
    ensures Inv(Processed(s, reply))
  {
    LiveAttempts(s);
    if reply == Sent {
      SentKeeps(s);
    } else if reply == NoProvider {
      UnavailableKeeps(s);
    } else if s.queue[s.pass.value.cursor].attempts + 1 < MAX_ATTEMPTS {
      RetriedKeeps(s, reply);
    } else {
      DroppedKeeps(s, reply);
    }
  }

  lemma LiveAttempts(s: Spool)
    requires Inv(s) && Working(s)
    ensures 1 <= s.queue[s.pass.value.cursor].attempts < MAX_ATTEMPTS
  {
    LiveAtCursor(s);
    assert s.queue[s.pass.value.cursor] in Books(s).live;
  }

  lemma EndKeeps(s: Spool)
    requires Inv(s)
    ensures Inv(Next(s, EndPass))
  {
    if s.pass.Some? && s.pass.value.cursor >= |s.queue| {
      assert Live(s) == s.pass.value.remaining;
      assert Live(Next(s, EndPass)) == Live(s);
    }
  }

  lemma BeginKeeps(s: Spool)
    requires Inv(s)
    ensures Inv(Next(s, BeginPass))
  {
    if s.pass.None? && s.queue != [] {
      assert Live(Next(s, BeginPass)) == Live(s);
    }
  }

  /** A provider that rejects without a value ends the pass early: harmless exactly when the pass had kept
      everything. */
  lemma EmptyRejectionExactly(s: Spool)
    requires Inv(s) && Working(s)
    ensures var p := s.pass.value;
            Inv(Processed(s, ThrewNothing))
            <==> |p.remaining| == p.cursor && s.queue[p.cursor].attempts + 1 < MAX_ATTEMPTS
  {
    var i := s.pass.value.cursor;
    if |s.pass.value.remaining| == i && s.queue[i].attempts + 1 < MAX_ATTEMPTS {
      AllKeptIsHarmless(s);
    }
    if Inv(Processed(s, ThrewNothing)) {
      HarmlessWasAllKept(s);
    }
  }

  /** The books with the whole queue live again, one more attempt counted on the item at hand. */
  ghost function Reopened(s: Spool): Ledger
    requires Working(s)
  {
    var i := s.pass.value.cursor;
    Ledger(s.handed, s.atOnce, s.returned, s.delivered, s.dropped,
           s.queue[i := s.queue[i].(attempts := s.queue[i].attempts + 1)])
  }

  lemma AfterEmptyRejection(s: Spool)
    requires Working(s)
    ensures Processed(s, ThrewNothing).pass.None? && Books(Processed(s, ThrewNothing)) == Reopened(s)
  {
  }

  /** The books as they are when the whole queue is live. */
  ghost function QueueBooks(s: Spool): Ledger {
    Ledger(s.handed, s.atOnce, s.returned, s.delivered, s.dropped, s.queue)
  }

  lemma AllPass(keep: Item -> bool, q: seq<Item>, i: nat)
    requires i <= |q| && |Filter(keep, q[..i])| == i
    ensures Filter(keep, q[..i]) + q[i..] == q
  {
    FilterSize(keep, q[..i]);
    assert q[..i] + q[i..] == q;
  }

  lemma AllKeptIsQueue(s: Spool)
    requires PassOk(s) && Working(s) && |s.pass.value.remaining| == s.pass.value.cursor
    ensures Books(s) == QueueBooks(s)
  {
    AllPass(Outside(Gone(s)), s.queue, s.pass.value.cursor);
  }

  lemma AllKeptIsHarmless(s: Spool)
    requires Inv(s) && Working(s) && |s.pass.value.remaining| == s.pass.value.cursor
    requires s.queue[s.pass.value.cursor].attempts + 1 < MAX_ATTEMPTS
    ensures Inv(Processed(s, ThrewNothing))
  {
    AllKeptIsQueue(s);
    LiveAttempts(s);
    LiveQueueReopens(s);
    AfterEmptyRejection(s);
  }

  /** When the whole queue is live, counting one more attempt on one item keeps the books. */
  lemma LiveQueueReopens(s: Spool)
    requires Balanced(QueueBooks(s)) && Working(s)
    requires 1 <= s.queue[s.pass.value.cursor].attempts < MAX_ATTEMPTS - 1
    ensures Balanced(Reopened(s))
  {
    RetryAt(QueueBooks(s), s.pass.value.cursor);
  }

  lemma ReplaceAt(s: seq<Item>, i: nat, y: Item)
    requires i < |s|
    ensures s == s[..i] + [s[i]] + s[i + 1..] && s[i := y] == s[..i] + [y] + s[i + 1..]
  {
  }

  lemma RetryGives(l: Ledger, l': Ledger, a: seq<Item>, x: Item, y: Item, b: seq<Item>)
    requires Balanced(l) && l.live == a + [x] + b && l' == l.(live := a + [y] + b)
    requires y == x.(attempts := y.attempts) && 1 <= y.attempts < MAX_ATTEMPTS
    ensures Balanced(l')
  {
    BooksRetry(l, a, x, y, b);
  }

  lemma RetryAt(l: Ledger, i: nat)
    requires Balanced(l) && i < |l.live| && 1 <= l.live[i].attempts < MAX_ATTEMPTS - 1
    ensures Balanced(l.(live := l.live[i := l.live[i].(attempts := l.live[i].attempts + 1)]))
  {
    var a, x, b := l.live[..i], l.live[i], l.live[i + 1..];
    var y := x.(attempts := x.attempts + 1);
    ReplaceAt(l.live, i, y);
    RetryGives(l, l.(live := l.live[i := y]), a, x, y, b);
  }

  /** No item of a live queue has left the spool, so a pass over it keeps everything. */
  lemma LiveQueueAllKept(s: Spool)
    requires Working(s) && Balanced(Reopened(s))
    ensures var i := s.pass.value.cursor;
            s.queue[i].attempts + 1 < MAX_ATTEMPTS && |Filter(Outside(Gone(s)), s.queue[..i])| == i
  {
    var i, q := s.pass.value.cursor, Reopened(s).live;
    assert q == q[..i] + [q[i]] + q[i + 1..] && q[..i] == s.queue[..i];
    LiveIsNotGone(Reopened(s), q[..i], q[i], q[i + 1..]);
    FilterSize(Outside(Gone(s)), s.queue[..i]);
  }

  lemma HarmlessWasAllKept(s: Spool)
    requires PassOk(s) && Working(s) && Conserved(Processed(s, ThrewNothing))
    ensures |s.pass.value.remaining| == s.pass.value.cursor
    ensures s.queue[s.pass.value.cursor].attempts + 1 < MAX_ATTEMPTS
  {
    AfterEmptyRejection(s);
    LiveQueueAllKept(s);
  }

  /** The step is not a rejection without error value that comes after the pass let an item go, or at the last
      attempt. */
  ghost predicate Harmless(s: Spool, step: Step) {
    step == Process(ThrewNothing) && Working(s) ==>
      var p := s.pass.value;
      |p.remaining| == p.cursor && s.queue[p.cursor].attempts + 1 < MAX_ATTEMPTS
  }

  /** A step keeps the books and the pass in order exactly when it is harmless. */
  lemma StepExactly(s: Spool, step: Step)
    requires Inv(s)
    ensures Inv(Next(s, step)) <==> Harmless(s, step)
  {
    match step {
      case Send(m, reply, a, f) => SendKeeps(s, m, reply, a, f);
      case BeginPass => BeginKeeps(s);
      case Process(reply) =>
        if Working(s) {
          if reply == ThrewNothing { EmptyRejectionExactly(s); } else { ProcessKeeps(s, reply); }
        }
      case EndPass => EndKeeps(s);
    }
  }

  ghost predicate HarmlessRun(s: Spool, steps: seq<Step>)
    decreases steps
  {
    steps == [] || (Harmless(s, steps[0]) && HarmlessRun(Next(s, steps[0]), steps[1..]))
  }

  /** In every such run, whatever is sent while a pass waits, no message is lost, doubled or reordered. */
  lemma {:induction false} RunsConserve(s: Spool, steps: seq<Step>)
    requires Inv(s) && HarmlessRun(s, steps)
    ensures Inv(Run(s, steps))
    decreases steps
  {
    if steps != [] {
      StepExactly(s, steps[0]);
      RunsConserve(Next(s, steps[0]), steps[1..]);
    }
  }

  lemma EveryMessageHasOneFate(steps: seq<Step>)
    requires HarmlessRun(EMPTY, steps)
    ensures Conserved(Run(EMPTY, steps))
  {
    RunsConserve(EMPTY, steps);
  }

  /** A step that neither ends nor aborts a pass. */
  predicate Continues(step: Step) {
    step != EndPass && step != Process(ThrewNothing)
  }

  /** What a pass reports as processed is what it delivered, whatever was sent meanwhile. */
  lemma {:induction false} PassCountsItsDeliveries(s: Spool, steps: seq<Step>)
    requires s.pass.Some? && forall step :: step in steps ==> Continues(step)
    ensures var r := Run(s, steps);
            r.pass.Some? && |r.delivered| - |s.delivered| == r.pass.value.processed - s.pass.value.processed
    decreases steps
  {
    if steps != [] {
      assert Continues(steps[0]);
      PassCountsItsDeliveries(Next(s, steps[0]), steps[1..]);
    }
  }

  /** After one delivered in a pass, a rejection without value leaves that one spooled again. */
  lemma EmptyRejectionRedelivers(a: Message, b: Message)
    ensures var steps := [Send(a, NoProvider, true, true), Send(b, NoProvider, true, true),
                          BeginPass, Process(Sent), Process(ThrewNothing)];
            var s := Run(EMPTY, steps);
            0 in Keys(s.delivered) && 0 in Keys(Live(s))
  {
    var x, y := Item(0, a, 1), Item(1, b, 1);
    var s2 := Spool([x, y], None, [a, b], {}, {}, [], []);
    assert Next(Next(EMPTY, Send(a, NoProvider, true, true)), Send(b, NoProvider, true, true)) == s2;
    var s4 := Spool([x, y], Some(Pass(1, [], 1)), [a, b], {}, {}, [x], []);
    assert Next(Next(s2, BeginPass), Process(Sent)) == s4;
    var s5 := Next(s4, Process(ThrewNothing));
    assert s5.queue[0] == x && x in Live(s5) && x in s5.delivered;
    var e1, e2 := Send(a, NoProvider, true, true), Send(b, NoProvider, true, true);
    var e3, e4, e5 := BeginPass, Process(Sent), Process(ThrewNothing);
    assert [e1, e2, e3, e4, e5][1..] == [e2, e3, e4, e5] && [e2, e3, e4, e5][1..] == [e3, e4, e5];
    assert [e3, e4, e5][1..] == [e4, e5] && [e4, e5][1..] == [e5] && [e5][1..] == [];
    assert Run(s4, [e5]) == s5;
    assert Run(s2, [e3, e4, e5]) == Run(Next(s2, e3), [e4, e5]) == Run(s4, [e5]);
    assert Run(EMPTY, [e1, e2, e3, e4, e5]) == Run(Next(EMPTY, e1), [e2, e3, e4, e5]) == Run(s2, [e3, e4, e5]);
  }

  // ----- the gateway object: one method for each stretch without waiting -----

  class CommunicationGateway {
    var spoolQueue: seq<Item>
    var isProcessingSpool: bool
    var cursor: nat
    var remaining: seq<Item>
    var processedCount: nat
    ghost var handed: seq<Message>
    ghost var atOnce: set<nat>
    ghost var returned: set<nat>
    ghost var delivered: seq<Item>
    ghost var dropped: seq<Item>
    var counter: nat

    ghost function State(): Spool
      reads this
    {
      Spool(spoolQueue,
            if isProcessingSpool then Some(Pass(cursor, remaining, processedCount)) else None,
            handed, atOnce, returned, delivered, dropped)
    }

    ghost predicate Valid()
      reads this
    {
      counter == |handed|
    }

    constructor ()
      ensures Valid() && State() == EMPTY
    {
      spoolQueue, isProcessingSpool, cursor, remaining, processedCount, counter := [], false, 0, [], 0, 0;
      handed, atOnce, returned, delivered, dropped := [], {}, {}, [], [];
    }

    /** The end of a send, once the provider has answered; `told` is what the caller learns. */
    method FinishSend(m: Message, reply: Reply, queueIfUnavailable: bool, queueOnFailure: bool) returns (told: Told)
      requires Valid()
      modifies this
      ensures Valid() && State() == Next(old(State()), Send(m, reply, queueIfUnavailable, queueOnFailure))
      ensures reply == Sent ==> told == Accepted
      ensures reply == NoProvider ==> told == if queueIfUnavailable then Spooled else Failure
      ensures reply in {Refused, ThrewError} ==> told == if queueOnFailure then Spooled else Failure
      ensures reply == ThrewNothing ==> told == Failure
      ensures spoolQueue == if told == Spooled then old(spoolQueue) + [Item(old(counter), m, 1)] else old(spoolQueue)
    {
      match reply {
        case Sent =>
          told := Accepted;
          atOnce := atOnce + {counter};
        case NoProvider => told := if queueIfUnavailable then Spooled else Failure;
        case ThrewNothing => told := Failure;
        case _ => told := if queueOnFailure then Spooled else Failure;
      }
      if told == Spooled {
        spoolQueue := spoolQueue + [Item(counter, m, 1)];
      } else if told == Failure {
        returned := returned + {counter};
      }
      handed := handed + [m];
      counter := counter + 1;
    }

    /** The start of a pass; one that finds another running, or nothing to do, returns at once. */
    method StartPass() returns (started: bool)
      requires Valid()
      modifies this
      ensures Valid() && State() == Next(old(State()), BeginPass)
      ensures started <==> old(!isProcessingSpool && spoolQueue != [])
    {
      started := !isProcessingSpool && |spoolQueue| != 0;
      if started {
        isProcessingSpool, cursor, remaining, processedCount := true, 0, [], 0;
      }
    }

    /** What a pass does with one answer of the provider, up to its next wait or its end. */
    method HandleReply(reply: Reply)
      requires Valid() && isProcessingSpool && cursor < |spoolQueue|
      modifies this
      ensures Valid() && State() == Next(old(State()), Process(reply))
    {
      var item := spoolQueue[cursor];
      match reply {
        case NoProvider =>
          remaining := remaining + [item];
          cursor := cursor + 1;
        case Sent =>
          processedCount := processedCount + 1;
          delivered := delivered + [item];
          cursor := cursor + 1;
        case ThrewNothing =>
          spoolQueue := spoolQueue[cursor := item.(attempts := item.attempts + 1)];
          isProcessingSpool := false;
        case _ =>
          item := item.(attempts := item.attempts + 1);
          spoolQueue := spoolQueue[cursor := item];
          if item.attempts < 5 {
            remaining := remaining + [item];
          } else {
            dropped := dropped + [item];
          }
          cursor := cursor + 1;
      }
    }

    method FinishPass() returns (processed: nat, left: nat)
      requires Valid() && isProcessingSpool && cursor >= |spoolQueue|
      modifies this
      ensures Valid() && State() == Next(old(State()), EndPass)
      ensures processed == old(processedCount) && left == |spoolQueue| && spoolQueue == old(remaining)
    {
      spoolQueue := remaining;
      isProcessingSpool := false;
      processed, left := processedCount, |spoolQueue|;
    }
  }
}

/** Write-behind persistence: debounced saves, one encryption queue, renames that retry, and the flush at shutdown. */
module WriteBehind {
  import opened Wrappers

  type Domain = string

  /** A snapshot on its way to disk; versions count the mutations of a database. */
  datatype Write = Write(domain: Domain, version: nat)

  /** The open databases, their last accepted save, the dirty domains, the armed timers, the snapshots at the encryption
      thread in the order they were sent, the renames waiting to be tried again, the temporary files, and the files. */
  datatype Manager = Manager(
    memory: map<Domain, nat>, saved: map<Domain, nat>,
    dirty: set<Domain>, timers: set<Domain>,
    queue: seq<Write>, waiting: seq<Domain>, temp: map<Domain, nat>, disk: map<Domain, nat>)

  /** How an attempt to move the temporary file over the database file ends. */
  datatype Attempt = Moved | Busy | Broken

  datatype Step =
    | Mutate(domain: Domain)
    | Save(domain: Domain, immediate: bool)
    | Fire(domain: Domain)
    | Answer(encrypted: bool, attempt: Attempt)
    | Retry(waiting: nat, attempt: Attempt)
    | Flush

  function Get(m: map<Domain, nat>, d: Domain): nat {
    if d in m then m[d] else 0
  }

  function Without<T>(s: seq<T>, i: nat): seq<T>
    requires i < |s|
  {
    s[..i] + s[i + 1..]
  }

  function MovedOver(m: Manager, d: Domain): Manager
    requires d in m.temp
  {
    m.(disk := m.disk[d := m.temp[d]], temp := m.temp - {d})
  }

  /** The encryption thread answers its requests in order; the answer is written and moved before anything else
      happens. */
  function Answered(m: Manager, encrypted: bool, attempt: Attempt): Manager
    requires m.queue != []
  {
    if encrypted then Attempted(Written(m), m.queue[0].domain, attempt) else m.(queue := m.queue[1..])
  }

  /** The oldest snapshot is in its temporary file. */
  function Written(m: Manager): Manager
    requires m.queue != []
  {
    var w := m.queue[0];
    m.(queue := m.queue[1..], temp := m.temp[w.domain := w.version])
  }

  function Attempted(m: Manager, d: Domain, attempt: Attempt): Manager
    requires d in m.temp
  {
    match attempt
    case Moved => MovedOver(m, d)
    case Busy => m.(waiting := m.waiting + [d])
    case Broken => m
  }

  /** A retry finds what the temporary file holds by then; one whose file is gone ends. */
  function Retried(m: Manager, i: nat, attempt: Attempt): Manager
    requires i < |m.waiting|
  {
    var d := m.waiting[i];
    if attempt == Busy && d in m.temp then m
    else
      var t := m.(waiting := Without(m.waiting, i));
      if attempt == Moved && d in m.temp then MovedOver(t, d) else t
  }

  function Next(m: Manager, step: Step): Manager {
    match step
    case Mutate(d) => if d in m.memory then m.(memory := m.memory[d := m.memory[d] + 1]) else m
    case Save(d, immediate) =>
      if d !in m.memory then m
      else if immediate then
        m.(saved := m.saved[d := m.memory[d]], dirty := m.dirty - {d}, timers := m.timers - {d},
           queue := m.queue + [Write(d, m.memory[d])])
      else m.(saved := m.saved[d := m.memory[d]], dirty := m.dirty + {d}, timers := m.timers + {d})
    case Fire(d) =>
      if d !in m.timers then m
      else if d in m.dirty && d in m.memory then
        m.(dirty := m.dirty - {d}, timers := m.timers - {d}, queue := m.queue + [Write(d, m.memory[d])])
      else m.(dirty := m.dirty - {d}, timers := m.timers - {d})
    case Answer(encrypted, attempt) => if m.queue != [] then Answered(m, encrypted, attempt) else m
    case Retry(i, attempt) => if i < |m.waiting| then Retried(m, i, attempt) else m
    case Flush => m.(dirty := {}, timers := {}, disk := m.disk + m.memory)
  }

  function Run(m: Manager, steps: seq<Step>): Manager
    decreases steps
  {
    if steps == [] then m else Run(Next(m, steps[0]), steps[1..])
  }

  // ----- what lands in the end -----

  /** The last snapshot of d in the queue. */
  function LastOf(queue: seq<Write>, d: Domain): Option<nat> {
    if queue == [] then None
    else
      var last := queue[|queue| - 1];
      if last.domain == d then Some(last.version) else LastOf(queue[..|queue| - 1], d)
  }

  predicate Queued(queue: seq<Write>, d: Domain) {
    LastOf(queue, d).Some?
  }

  /** A rename that will be tried again finds d's temporary file. */
  predicate Awaited(m: Manager, d: Domain) {
    d in m.waiting && d in m.temp
  }

  /** What d's file holds when the renames that wait have ended well. */
  function Settles(m: Manager, d: Domain): nat {
    if Awaited(m, d) then m.temp[d] else Get(m.disk, d)
  }

  /** What d's file holds when nothing more is started and whatever is under way has ended well. */
  function Lands(m: Manager, d: Domain): nat {
    if Queued(m.queue, d) then LastOf(m.queue, d).value else Settles(m, d)
  }

  lemma {:induction false} LastOfTail(queue: seq<Write>, d: Domain)
    requires queue != []
    ensures LastOf(queue, d) == if Queued(queue[1..], d) then LastOf(queue[1..], d)
                                else if queue[0].domain == d then Some(queue[0].version) else None
    decreases queue
  {
    if |queue| > 1 {
      var front := queue[..|queue| - 1];
      assert queue[1..][..|queue| - 2] == front[1..];
      LastOfTail(front, d);
    }
  }

  lemma {:induction false} LastOfAt(queue: seq<Write>, d: Domain)
    ensures Queued(queue, d) ==> Write(d, LastOf(queue, d).value) in queue
    ensures !Queued(queue, d) ==> forall w :: w in queue ==> w.domain != d
    decreases queue
  {
    if queue != [] {
      LastOfAt(queue[..|queue| - 1], d);
      assert queue == queue[..|queue| - 1] + [queue[|queue| - 1]];
    }
  }

  lemma LastOfSnoc(queue: seq<Write>, w: Write, d: Domain)
    ensures LastOf(queue + [w], d) == if w.domain == d then Some(w.version) else LastOf(queue, d)
  {
    assert (queue + [w])[..|queue|] == queue;
  }

  lemma WithoutMembers<T>(s: seq<T>, i: nat)
    requires i < |s|
    ensures forall x :: x in Without(s, i) ==> x in s
    ensures forall x :: x in s && x != s[i] ==> x in Without(s, i)
  {
    assert s == s[..i] + [s[i]] + s[i + 1..];
  }

  /** A write that goes on without failing for good. */
  predicate GoesWell(step: Step) {
    match step
    case Answer(encrypted, attempt) => encrypted && attempt != Broken
    case Retry(_, attempt) => attempt != Broken
    case _ => false
  }

  lemma AnswerLands(m: Manager, attempt: Attempt, d: Domain)
    requires m.queue != [] && attempt != Broken
    ensures Lands(Answered(m, true, attempt), d) == Lands(m, d)
  {
    var w := m.queue[0];
    LastOfTail(m.queue, d);
    assert forall x :: x in m.waiting + [w.domain] <==> x in m.waiting || x == w.domain;
  }

  lemma RetryLands(m: Manager, i: nat, attempt: Attempt, d: Domain)
    requires i < |m.waiting| && (attempt != Broken || m.waiting[i] != d)
    ensures Lands(Retried(m, i, attempt), d) == Lands(m, d)
  {
    WithoutMembers(m.waiting, i);
    assert m.waiting[i] in m.waiting;
  }

  /** However the writes under way go on, each file ends with what lands in it. */
  lemma {:induction false} LandsIsOutcome(m: Manager, steps: seq<Step>, d: Domain)
    requires forall step :: step in steps ==> GoesWell(step)
    ensures Lands(Run(m, steps), d) == Lands(m, d)
    ensures Run(m, steps).queue == [] && Run(m, steps).waiting == [] ==> Get(Run(m, steps).disk, d) == Lands(m, d)
    decreases steps
  {
    if steps != [] {
      assert GoesWell(steps[0]);
      match steps[0] {
        case Answer(_, attempt) => if m.queue != [] { AnswerLands(m, attempt, d); }
        case Retry(i, attempt) => if i < |m.waiting| { RetryLands(m, i, attempt, d); }
        case _ =>
      }
      LandsIsOutcome(Next(m, steps[0]), steps[1..], d);
    }
  }

  // ----- accepted saves -----

  /** Dirty domains have timers, and nothing is newer than the memory. */
  ghost predicate Tidy(m: Manager) {
    && m.dirty == m.timers && m.timers <= m.memory.Keys
    && (forall d :: Get(m.saved, d) <= Get(m.memory, d) && Get(m.disk, d) <= Get(m.memory, d))
    && (forall d :: Get(m.temp, d) <= Get(m.memory, d))
    && (forall w :: w in m.queue ==> w.version <= Get(m.memory, w.domain))
  }

  /** The last accepted save of d is behind a timer or lands. */
  predicate Kept(m: Manager, d: Domain) {
    d in m.timers || Get(m.saved, d) <= Lands(m, d)
  }

  ghost predicate Inv(m: Manager) {
    Tidy(m) && forall d :: Kept(m, d)
  }

  /** A write that fails for good was spare for the last accepted save, and what is under way at a flush, and lands over
      what it writes, holds that save. */
  ghost predicate Safe(m: Manager, step: Step) {
    match step
    case Answer(encrypted, attempt) =>
      m.queue != [] && (encrypted ==> attempt == Broken) ==>
        var d := m.queue[0].domain;
        || d in m.timers || Queued(m.queue[1..], d)
        || (if encrypted then d in m.waiting || Get(m.saved, d) <= Get(m.disk, d) else Get(m.saved, d) <= Settles(m, d))
    case Retry(i, attempt) =>
      i < |m.waiting| && attempt == Broken ==>
        var d := m.waiting[i];
        || d in m.timers || Queued(m.queue, d) || Get(m.saved, d) <= Get(m.disk, d) || d in Without(m.waiting, i)
    case Flush => forall d :: Queued(m.queue, d) || Awaited(m, d) ==> Get(m.saved, d) <= Lands(m, d)
    case _ => true
  }

  lemma PoppedTidy(m: Manager)
    requires Tidy(m) && m.queue != []
    ensures Tidy(m.(queue := m.queue[1..]))
  {
    assert forall w :: w in m.queue[1..] ==> w in m.queue;
  }

  lemma WrittenTidy(m: Manager)
    requires Tidy(m) && m.queue != []
    ensures Tidy(Written(m))
  {
    PoppedTidy(m);
    assert m.queue[0] in m.queue;
  }

  lemma MovedTidy(m: Manager, d: Domain)
    requires Tidy(m) && d in m.temp
    ensures Tidy(MovedOver(m, d))
  {
    assert m.temp[d] == Get(m.temp, d);
  }

  lemma AnswerTidy(m: Manager, encrypted: bool, attempt: Attempt)
    requires Tidy(m) && m.queue != []
    ensures Tidy(Answered(m, encrypted, attempt))
  {
    PoppedTidy(m);
    WrittenTidy(m);
    MovedTidy(Written(m), m.queue[0].domain);
  }

  lemma RetryTidy(m: Manager, i: nat, attempt: Attempt)
    requires Tidy(m) && i < |m.waiting|
    ensures Tidy(Retried(m, i, attempt))
  {
    var d, t := m.waiting[i], m.(waiting := Without(m.waiting, i));
    if d in m.temp { MovedTidy(t, d); }
  }

  lemma StepTidy(m: Manager, step: Step)
    requires Tidy(m)
    ensures Tidy(Next(m, step))
  {
    match step
    case Answer(encrypted, attempt) => if m.queue != [] { AnswerTidy(m, encrypted, attempt); }
    case Retry(i, attempt) => if i < |m.waiting| { RetryTidy(m, i, attempt); }
    case _ =>
  }

  lemma StartKeeps(m: Manager, w: Write, m': Manager)
    requires Inv(m) && w == Write(w.domain, Get(m.memory, w.domain)) && m'.queue == m.queue + [w]
    requires m'.timers == m.timers - {w.domain}
    requires m'.waiting == m.waiting && m'.temp == m.temp && m'.disk == m.disk
    requires m'.saved == m.saved || m'.saved == m.saved[w.domain := w.version]
    ensures forall d :: Kept(m', d)
  {
    forall d ensures Kept(m', d) {
      assert Kept(m, d);
      LastOfSnoc(m.queue, w, d);
    }
  }

  lemma SaveKeeps(m: Manager, d: Domain, immediate: bool)
    requires Inv(m) && d in m.memory
    ensures forall e :: Kept(Next(m, Save(d, immediate)), e)
  {
    var m' := Next(m, Save(d, immediate));
    if immediate {
      StartKeeps(m, Write(d, m.memory[d]), m');
    } else {
      forall e ensures Kept(m', e) { assert Kept(m, e); }
    }
  }

  lemma AnswerExactly(m: Manager, encrypted: bool, attempt: Attempt)
    requires Inv(m) && m.queue != []
    ensures (forall d :: Kept(Answered(m, encrypted, attempt), d)) <==> Safe(m, Answer(encrypted, attempt))
  {
    var m', head := Answered(m, encrypted, attempt), m.queue[0].domain;
    forall d ensures d != head || (encrypted && attempt != Broken) ==> Kept(m', d) {
      AnswerKeepsOthers(m, encrypted, attempt, d);
    }
    if encrypted ==> attempt == Broken { HeadExactly(m, encrypted, attempt); }
  }

  lemma AnswerKeepsOthers(m: Manager, encrypted: bool, attempt: Attempt, d: Domain)
    requires m.queue != [] && Kept(m, d)
    ensures d != m.queue[0].domain || (encrypted && attempt != Broken) ==> Kept(Answered(m, encrypted, attempt), d)
  {
    LastOfTail(m.queue, d);
    if encrypted && attempt != Broken { AnswerLands(m, attempt, d); }
  }

  /** When the head of the queue fails for good, its save is kept exactly if it does not depend on it. */
  lemma HeadExactly(m: Manager, encrypted: bool, attempt: Attempt)
    requires m.queue != [] && Kept(m, m.queue[0].domain) && (encrypted ==> attempt == Broken)
    ensures Kept(Answered(m, encrypted, attempt), m.queue[0].domain) <==> Safe(m, Answer(encrypted, attempt))
  {
    LastOfTail(m.queue, m.queue[0].domain);
  }

  lemma RetryExactly(m: Manager, i: nat, attempt: Attempt)
    requires Inv(m) && i < |m.waiting|
    ensures (forall d :: Kept(Retried(m, i, attempt), d)) <==> Safe(m, Retry(i, attempt))
  {
    var m' := Retried(m, i, attempt);
    forall d ensures d != m.waiting[i] || attempt != Broken ==> Kept(m', d) {
      assert Kept(m, d);
      if d != m.waiting[i] || attempt != Broken { RetryLands(m, i, attempt, d); }
    }
    if attempt == Broken { BrokenExactly(m, i); }
  }

  /** A waiting rename that fails for good. */
  lemma BrokenExactly(m: Manager, i: nat)
    requires i < |m.waiting| && Kept(m, m.waiting[i])
    ensures Kept(Retried(m, i, Broken), m.waiting[i]) <==> Safe(m, Retry(i, Broken))
  {
    assert m.waiting[i] in m.waiting;
    WithoutMembers(m.waiting, i);
  }

  lemma FlushExactly(m: Manager)
    requires Inv(m)
    ensures (forall d :: Kept(Next(m, Flush), d)) <==> Safe(m, Flush)
  {
    var m' := Next(m, Flush);
    forall d ensures Kept(m', d) <==> (Queued(m.queue, d) || Awaited(m, d) ==> Get(m.saved, d) <= Lands(m, d)) {
      assert Get(m.saved, d) <= Get(m.memory, d);
    }
  }

  /** A step keeps every accepted save exactly when it is safe. */
  lemma StepExactly(m: Manager, step: Step)
    requires Inv(m)
    ensures Inv(Next(m, step)) <==> Safe(m, step)
  {
    StepTidy(m, step);
    match step
    case Mutate(_) => forall d ensures Kept(Next(m, step), d) { assert Kept(m, d); }
    case Save(d, immediate) => if d in m.memory { SaveKeeps(m, d, immediate); }
    case Fire(d) => if d in m.timers { StartKeeps(m, Write(d, m.memory[d]), Next(m, step)); }
    case Answer(encrypted, attempt) => if m.queue != [] { AnswerExactly(m, encrypted, attempt); }
    case Retry(i, attempt) => if i < |m.waiting| { RetryExactly(m, i, attempt); }
    case Flush => FlushExactly(m);
  }

  ghost predicate SafeRun(m: Manager, steps: seq<Step>)
    decreases steps
  {
    steps == [] || (Safe(m, steps[0]) && SafeRun(Next(m, steps[0]), steps[1..]))
  }

  /** Nothing is under way: no timer, no snapshot at the encryption thread, no rename to be tried again. */
  predicate Quiet(m: Manager) {
    m.timers == {} && m.queue == [] && m.waiting == []
  }

  /** No accepted save is lost: once nothing is under way, the disk holds each of them. */
  lemma {:induction false} NoLostSave(m: Manager, steps: seq<Step>)
    requires Inv(m) && SafeRun(m, steps)
    ensures var r := Run(m, steps);
            && Inv(r) && r.dirty == r.timers
            && (Quiet(r) ==> forall d :: Get(r.saved, d) <= Get(r.disk, d) <= Get(r.memory, d))
    decreases steps
  {
    if steps == [] {
      if Quiet(m) {
        forall d ensures Get(m.saved, d) <= Get(m.disk, d) { assert Kept(m, d); }
      }
    } else {
      StepExactly(m, steps[0]);
      NoLostSave(Next(m, steps[0]), steps[1..]);
    }
  }

  /** Neither a flush nor a write that fails for good. */
  predicate Ordinary(step: Step) {
    step.Mutate? || step.Save? || step.Fire? || GoesWell(step)
  }

  /** Without them every run is safe: overlapping writes, retries and their shared temporary file lose nothing. */
  lemma {:induction false} OrdinaryRunsAreSafe(m: Manager, steps: seq<Step>)
    requires Inv(m) && forall step :: step in steps ==> Ordinary(step)
    ensures SafeRun(m, steps)
    decreases steps
  {
    if steps != [] {
      assert Ordinary(steps[0]) && Safe(m, steps[0]);
      StepExactly(m, steps[0]);
      OrdinaryRunsAreSafe(Next(m, steps[0]), steps[1..]);
    }
  }

  // ----- files that only go forward -----

  ghost predicate Rising(s: seq<Write>) {
    forall i, j :: 0 <= i < j < |s| && s[i].domain == s[j].domain ==> s[i].version <= s[j].version
  }

  /** From the file over the temporary file to the queue versions only rise. */
  ghost predicate Ordered(m: Manager) {
    && Tidy(m) && Rising(m.queue)
    && (forall w :: w in m.queue ==> Get(m.disk, w.domain) <= w.version && Get(m.temp, w.domain) <= w.version)
    && (forall d :: Awaited(m, d) ==> Get(m.disk, d) <= m.temp[d])
  }

  /** A flush finds nothing older than the memory under way. */
  ghost predicate UpToDate(m: Manager) {
    && (forall w :: w in m.queue ==> w.version == Get(m.memory, w.domain))
    && (forall d :: Awaited(m, d) ==> m.temp[d] == Get(m.memory, d))
  }

  lemma HeadFacts(m: Manager)
    requires Ordered(m) && m.queue != []
    ensures var w := m.queue[0];
            && Get(m.disk, w.domain) <= w.version && Get(m.temp, w.domain) <= w.version
            && (forall x :: x in m.queue[1..] ==> x in m.queue && (x.domain == w.domain ==> w.version <= x.version))
            && Rising(m.queue[1..])
  {
    var w := m.queue[0];
    assert w in m.queue && m.queue == [w] + m.queue[1..];
    forall x | x in m.queue[1..] ensures x in m.queue && (x.domain == w.domain ==> w.version <= x.version) {
      var j :| 0 < j < |m.queue| && m.queue[j] == x;
    }
  }

  lemma StartOrdered(m: Manager, w: Write)
    requires Ordered(m) && w.version == Get(m.memory, w.domain)
    ensures Rising(m.queue + [w])
    ensures forall x :: x in m.queue + [w] ==>
              Get(m.disk, x.domain) <= x.version && Get(m.temp, x.domain) <= x.version
  {
    forall i | 0 <= i < |m.queue| && m.queue[i].domain == w.domain ensures m.queue[i].version <= w.version {
      assert m.queue[i] in m.queue;
    }
  }

  lemma PoppedOrdered(m: Manager)
    requires Ordered(m) && m.queue != []
    ensures Ordered(m.(queue := m.queue[1..]))
  {
    PoppedTidy(m);
    HeadFacts(m);
  }

  lemma WrittenOrdered(m: Manager)
    requires Ordered(m) && m.queue != []
    ensures var t, d := Written(m), m.queue[0].domain; Ordered(t) && Get(t.disk, d) <= t.temp[d]
  {
    PoppedOrdered(m);
    WrittenTidy(m);
    HeadFacts(m);
  }

  lemma MovedOrdered(m: Manager, d: Domain)
    requires Ordered(m) && d in m.temp && Get(m.disk, d) <= m.temp[d]
    ensures Ordered(MovedOver(m, d))
  {
    MovedTidy(m, d);
  }

  lemma BusyOrdered(m: Manager, d: Domain)
    requires Ordered(m) && d in m.temp && Get(m.disk, d) <= m.temp[d]
    ensures Ordered(m.(waiting := m.waiting + [d]))
  {
    var t := m.(waiting := m.waiting + [d]);
    forall e | Awaited(t, e) ensures Get(t.disk, e) <= t.temp[e] { assert e == d || Awaited(m, e); }
  }

  lemma AnswerOrdered(m: Manager, encrypted: bool, attempt: Attempt)
    requires Ordered(m) && m.queue != []
    ensures Ordered(Answered(m, encrypted, attempt))
  {
    var d := m.queue[0].domain;
    PoppedOrdered(m);
    WrittenOrdered(m);
    MovedOrdered(Written(m), d);
    BusyOrdered(Written(m), d);
  }

  lemma RetryOrdered(m: Manager, i: nat, attempt: Attempt)
    requires Ordered(m) && i < |m.waiting|
    ensures Ordered(Retried(m, i, attempt))
  {
    var d, t := m.waiting[i], m.(waiting := Without(m.waiting, i));
    WithoutMembers(m.waiting, i);
    assert forall e :: Awaited(t, e) ==> Awaited(m, e);
    assert Ordered(t);
    if d in m.temp {
      assert Awaited(m, d);
      MovedOrdered(t, d);
    }
  }

  lemma FlushOrdered(m: Manager)
    requires Ordered(m)
    ensures Ordered(Next(m, Flush)) <==> UpToDate(m)
  {
    var m' := Next(m, Flush);
    StepTidy(m, Flush);
    assert forall d :: d in m.memory ==> Get(m'.disk, d) == m.memory[d];
    if Ordered(m') {
      forall w | w in m.queue ensures w.version == Get(m.memory, w.domain) {
        assert Get(m'.disk, w.domain) <= w.version;
      }
      forall d | Awaited(m, d) ensures m.temp[d] == Get(m.memory, d) {
        assert Awaited(m', d);
      }
    }
  }

  /** Versions stay in order exactly unless a flush finds something older than the memory under way, however writes
      overlap, wait and fail. */
  lemma OrderExactly(m: Manager, step: Step)
    requires Ordered(m)
    ensures Ordered(Next(m, step)) <==> (step.Flush? ==> UpToDate(m))
  {
    StepTidy(m, step);
    match step
    case Mutate(_) =>
    case Save(d, _) => if d in m.memory { StartOrdered(m, Write(d, m.memory[d])); }
    case Fire(d) => if d in m.timers { StartOrdered(m, Write(d, m.memory[d])); }
    case Answer(encrypted, attempt) => if m.queue != [] { AnswerOrdered(m, encrypted, attempt); }
    case Retry(i, attempt) => if i < |m.waiting| { RetryOrdered(m, i, attempt); }
    case Flush => FlushOrdered(m);
  }

  ghost predicate OrderedRun(m: Manager, steps: seq<Step>)
    decreases steps
  {
    steps == [] || ((steps[0].Flush? ==> UpToDate(m)) && OrderedRun(Next(m, steps[0]), steps[1..]))
  }

  lemma StepGoesForward(m: Manager, step: Step, d: Domain)
    requires Ordered(m)
    ensures Get(m.disk, d) <= Get(Next(m, step).disk, d)
  {
    if step.Answer? && m.queue != [] { HeadFacts(m); }
    if step.Retry? && step.waiting < |m.waiting| && m.waiting[step.waiting] in m.temp {
      assert Awaited(m, m.waiting[step.waiting]);
    }
  }

  /** In a run with such flushes no file ever goes back to an older snapshot, however its writes overlap. */
  lemma {:induction false} FilesGoForward(m: Manager, steps: seq<Step>, d: Domain)
    requires Ordered(m) && OrderedRun(m, steps)
    ensures Get(m.disk, d) <= Get(Run(m, steps).disk, d)
    decreases steps
  {
    if steps != [] {
      OrderExactly(m, steps[0]);
      StepGoesForward(m, steps[0], d);
      FilesGoForward(Next(m, steps[0]), steps[1..], d);
    }
  }

  // ----- a flush over a snapshot under way -----

  const OPENED := Manager(map["d" := 1], map[], {}, {}, [], [], map[], map[])

  lemma RunFirst(m: Manager, step: Step, rest: seq<Step>)
    ensures Run(m, [step] + rest) == Run(Next(m, step), rest)
  {
    assert ([step] + rest)[1..] == rest;
  }

  lemma RunThree(m: Manager, a: Step, b: Step, c: Step)
    ensures Run(m, [a, b, c]) == Next(Next(Next(m, a), b), c)
  {
    assert [a, b, c] == [a] + [b, c] && [b, c] == [b] + [c] && [c] == [c] + [];
    RunFirst(m, a, [b, c]);
    RunFirst(Next(m, a), b, [c]);
    RunFirst(Next(Next(m, a), b), c, []);
  }

  lemma SavedTwice()
    ensures Run(OPENED, [Save("d", true), Mutate("d"), Save("d", false)])
         == Manager(map["d" := 2], map["d" := 2], {"d"}, {"d"}, [Write("d", 1)], [], map[], map[])
  {
    var m1 := Manager(map["d" := 1], map["d" := 1], {}, {}, [Write("d", 1)], [], map[], map[]);
    assert Next(OPENED, Save("d", true)) == m1;
    assert Next(m1, Mutate("d")) == m1.(memory := map["d" := 2]);
    RunThree(OPENED, Save("d", true), Mutate("d"), Save("d", false));
  }

  /** A flush while an older snapshot is at the encryption thread: the answer then overwrites what was flushed. */
  lemma FlushOverWriteLosesASave()
    ensures Inv(OPENED)
    ensures var m := Run(OPENED, [Save("d", true), Mutate("d"), Save("d", false)]);
            var r := Next(Next(m, Flush), Answer(true, Moved));
            !Safe(m, Flush) && Quiet(r) && Get(r.disk, "d") < Get(r.saved, "d")
  {
    SavedTwice();
    var m := Manager(map["d" := 2], map["d" := 2], {"d"}, {"d"}, [Write("d", 1)], [], map[], map[]);
    assert Queued(m.queue, "d") && Lands(m, "d") == 1;
    assert [Write("d", 1)][1..] == [];
  }

  // ----- the manager object -----

  class DatabaseManager {
    var databases: map<Domain, nat>
    var dirtyDomains: set<Domain>
    var writeTimers: set<Domain>
    var queue: seq<Write>
    var waiting: seq<Domain>
    var temp: map<Domain, nat>
    var files: map<Domain, nat>
    ghost var saved: map<Domain, nat>

    ghost function State(): Manager
      reads this
    {
      Manager(databases, saved, dirtyDomains, writeTimers, queue, waiting, temp, files)
    }

    method SaveDatabase(domain: Domain, immediate: bool) returns (accepted: bool)
      modifies this
      ensures State() == Next(old(State()), Save(domain, immediate)) && (accepted <==> domain in databases)
    {
      if domain !in databases { return false; }
      saved := saved[domain := databases[domain]];
      if immediate {
        if domain in writeTimers {
          writeTimers := writeTimers - {domain};
        }
        dirtyDomains := dirtyDomains - {domain};
        queue := queue + [Write(domain, databases[domain])];
        return true;
      }
      dirtyDomains := dirtyDomains + {domain};
      if domain !in writeTimers {
        writeTimers := writeTimers + {domain};
      }
      accepted := true;
    }

    method TimerFires(domain: Domain)
      requires domain in writeTimers
      modifies this
      ensures State() == Next(old(State()), Fire(domain))
    {
      writeTimers := writeTimers - {domain};
      if domain in dirtyDomains {
        dirtyDomains := dirtyDomains - {domain};
        if domain in databases {
          queue := queue + [Write(domain, databases[domain])];
        }
      }
    }

    /** A write after its snapshot is encrypted, up to its end or its first wait. */
    method Encrypted(encrypted: bool, attempt: Attempt)
      requires queue != []
      modifies this`queue, this`temp, this`waiting, this`files
      ensures State() == Next(old(State()), Answer(encrypted, attempt))
    {
      var w := queue[0];
      queue := queue[1..];
      if !encrypted { return; }
      temp := temp[w.domain := w.version];
      match attempt
      case Moved =>
        files := files[w.domain := temp[w.domain]];
        temp := temp - {w.domain};
      case Busy => waiting := waiting + [w.domain];
      case Broken =>
    }

    /** A write that waited tries its rename again. */
    method RetryRename(i: nat, attempt: Attempt)
      requires i < |waiting|
      modifies this`temp, this`waiting, this`files
      ensures State() == Next(old(State()), Retry(i, attempt))
    {
      var domain := waiting[i];
      if domain in temp && attempt == Busy { return; }
      waiting := waiting[..i] + waiting[i + 1..];
      if domain in temp && attempt == Moved {
        files := files[domain := temp[domain]];
        temp := temp - {domain};
      }
    }

    method FlushAll()
      modifies this
      ensures State() == Next(old(State()), Flush)
    {
      writeTimers := {};
      dirtyDomains := {};
      var todo := databases.Keys;
      while todo != {}
        invariant todo <= databases.Keys
        invariant files == old(files) + map d | d in databases && d !in todo :: databases[d]
        invariant writeTimers == dirtyDomains == {}
        invariant databases == old(databases) && saved == old(saved)
        invariant queue == old(queue) && waiting == old(waiting) && temp == old(temp)
        decreases todo
      {
        var d :| d in todo;
        files := files[d := databases[d]];
        todo := todo - {d};
      }
      assert databases == map d | d in databases && d !in todo :: databases[d];
    }
  }
}

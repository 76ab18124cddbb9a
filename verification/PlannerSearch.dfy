/** What every call of the planner's search keeps true. */
module PlannerSearch {
  import Versions
  import opened Wrappers
  import opened DependencyPlanner

  /** Consecutive applications are joined by declared dependencies. */
  ghost predicate IsPath(cat: Catalogue, p: seq<Id>) {
    forall i :: 0 <= i < |p| - 1 ==> p[i] in cat && DependsOn(cat[p[i]], p[i + 1])
  }

  ghost predicate ClosedPath(cat: Catalogue, p: seq<Id>) {
    |p| >= 2 && p[0] == p[|p| - 1] && IsPath(cat, p)
  }

  ghost predicate PathBetween(cat: Catalogue, p: seq<Id>, a: Id, b: Id) {
    p != [] && p[0] == a && p[|p| - 1] == b && IsPath(cat, p) && forall x :: x in p ==> !IsCore(x)
  }

  /** Reachable along declared dependencies of applications that are not core modules. */
  ghost predicate Reaches(cat: Catalogue, a: Id, b: Id) {
    exists p :: PathBetween(cat, p, a, b)
  }

  ghost predicate Distinct(s: seq<Id>) {
    forall i, j :: 0 <= i < j < |s| ==> s[i] != s[j]
  }

  /** Applications whose dependencies the search has started to follow. */
  ghost function Expanded(s: Search): set<Id> {
    Elements(s.stack) + Elements(s.order)
  }

  /** An expanded application declares this dependency. */
  ghost predicate Asked(cat: Catalogue, es: set<Id>, a: Id, d: Id, c: string) {
    a in es && a in cat && Dep(d, c) in cat[a].deps
  }

  /** Some declared dependency finds the installed copy good enough. */
  ghost predicate KeptInstalled(cat: Catalogue, inst: Installed, es: set<Id>, d: Id) {
    exists a, c :: Asked(cat, es, a, d, c) && Acceptable(inst, d, c)
  }

  /** The target, or some declared dependency is met by the catalogue's version. */
  ghost predicate OfferedVersionFits(cat: Catalogue, es: set<Id>, target: Id, x: Id) {
    x in cat && (x == target || exists a, c :: Asked(cat, es, a, x, c) && Versions.Satisfies(cat[x].version, c))
  }

  ghost predicate MissingSound(cat: Catalogue, es: set<Id>, target: Id, m: Missing) {
    && m.id !in cat && !IsCore(m.id)
    && (m.from.None? ==> m.id == target)
    && (m.from.Some? ==> exists c :: Asked(cat, es, m.from.value, m.id, c))
  }

  ghost predicate ClashSound(cat: Catalogue, inst: Installed, es: set<Id>, k: Clash) {
    && k.id in cat && Asked(cat, es, k.from, k.id, k.constraint)
    && !Versions.Satisfies(cat[k.id].version, k.constraint) && !Acceptable(inst, k.id, k.constraint)
  }

  ghost predicate ReportsSound(cat: Catalogue, inst: Installed, target: Id, s: Search) {
    && (forall c :: c in s.cycles ==> ClosedPath(cat, c) && Elements(c) <= Expanded(s))
    && (forall m :: m in s.missing ==> MissingSound(cat, Expanded(s), target, m))
    && (forall k :: k in s.clashes ==> ClashSound(cat, inst, Expanded(s), k))
  }

  ghost predicate ShapeOk(cat: Catalogue, target: Id, s: Search) {
    && Distinct(s.stack) && Distinct(s.order)
    && Elements(s.stack) !! s.done && Elements(s.order) <= s.done
    && (forall x :: x in Expanded(s) ==> x in cat && !IsCore(x))
    && IsPath(cat, s.stack) && (s.stack != [] ==> s.stack[0] == target)
  }

  /** Everything finished is planned, reported, or kept as installed. */
  ghost predicate DoneExplained(cat: Catalogue, inst: Installed, s: Search) {
    forall d :: d in s.done ==>
      d in s.order || s.missing != [] || s.clashes != [] || KeptInstalled(cat, inst, Expanded(s), d)
  }

  /** A dependency of the application at position p is settled before p. */
  ghost predicate SettledBefore(s: Search, p: nat, d: Id)
    requires p <= |s.order|
  {
    IsCore(d) || d in s.order[..p] || (d in s.done && d !in s.order) || s.cycles != []
  }

  ghost predicate Topological(cat: Catalogue, s: Search) {
    forall p, e :: 0 <= p < |s.order| && s.order[p] in cat && e in cat[s.order[p]].deps ==> SettledBefore(s, p, e.id)
  }

  ghost predicate PlannedJustified(cat: Catalogue, target: Id, s: Search) {
    && (forall x :: x in s.order ==> Reaches(cat, target, x))
    && (forall x :: x in Expanded(s) ==> OfferedVersionFits(cat, Expanded(s), target, x))
  }

  ghost predicate Good(cat: Catalogue, inst: Installed, target: Id, s: Search) {
    && ShapeOk(cat, target, s) && DoneExplained(cat, inst, s) && Topological(cat, s)
    && PlannedJustified(cat, target, s) && ReportsSound(cat, inst, target, s)
  }

  /** What one call adds: nothing is retracted and nothing finished before is planned. */
  ghost predicate Extends(s: Search, r: Search) {
    && s.order <= r.order && s.done <= r.done && r.stack == s.stack
    && s.cycles <= r.cycles && s.missing <= r.missing && s.clashes <= r.clashes
    && (forall x :: x in r.order ==> x in s.order || x !in s.done)
  }

  /** How the search calls itself: for the target first, then for a dependency of the top of the stack. */
  ghost predicate Called(cat: Catalogue, target: Id, s: Search, id: Id, c: string, from: Option<Id>) {
    match from
    case None => s.stack == [] && id == target
    case Some(a) => s.stack != [] && s.stack[|s.stack| - 1] == a && a in cat && Dep(id, c) in cat[a].deps
  }

  ghost predicate Answered(r: Search, id: Id) {
    IsCore(id) || id in r.done || r.cycles != []
  }

  ghost predicate Step(cat: Catalogue, inst: Installed, target: Id, s: Search, r: Search, id: Id) {
    Good(cat, inst, target, r) && Extends(s, r) && Answered(r, id)
  }

  // ----- monotonicity -----

  lemma ExpandedGrows(cat: Catalogue, inst: Installed, target: Id, s: Search, es: set<Id>)
    requires Good(cat, inst, target, s) && Expanded(s) <= es
    ensures forall d :: d in s.done ==>
              d in s.order || s.missing != [] || s.clashes != [] || KeptInstalled(cat, inst, es, d)
    ensures forall x :: x in Expanded(s) ==> OfferedVersionFits(cat, es, target, x)
    ensures forall c :: c in s.cycles ==> ClosedPath(cat, c) && Elements(c) <= es
    ensures forall m :: m in s.missing ==> MissingSound(cat, es, target, m)
    ensures forall k :: k in s.clashes ==> ClashSound(cat, inst, es, k)
  {
    forall d | d in s.done && KeptInstalled(cat, inst, Expanded(s), d) ensures KeptInstalled(cat, inst, es, d) {
      var a, c :| Asked(cat, Expanded(s), a, d, c) && Acceptable(inst, d, c);
      assert Asked(cat, es, a, d, c);
    }
    forall x | x in Expanded(s) ensures OfferedVersionFits(cat, es, target, x) {
      if x != target {
        var a, c :| Asked(cat, Expanded(s), a, x, c) && Versions.Satisfies(cat[x].version, c);
        assert Asked(cat, es, a, x, c);
      }
    }
    forall m | m in s.missing ensures MissingSound(cat, es, target, m) {
      if m.from.Some? {
        var c :| Asked(cat, Expanded(s), m.from.value, m.id, c);
        assert Asked(cat, es, m.from.value, m.id, c);
      }
    }
  }

  // ----- the cases that end at once -----

  /** From an application on the stack to its top and back is a closed path. */
  lemma CycleIsClosed(cat: Catalogue, target: Id, s: Search, id: Id, k: nat)
    requires ShapeOk(cat, target, s) && k < |s.stack| && s.stack[k] == id
    requires var a := s.stack[|s.stack| - 1]; a in cat && DependsOn(cat[a], id)
    ensures ClosedPath(cat, s.stack[k..] + [id]) && Elements(s.stack[k..] + [id]) <= Elements(s.stack)
  {
    var cycle := s.stack[k..] + [id];
    forall i | 0 <= i < |cycle| - 1 ensures cycle[i] in cat && DependsOn(cat[cycle[i]], cycle[i + 1]) {
      assert cycle[i] == s.stack[k + i];
      if i + 1 < |cycle| - 1 { assert cycle[i + 1] == s.stack[k + i + 1]; }
    }
  }

  lemma CycleCase(cat: Catalogue, inst: Installed, target: Id, s: Search, id: Id, c: string, from: Option<Id>)
    requires Good(cat, inst, target, s) && Called(cat, target, s, id, c, from) && id in s.stack
    ensures Step(cat, inst, target, s, s.(cycles := s.cycles + [s.stack[IndexOf(s.stack, id)..] + [id]]), id)
  {
    var k := IndexOf(s.stack, id);
    assert DependsOn(cat[s.stack[|s.stack| - 1]], id);
    CycleIsClosed(cat, target, s, id, k);
    CycleAdded(cat, inst, target, s, s.stack[k..] + [id]);
  }

  lemma CycleAdded(cat: Catalogue, inst: Installed, target: Id, s: Search, cycle: seq<Id>)
    requires Good(cat, inst, target, s) && ClosedPath(cat, cycle) && Elements(cycle) <= Elements(s.stack)
    ensures Good(cat, inst, target, s.(cycles := s.cycles + [cycle]))
  {
    var r := s.(cycles := s.cycles + [cycle]);
    assert Expanded(r) == Expanded(s);
    assert PlannedJustified(cat, target, r);
    assert Topological(cat, r);
  }

  lemma AcceptCase(cat: Catalogue, inst: Installed, target: Id, s: Search, id: Id, c: string, from: Option<Id>)
    requires Good(cat, inst, target, s) && Called(cat, target, s, id, c, from)
    requires from.Some? && id !in s.stack && id !in s.done && Acceptable(inst, id, c)
    ensures Step(cat, inst, target, s, s.(done := s.done + {id}), id)
  {
    assert Asked(cat, Expanded(s), from.value, id, c);
    var r := s.(done := s.done + {id});
    assert Expanded(r) == Expanded(s);
    TopologicalKept(cat, s, r);
  }

  lemma MissingCase(cat: Catalogue, inst: Installed, target: Id, s: Search, id: Id, c: string,
      from: Option<Id>)
    requires Good(cat, inst, target, s) && Called(cat, target, s, id, c, from)
    requires !IsCore(id) && id !in s.stack && id !in s.done && id !in cat
    ensures Step(cat, inst, target, s, s.(missing := s.missing + [Missing(id, from)], done := s.done + {id}), id)
  {
    if from.Some? { assert Asked(cat, Expanded(s), from.value, id, c); }
    var r := s.(missing := s.missing + [Missing(id, from)], done := s.done + {id});
    assert Expanded(r) == Expanded(s);
    TopologicalKept(cat, s, r);
  }

  lemma ClashCase(cat: Catalogue, inst: Installed, target: Id, s: Search, id: Id, c: string, from: Option<Id>)
    requires Good(cat, inst, target, s) && Called(cat, target, s, id, c, from) && from.Some?
    requires id !in s.stack && id !in s.done && id in cat
    requires !Acceptable(inst, id, c) && !Versions.Satisfies(cat[id].version, c)
    ensures Step(cat, inst, target, s, s.(clashes := s.clashes + [Clash(id, c, from.value)], done := s.done + {id}), id)
  {
    assert Asked(cat, Expanded(s), from.value, id, c);
    var r := s.(clashes := s.clashes + [Clash(id, c, from.value)], done := s.done + {id});
    assert Expanded(r) == Expanded(s);
    TopologicalKept(cat, s, r);
  }

  /** Finishing an application that is not planned unsettles nothing. */
  lemma TopologicalKept(cat: Catalogue, s: Search, r: Search)
    requires Topological(cat, s) && r.order == s.order && s.done <= r.done && s.cycles == r.cycles
    ensures Topological(cat, r)
  {
    forall p, e | 0 <= p < |r.order| && r.order[p] in cat && e in cat[r.order[p]].deps
      ensures SettledBefore(r, p, e.id)
    {
      assert SettledBefore(s, p, e.id);
    }
  }

  // ----- going down and coming back -----

  lemma PushShape(cat: Catalogue, target: Id, s: Search, id: Id, c: string, from: Option<Id>)
    requires ShapeOk(cat, target, s) && Called(cat, target, s, id, c, from)
    requires !IsCore(id) && id !in s.stack && id !in s.done && id in cat
    ensures ShapeOk(cat, target, s.(stack := s.stack + [id]))
    ensures Expanded(s.(stack := s.stack + [id])) == Expanded(s) + {id}
  {
    var r := s.(stack := s.stack + [id]);
    assert Elements(r.stack) == Elements(s.stack) + {id};
    assert IsPath(cat, r.stack) by {
      if from.Some? { assert DependsOn(cat[from.value], id); }
    }
  }

  lemma PushTopological(cat: Catalogue, s: Search, id: Id)
    requires Topological(cat, s)
    ensures Topological(cat, s.(stack := s.stack + [id]))
  {
    var r := s.(stack := s.stack + [id]);
    forall p, e | 0 <= p < |r.order| && r.order[p] in cat && e in cat[r.order[p]].deps
      ensures SettledBefore(r, p, e.id)
    {
      assert SettledBefore(s, p, e.id);
    }
  }

  lemma PushCase(cat: Catalogue, inst: Installed, target: Id, s: Search, id: Id, c: string, from: Option<Id>)
    requires Good(cat, inst, target, s) && Called(cat, target, s, id, c, from)
    requires !IsCore(id) && id !in s.stack && id !in s.done && id in cat
    requires from.Some? ==> Versions.Satisfies(cat[id].version, c)
    ensures Good(cat, inst, target, s.(stack := s.stack + [id]))
  {
    var r := s.(stack := s.stack + [id]);
    PushShape(cat, target, s, id, c, from);
    PushTopological(cat, s, id);
    ExpandedGrows(cat, inst, target, s, Expanded(r));
    assert OfferedVersionFits(cat, Expanded(r), target, id) by {
      if from.Some? { assert Asked(cat, Expanded(r), from.value, id, c); }
    }
  }

  function Popped(t: Search, id: Id): Search
    requires t.stack != []
  {
    t.(stack := t.stack[..|t.stack| - 1], done := t.done + {id}, order := t.order + [id])
  }

  lemma PopShape(cat: Catalogue, target: Id, t: Search)
    requires ShapeOk(cat, target, t) && t.stack != []
    ensures ShapeOk(cat, target, Popped(t, t.stack[|t.stack| - 1]))
    ensures Expanded(Popped(t, t.stack[|t.stack| - 1])) == Expanded(t)
  {
    var id := t.stack[|t.stack| - 1];
    var r := Popped(t, id);
    assert t.stack == r.stack + [id];
    assert Elements(t.stack) == Elements(r.stack) + {id};
    assert Elements(r.order) == Elements(t.order) + {id};
    assert id in Elements(t.stack);
    assert id !in Elements(t.order);
    forall i, j | 0 <= i < j < |r.order| ensures r.order[i] != r.order[j] {
      if j == |t.order| { assert r.order[i] in Elements(t.order); }
    }
  }

  lemma PopTopological(cat: Catalogue, t: Search, id: Id)
    requires Topological(cat, t) && t.stack != [] && id in cat && id !in t.done
    requires forall e :: e in cat[id].deps ==> Answered(t, e.id)
    ensures Topological(cat, Popped(t, id))
  {
    var r := Popped(t, id);
    forall p, e | 0 <= p < |r.order| && r.order[p] in cat && e in cat[r.order[p]].deps
      ensures SettledBefore(r, p, e.id)
    {
      if p < |t.order| {
        assert SettledBefore(t, p, e.id);
        assert r.order[..p] == t.order[..p];
      } else {
        assert r.order[..p] == t.order;
      }
    }
  }

  lemma PopCase(cat: Catalogue, inst: Installed, target: Id, t: Search, id: Id)
    requires Good(cat, inst, target, t) && t.stack != [] && t.stack[|t.stack| - 1] == id
    requires id in cat && forall e :: e in cat[id].deps ==> Answered(t, e.id)
    ensures Good(cat, inst, target, Popped(t, id))
  {
    var r := Popped(t, id);
    PopShape(cat, target, t);
    assert id in Elements(t.stack);
    PopTopological(cat, t, id);
    assert forall x :: x in t.stack ==> x in Expanded(t);
    assert PathBetween(cat, t.stack, target, id);
  }

  // ----- the search -----

  lemma {:induction false} VisitGood(cat: Catalogue, inst: Installed, target: Id, s0: Search, id: Id, c: string,
      from: Option<Id>)
    requires Good(cat, inst, target, s0) && Called(cat, target, s0, id, c, from)
    ensures Step(cat, inst, target, s0, Visit(cat, inst, s0, id, c, from), id)
    decreases Unvisited(cat, s0), 1, 0
  {
    var s := s0.(visits := s0.visits + 1);
    GoodForgetsVisits(cat, inst, target, s0, s);
    CalledForgetsVisits(cat, target, s0, s, id, c, from);
    VisitGoodCases(cat, inst, target, s0, s, id, c, from);
    ExtendsForgetsVisits(s0, s, Visit(cat, inst, s0, id, c, from));
  }

  lemma CalledForgetsVisits(cat: Catalogue, target: Id, s: Search, r: Search, id: Id, c: string,
      from: Option<Id>)
    requires Called(cat, target, s, id, c, from) && r == s.(visits := r.visits)
    ensures Called(cat, target, r, id, c, from)
  {
  }

  lemma ExtendsForgetsVisits(s0: Search, s: Search, r: Search)
    requires s == s0.(visits := s.visits) && Extends(s, r)
    ensures Extends(s0, r)
  {
  }

  lemma {:induction false} VisitGoodCases(cat: Catalogue, inst: Installed, target: Id, s0: Search, s: Search, id: Id,
      c: string, from: Option<Id>)
    requires s == s0.(visits := s0.visits + 1)
    requires Good(cat, inst, target, s) && Called(cat, target, s, id, c, from)
    ensures Step(cat, inst, target, s, Visit(cat, inst, s0, id, c, from), id)
    decreases Unvisited(cat, s0), 0, 3
  {
    if IsCore(id) {
      assert Step(cat, inst, target, s, s, id);
    } else if id in s.stack {
      CycleCase(cat, inst, target, s, id, c, from);
    } else if id in s.done {
      assert Step(cat, inst, target, s, s, id);
    } else {
      assert Unvisited(cat, s) == Unvisited(cat, s0);
      NewVisitGood(cat, inst, target, s0, s, id, c, from);
    }
  }

  /** The call for an application met for the first time. */
  lemma {:induction false} NewVisitGood(cat: Catalogue, inst: Installed, target: Id, s0: Search, s: Search, id: Id,
      c: string, from: Option<Id>)
    requires s == s0.(visits := s0.visits + 1)
    requires Good(cat, inst, target, s) && Called(cat, target, s, id, c, from)
    requires !IsCore(id) && id !in s.stack && id !in s.done
    ensures Step(cat, inst, target, s, Visit(cat, inst, s0, id, c, from), id)
    decreases Unvisited(cat, s), 0, 2
  {
    if from.Some? && Acceptable(inst, id, c) {
      AcceptCase(cat, inst, target, s, id, c, from);
    } else if id !in cat {
      MissingCase(cat, inst, target, s, id, c, from);
    } else if from.Some? && !Versions.Satisfies(cat[id].version, c) {
      ClashCase(cat, inst, target, s, id, c, from);
    } else {
      VisitExpands(cat, inst, s0, s, id, c, from);
      DescendGood(cat, inst, target, s, id, c, from);
    }
  }

  predicate Descends(cat: Catalogue, inst: Installed, s: Search, id: Id, c: string, from: Option<Id>) {
    && !IsCore(id) && id !in s.stack && id !in s.done && id in cat
    && !(from.Some? && Acceptable(inst, id, c)) && (from.Some? ==> Versions.Satisfies(cat[id].version, c))
  }

  lemma VisitExpands(cat: Catalogue, inst: Installed, s0: Search, s: Search, id: Id, c: string,
      from: Option<Id>)
    requires s == s0.(visits := s0.visits + 1) && Descends(cat, inst, s, id, c, from)
    ensures id in Unvisited(cat, s) && Visit(cat, inst, s0, id, c, from) == Expand(cat, inst, s, id)
  {
  }

  lemma {:induction false} DescendGood(cat: Catalogue, inst: Installed, target: Id, s: Search, id: Id, c: string,
      from: Option<Id>)
    requires Good(cat, inst, target, s) && Called(cat, target, s, id, c, from)
    requires Descends(cat, inst, s, id, c, from) && id in Unvisited(cat, s)
    ensures Step(cat, inst, target, s, Expand(cat, inst, s, id), id)
    decreases Unvisited(cat, s), 0, 1
  {
    PushCase(cat, inst, target, s, id, c, from);
    ExpandGood(cat, inst, target, s, id);
  }

  lemma GoodForgetsVisits(cat: Catalogue, inst: Installed, target: Id, s: Search, r: Search)
    requires Good(cat, inst, target, s) && r == s.(visits := r.visits)
    ensures Good(cat, inst, target, r)
  {
    assert Expanded(r) == Expanded(s);
    TopologicalKept(cat, s, r);
  }

  lemma {:induction false} ExpandGood(cat: Catalogue, inst: Installed, target: Id, s: Search, id: Id)
    requires id in Unvisited(cat, s) && Good(cat, inst, target, s.(stack := s.stack + [id]))
    ensures Step(cat, inst, target, s, Expand(cat, inst, s, id), id)
    decreases Unvisited(cat, s), 0, 0
  {
    var pushed := s.(stack := s.stack + [id]);
    assert id !in Unvisited(cat, pushed) && Unvisited(cat, pushed) <= Unvisited(cat, s);
    VisitAllGood(cat, inst, target, pushed, cat[id].deps, id);
    var t := VisitAll(cat, inst, pushed, cat[id].deps, id);
    PopCase(cat, inst, target, t, id);
    assert Expand(cat, inst, s, id) == Popped(t, id);
    assert Popped(t, id).stack == s.stack;
  }

  lemma {:induction false} VisitAllGood(cat: Catalogue, inst: Installed, target: Id, s: Search, deps: seq<Dep>,
      from: Id)
    requires Good(cat, inst, target, s) && s.stack != [] && s.stack[|s.stack| - 1] == from
    requires from in cat && forall e :: e in deps ==> e in cat[from].deps
    ensures var r := VisitAll(cat, inst, s, deps, from);
            Good(cat, inst, target, r) && Extends(s, r) && forall e :: e in deps ==> Answered(r, e.id)
    decreases Unvisited(cat, s), 1, |deps| + 1
  {
    if deps != [] {
      var e := deps[0];
      assert e in deps && Dep(e.id, e.constraint) == e;
      VisitGood(cat, inst, target, s, e.id, e.constraint, Some(from));
      var t := Visit(cat, inst, s, e.id, e.constraint, Some(from));
      assert Unvisited(cat, t) <= Unvisited(cat, s);
      VisitAllGood(cat, inst, target, t, deps[1..], from);
      assert deps == [e] + deps[1..];
    }
  }

  /** The whole search for one target. */
  lemma SearchedGood(cat: Catalogue, inst: Installed, target: Id)
    ensures var r := Searched(cat, inst, target);
            Good(cat, inst, target, r) && r.stack == [] && Answered(r, target)
  {
    VisitGood(cat, inst, target, START, target, "*", None);
  }
}

/** The calls of the planner's search in the order they are made, and what the first call for an application decides. */
module PlannerFirstVisits {
  import Versions
  import opened Wrappers
  import opened DependencyPlanner
  import opened PlannerSearch
  import opened PlannerTheorems

  /** One call: for which application, under which constraint, required by whom. */
  datatype Call = Call(from: Option<Id>, id: Id, constraint: string)

  function Calls(cat: Catalogue, inst: Installed, s0: Search, id: Id, c: string, from: Option<Id>): seq<Call>
    decreases Unvisited(cat, s0), 1, 0
  {
    var s := s0.(visits := s0.visits + 1);
    [Call(from, id, c)] +
    if !Descends(cat, inst, s, id, c, from) then []
    else
      var pushed := s.(stack := s.stack + [id]);
      assert id in Unvisited(cat, s0) && id !in Unvisited(cat, pushed) && Unvisited(cat, pushed) <= Unvisited(cat, s0);
      CallsOfAll(cat, inst, pushed, cat[id].deps, id)
  }

  function CallsOfAll(cat: Catalogue, inst: Installed, s: Search, deps: seq<Dep>, from: Id): seq<Call>
    decreases Unvisited(cat, s), 1, |deps| + 1
  {
    if deps == [] then []
    else
      var t := Visit(cat, inst, s, deps[0].id, deps[0].constraint, Some(from));
      assert Unvisited(cat, t) <= Unvisited(cat, s);
      Calls(cat, inst, s, deps[0].id, deps[0].constraint, Some(from)) +
        CallsOfAll(cat, inst, t, deps[1..], from)
  }

  /** The calls listed are as many as the search counts. */
  lemma {:induction false} CallsCounted(
    cat: Catalogue, inst: Installed, s0: Search, id: Id, c: string, from: Option<Id>)
    ensures Visit(cat, inst, s0, id, c, from).visits == s0.visits + |Calls(cat, inst, s0, id, c, from)|
    decreases Unvisited(cat, s0), 1, 0
  {
    var s := s0.(visits := s0.visits + 1);
    assert Unvisited(cat, s) == Unvisited(cat, s0);
    if Descends(cat, inst, s, id, c, from) {
      DescentCount(cat, inst, s0, s, id, c, from);
      PushShrinks(cat, s, id);
      AllCallsCounted(cat, inst, s.(stack := s.stack + [id]), cat[id].deps, id);
    } else {
      VisitEnds(cat, inst, s0, id, c, from);
    }
  }

  lemma DescentCount(
    cat: Catalogue, inst: Installed, s0: Search, s: Search, id: Id, c: string, from: Option<Id>)
    requires s == s0.(visits := s0.visits + 1) && Descends(cat, inst, s, id, c, from)
    ensures id in Unvisited(cat, s)
    ensures var pushed, deps := s.(stack := s.stack + [id]), cat[id].deps;
            && Visit(cat, inst, s0, id, c, from).visits == VisitAll(cat, inst, pushed, deps, id).visits
            && |Calls(cat, inst, s0, id, c, from)| == 1 + |CallsOfAll(cat, inst, pushed, deps, id)|
  {
    VisitExpands(cat, inst, s0, s, id, c, from);
  }

  lemma PushShrinks(cat: Catalogue, s: Search, id: Id)
    requires id in Unvisited(cat, s)
    ensures Unvisited(cat, s.(stack := s.stack + [id])) < Unvisited(cat, s)
  {
    var pushed := s.(stack := s.stack + [id]);
    assert id !in Unvisited(cat, pushed) && Unvisited(cat, pushed) <= Unvisited(cat, s);
  }

  lemma VisitEnds(cat: Catalogue, inst: Installed, s0: Search, id: Id, c: string, from: Option<Id>)
    requires !Descends(cat, inst, s0.(visits := s0.visits + 1), id, c, from)
    ensures Visit(cat, inst, s0, id, c, from).visits == s0.visits + 1
    ensures |Calls(cat, inst, s0, id, c, from)| == 1
  {
  }

  lemma {:induction false} AllCallsCounted(cat: Catalogue, inst: Installed, s: Search, deps: seq<Dep>, from: Id)
    ensures VisitAll(cat, inst, s, deps, from).visits == s.visits + |CallsOfAll(cat, inst, s, deps, from)|
    decreases Unvisited(cat, s), 1, |deps| + 1
  {
    if deps != [] {
      CallsCounted(cat, inst, s, deps[0].id, deps[0].constraint, Some(from));
      var t := Visit(cat, inst, s, deps[0].id, deps[0].constraint, Some(from));
      assert Unvisited(cat, t) <= Unvisited(cat, s);
      AllCallsCounted(cat, inst, t, deps[1..], from);
    }
  }

  // ----- the first call for an application -----

  predicate CalledFor(calls: seq<Call>, d: Id) {
    exists e <- calls :: e.id == d
  }

  function First(calls: seq<Call>, d: Id): (e: Call)
    requires CalledFor(calls, d)
    ensures e in calls && e.id == d
  {
    if calls[0].id == d then calls[0] else First(calls[1..], d)
  }

  lemma {:induction false} FirstStays(calls: seq<Call>, more: seq<Call>, d: Id)
    requires CalledFor(calls, d)
    ensures CalledFor(calls + more, d) && First(calls + more, d) == First(calls, d)
  {
    var e :| e in calls && e.id == d;
    assert e in calls + more;
    if calls[0].id != d {
      assert (calls + more)[1..] == calls[1..] + more;
      FirstStays(calls[1..], more, d);
    }
  }

  lemma {:induction false} FirstIsNew(calls: seq<Call>, e: Call)
    requires !CalledFor(calls, e.id)
    ensures CalledFor(calls + [e], e.id) && First(calls + [e], e.id) == e
  {
    assert e in calls + [e];
    if calls != [] {
      assert calls[0] in calls && calls[0].id != e.id;
      assert (calls + [e])[1..] == calls[1..] + [e];
      assert forall x :: x in calls[1..] ==> x in calls;
      FirstIsNew(calls[1..], e);
    } else {
      assert [] + [e] == [e];
    }
  }

  /** The call, made for an application neither finished nor on the stack, plans it. */
  predicate Plans(cat: Catalogue, inst: Installed, e: Call) {
    && e.id in cat && !(e.from.Some? && Acceptable(inst, e.id, e.constraint))
    && (e.from.Some? ==> Versions.Satisfies(cat[e.id].version, e.constraint))
  }

  predicate Keeps(inst: Installed, e: Call) {
    e.from.Some? && Acceptable(inst, e.id, e.constraint)
  }

  predicate Begun(s: Search, d: Id) {
    d in s.stack || d in s.done
  }

  /** The first call for an application decided what the search did with it. */
  ghost predicate Decided(cat: Catalogue, inst: Installed, s: Search, calls: seq<Call>, d: Id)
    requires CalledFor(calls, d)
  {
    var e := First(calls, d);
    && (d in s.stack || d in s.order ==> Plans(cat, inst, e))
    && (d !in s.stack && d !in s.order ==> Keeps(inst, e) || s.missing != [] || s.clashes != [])
  }

  ghost predicate Declared(cat: Catalogue, target: Id, s: Search, e: Call) {
    match e.from
    case None => e.id == target
    case Some(a) => Asked(cat, Expanded(s), a, e.id, e.constraint)
  }

  ghost predicate FirstsDecide(cat: Catalogue, inst: Installed, target: Id, s: Search, calls: seq<Call>) {
    && (forall d :: !IsCore(d) ==> (CalledFor(calls, d) <==> Begun(s, d)))
    && (forall d :: !IsCore(d) && CalledFor(calls, d) ==> Decided(cat, inst, s, calls, d))
    && (forall e :: e in calls ==> Declared(cat, target, s, e))
  }

  /** A call that changes no application's fate. */
  lemma RepeatedCall(cat: Catalogue, inst: Installed, target: Id, s: Search, r: Search, calls: seq<Call>, e: Call)
    requires FirstsDecide(cat, inst, target, s, calls) && Declared(cat, target, s, e)
    requires IsCore(e.id) || Begun(s, e.id)
    requires r.stack == s.stack && r.order == s.order && r.done == s.done
    requires r.missing == s.missing && r.clashes == s.clashes
    ensures FirstsDecide(cat, inst, target, r, calls + [e])
  {
    forall d | !IsCore(d)
      ensures CalledFor(calls + [e], d) <==> Begun(r, d)
      ensures CalledFor(calls + [e], d) ==> Decided(cat, inst, r, calls + [e], d)
    {
      if CalledFor(calls, d) { FirstStays(calls, [e], d); }
      if CalledFor(calls + [e], d) && d != e.id {
        var x :| x in calls + [e] && x.id == d;
        assert x in calls;
      }
    }
    assert Expanded(r) == Expanded(s);
    assert forall x :: x in calls + [e] ==> x in calls || x == e;
  }

  /** A call for an application met for the first time, with the state it leads to. */
  lemma NewCall(cat: Catalogue, inst: Installed, target: Id, s: Search, r: Search, calls: seq<Call>, e: Call)
    requires FirstsDecide(cat, inst, target, s, calls) && Declared(cat, target, s, e)
    requires !IsCore(e.id) && !Begun(s, e.id) && Expanded(s) <= Expanded(r)
    requires forall d :: Begun(r, d) <==> Begun(s, d) || d == e.id
    requires forall d :: d != e.id ==> (d in r.stack <==> d in s.stack) && (d in r.order <==> d in s.order)
    requires s.missing <= r.missing && s.clashes <= r.clashes
    requires if e.id in r.stack || e.id in r.order then Plans(cat, inst, e)
             else Keeps(inst, e) || r.missing != [] || r.clashes != []
    ensures FirstsDecide(cat, inst, target, r, calls + [e])
  {
    FirstIsNew(calls, e);
    forall d | !IsCore(d)
      ensures CalledFor(calls + [e], d) <==> Begun(r, d)
      ensures CalledFor(calls + [e], d) ==> Decided(cat, inst, r, calls + [e], d)
    {
      if CalledFor(calls, d) { FirstStays(calls, [e], d); }
      if CalledFor(calls + [e], d) && d != e.id {
        var x :| x in calls + [e] && x.id == d;
        assert x in calls;
      }
    }
    assert forall x :: x in calls + [e] ==> x in calls || x == e;
  }

  /** Finishing the application on top of the stack. */
  lemma PoppedDecides(cat: Catalogue, inst: Installed, target: Id, t: Search, id: Id, calls: seq<Call>)
    requires FirstsDecide(cat, inst, target, t, calls) && t.stack != [] && t.stack[|t.stack| - 1] == id
    requires ShapeOk(cat, target, t)
    ensures FirstsDecide(cat, inst, target, Popped(t, id), calls)
  {
    var r := Popped(t, id);
    PopShape(cat, target, t);
    forall d | !IsCore(d)
      ensures Begun(r, d) <==> Begun(t, d)
      ensures CalledFor(calls, d) ==> Decided(cat, inst, r, calls, d)
    {
      PopMoves(t, id, d);
      if CalledFor(calls, d) { assert Decided(cat, inst, t, calls, d); }
    }
  }

  /** An application moves from the top of the stack to the plan. */
  lemma PopMoves(t: Search, id: Id, d: Id)
    requires t.stack != [] && t.stack[|t.stack| - 1] == id
    ensures Begun(Popped(t, id), d) <==> Begun(t, d)
    ensures d in Popped(t, id).stack || d in Popped(t, id).order <==> d in t.stack || d in t.order
    ensures Popped(t, id).missing == t.missing && Popped(t, id).clashes == t.clashes
  {
    var r := Popped(t, id);
    assert t.stack == r.stack + [id];
    assert d in t.stack <==> d in r.stack || d == id;
  }

  // ----- the search -----

  lemma {:induction false} VisitDecides(
    cat: Catalogue, inst: Installed, target: Id, s0: Search, id: Id, c: string, from: Option<Id>,
    calls: seq<Call>)
    requires Good(cat, inst, target, s0) && Called(cat, target, s0, id, c, from)
    requires FirstsDecide(cat, inst, target, s0, calls)
    ensures FirstsDecide(cat, inst, target, Visit(cat, inst, s0, id, c, from),
        calls + Calls(cat, inst, s0, id, c, from))
    decreases Unvisited(cat, s0), 1, 0
  {
    var s := s0.(visits := s0.visits + 1);
    var e := Call(from, id, c);
    CalledIsDeclared(cat, target, s0, id, c, from);
    if Descends(cat, inst, s, id, c, from) {
      VisitExpands(cat, inst, s0, s, id, c, from);
      assert Unvisited(cat, s) == Unvisited(cat, s0);
      GoodForgetsVisits(cat, inst, target, s0, s);
      CalledForgetsVisits(cat, target, s0, s, id, c, from);
      PushCase(cat, inst, target, s, id, c, from);
      PushedDecides(cat, inst, target, s0, s, e, calls);
      ExpandDecides(cat, inst, target, s, id, calls + [e]);
      CallsDescend(cat, inst, s0, s, id, c, from, calls);
    } else {
      assert Calls(cat, inst, s0, id, c, from) == [e];
      EndsDecide(cat, inst, target, s0, id, c, from, calls);
    }
  }

  lemma CalledIsDeclared(cat: Catalogue, target: Id, s: Search, id: Id, c: string, from: Option<Id>)
    requires Called(cat, target, s, id, c, from)
    ensures Declared(cat, target, s, Call(from, id, c))
  {
  }

  lemma CallsDescend(
    cat: Catalogue, inst: Installed, s0: Search, s: Search, id: Id, c: string, from: Option<Id>,
    calls: seq<Call>)
    requires s == s0.(visits := s0.visits + 1) && Descends(cat, inst, s, id, c, from)
    ensures calls + [Call(from, id, c)] + CallsOfAll(cat, inst, s.(stack := s.stack + [id]), cat[id].deps, id)
         == calls + Calls(cat, inst, s0, id, c, from)
  {
  }

  lemma PushedDecides(
    cat: Catalogue, inst: Installed, target: Id, s0: Search, s: Search, e: Call, calls: seq<Call>)
    requires s == s0.(visits := s0.visits + 1) && Descends(cat, inst, s, e.id, e.constraint, e.from)
    requires FirstsDecide(cat, inst, target, s0, calls) && Declared(cat, target, s0, e)
    ensures FirstsDecide(cat, inst, target, s.(stack := s.stack + [e.id]), calls + [e])
  {
    var r := s.(stack := s.stack + [e.id]);
    assert forall d :: d in r.stack <==> d in s0.stack || d == e.id;
    NewCall(cat, inst, target, s0, r, calls, e);
  }

  /** The calls that end at once. */
  lemma EndsDecide(
    cat: Catalogue, inst: Installed, target: Id, s0: Search, id: Id, c: string, from: Option<Id>,
    calls: seq<Call>)
    requires ShapeOk(cat, target, s0) && FirstsDecide(cat, inst, target, s0, calls)
    requires Declared(cat, target, s0, Call(from, id, c))
    requires !Descends(cat, inst, s0.(visits := s0.visits + 1), id, c, from)
    ensures FirstsDecide(cat, inst, target, Visit(cat, inst, s0, id, c, from), calls + [Call(from, id, c)])
  {
    var r, e := Visit(cat, inst, s0, id, c, from), Call(from, id, c);
    if IsCore(id) || Begun(s0, id) {
      RepeatedCall(cat, inst, target, s0, r, calls, e);
    } else {
      assert id !in Elements(s0.order) && id !in s0.order;
      NewCall(cat, inst, target, s0, r, calls, e);
    }
  }

  lemma {:induction false} ExpandDecides(cat: Catalogue, inst: Installed, target: Id, s: Search, id: Id,
      calls: seq<Call>)
    requires id in Unvisited(cat, s) && Good(cat, inst, target, s.(stack := s.stack + [id]))
    requires FirstsDecide(cat, inst, target, s.(stack := s.stack + [id]), calls)
    ensures FirstsDecide(cat, inst, target, Expand(cat, inst, s, id),
                         calls + CallsOfAll(cat, inst, s.(stack := s.stack + [id]), cat[id].deps, id))
    decreases Unvisited(cat, s), 0, 0
  {
    var pushed := s.(stack := s.stack + [id]);
    assert id !in Unvisited(cat, pushed) && Unvisited(cat, pushed) <= Unvisited(cat, s);
    VisitAllGood(cat, inst, target, pushed, cat[id].deps, id);
    VisitAllDecides(cat, inst, target, pushed, cat[id].deps, id, calls);
    var t := VisitAll(cat, inst, pushed, cat[id].deps, id);
    PoppedDecides(cat, inst, target, t, id, calls + CallsOfAll(cat, inst, pushed, cat[id].deps, id));
    assert Expand(cat, inst, s, id) == Popped(t, id);
  }

  lemma CallsOfAllNext(cat: Catalogue, inst: Installed, s: Search, deps: seq<Dep>, from: Id, calls: seq<Call>)
    requires deps != []
    ensures var e, a := deps[0], Some(from);
            var t := Visit(cat, inst, s, e.id, e.constraint, a);
            && calls + Calls(cat, inst, s, e.id, e.constraint, a) + CallsOfAll(cat, inst, t, deps[1..], from)
            == calls + CallsOfAll(cat, inst, s, deps, from)
            && VisitAll(cat, inst, s, deps, from) == VisitAll(cat, inst, t, deps[1..], from)
            && t.stack == s.stack && Unvisited(cat, t) <= Unvisited(cat, s)
  {
  }

  /** The search follows these dependencies of the application on top of its stack. */
  ghost predicate Follows(cat: Catalogue, inst: Installed, target: Id, s: Search, deps: seq<Dep>, from: Id) {
    && Good(cat, inst, target, s) && s.stack != [] && s.stack[|s.stack| - 1] == from
    && from in cat && (forall e :: e in deps ==> e in cat[from].deps)
  }

  lemma FollowsRest(
    cat: Catalogue, inst: Installed, target: Id, s: Search, t: Search, deps: seq<Dep>, from: Id)
    requires Follows(cat, inst, target, s, deps, from) && deps != [] && t.stack == s.stack && Good(cat, inst, target, t)
    ensures Follows(cat, inst, target, t, deps[1..], from)
  {
    assert forall x :: x in deps[1..] ==> x in deps;
  }

  lemma {:induction false} VisitAllDecides(
    cat: Catalogue, inst: Installed, target: Id, s: Search, deps: seq<Dep>, from: Id, calls: seq<Call>)
    requires Follows(cat, inst, target, s, deps, from)
    requires FirstsDecide(cat, inst, target, s, calls)
    ensures FirstsDecide(cat, inst, target, VisitAll(cat, inst, s, deps, from),
        calls + CallsOfAll(cat, inst, s, deps, from))
    decreases Unvisited(cat, s), 1, |deps| + 1
  {
    if deps == [] {
      assert calls + [] == calls;
    } else {
      assert deps[0] in deps;
      var t, now := VisitOneDecides(cat, inst, target, s, deps[0], from, calls);
      CallsOfAllNext(cat, inst, s, deps, from, calls);
      FollowsRest(cat, inst, target, s, t, deps, from);
      VisitAllDecides(cat, inst, target, t, deps[1..], from, calls + now);
    }
  }

  lemma {:induction false} VisitOneDecides(
    cat: Catalogue, inst: Installed, target: Id, s: Search, e: Dep, from: Id, calls: seq<Call>)
    returns (t: Search, now: seq<Call>)
    requires Good(cat, inst, target, s) && s.stack != [] && s.stack[|s.stack| - 1] == from
    requires from in cat && e in cat[from].deps && FirstsDecide(cat, inst, target, s, calls)
    ensures t == Visit(cat, inst, s, e.id, e.constraint, Some(from))
    ensures now == Calls(cat, inst, s, e.id, e.constraint, Some(from))
    ensures Good(cat, inst, target, t) && FirstsDecide(cat, inst, target, t, calls + now)
    decreases Unvisited(cat, s), 1, 1
  {
    t := Visit(cat, inst, s, e.id, e.constraint, Some(from));
    now := Calls(cat, inst, s, e.id, e.constraint, Some(from));
    assert Dep(e.id, e.constraint) == e;
    VisitGood(cat, inst, target, s, e.id, e.constraint, Some(from));
    VisitDecides(cat, inst, target, s, e.id, e.constraint, Some(from), calls);
  }

  /** The calls of one planning. */
  function PlanCalls(cat: Catalogue, inst: Installed, target: Id): seq<Call> {
    Calls(cat, inst, START, target, "*", None)
  }

  lemma PlanDecides(cat: Catalogue, inst: Installed, target: Id)
    ensures FirstsDecide(cat, inst, target, Searched(cat, inst, target), PlanCalls(cat, inst, target))
  {
    VisitDecides(cat, inst, target, START, target, "*", None, []);
    assert [] + PlanCalls(cat, inst, target) == PlanCalls(cat, inst, target);
  }

  // ----- what the first call decides -----

  lemma AskedIsBegun(cat: Catalogue, inst: Installed, target: Id, a: Id, d: Id, c: string)
    requires !IsCore(target) && PlanFor(cat, inst, target).ok && !IsCore(d)
    requires Asked(cat, Elements(PlanFor(cat, inst, target).order), a, d, c)
    ensures Begun(Searched(cat, inst, target), d) && d != target
  {
    var r := Searched(cat, inst, target);
    SearchedGood(cat, inst, target);
    OkPlanIsTopological(cat, inst, target);
    var p := IndexOf(r.order, a);
    var e := Dep(d, c);
    assert e in cat[r.order[p]].deps && SettledBefore(r, p, e.id);
    if d in r.order[..p] {
      var q :| 0 <= q < p && r.order[q] == d;
      assert d in Elements(r.order);
      assert r.order[q] != r.order[|r.order| - 1];
    } else {
      assert r.order[|r.order| - 1] in r.order;
    }
  }

  /** The first call for a dependency was made for a planned application that declares it; its constraint holds of the
      version the dependency will have, and decided whether the installed copy is kept. */
  lemma FirstVisitHolds(cat: Catalogue, inst: Installed, target: Id, a: Id, d: Id, c: string)
    requires !IsCore(target) && PlanFor(cat, inst, target).ok && !IsCore(d)
    requires Asked(cat, Elements(PlanFor(cat, inst, target).order), a, d, c)
    ensures CalledFor(PlanCalls(cat, inst, target), d)
    ensures var o, e := PlanFor(cat, inst, target).order, First(PlanCalls(cat, inst, target), d);
            && e.from.Some? && Asked(cat, Elements(o), e.from.value, d, e.constraint)
            && Holds(cat, inst, o, d, e.constraint)
            && (d in o <==> !Acceptable(inst, d, e.constraint)) && (d in o ==> d in cat)
  {
    var r := Searched(cat, inst, target);
    SearchedEnds(cat, inst, target);
    AskedIsBegun(cat, inst, target, a, d, c);
    PlanDecides(cat, inst, target);
    var e := First(PlanCalls(cat, inst, target), d);
    assert Decided(cat, inst, r, PlanCalls(cat, inst, target), d) && Declared(cat, target, r, e);
  }

  /** What a constraint says about an application depends on the first one met: about the installed copy if that
      accepts it, about the catalogue's version if not. */
  predicate MetAfter(cat: Catalogue, inst: Installed, d: Id, first: string, c: string) {
    if Acceptable(inst, d, first) then Acceptable(inst, d, c) else d in cat && Versions.Satisfies(cat[d].version, c)
  }

  /** An ok plan honours every constraint exactly when each is met once the first call for its application has
      decided. */
  lemma HonouredByFirstVisits(cat: Catalogue, inst: Installed, target: Id)
    requires !IsCore(target) && PlanFor(cat, inst, target).ok
    ensures ConstraintsHonoured(cat, inst, PlanFor(cat, inst, target).order)
      <==> FirstVisitsMeet(cat, inst, target)
  {
    var o := PlanFor(cat, inst, target).order;
    forall a, d, c | Asked(cat, Elements(o), a, d, c) && !IsCore(d)
      ensures CalledFor(PlanCalls(cat, inst, target), d)
      ensures Holds(cat, inst, o, d, c)
        <==> MetAfter(cat, inst, d, First(PlanCalls(cat, inst, target), d).constraint, c)
    {
      FirstVisitHolds(cat, inst, target, a, d, c);
    }
  }

  ghost predicate FirstVisitsMeet(cat: Catalogue, inst: Installed, target: Id) {
    forall a, d, c :: Asked(cat, Elements(PlanFor(cat, inst, target).order), a, d, c) && !IsCore(d) ==>
      && CalledFor(PlanCalls(cat, inst, target), d)
      && MetAfter(cat, inst, d, First(PlanCalls(cat, inst, target), d).constraint, c)
  }
}

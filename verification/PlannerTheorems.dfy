/** What an installation plan guarantees, and what its reports mean. */
module PlannerTheorems {
  import Versions
  import opened Wrappers
  import opened DependencyPlanner
  import opened PlannerSearch

  lemma SearchedEnds(cat: Catalogue, inst: Installed, target: Id)
    ensures var r := Searched(cat, inst, target);
            Good(cat, inst, target, r) && r.stack == [] && Expanded(r) == Elements(r.order)
  {
    SearchedGood(cat, inst, target);
  }

  lemma TargetIsLast(cat: Catalogue, inst: Installed, target: Id)
    requires !IsCore(target) && target in cat
    ensures var o := Searched(cat, inst, target).order; o != [] && o[|o| - 1] == target
  {
    var s := START.(visits := 1);
    assert target in Unvisited(cat, s);
    assert Searched(cat, inst, target) == Expand(cat, inst, s, target);
  }

  /** The version an application has once the plan is carried out meets a constraint. */
  ghost predicate Holds(cat: Catalogue, inst: Installed, order: seq<Id>, d: Id, c: string) {
    if d in order then d in cat && Versions.Satisfies(cat[d].version, c) else Acceptable(inst, d, c)
  }

  /** A plan that is ok lists each application once, the target last and reachable ones only, dependencies first. */
  lemma OkPlanIsTopological(cat: Catalogue, inst: Installed, target: Id)
    requires !IsCore(target) && PlanFor(cat, inst, target).ok
    ensures var o := PlanFor(cat, inst, target).order;
            && Distinct(o) && o != [] && o[|o| - 1] == target
            && (forall x :: x in o ==> x in cat && !IsCore(x) && Reaches(cat, target, x))
            && (forall p, e :: 0 <= p < |o| && e in cat[o[p]].deps ==>
                  IsCore(e.id) || e.id in o[..p] || (e.id !in o && KeptInstalled(cat, inst, Elements(o), e.id)))
  {
    SearchedEnds(cat, inst, target);
    var r := Searched(cat, inst, target);
    assert Answered(r, target) by { SearchedGood(cat, inst, target); }
    if target !in cat {
      MissingTarget(cat, inst, target);
    }
    TargetIsLast(cat, inst, target);
    assert forall x :: x in r.order ==> x in Expanded(r);
    forall p, e | 0 <= p < |r.order| && e in cat[r.order[p]].deps
      ensures
        || IsCore(e.id) || e.id in r.order[..p]
        || (e.id !in r.order && KeptInstalled(cat, inst, Elements(r.order), e.id))
    {
      assert SettledBefore(r, p, e.id);
    }
  }

  /** A plan that is ok installs its target, unless that is part of the core, which is never installed. */
  lemma CoreIsNeverPlanned(cat: Catalogue, inst: Installed, target: Id)
    requires PlanFor(cat, inst, target).ok
    ensures target in PlanFor(cat, inst, target).order
      <==> target !in {"", "core", "anagrafica"} && !("core:" <= target)
    ensures forall x :: x in PlanFor(cat, inst, target).order ==> x !in {"", "core", "anagrafica"} && !("core:" <= x)
  {
    if !IsCore(target) {
      OkPlanIsTopological(cat, inst, target);
      var o := PlanFor(cat, inst, target).order;
      assert o[|o| - 1] in o;
    }
  }

  lemma MissingTarget(cat: Catalogue, inst: Installed, target: Id)
    requires !IsCore(target) && target !in cat
    ensures Searched(cat, inst, target).missing == [Missing(target, None)]
  {
  }

  /** Every report of a plan is true of the catalogue and of what is installed. */
  lemma ReportsAreTrue(cat: Catalogue, inst: Installed, target: Id)
    ensures var plan := PlanFor(cat, inst, target);
            var es := Elements(plan.order);
            && (forall c :: c in plan.cycles ==> ClosedPath(cat, c) && Elements(c) <= es)
            && (forall m :: m in plan.missing ==> MissingSound(cat, es, target, m))
            && (forall k :: k in plan.clashes ==> ClashSound(cat, inst, es, k))
  {
    SearchedEnds(cat, inst, target);
  }

  // ----- cycles -----

  /** Along declared dependencies among planned applications positions only go down. */
  lemma {:induction false} PathDescends(cat: Catalogue, target: Id, s: Search, p: seq<Id>, k: nat)
    requires ShapeOk(cat, target, s) && Topological(cat, s) && s.cycles == []
    requires IsPath(cat, p) && Elements(p) <= Elements(s.order) && k < |p|
    ensures p[0] in s.order && p[k] in s.order && IndexOf(s.order, p[k]) + k <= IndexOf(s.order, p[0])
  {
    assert p[0] in Elements(p) && p[k] in Elements(p);
    if k > 0 {
      PathDescends(cat, target, s, p, k - 1);
      assert p[k - 1] in Elements(p);
      var i := IndexOf(s.order, p[k - 1]);
      assert DependsOn(cat[p[k - 1]], p[k - 1 + 1]);
      var e :| e in cat[p[k - 1]].deps && e.id == p[k];
      assert s.order[i] == p[k - 1];
      assert SettledBefore(s, i, e.id);
      assert p[k] in Expanded(s);
      var j :| 0 <= j < i && s.order[j] == p[k];
      FirstIndex(s.order, j);
    }
  }

  lemma {:induction false} FirstIndex(s: seq<Id>, j: nat)
    requires j < |s|
    ensures IndexOf(s, s[j]) <= j
  {
    if s[0] != s[j] {
      assert s[1..][j - 1] == s[j];
      FirstIndex(s[1..], j - 1);
    }
  }

  /** The plan reports a cycle exactly when the applications it followed contain one. */
  lemma CyclesExact(cat: Catalogue, inst: Installed, target: Id)
    ensures var plan := PlanFor(cat, inst, target);
            plan.cycles != [] <==> exists p :: ClosedPath(cat, p) && Elements(p) <= Elements(plan.order)
  {
    var r := Searched(cat, inst, target);
    SearchedEnds(cat, inst, target);
    if r.cycles != [] {
      assert r.cycles[0] in r.cycles;
    } else {
      forall p | ClosedPath(cat, p) && Elements(p) <= Elements(r.order) ensures false {
        PathDescends(cat, target, r, p, |p| - 1);
      }
    }
  }

  // ----- how much the search does -----

  /** The declared dependencies of the listed applications. */
  ghost function EdgesOf(cat: Catalogue, order: seq<Id>): nat {
    if order == [] then 0
    else
      var x := order[|order| - 1];
      EdgesOf(cat, order[..|order| - 1]) + (if x in cat then |cat[x].deps| else 0)
  }

  lemma EdgesAppend(cat: Catalogue, order: seq<Id>, x: Id)
    requires x in cat
    ensures EdgesOf(cat, order + [x]) == EdgesOf(cat, order) + |cat[x].deps|
  {
    assert (order + [x])[..|order|] == order;
  }

  lemma {:induction false} VisitCounts(cat: Catalogue, inst: Installed, s0: Search, id: Id, c: string,
      from: Option<Id>)
    ensures var r := Visit(cat, inst, s0, id, c, from);
            r.visits - s0.visits == 1 + EdgesOf(cat, r.order) - EdgesOf(cat, s0.order)
    decreases Unvisited(cat, s0), 1, 0
  {
    var s := s0.(visits := s0.visits + 1);
    if !IsCore(id) && id in Unvisited(cat, s0) && !(from.Some? && Acceptable(inst, id, c))
       && !(from.Some? && !Versions.Satisfies(cat[id].version, c))
    {
      assert Unvisited(cat, s) == Unvisited(cat, s0);
      ExpandCounts(cat, inst, s, id);
    }
  }

  lemma {:induction false} ExpandCounts(cat: Catalogue, inst: Installed, s: Search, id: Id)
    requires id in Unvisited(cat, s)
    ensures var r := Expand(cat, inst, s, id);
            r.visits - s.visits == EdgesOf(cat, r.order) - EdgesOf(cat, s.order)
    decreases Unvisited(cat, s), 0, 0
  {
    var pushed := s.(stack := s.stack + [id]);
    assert id !in Unvisited(cat, pushed) && Unvisited(cat, pushed) <= Unvisited(cat, s);
    VisitAllCounts(cat, inst, pushed, cat[id].deps, id);
    EdgesAppend(cat, VisitAll(cat, inst, pushed, cat[id].deps, id).order, id);
  }

  lemma {:induction false} VisitAllCounts(cat: Catalogue, inst: Installed, s: Search, deps: seq<Dep>, from: Id)
    ensures var r := VisitAll(cat, inst, s, deps, from);
            r.visits - s.visits == |deps| + EdgesOf(cat, r.order) - EdgesOf(cat, s.order)
    decreases Unvisited(cat, s), 1, |deps| + 1
  {
    if deps != [] {
      VisitCounts(cat, inst, s, deps[0].id, deps[0].constraint, Some(from));
      var t := Visit(cat, inst, s, deps[0].id, deps[0].constraint, Some(from));
      assert Unvisited(cat, t) <= Unvisited(cat, s);
      VisitAllCounts(cat, inst, t, deps[1..], from);
    }
  }

  ghost function AllEdges(cat: Catalogue, ids: set<Id>): nat
    requires ids <= cat.Keys
  {
    if ids == {} then 0 else
      var x :| x in ids;
      |cat[x].deps| + AllEdges(cat, ids - {x})
  }

  lemma {:induction false} AllEdgesPick(cat: Catalogue, ids: set<Id>, y: Id)
    requires ids <= cat.Keys && y in ids
    ensures AllEdges(cat, ids) == |cat[y].deps| + AllEdges(cat, ids - {y})
    decreases ids
  {
    var x :| x in ids && AllEdges(cat, ids) == |cat[x].deps| + AllEdges(cat, ids - {x});
    if x != y {
      AllEdgesPick(cat, ids - {x}, y);
      AllEdgesPick(cat, ids - {y}, x);
      assert ids - {x} - {y} == ids - {y} - {x};
    }
  }

  lemma {:induction false} EdgesBounded(cat: Catalogue, order: seq<Id>, ids: set<Id>)
    requires Distinct(order) && Elements(order) <= ids <= cat.Keys
    ensures EdgesOf(cat, order) <= AllEdges(cat, ids)
  {
    if order != [] {
      var front, x := order[..|order| - 1], order[|order| - 1];
      assert x in Elements(order);
      forall y | y in Elements(front) ensures y in ids - {x} {
        var i :| 0 <= i < |front| && front[i] == y;
        assert order[i] == y && y in Elements(order);
      }
      EdgesBounded(cat, front, ids - {x});
      AllEdgesPick(cat, ids, x);
    }
  }

  /** Each catalogue entry is expanded at most once, and the search makes one call per dependency it follows. */
  lemma SearchEffort(cat: Catalogue, inst: Installed, target: Id)
    ensures var r := Searched(cat, inst, target);
            && Distinct(r.order) && Elements(r.order) <= cat.Keys
            && r.visits == 1 + EdgesOf(cat, r.order) <= 1 + AllEdges(cat, cat.Keys)
  {
    SearchedEnds(cat, inst, target);
    var r := Searched(cat, inst, target);
    assert forall x :: x in r.order ==> x in Expanded(r);
    VisitCounts(cat, inst, START, target, "*", None);
    EdgesBounded(cat, r.order, cat.Keys);
  }

  // ----- version constraints -----

  /** Two dependencies on one application, declared by planned ones, disagree about the version it will have. */
  ghost predicate SplitVerdict(cat: Catalogue, inst: Installed, order: seq<Id>) {
    exists a, b, d, c, c' ::
      && Asked(cat, Elements(order), a, d, c) && Asked(cat, Elements(order), b, d, c') && !IsCore(d)
      && Holds(cat, inst, order, d, c) && !Holds(cat, inst, order, d, c')
  }

  /** Every constraint a planned application declares is met by the version its dependency will have. */
  ghost predicate ConstraintsHonoured(cat: Catalogue, inst: Installed, order: seq<Id>) {
    forall a, d, c :: Asked(cat, Elements(order), a, d, c) && !IsCore(d) ==> Holds(cat, inst, order, d, c)
  }

  /** For each dependency of a planned application some declared constraint holds. */
  lemma SomeConstraintHolds(cat: Catalogue, inst: Installed, target: Id, a: Id, d: Id, c: string)
    returns (b: Id, c': string)
    requires !IsCore(target) && PlanFor(cat, inst, target).ok && !IsCore(d)
    requires Asked(cat, Elements(PlanFor(cat, inst, target).order), a, d, c)
    ensures Asked(cat, Elements(PlanFor(cat, inst, target).order), b, d, c')
    ensures Holds(cat, inst, PlanFor(cat, inst, target).order, d, c')
  {
    var r := Searched(cat, inst, target);
    var o := r.order;
    SearchedEnds(cat, inst, target);
    OkPlanIsTopological(cat, inst, target);
    var p := IndexOf(o, a);
    var e := Dep(d, c);
    assert e in cat[o[p]].deps;
    if d in o[..p] {
      var q :| 0 <= q < p && o[q] == d;
      assert d in Expanded(r) && OfferedVersionFits(cat, Expanded(r), target, d);
      assert d != target;
      b, c' :| Asked(cat, Expanded(r), b, d, c') && Versions.Satisfies(cat[d].version, c');
    } else {
      b, c' :| Asked(cat, Elements(o), b, d, c') && Acceptable(inst, d, c');
    }
  }

  /** An ok plan honours every declared constraint exactly when no two of them disagree on one application. */
  lemma ConstraintsHonouredExactly(cat: Catalogue, inst: Installed, target: Id)
    requires !IsCore(target) && PlanFor(cat, inst, target).ok
    ensures var o := PlanFor(cat, inst, target).order;
            ConstraintsHonoured(cat, inst, o) <==> !SplitVerdict(cat, inst, o)
  {
    var o := PlanFor(cat, inst, target).order;
    if !SplitVerdict(cat, inst, o) {
      forall a, d, c | Asked(cat, Elements(o), a, d, c) && !IsCore(d) ensures Holds(cat, inst, o, d, c) {
        var b, c' := SomeConstraintHolds(cat, inst, target, a, d, c);
      }
    }
  }

  /** In particular when every application is asked for under one constraint only. */
  lemma OneConstraintPerApplication(cat: Catalogue, inst: Installed, target: Id)
    requires !IsCore(target) && PlanFor(cat, inst, target).ok
    requires forall a, b, d, c, c' :: Asked(cat, cat.Keys, a, d, c) && Asked(cat, cat.Keys, b, d, c') ==> c == c'
    ensures ConstraintsHonoured(cat, inst, PlanFor(cat, inst, target).order)
  {
    var o := PlanFor(cat, inst, target).order;
    forall a, d, c | Asked(cat, Elements(o), a, d, c) && !IsCore(d) ensures Holds(cat, inst, o, d, c) {
      var b, c' := SomeConstraintHolds(cat, inst, target, a, d, c);
      assert Asked(cat, cat.Keys, a, d, c) && Asked(cat, cat.Keys, b, d, c');
    }
  }

  /** With nothing installed an ok plan is exactly what is reachable from the target. */
  lemma FreshPlanIsReachable(cat: Catalogue, target: Id)
    requires !IsCore(target) && PlanFor(cat, map[], target).ok
    ensures forall x :: x in PlanFor(cat, map[], target).order <==> Reaches(cat, target, x)
  {
    var o := PlanFor(cat, map[], target).order;
    OkPlanIsTopological(cat, map[], target);
    forall x | Reaches(cat, target, x) ensures x in o {
      var p :| PathBetween(cat, p, target, x);
      PathStaysPlanned(cat, target, p, |p| - 1);
    }
  }

  lemma {:induction false} PathStaysPlanned(cat: Catalogue, target: Id, p: seq<Id>, k: nat)
    requires !IsCore(target) && PlanFor(cat, map[], target).ok
    requires p != [] && p[0] == target && IsPath(cat, p) && (forall x :: x in p ==> !IsCore(x)) && k < |p|
    ensures p[k] in PlanFor(cat, map[], target).order
  {
    var o := PlanFor(cat, map[], target).order;
    OkPlanIsTopological(cat, map[], target);
    if k > 0 {
      PathStaysPlanned(cat, target, p, k - 1);
      var i :| 0 <= i < |o| && o[i] == p[k - 1];
      assert DependsOn(cat[p[k - 1]], p[k - 1 + 1]);
      var e :| e in cat[o[i]].deps && e.id == p[k];
      assert p[k] in p;
    }
  }

  /** Two reachable constraints on one application disagree about its installed copy or about the catalogue's
      version. */
  ghost predicate Contested(cat: Catalogue, inst: Installed, target: Id) {
    exists a, b, d, c, c' ::
      Wants(cat, target, a, d, c) && Wants(cat, target, b, d, c') && !IsCore(d) && Disagree(cat, inst, d, c, c')
  }

  predicate Disagree(cat: Catalogue, inst: Installed, d: Id, c: string, c': string) {
    || (Acceptable(inst, d, c) && !Acceptable(inst, d, c'))
    || (d in cat && Versions.Satisfies(cat[d].version, c) && !Versions.Satisfies(cat[d].version, c'))
  }

  ghost predicate Wants(cat: Catalogue, target: Id, a: Id, d: Id, c: string) {
    Reaches(cat, target, a) && a in cat && Dep(d, c) in cat[a].deps
  }

  lemma FreshAsked(cat: Catalogue, target: Id, a: Id, d: Id, c: string)
    requires !IsCore(target) && PlanFor(cat, map[], target).ok
    ensures Asked(cat, Elements(PlanFor(cat, map[], target).order), a, d, c) <==> Wants(cat, target, a, d, c)
  {
    FreshPlanIsReachable(cat, target);
  }

  lemma FreshDependencyPlanned(cat: Catalogue, target: Id, a: Id, d: Id, c: string)
    requires !IsCore(target) && PlanFor(cat, map[], target).ok && !IsCore(d)
    requires Asked(cat, Elements(PlanFor(cat, map[], target).order), a, d, c)
    ensures d in PlanFor(cat, map[], target).order && d in cat
  {
    var o := PlanFor(cat, map[], target).order;
    OkPlanIsTopological(cat, map[], target);
    var p :| 0 <= p < |o| && o[p] == a;
    assert Dep(d, c) in cat[o[p]].deps;
  }

  /** Whatever is installed: a target whose constraints are not contested, which the inputs decide, is planned well. */
  lemma UncontestedIsHonoured(cat: Catalogue, inst: Installed, target: Id)
    requires !IsCore(target) && PlanFor(cat, inst, target).ok && !Contested(cat, inst, target)
    ensures ConstraintsHonoured(cat, inst, PlanFor(cat, inst, target).order)
  {
    var o := PlanFor(cat, inst, target).order;
    OkPlanIsTopological(cat, inst, target);
    forall a, d, c | Asked(cat, Elements(o), a, d, c) && !IsCore(d) ensures Holds(cat, inst, o, d, c) {
      var b, c' := SomeConstraintHolds(cat, inst, target, a, d, c);
      assert Wants(cat, target, a, d, c) && Wants(cat, target, b, d, c');
      assert !Disagree(cat, inst, d, c', c);
    }
  }

  lemma FreshSplitIsContested(cat: Catalogue, target: Id)
    requires !IsCore(target) && PlanFor(cat, map[], target).ok
    ensures SplitVerdict(cat, map[], PlanFor(cat, map[], target).order) <==> Contested(cat, map[], target)
  {
    var o := PlanFor(cat, map[], target).order;
    forall a, d, c
      ensures Asked(cat, Elements(o), a, d, c) <==> Wants(cat, target, a, d, c)
      ensures Asked(cat, Elements(o), a, d, c) && !IsCore(d) ==> d in o && d in cat
    {
      FreshAsked(cat, target, a, d, c);
      if Asked(cat, Elements(o), a, d, c) && !IsCore(d) { FreshDependencyPlanned(cat, target, a, d, c); }
    }
  }

  /** On a fresh system that is decided by the catalogue alone, before planning. */
  lemma FreshPlanHonoursExactly(cat: Catalogue, target: Id)
    requires !IsCore(target) && PlanFor(cat, map[], target).ok
    ensures ConstraintsHonoured(cat, map[], PlanFor(cat, map[], target).order) <==> !Contested(cat, map[], target)
  {
    ConstraintsHonouredExactly(cat, map[], target);
    FreshSplitIsContested(cat, target);
  }

  /** `a` asks for any b, its other dependency c for b 2; the catalogue has b 1. */
  const CONTESTED := map[
    "a" := Manifest("1", [Dep("b", "*"), Dep("c", "*")]),
    "b" := Manifest("1", []),
    "c" := Manifest("1", [Dep("b", "2")])]

  lemma ContestedFirst()
    ensures Visit(CONTESTED, map[], START.(visits := 1, stack := ["a"]), "b", "*", Some("a"))
         == Search(["b"], [], [], [], {"b"}, ["a"], 2)
  {
    Versions.Wildcard("1");
    var s := START.(visits := 2, stack := ["a"]);
    assert VisitAll(CONTESTED, map[], s.(stack := ["a", "b"]), [], "b") == s.(stack := ["a", "b"]);
    assert s.stack + ["b"] == ["a", "b"] && ["a", "b"][..1] == ["a"];
    assert Expand(CONTESTED, map[], s, "b").order == ["b"];
  }

  lemma ContestedSecond()
    ensures Visit(CONTESTED, map[], Search(["b"], [], [], [], {"b"}, ["a"], 2), "c", "*", Some("a"))
         == Search(["b", "c"], [], [], [], {"b", "c"}, ["a"], 4)
  {
    Versions.Wildcard("1");
    var s := Search(["b"], [], [], [], {"b"}, ["a"], 3);
    var pushed := s.(stack := ["a", "c"]);
    assert Visit(CONTESTED, map[], pushed, "b", "2", Some("c")) == pushed.(visits := 4);
    assert VisitAll(CONTESTED, map[], pushed, [Dep("b", "2")], "c") == pushed.(visits := 4);
    assert s.stack + ["c"] == ["a", "c"] && ["a", "c"][..1] == ["a"];
    assert ["b"] + ["c"] == ["b", "c"];
  }

  lemma ContestedDependencies()
    ensures VisitAll(CONTESTED, map[], START.(visits := 1, stack := ["a"]), [Dep("b", "*"), Dep("c", "*")], "a")
         == Search(["b", "c"], [], [], [], {"b", "c"}, ["a"], 4)
  {
    ContestedFirst();
    ContestedSecond();
    var s2 := Search(["b"], [], [], [], {"b"}, ["a"], 2);
    var s3 := Search(["b", "c"], [], [], [], {"b", "c"}, ["a"], 4);
    var deps := [Dep("b", "*"), Dep("c", "*")];
    assert deps[1..] == [Dep("c", "*")];
    assert VisitAll(CONTESTED, map[], s3, [], "a") == s3;
    assert VisitAll(CONTESTED, map[], s2, [Dep("c", "*")], "a") == s3;
  }

  lemma ContestedPlan()
    ensures PlanFor(CONTESTED, map[], "a").ok && PlanFor(CONTESTED, map[], "a").order == ["b", "c", "a"]
  {
    ContestedDependencies();
    var s := START.(visits := 1);
    assert [] + ["a"] == ["a"] && ["b", "c"] + ["a"] == ["b", "c", "a"];
    assert Expand(CONTESTED, map[], s, "a").order == ["b", "c", "a"];
    assert Searched(CONTESTED, map[], "a") == Expand(CONTESTED, map[], s, "a");
  }

  /** That plan is ok, and leaves c with a b it does not accept. */
  lemma ConstraintsNotAlwaysHonoured()
    ensures PlanFor(CONTESTED, map[], "a").ok
    ensures !ConstraintsHonoured(CONTESTED, map[], PlanFor(CONTESTED, map[], "a").order)
  {
    ContestedPlan();
    Versions.OneDigitConstraint('1', '2');
    var o := ["b", "c", "a"];
    assert "c" in o && "b" in o;
    assert Asked(CONTESTED, Elements(o), "c", "b", "2");
    assert !Holds(CONTESTED, map[], o, "b", "2");
  }

  // ----- an installed copy that only one constraint accepts -----

  /** b 1 is installed and the catalogue has b 2; `a` asks for any b and for c, which asks for b 2. */
  const UPGRADED := map[
    "a" := Manifest("1", [Dep("b", "*"), Dep("c", "*")]),
    "b" := Manifest("2", []),
    "c" := Manifest("1", [Dep("b", "2")])]
  const HAS_B := map["b" := "1"]

  lemma KeepsOldB()
    ensures Visit(UPGRADED, HAS_B, START.(visits := 1, stack := ["a"]), "b", "*", Some("a"))
         == START.(visits := 2, stack := ["a"], done := {"b"})
  {
    Versions.Wildcard("1");
  }

  lemma ExpandsC()
    ensures Expand(UPGRADED, HAS_B, START.(visits := 3, stack := ["a"], done := {"b"}), "c")
         == Search(["c"], [], [], [], {"b", "c"}, ["a"], 4)
  {
    var s := START.(visits := 3, stack := ["a"], done := {"b"});
    var pushed := s.(stack := ["a", "c"]);
    assert Visit(UPGRADED, HAS_B, pushed, "b", "2", Some("c")) == pushed.(visits := 4);
    assert VisitAll(UPGRADED, HAS_B, pushed, [Dep("b", "2")], "c") == pushed.(visits := 4);
    assert s.stack + ["c"] == ["a", "c"] && ["a", "c"][..1] == ["a"] && [] + ["c"] == ["c"];
  }

  lemma PlansC()
    ensures Visit(UPGRADED, HAS_B, START.(visits := 2, stack := ["a"], done := {"b"}), "c", "*", Some("a"))
         == Search(["c"], [], [], [], {"b", "c"}, ["a"], 4)
  {
    Versions.Wildcard("1");
    ExpandsC();
  }

  lemma UpgradedDependencies()
    ensures VisitAll(UPGRADED, HAS_B, START.(visits := 1, stack := ["a"]), [Dep("b", "*"), Dep("c", "*")], "a")
         == Search(["c"], [], [], [], {"b", "c"}, ["a"], 4)
  {
    KeepsOldB();
    PlansC();
    var s2 := START.(visits := 2, stack := ["a"], done := {"b"});
    var s3 := Search(["c"], [], [], [], {"b", "c"}, ["a"], 4);
    assert [Dep("b", "*"), Dep("c", "*")][1..] == [Dep("c", "*")];
    assert VisitAll(UPGRADED, HAS_B, s3, [], "a") == s3;
    assert VisitAll(UPGRADED, HAS_B, s2, [Dep("c", "*")], "a") == s3;
  }

  lemma UpgradedPlan()
    ensures PlanFor(UPGRADED, HAS_B, "a").ok && PlanFor(UPGRADED, HAS_B, "a").order == ["c", "a"]
  {
    UpgradedDependencies();
    var s := START.(visits := 1);
    assert [] + ["a"] == ["a"] && ["c"] + ["a"] == ["c", "a"];
    assert Expand(UPGRADED, HAS_B, s, "a").order == ["c", "a"];
    assert Searched(UPGRADED, HAS_B, "a") == Expand(UPGRADED, HAS_B, s, "a");
  }

  lemma UncontestedWhenFresh()
    ensures !Contested(UPGRADED, map[], "a")
  {
    Versions.Wildcard("1");
    Versions.Wildcard("2");
    Versions.OneDigitConstraint('2', '2');
    forall a, d, c | a in UPGRADED && Dep(d, c) in UPGRADED[a].deps ensures Versions.Satisfies(UPGRADED[d].version, c) {
    }
  }

  /** The plan keeps the installed b 1, which c does not accept, though the catalogue's versions satisfy everybody. */
  lemma InstalledCopyBreaksConstraint()
    ensures PlanFor(UPGRADED, HAS_B, "a").ok && !Contested(UPGRADED, map[], "a")
    ensures !ConstraintsHonoured(UPGRADED, HAS_B, PlanFor(UPGRADED, HAS_B, "a").order)
  {
    UpgradedPlan();
    UncontestedWhenFresh();
    Versions.OneDigitConstraint('1', '2');
    var o := ["c", "a"];
    assert "c" in o && "b" !in o;
    assert Asked(UPGRADED, Elements(o), "c", "b", "2");
    assert !Holds(UPGRADED, HAS_B, o, "b", "2");
  }
}

/** The installation planner: a depth-first search over declared dependencies. */
module DependencyPlanner {
  import Versions
  import opened Wrappers
  import opened Filtering

  type Id = string

  datatype Dep = Dep(id: Id, constraint: string)

  /** A manifest with its dependencies already read; the empty text stands for an absent version. */
  datatype Manifest = Manifest(version: string, deps: seq<Dep>)

  type Catalogue = map<Id, Manifest>

  /** Installed applications and their versions; the empty text stands for an unknown version. */
  type Installed = map<Id, string>

  datatype Missing = Missing(id: Id, from: Option<Id>)
  datatype Clash = Clash(id: Id, constraint: string, from: Id)

  /** The variables the search shares; `visits` counts the calls of the inner function. */
  datatype Search = Search(
    order: seq<Id>, missing: seq<Missing>, clashes: seq<Clash>, cycles: seq<seq<Id>>,
    done: set<Id>, stack: seq<Id>, visits: nat)

  const START := Search([], [], [], [], {}, [], 0)

  datatype Plan = Plan(order: seq<Id>, missing: seq<Missing>, clashes: seq<Clash>, cycles: seq<seq<Id>>, ok: bool)

  predicate IsCore(id: Id) {
    id in {"", "core", "anagrafica"} || "core:" <= id
  }

  function IndexOf(s: seq<Id>, x: Id): (i: nat)
    requires x in s
    ensures i < |s| && s[i] == x && x !in s[..i]
  {
    if s[0] == x then 0 else
      var i := 1 + IndexOf(s[1..], x);
      assert s[..i] == [s[0]] + s[1..][..i - 1];
      i
  }

  function Elements(s: seq<Id>): set<Id> {
    set x | x in s
  }

  ghost function Unvisited(cat: Catalogue, s: Search): set<Id> {
    cat.Keys - Elements(s.stack) - s.done
  }

  /** An installed application is good enough for a dependency declared with `constraint`. */
  predicate Acceptable(inst: Installed, id: Id, constraint: string) {
    id in inst && (inst[id] == "" || Versions.Satisfies(inst[id], constraint))
  }

  function Visit(cat: Catalogue, inst: Installed, s0: Search, id: Id, constraint: string,
      from: Option<Id>): (r: Search)
    ensures r.stack == s0.stack && s0.done <= r.done
    decreases Unvisited(cat, s0), 1, 0
  {
    var s := s0.(visits := s0.visits + 1);
    if IsCore(id) then s
    else if id in s.stack then s.(cycles := s.cycles + [s.stack[IndexOf(s.stack, id)..] + [id]])
    else if id in s.done then s
    else if from.Some? && Acceptable(inst, id, constraint) then s.(done := s.done + {id})
    else if id !in cat then s.(missing := s.missing + [Missing(id, from)], done := s.done + {id})
    else if from.Some? && !Versions.Satisfies(cat[id].version, constraint) then
      s.(clashes := s.clashes + [Clash(id, constraint, from.value)], done := s.done + {id})
    else
      assert Unvisited(cat, s) == Unvisited(cat, s0) && id in Unvisited(cat, s);
      Expand(cat, inst, s, id)
  }

  function Expand(cat: Catalogue, inst: Installed, s: Search, id: Id): (r: Search)
    requires id in Unvisited(cat, s)
    ensures r.stack == s.stack && s.done <= r.done
    decreases Unvisited(cat, s), 0, 0
  {
    var pushed := s.(stack := s.stack + [id]);
    assert id !in Unvisited(cat, pushed) && Unvisited(cat, pushed) <= Unvisited(cat, s);
    var t := VisitAll(cat, inst, pushed, cat[id].deps, id);
    t.(stack := t.stack[..|t.stack| - 1], done := t.done + {id}, order := t.order + [id])
  }

  function VisitAll(cat: Catalogue, inst: Installed, s: Search, deps: seq<Dep>, from: Id): (r: Search)
    ensures r.stack == s.stack && s.done <= r.done
    decreases Unvisited(cat, s), 1, |deps| + 1
  {
    if deps == [] then s
    else
      var t := Visit(cat, inst, s, deps[0].id, deps[0].constraint, Some(from));
      assert Unvisited(cat, t) <= Unvisited(cat, s);
      VisitAll(cat, inst, t, deps[1..], from)
  }

  function Searched(cat: Catalogue, inst: Installed, target: Id): Search {
    Visit(cat, inst, START, target, "*", None)
  }

  function PlanOf(s: Search): Plan {
    Plan(s.order, s.missing, s.clashes, s.cycles, s.missing == [] && s.clashes == [] && s.cycles == [])
  }

  function PlanFor(cat: Catalogue, inst: Installed, target: Id): Plan {
    PlanOf(Searched(cat, inst, target))
  }

  // ----- the search as it runs -----

  class Planner {
    const disponibili: Catalogue
    const installate: Installed
    var ordine: seq<Id>
    var mancanti: seq<Missing>
    var incompatibili: seq<Clash>
    var cicli: seq<seq<Id>>
    var completate: set<Id>
    var pila: seq<Id>
    ghost var visits: nat

    ghost function State(): Search
      reads this
    {
      Search(ordine, mancanti, incompatibili, cicli, completate, pila, visits)
    }

    constructor (cat: Catalogue, inst: Installed)
      ensures State() == START && disponibili == cat && installate == inst
    {
      disponibili, installate := cat, inst;
      ordine, mancanti, incompatibili, cicli, completate, pila, visits := [], [], [], [], {}, [], 0;
    }

    method Visita(id: Id, vincolo: string, richiestaDa: Option<Id>)
      modifies this
      ensures State() == Visit(disponibili, installate, old(State()), id, vincolo, richiestaDa)
      decreases Unvisited(disponibili, State()), 1
    {
      visits := visits + 1;
      if IsCore(id) { return; }
      if id in pila {
        cicli := cicli + [pila[IndexOf(pila, id)..] + [id]];
        return;
      }
      if id in completate { return; }
      if richiestaDa.Some? && Acceptable(installate, id, vincolo) {
        completate := completate + {id};
        return;
      }
      if id !in disponibili {
        mancanti := mancanti + [Missing(id, richiestaDa)];
        completate := completate + {id};
        return;
      }
      var manifest := disponibili[id];
      if richiestaDa.Some? && !Versions.Satisfies(manifest.version, vincolo) {
        incompatibili := incompatibili + [Clash(id, vincolo, richiestaDa.value)];
        completate := completate + {id};
        return;
      }
      assert Unvisited(disponibili, State()) == Unvisited(disponibili, old(State()));
      Espandi(id, manifest);
    }

    method Espandi(id: Id, manifest: Manifest)
      requires id in Unvisited(disponibili, State()) && disponibili[id] == manifest
      modifies this
      ensures State() == Expand(disponibili, installate, old(State()), id)
      decreases Unvisited(disponibili, State()), 0
    {
      pila := pila + [id];
      ghost var pushed := State();
      assert id in Unvisited(disponibili, old(State())) && id !in Unvisited(disponibili, pushed);
      for i := 0 to |manifest.deps|
        invariant pila == pushed.stack && pushed.done <= completate
        invariant VisitAll(disponibili, installate, pushed, manifest.deps, id)
               == VisitAll(disponibili, installate, State(), manifest.deps[i..], id)
      {
        assert manifest.deps[i..][1..] == manifest.deps[i + 1..];
        Visita(manifest.deps[i].id, manifest.deps[i].constraint, Some(id));
      }
      pila := pila[..|pila| - 1];
      completate := completate + {id};
      ordine := ordine + [id];
    }
  }

  method PianificaInstallazione(appId: Id, cat: Catalogue, inst: Installed) returns (plan: Plan)
    ensures plan == PlanFor(cat, inst, appId)
  {
    var p := new Planner(cat, inst);
    p.Visita(appId, "*", None);
    var ok := p.mancanti == [] && p.incompatibili == [] && p.cicli == [];
    plan := Plan(p.ordine, p.mancanti, p.incompatibili, p.cicli, ok);
  }

  // ----- uninstalling -----

  predicate DependsOn(m: Manifest, id: Id) {
    exists d <- m.deps :: d.id == id
  }

  predicate Blocks(cat: Catalogue, x: Id, id: Id) {
    x != "" && x != id && x in cat && DependsOn(cat[x], id)
  }

  /** The installed applications, in their order, that still declare a dependency on `id`. */
  function BlockedBy(id: Id, installed: seq<Id>, cat: Catalogue): seq<Id> {
    Filter(Blocking(cat, id), installed)
  }

  function Blocking(cat: Catalogue, id: Id): Id -> bool {
    (x: Id) => Blocks(cat, x, id)
  }

  method CanUninstall(appId: Id, installedApps: seq<Id>, cat: Catalogue)
    returns (canUninstall: bool, blockedBy: seq<Id>)
    ensures blockedBy == BlockedBy(appId, installedApps, cat)
    ensures canUninstall <==> forall x :: x in installedApps ==> !Blocks(cat, x, appId)
  {
    blockedBy := [];
    for i := 0 to |installedApps|
      invariant blockedBy == BlockedBy(appId, installedApps[..i], cat)
    {
      FilterNext(Blocking(cat, appId), installedApps, i);
      if Blocks(cat, installedApps[i], appId) {
        blockedBy := blockedBy + [installedApps[i]];
      }
    }
    assert installedApps[..|installedApps|] == installedApps;
    canUninstall := |blockedBy| == 0;
    FilterSize(Blocking(cat, appId), installedApps);
  }
}

/** Installing, changing and removing applications, alone and while other installations are under way. */
module Store {
  import Versions
  import opened Wrappers
  import opened DependencyPlanner
  import opened PlannerSearch
  import opened PlannerTheorems

  /** The manifests on disk, one for each installed application. */
  type Disk = map<Id, Manifest>

  /** An installation under way: the catalogue it was planned on and what is still to be placed. */
  datatype Job = Job(cat: Catalogue, rest: seq<Id>)

  /** The folders of installed applications, the active rows of the table with their versions, the installations under
      way, and the uninstalls the gate has let through. A row can outlive its folder. */
  datatype State = State(disk: Disk, rows: Installed, jobs: seq<Job>, removing: set<Id>)

  /** How placing one application ends. A failure may leave the disk alone, come after the old folder was deleted and
      before the new one is in its place, or come when that is done. */
  datatype Outcome = Done | FailedEarly | FailedBetween | FailedLate

  /** An uninstall asks the gate first and removes folder and row later, an installation writes the row of what it has
      placed later; other steps may come between. */
  datatype Step =
    | Begin(target: Id, cat: Catalogue)
    | Advance(job: nat, outcome: Outcome)
    | ChangeVersion(id: Id, manifest: Manifest, outcome: Outcome)
    | Record(id: Id, version: string)
    | Gate(id: Id)
    | Remove(id: Id)

  /** Whenever the table is read it first takes over what is on disk: new applications and changed versions. */
  function Synced(rows: Installed, disk: Disk): Installed {
    rows + map id | id in disk ::
             if disk[id].version != "" then disk[id].version else if id in rows then rows[id] else "1.0.0"
  }

  function PlanIn(s: State, target: Id, cat: Catalogue): DependencyPlanner.Plan {
    PlanFor(cat, Synced(s.rows, s.disk), target)
  }

  /** No other installed application declares a dependency on x. */
  predicate Free(disk: Disk, x: Id) {
    forall y <- disk.Keys :: !Blocks(disk, y, x)
  }

  function PlacedOn(disk: Disk, id: Id, m: Manifest, outcome: Outcome): Disk {
    match outcome
    case FailedEarly => disk
    case FailedBetween => disk - {id}
    case _ => disk[id := m]
  }

  predicate CanAdvance(s: State, j: nat) {
    j < |s.jobs| && s.jobs[j].rest != [] && s.jobs[j].rest[0] in s.jobs[j].cat
  }

  /** A step that is refused or not possible changes nothing but, where the table is read, the rows it takes over. */
  function Next(s: State, step: Step): State {
    var t := s.(rows := Synced(s.rows, s.disk));
    match step
    case Begin(target, cat) =>
      var plan := PlanIn(s, target, cat);
      if plan.ok then t.(jobs := s.jobs + [Job(cat, plan.order)]) else t
    case Advance(j, outcome) =>
      if CanAdvance(s, j) then
        var job, id := s.jobs[j], s.jobs[j].rest[0];
        t.(disk := PlacedOn(s.disk, id, job.cat[id], outcome),
           jobs := s.jobs[j := job.(rest := if outcome == Done then job.rest[1..] else [])])
      else s
    case ChangeVersion(id, m, outcome) =>
      if CanChange(s, id) then t.(disk := PlacedOn(s.disk, id, m, outcome)) else t
    case Record(id, version) => s.(rows := s.rows[id := if version != "" then version else "0.0.0"])
    case Gate(id) => if Free(s.disk, id) then t.(removing := s.removing + {id}) else t
    case Remove(id) =>
      if id in s.removing then s.(disk := s.disk - {id}, rows := s.rows - {id}, removing := s.removing - {id}) else s
  }

  /** An application with an active row, whether or not its folder is still there. */
  predicate CanChange(s: State, id: Id) {
    id != "" && id in Synced(s.rows, s.disk)
  }

  function Run(s: State, steps: seq<Step>): State
    decreases steps
  {
    if steps == [] then s else Run(Next(s, steps[0]), steps[1..])
  }

  // ----- the invariant -----

  ghost predicate DepsIn(m: Manifest, have: set<Id>) {
    forall e :: e in m.deps ==> IsCore(e.id) || e.id in have
  }

  /** Every dependency of an installed application is a core module or installed. */
  ghost predicate Closed(disk: Disk) {
    "" !in disk && forall a :: a in disk ==> DepsIn(disk[a], disk.Keys)
  }

  /** What a job still has to place finds its dependencies on disk or earlier in the job. */
  ghost predicate Supported(disk: Disk, job: Job) {
    forall p :: 0 <= p < |job.rest| ==>
      && job.rest[p] in job.cat && job.rest[p] != ""
      && DepsIn(job.cat[job.rest[p]], disk.Keys + Elements(job.rest[..p]))
  }

  ghost predicate Inv(s: State) {
    Closed(s.disk) && forall j :: 0 <= j < |s.jobs| ==> Supported(s.disk, s.jobs[j])
  }

  /** An unfinished job counts on finding x on disk. */
  ghost predicate ReliedOn(jobs: seq<Job>, x: Id) {
    exists j, p :: 0 <= j < |jobs| && 0 <= p < |jobs[j].rest| && NeedsFromDisk(jobs[j], p, x)
  }

  ghost predicate NeedsFromDisk(job: Job, p: nat, x: Id)
    requires p < |job.rest|
  {
    && job.rest[p] in job.cat && DependsOn(job.cat[job.rest[p]], x)
    && !IsCore(x) && x !in job.rest[..p]
  }

  /** Every installed copy that a plan keeps has its folder. */
  ghost predicate KeptOnDisk(disk: Disk, cat: Catalogue, order: seq<Id>) {
    forall a, e :: a in order && a in cat && e in cat[a].deps ==> IsCore(e.id) || e.id in order || e.id in disk
  }

  /** An ok plan finds every dependency earlier in it or on disk exactly when the copies it keeps are on disk. */
  lemma PlanSupportedExactly(s: State, target: Id, cat: Catalogue)
    requires PlanIn(s, target, cat).ok
    ensures Supported(s.disk, Job(cat, PlanIn(s, target, cat).order))
      <==> KeptOnDisk(s.disk, cat, PlanIn(s, target, cat).order)
  {
    if !IsCore(target) {
      OkPlanIsTopological(cat, Synced(s.rows, s.disk), target);
      OrderedSupportedExactly(s.disk, cat, PlanIn(s, target, cat).order);
    }
  }

  lemma OrderedSupportedExactly(disk: Disk, cat: Catalogue, o: seq<Id>)
    requires forall x :: x in o ==> x in cat && x != ""
    requires forall p, e :: 0 <= p < |o| && e in cat[o[p]].deps ==> IsCore(e.id) || e.id in o[..p] || e.id !in o
    ensures Supported(disk, Job(cat, o)) <==> KeptOnDisk(disk, cat, o)
  {
    var job := Job(cat, o);
    if KeptOnDisk(disk, cat, o) {
      forall p | 0 <= p < |o| ensures DepsIn(cat[o[p]], disk.Keys + Elements(o[..p])) {
        assert o[p] in o;
      }
    }
    if Supported(disk, job) {
      forall a, e | a in o && e in cat[a].deps && !IsCore(e.id) ensures e.id in o || e.id in disk {
        var p :| 0 <= p < |o| && o[p] == a;
        assert DepsIn(cat[job.rest[p]], disk.Keys + Elements(job.rest[..p]));
      }
    }
  }

  /** With a folder for every row, whatever a plan keeps is on disk. */
  lemma FoldersSupportPlans(s: State, target: Id, cat: Catalogue)
    requires PlanIn(s, target, cat).ok && s.rows.Keys <= s.disk.Keys
    ensures KeptOnDisk(s.disk, cat, PlanIn(s, target, cat).order)
  {
    var inst := Synced(s.rows, s.disk);
    var o := PlanFor(cat, inst, target).order;
    if !IsCore(target) {
      OkPlanIsTopological(cat, inst, target);
      forall a, e | a in o && e in cat[a].deps && !IsCore(e.id) && e.id !in o ensures e.id in s.disk {
        var p :| 0 <= p < |o| && o[p] == a;
        assert KeptInstalled(cat, inst, Elements(o), e.id);
        var b, c :| Asked(cat, Elements(o), b, e.id, c) && Acceptable(inst, e.id, c);
      }
    }
  }

  /** An application whose folder is there is kept only at the folder's own version: if it has one, that satisfies a
      constraint that something in the plan declares. */
  lemma KeptFolderFits(s: State, target: Id, cat: Catalogue, a: Id, e: Dep)
    requires PlanIn(s, target, cat).ok && a in PlanIn(s, target, cat).order && a in cat && e in cat[a].deps
    requires !IsCore(e.id) && e.id !in PlanIn(s, target, cat).order
    requires e.id in s.disk && s.disk[e.id].version != ""
    ensures exists b, c :: b in PlanIn(s, target, cat).order && b in cat && Dep(e.id, c) in cat[b].deps
                        && Versions.Satisfies(s.disk[e.id].version, c)
  {
    var inst, o := Synced(s.rows, s.disk), PlanIn(s, target, cat).order;
    if !IsCore(target) {
      OkPlanIsTopological(cat, inst, target);
      var p :| 0 <= p < |o| && o[p] == a;
      assert KeptInstalled(cat, inst, Elements(o), e.id);
      var b, c :| Asked(cat, Elements(o), b, e.id, c) && Acceptable(inst, e.id, c);
      assert inst[e.id] == s.disk[e.id].version;
    }
  }

  lemma SupportedGrows(disk: Disk, disk': Disk, job: Job)
    requires Supported(disk, job) && disk.Keys <= disk'.Keys
    ensures Supported(disk', job)
  {
    forall p | 0 <= p < |job.rest| ensures DepsIn(job.cat[job.rest[p]], disk'.Keys + Elements(job.rest[..p])) {
      assert DepsIn(job.cat[job.rest[p]], disk.Keys + Elements(job.rest[..p]));
    }
  }

  lemma PlacedKeepsClosed(disk: Disk, id: Id, m: Manifest)
    requires Closed(disk) && id != "" && DepsIn(m, disk.Keys)
    ensures Closed(disk[id := m])
  {
    var disk' := disk[id := m];
    forall a | a in disk' ensures DepsIn(disk'[a], disk'.Keys) {
      if a != id { assert DepsIn(disk[a], disk.Keys); }
    }
  }

  lemma FirstOfElements(ids: seq<Id>, p: nat)
    requires p < |ids|
    ensures Elements(ids[..p + 1]) == {ids[0]} + Elements(ids[1..][..p])
  {
    assert ids[..p + 1] == [ids[0]] + ids[1..][..p];
  }

  lemma RestSupported(disk: Disk, job: Job)
    requires Supported(disk, job) && job.rest != []
    ensures Supported(disk[job.rest[0] := job.cat[job.rest[0]]], job.(rest := job.rest[1..]))
  {
    var disk' := disk[job.rest[0] := job.cat[job.rest[0]]];
    var rest := job.rest[1..];
    forall p | 0 <= p < |rest| ensures DepsIn(job.cat[rest[p]], disk'.Keys + Elements(rest[..p])) {
      assert DepsIn(job.cat[job.rest[p + 1]], disk.Keys + Elements(job.rest[..p + 1]));
      FirstOfElements(job.rest, p);
    }
  }

  lemma PlacingKeeps(s: State, j: nat)
    requires Inv(s) && CanAdvance(s, j)
    ensures Inv(Next(s, Advance(j, Done))) && Inv(Next(s, Advance(j, FailedLate)))
  {
    var job, id := s.jobs[j], s.jobs[j].rest[0];
    assert Supported(s.disk, job);
    assert DepsIn(job.cat[job.rest[0]], s.disk.Keys) by {
      assert s.disk.Keys + Elements(job.rest[..0]) == s.disk.Keys;
    }
    PlacedKeepsClosed(s.disk, id, job.cat[id]);
    RestSupported(s.disk, job);
    var disk' := s.disk[id := job.cat[id]];
    forall i | 0 <= i < |s.jobs| && i != j ensures Supported(disk', s.jobs[i]) {
      SupportedGrows(s.disk, disk', s.jobs[i]);
    }
  }

  /** Another installed application declares a dependency on x that no core module meets. */
  predicate NeededBy(disk: Disk, x: Id) {
    !IsCore(x) && !Free(disk, x)
  }

  /** Nothing installed and nothing under way would miss x. */
  ghost predicate LetGo(disk: Disk, jobs: seq<Job>, x: Id) {
    x in disk ==> !NeededBy(disk, x) && !ReliedOn(jobs, x)
  }

  ghost predicate AllSupported(disk: Disk, jobs: seq<Job>) {
    forall j :: 0 <= j < |jobs| ==> Supported(disk, jobs[j])
  }

  lemma ClosedWithout(disk: Disk, x: Id)
    requires Closed(disk)
    ensures Closed(disk - {x}) <==> !NeededBy(disk, x)
    ensures x !in disk ==> !NeededBy(disk, x)
  {
    var disk' := disk - {x};
    if NeededBy(disk, x) {
      var y :| y in disk && Blocks(disk, y, x);
      assert DepsIn(disk[y], disk.Keys);
      assert !DepsIn(disk'[y], disk'.Keys);
    } else {
      forall a | a in disk' ensures DepsIn(disk'[a], disk'.Keys) {
        assert DepsIn(disk[a], disk.Keys);
        assert IsCore(x) || !Blocks(disk, a, x);
      }
    }
  }

  lemma UnusedIsSupported(disk: Disk, jobs: seq<Job>, j: nat, x: Id)
    requires AllSupported(disk, jobs) && j < |jobs| && !ReliedOn(jobs, x)
    ensures Supported(disk - {x}, jobs[j])
  {
    var job := jobs[j];
    var have := (disk - {x}).Keys;
    assert Supported(disk, job);
    forall p | 0 <= p < |job.rest| ensures DepsIn(job.cat[job.rest[p]], have + Elements(job.rest[..p])) {
      assert !NeedsFromDisk(job, p, x);
      assert DepsIn(job.cat[job.rest[p]], disk.Keys + Elements(job.rest[..p]));
    }
  }

  lemma ReliedOnBreaks(disk: Disk, jobs: seq<Job>, x: Id)
    requires ReliedOn(jobs, x)
    ensures !AllSupported(disk - {x}, jobs)
  {
    var disk' := disk - {x};
    var j, p :| 0 <= j < |jobs| && 0 <= p < |jobs[j].rest| && NeedsFromDisk(jobs[j], p, x);
    assert !DepsIn(jobs[j].cat[jobs[j].rest[p]], disk'.Keys + Elements(jobs[j].rest[..p]));
    assert !Supported(disk', jobs[j]);
  }

  /** Taking x off the disk keeps everything in order exactly when nothing would miss it. */
  lemma TakenAwayExactly(disk: Disk, jobs: seq<Job>, x: Id)
    requires Closed(disk) && AllSupported(disk, jobs)
    ensures Closed(disk - {x}) && AllSupported(disk - {x}, jobs) <==> LetGo(disk, jobs, x)
  {
    ClosedWithout(disk, x);
    if x !in disk {
      assert disk - {x} == disk;
    } else if ReliedOn(jobs, x) {
      ReliedOnBreaks(disk, jobs, x);
    } else {
      forall j | 0 <= j < |jobs| ensures Supported(disk - {x}, jobs[j]) {
        UnusedIsSupported(disk, jobs, j, x);
      }
    }
  }

  /** An installation that is dropped leaves the others. */
  function Dropped(jobs: seq<Job>, j: nat): seq<Job>
    requires j < |jobs|
  {
    jobs[j := jobs[j].(rest := [])]
  }

  /** Placing one application keeps the invariant exactly unless its old folder is lost while something would
      miss it. */
  lemma AdvanceExactly(s: State, j: nat, outcome: Outcome)
    requires Inv(s) && CanAdvance(s, j)
    ensures Inv(Next(s, Advance(j, outcome)))
      <==> (outcome == FailedBetween ==> LetGo(s.disk, Dropped(s.jobs, j), s.jobs[j].rest[0]))
  {
    var jobs := Dropped(s.jobs, j);
    match outcome
    case FailedEarly => assert AllSupported(s.disk, jobs);
    case FailedBetween => TakenAwayExactly(s.disk, jobs, s.jobs[j].rest[0]);
    case _ => PlacingKeeps(s, j);
  }

  /** Changing a version keeps the invariant exactly when the new manifest's dependencies are on disk, or, if only
      the old folder is deleted, when nothing would miss it. */
  lemma ChangeVersionExactly(s: State, id: Id, m: Manifest, outcome: Outcome)
    requires Inv(s) && CanChange(s, id)
    ensures Inv(Next(s, ChangeVersion(id, m, outcome))) <==> ChangeIsSafe(s, id, m, outcome)
  {
    match outcome
    case FailedEarly =>
    case FailedBetween => TakenAwayExactly(s.disk, s.jobs, id);
    case _ => ReplacedExactly(s, id, m);
  }

  ghost predicate ChangeIsSafe(s: State, id: Id, m: Manifest, outcome: Outcome) {
    match outcome
    case FailedEarly => true
    case FailedBetween => LetGo(s.disk, s.jobs, id)
    case _ => DepsIn(m, s.disk.Keys + {id})
  }

  lemma ReplacedExactly(s: State, id: Id, m: Manifest)
    requires Inv(s) && id != ""
    ensures Closed(s.disk[id := m]) && AllSupported(s.disk[id := m], s.jobs) <==> DepsIn(m, s.disk.Keys + {id})
  {
    var disk' := s.disk[id := m];
    assert disk'.Keys == s.disk.Keys + {id} && disk'[id] == m;
    forall a | a in disk' && a != id ensures DepsIn(disk'[a], disk'.Keys) {
      assert DepsIn(s.disk[a], s.disk.Keys);
    }
    forall i | 0 <= i < |s.jobs| ensures Supported(disk', s.jobs[i]) {
      SupportedGrows(s.disk, disk', s.jobs[i]);
    }
  }

  /** A removal keeps the invariant exactly when, at that moment, nothing installed or under way would miss the
      application. */
  lemma RemoveExactly(s: State, x: Id)
    requires Inv(s) && x in s.removing
    ensures Inv(Next(s, Remove(x))) <==> LetGo(s.disk, s.jobs, x)
  {
    TakenAwayExactly(s.disk, s.jobs, x);
  }

  // ----- whole runs -----

  /** What is taken away is missed by nothing, what a plan keeps is on disk, and versions are changed only to ones whose
      dependencies are there. */
  ghost predicate Careful(s: State, step: Step) {
    match step
    case Begin(target, cat) =>
      PlanIn(s, target, cat).ok ==> KeptOnDisk(s.disk, cat, PlanIn(s, target, cat).order)
    case Advance(j, outcome) =>
      CanAdvance(s, j) && outcome == FailedBetween ==> LetGo(s.disk, Dropped(s.jobs, j), s.jobs[j].rest[0])
    case ChangeVersion(id, m, outcome) => CanChange(s, id) ==> ChangeIsSafe(s, id, m, outcome)
    case Record(_, _) => true
    case Gate(_) => true
    case Remove(x) => x in s.removing ==> LetGo(s.disk, s.jobs, x)
  }

  ghost predicate CarefulRun(s: State, steps: seq<Step>)
    decreases steps
  {
    steps == [] || (Careful(s, steps[0]) && CarefulRun(Next(s, steps[0]), steps[1..]))
  }

  /** Starting an installation keeps the invariant exactly when the installed copies its plan keeps are on disk. */
  lemma BeginExactly(s: State, target: Id, cat: Catalogue)
    requires Inv(s) && PlanIn(s, target, cat).ok
    ensures Inv(Next(s, Begin(target, cat))) <==> KeptOnDisk(s.disk, cat, PlanIn(s, target, cat).order)
  {
    PlanSupportedExactly(s, target, cat);
    var s', job := Next(s, Begin(target, cat)), Job(cat, PlanIn(s, target, cat).order);
    assert s'.jobs[|s.jobs|] == job && s'.disk == s.disk;
    if Supported(s.disk, job) {
      forall j | 0 <= j < |s'.jobs| ensures Supported(s'.disk, s'.jobs[j]) {
        assert j < |s.jobs| ==> s'.jobs[j] == s.jobs[j];
      }
    }
  }

  /** A step keeps the invariant exactly when it is careful. */
  lemma StepExactly(s: State, step: Step)
    requires Inv(s)
    ensures Inv(Next(s, step)) <==> Careful(s, step)
  {
    match step
    case Begin(target, cat) =>
      if PlanIn(s, target, cat).ok { BeginExactly(s, target, cat); }
    case Advance(j, outcome) => if CanAdvance(s, j) { AdvanceExactly(s, j, outcome); }
    case ChangeVersion(id, m, outcome) => if CanChange(s, id) { ChangeVersionExactly(s, id, m, outcome); }
    case Record(_, _) =>
    case Gate(_) =>
    case Remove(x) => if x in s.removing { RemoveExactly(s, x); }
  }

  /** Installations that overlap, stop halfway or fail late leave the installed set closed, if every step is careful. */
  lemma {:induction false} CarefulRunsStayClosed(s: State, steps: seq<Step>)
    requires Inv(s) && CarefulRun(s, steps)
    ensures Inv(Run(s, steps)) && Closed(Run(s, steps).disk)
    decreases steps
  {
    if steps != [] {
      StepExactly(s, steps[0]);
      CarefulRunsStayClosed(Next(s, steps[0]), steps[1..]);
    }
  }

  /** No folder is lost without its row, and no row is written for a folder that is gone. */
  predicate KeepsFolders(s: State, step: Step) {
    match step
    case Advance(_, outcome) => outcome != FailedBetween
    case ChangeVersion(_, _, outcome) => outcome != FailedBetween
    case Record(id, _) => id in s.disk
    case _ => true
  }

  ghost predicate KeepsFoldersRun(s: State, steps: seq<Step>)
    decreases steps
  {
    steps == [] || (KeepsFolders(s, steps[0]) && KeepsFoldersRun(Next(s, steps[0]), steps[1..]))
  }

  /** In such runs every row keeps its folder, so that every start of an installation is careful. */
  lemma {:induction false} RowsKeepFolders(s: State, steps: seq<Step>, target: Id, cat: Catalogue)
    requires s.rows.Keys <= s.disk.Keys && KeepsFoldersRun(s, steps)
    ensures Run(s, steps).rows.Keys <= Run(s, steps).disk.Keys && Careful(Run(s, steps), Begin(target, cat))
    decreases steps
  {
    if steps == [] {
      if PlanIn(s, target, cat).ok { FoldersSupportPlans(s, target, cat); }
    } else {
      RowsKeepFolders(Next(s, steps[0]), steps[1..], target, cat);
    }
  }

  /** Dependencies follow the identifier alone, whatever the version. */
  ghost predicate Fixed(deps: map<Id, seq<Dep>>, m: map<Id, Manifest>) {
    forall id :: id in m ==> id in deps && m[id].deps == deps[id]
  }

  ghost predicate FixedStep(deps: map<Id, seq<Dep>>, s: State, step: Step) {
    match step
    case Begin(_, cat) => Fixed(deps, cat) && Careful(s, step)
    case ChangeVersion(id, m, outcome) =>
      Fixed(deps, map[id := m]) && (outcome == FailedBetween || id !in s.disk ==> Careful(s, step))
    case _ => Careful(s, step)
  }

  ghost predicate FixedRun(deps: map<Id, seq<Dep>>, s: State, steps: seq<Step>)
    decreases steps
  {
    steps == [] || (FixedStep(deps, s, steps[0]) && FixedRun(deps, Next(s, steps[0]), steps[1..]))
  }

  ghost predicate FixedState(deps: map<Id, seq<Dep>>, s: State) {
    Fixed(deps, s.disk) && forall j :: 0 <= j < |s.jobs| ==> Fixed(deps, s.jobs[j].cat)
  }

  lemma FixedStepIsCareful(deps: map<Id, seq<Dep>>, s: State, step: Step)
    requires Inv(s) && FixedState(deps, s) && FixedStep(deps, s, step)
    ensures Careful(s, step)
  {
    if step.ChangeVersion? && step.id in s.disk {
      assert DepsIn(s.disk[step.id], s.disk.Keys);
      assert step.id in map[step.id := step.manifest];
    }
  }

  lemma FixedStepKeeps(deps: map<Id, seq<Dep>>, s: State, step: Step)
    requires FixedState(deps, s) && FixedStep(deps, s, step)
    ensures FixedState(deps, Next(s, step))
  {
    if step.ChangeVersion? { assert step.id in map[step.id := step.manifest]; }
  }

  /** With a fixed catalogue it is enough that nothing is taken away that something would miss, and that no folder is
      missing that a plan keeps or a change of version needs. */
  lemma {:induction false} FixedCatalogueRunsStayClosed(deps: map<Id, seq<Dep>>, s: State, steps: seq<Step>)
    requires Inv(s) && FixedRun(deps, s, steps) && FixedState(deps, s)
    ensures Closed(Run(s, steps).disk)
    decreases steps
  {
    if steps != [] {
      FixedStepIsCareful(deps, s, steps[0]);
      StepExactly(s, steps[0]);
      FixedStepKeeps(deps, s, steps[0]);
      FixedCatalogueRunsStayClosed(deps, Next(s, steps[0]), steps[1..]);
    }
  }

  // ----- what the gate's answer is worth later -----

  /** Nothing installed needs x and no installation under way relies on it. */
  ghost predicate Clear(s: State, x: Id) {
    !NeededBy(s.disk, x) && !ReliedOn(s.jobs, x)
  }

  /** The step starts no installation that counts on x, places no x, and changes to no version that declares x. */
  ghost predicate Quiet(s: State, x: Id, step: Step) {
    match step
    case Begin(target, cat) => !ReliedOn([Job(cat, PlanIn(s, target, cat).order)], x)
    case Advance(j, _) => CanAdvance(s, j) ==> s.jobs[j].rest[0] != x
    case ChangeVersion(id, m, _) => id != x ==> !DependsOn(m, x)
    case _ => true
  }

  ghost predicate QuietRun(s: State, x: Id, steps: seq<Step>)
    decreases steps
  {
    steps == [] || (Quiet(s, x, steps[0]) && QuietRun(Next(s, steps[0]), x, steps[1..]))
  }

  lemma BeginQuiet(s: State, x: Id, target: Id, cat: Catalogue)
    requires Clear(s, x) && Quiet(s, x, Begin(target, cat))
    ensures Clear(Next(s, Begin(target, cat)), x)
  {
    var job := Job(cat, PlanIn(s, target, cat).order);
    var jobs := Next(s, Begin(target, cat)).jobs;
    forall j, p | 0 <= j < |jobs| && 0 <= p < |jobs[j].rest| ensures !NeedsFromDisk(jobs[j], p, x) {
      if j == |s.jobs| { assert [job][0] == jobs[j]; }
    }
  }

  lemma AdvanceQuiet(s: State, x: Id, j: nat, outcome: Outcome)
    requires Clear(s, x) && CanAdvance(s, j) && s.jobs[j].rest[0] != x
    ensures Clear(Next(s, Advance(j, outcome)), x)
  {
    var job, jobs := s.jobs[j], Next(s, Advance(j, outcome)).jobs;
    assert !NeedsFromDisk(job, 0, x);
    forall i, p | 0 <= i < |jobs| && 0 <= p < |jobs[i].rest| ensures !NeedsFromDisk(jobs[i], p, x) {
      if i == j {
        assert !NeedsFromDisk(job, p + 1, x);
        assert job.rest[..p + 1] == [job.rest[0]] + job.rest[1..][..p];
      }
    }
  }

  /** What the gate found stays true through quiet steps, so that the removal, however late, is missed by nothing. */
  lemma {:induction false} GateHolds(s: State, x: Id, steps: seq<Step>)
    requires Clear(s, x) && QuietRun(s, x, steps)
    ensures Clear(Run(s, steps), x) && Careful(Run(s, steps), Remove(x))
    decreases steps
  {
    if steps != [] {
      match steps[0] {
        case Begin(target, cat) => BeginQuiet(s, x, target, cat);
        case Advance(j, outcome) => if CanAdvance(s, j) { AdvanceQuiet(s, x, j, outcome); }
        case ChangeVersion(id, m, outcome) =>
        case Record(_, _) =>
        case Gate(_) =>
        case Remove(_) =>
      }
      GateHolds(Next(s, steps[0]), x, steps[1..]);
    }
  }

  // ----- runs that end open -----

  const ALONE := map["d" := Manifest("1", [])]
  const WANTS_D := map["a" := Manifest("1", [Dep("d", "*")])]
  const D_ROW := map["d" := "1"]

  lemma KeepsInstalled()
    ensures var down := START.(visits := 1, stack := ["a"]);
            VisitAll(WANTS_D, map["d" := "1"], down, [Dep("d", "*")], "a") == down.(visits := 2, done := {"d"})
  {
    Versions.Wildcard("1");
    var down := START.(visits := 1, stack := ["a"]);
    var t := down.(visits := 2, done := {"d"});
    assert Visit(WANTS_D, map["d" := "1"], down, "d", "*", Some("a")) == t;
    assert VisitAll(WANTS_D, map["d" := "1"], t, [], "a") == t;
  }

  lemma ExpandKeepsInstalled()
    ensures Expand(WANTS_D, map["d" := "1"], START.(visits := 1), "a") == Search(["a"], [], [], [], {"d", "a"}, [], 2)
  {
    KeepsInstalled();
    assert [] + ["a"] == ["a"] && ["a"][..0] == [] && {"d"} + {"a"} == {"d", "a"};
  }

  lemma SearchKeepsInstalled()
    ensures Searched(WANTS_D, map["d" := "1"], "a") == Search(["a"], [], [], [], {"d", "a"}, [], 2)
  {
    ExpandKeepsInstalled();
  }

  lemma PlanKeepsInstalled()
    ensures PlanFor(WANTS_D, D_ROW, "a").ok && PlanFor(WANTS_D, D_ROW, "a").order == ["a"]
  {
    SearchKeepsInstalled();
  }

  lemma RunFirst(s: State, step: Step, rest: seq<Step>)
    ensures Run(s, [step] + rest) == Run(Next(s, step), rest)
  {
    assert ([step] + rest)[1..] == rest;
  }

  lemma RunTwo(s: State, a: Step, b: Step)
    ensures Run(s, [a, b]) == Next(Next(s, a), b)
  {
    assert [a, b] == [a] + [b] && [b] == [b] + [];
    RunFirst(s, a, [b]);
    RunFirst(Next(s, a), b, []);
  }

  lemma RunFour(s: State, a: Step, b: Step, c: Step, d: Step)
    ensures Run(s, [a, b, c, d]) == Next(Next(Next(Next(s, a), b), c), d)
  {
    assert [a, b, c, d] == [a] + [b, c, d] && [b, c, d] == [b] + [c, d];
    RunFirst(s, a, [b, c, d]);
    RunFirst(Next(s, a), b, [c, d]);
    RunTwo(Next(Next(s, a), b), c, d);
  }

  lemma InStep(rows: Installed, disk: Disk)
    requires forall id <- disk.Keys :: id in rows && rows[id] == disk[id].version
    ensures Synced(rows, disk) == rows
  {
  }

  lemma Begins(s: State, target: Id, cat: Catalogue, jobs: seq<Job>)
    requires Synced(s.rows, s.disk) == s.rows && PlanFor(cat, s.rows, target).ok
    requires jobs == s.jobs + [Job(cat, PlanFor(cat, s.rows, target).order)]
    ensures Next(s, Begin(target, cat)) == s.(jobs := jobs)
  {
  }

  lemma LosesFolder(s: State, j: nat, disk: Disk, jobs: seq<Job>)
    requires Synced(s.rows, s.disk) == s.rows && CanAdvance(s, j)
    requires disk == s.disk - {s.jobs[j].rest[0]} && jobs == Dropped(s.jobs, j)
    ensures Next(s, Advance(j, FailedBetween)) == s.(disk := disk, jobs := jobs)
  {
  }

  lemma BeginsOnD(removing: set<Id>)
    ensures Next(State(ALONE, D_ROW, [], removing), Begin("a", WANTS_D))
         == State(ALONE, D_ROW, [Job(WANTS_D, ["a"])], removing)
  {
    PlanKeepsInstalled();
    InStep(D_ROW, ALONE);
    assert [] + [Job(WANTS_D, ["a"])] == [Job(WANTS_D, ["a"])];
    Begins(State(ALONE, D_ROW, [], removing), "a", WANTS_D, [Job(WANTS_D, ["a"])]);
  }

  lemma GateLetsD(jobs: seq<Job>)
    ensures Next(State(ALONE, D_ROW, jobs, {}), Gate("d")) == State(ALONE, D_ROW, jobs, {"d"})
  {
    InStep(D_ROW, ALONE);
  }

  lemma EndsWithoutD(disk: Disk)
    requires disk == map["a" := WANTS_D["a"]]
    ensures !Closed(disk)
  {
    assert Dep("d", "*") in disk["a"].deps;
    assert !DepsIn(disk["a"], disk.Keys);
  }

  /** The gate lets d go while a, which is being installed, relies on it: a ends up without d. */
  lemma OverlappingUninstallBreaksClosure()
    ensures var s := State(ALONE, D_ROW, [], {});
            Inv(s) && !Closed(Run(s, [Begin("a", WANTS_D), Gate("d"), Remove("d"), Advance(0, Done)]).disk)
  {
    var s, job := State(ALONE, D_ROW, [], {}), Job(WANTS_D, ["a"]);
    BeginsOnD({});
    GateLetsD([job]);
    assert ALONE - {"d"} == map[] && D_ROW - {"d"} == map[];
    assert Next(State(ALONE, D_ROW, [job], {"d"}), Remove("d")) == State(map[], map[], [job], {});
    RunFour(s, Begin("a", WANTS_D), Gate("d"), Remove("d"), Advance(0, Done));
    EndsWithoutD(map["a" := WANTS_D["a"]]);
  }

  lemma PlacesBesideD()
    ensures Next(State(ALONE, D_ROW, [Job(WANTS_D, ["a"])], {"d"}), Advance(0, Done))
         == State(ALONE["a" := WANTS_D["a"]], D_ROW, [Job(WANTS_D, [])], {"d"})
  {
    assert ["a"][1..] == [];
    var jobs := [Job(WANTS_D, ["a"])];
    assert jobs[0 := Job(WANTS_D, [])] == [Job(WANTS_D, [])];
    InStep(D_ROW, ALONE);
  }

  lemma RemovesD(jobs: seq<Job>)
    ensures Next(State(ALONE["a" := WANTS_D["a"]], D_ROW, jobs, {"d"}), Remove("d")).disk == map["a" := WANTS_D["a"]]
  {
    assert ALONE["a" := WANTS_D["a"]] - {"d"} == map["a" := WANTS_D["a"]];
  }

  /** Nothing relies on d when the gate lets it go; an installation that starts and ends before the removal does. */
  lemma InstallAfterGateBreaksClosure()
    ensures var s := State(ALONE, D_ROW, [], {});
            Clear(s, "d") && !Closed(Run(s, [Gate("d"), Begin("a", WANTS_D), Advance(0, Done), Remove("d")]).disk)
  {
    var s := State(ALONE, D_ROW, [], {});
    GateLetsD([]);
    BeginsOnD({"d"});
    PlacesBesideD();
    RemovesD([Job(WANTS_D, [])]);
    RunFour(s, Gate("d"), Begin("a", WANTS_D), Advance(0, Done), Remove("d"));
    EndsWithoutD(map["a" := WANTS_D["a"]]);
  }

  lemma SearchAlone(rows: Installed)
    ensures Searched(ALONE, rows, "d") == Search(["d"], [], [], [], {"d"}, [], 1)
  {
    var s := START.(visits := 1);
    assert VisitAll(ALONE, rows, s.(stack := ["d"]), [], "d") == s.(stack := ["d"]);
    assert [] + ["d"] == ["d"] && ["d"][..0] == [];
    assert Expand(ALONE, rows, s, "d") == Search(["d"], [], [], [], {"d"}, [], 1);
  }

  lemma PlanReinstalls()
    ensures PlanFor(ALONE, map["d" := "1", "a" := "1"], "d").ok
    ensures PlanFor(ALONE, map["d" := "1", "a" := "1"], "d").order == ["d"]
  {
    SearchAlone(map["d" := "1", "a" := "1"]);
  }

  lemma BeginsReinstall(disk: Disk, rows: Installed)
    requires disk == ALONE["a" := WANTS_D["a"]] && rows == map["d" := "1", "a" := "1"]
    ensures Next(State(disk, rows, [], {}), Begin("d", ALONE)) == State(disk, rows, [Job(ALONE, ["d"])], {})
  {
    PlanReinstalls();
    InStep(rows, disk);
    assert [] + [Job(ALONE, ["d"])] == [Job(ALONE, ["d"])];
    Begins(State(disk, rows, [], {}), "d", ALONE, [Job(ALONE, ["d"])]);
  }

  lemma LosesReinstall(disk: Disk, rows: Installed)
    requires disk == ALONE["a" := WANTS_D["a"]] && rows == map["d" := "1", "a" := "1"]
    ensures Next(State(disk, rows, [Job(ALONE, ["d"])], {}), Advance(0, FailedBetween)).disk == map["a" := WANTS_D["a"]]
  {
    InStep(rows, disk);
    assert disk - {"d"} == map["a" := WANTS_D["a"]];
    var jobs := [Job(ALONE, ["d"])];
    LosesFolder(State(disk, rows, jobs, {}), 0, map["a" := WANTS_D["a"]], Dropped(jobs, 0));
  }

  lemma TwoInOrder(rows: Installed)
    ensures Inv(State(ALONE["a" := WANTS_D["a"]], rows, [], {}))
  {
    var disk: Disk := ALONE["a" := WANTS_D["a"]];
    assert DepsIn(disk["a"], disk.Keys) && DepsIn(disk["d"], disk.Keys);
  }

  /** Installing d again, and failing between deleting its folder and renaming the new one, leaves a without d. */
  lemma LostFolderBreaksClosure()
    ensures var s := State(ALONE["a" := WANTS_D["a"]], map["d" := "1", "a" := "1"], [], {});
            Inv(s) && !Closed(Run(s, [Begin("d", ALONE), Advance(0, FailedBetween)]).disk)
  {
    var disk: Disk := ALONE["a" := WANTS_D["a"]];
    var rows := map["d" := "1", "a" := "1"];
    TwoInOrder(rows);
    BeginsReinstall(disk, rows);
    LosesReinstall(disk, rows);
    RunTwo(State(disk, rows, [], {}), Begin("d", ALONE), Advance(0, FailedBetween));
    EndsWithoutD(map["a" := WANTS_D["a"]]);
  }

  lemma PlanReinstallsAlone()
    ensures PlanFor(ALONE, D_ROW, "d").ok && PlanFor(ALONE, D_ROW, "d").order == ["d"]
  {
    SearchAlone(D_ROW);
  }

  lemma BeginsAlone()
    ensures var s := State(ALONE, D_ROW, [], {});
            Next(s, Begin("d", ALONE)) == s.(jobs := [Job(ALONE, ["d"])]) && Careful(s, Begin("d", ALONE))
  {
    PlanReinstallsAlone();
    InStep(D_ROW, ALONE);
    assert [] + [Job(ALONE, ["d"])] == [Job(ALONE, ["d"])];
    Begins(State(ALONE, D_ROW, [], {}), "d", ALONE, [Job(ALONE, ["d"])]);
  }

  lemma LosesAlone()
    ensures var s := State(ALONE, D_ROW, [Job(ALONE, ["d"])], {});
            Next(s, Advance(0, FailedBetween)) == State(map[], D_ROW, [Job(ALONE, [])], {})
            && Careful(s, Advance(0, FailedBetween))
  {
    var jobs := [Job(ALONE, ["d"])];
    InStep(D_ROW, ALONE);
    assert Dropped(jobs, 0) == [Job(ALONE, [])] && ALONE - {"d"} == map[];
    LosesFolder(State(ALONE, D_ROW, jobs, {}), 0, map[], [Job(ALONE, [])]);
  }

  lemma CarefulTwo(s: State, a: Step, b: Step)
    requires Careful(s, a) && Careful(Next(s, a), b)
    ensures CarefulRun(s, [a, b])
  {
    assert [a, b][1..] == [b] && [b][1..] == [];
  }

  lemma LosesD()
    ensures var s := State(ALONE, D_ROW, [], {});
            var steps := [Begin("d", ALONE), Advance(0, FailedBetween)];
            CarefulRun(s, steps) && Run(s, steps) == State(map[], D_ROW, [Job(ALONE, [])], {})
  {
    var s := State(ALONE, D_ROW, [], {});
    BeginsAlone();
    LosesAlone();
    CarefulTwo(s, Begin("d", ALONE), Advance(0, FailedBetween));
    RunTwo(s, Begin("d", ALONE), Advance(0, FailedBetween));
  }

  lemma BeginsOnRow(job: Job)
    ensures Next(State(map[], D_ROW, [job], {}), Begin("a", WANTS_D))
         == State(map[], D_ROW, [job, Job(WANTS_D, ["a"])], {})
  {
    PlanKeepsInstalled();
    InStep(D_ROW, map[]);
    assert [job] + [Job(WANTS_D, ["a"])] == [job, Job(WANTS_D, ["a"])];
    Begins(State(map[], D_ROW, [job], {}), "a", WANTS_D, [job, Job(WANTS_D, ["a"])]);
  }

  lemma PlacesWithoutD(job: Job)
    ensures Next(State(map[], D_ROW, [job, Job(WANTS_D, ["a"])], {}), Advance(1, Done)).disk == map["a" := WANTS_D["a"]]
  {
    var disk: Disk := map[];
    assert disk["a" := WANTS_D["a"]] == map["a" := WANTS_D["a"]];
  }

  /** After d's folder is lost, which nothing needed, its row still lets a plan keep it: a ends up without d. */
  lemma RowWithoutFolderBreaksClosure()
    ensures var s := State(ALONE, D_ROW, [], {});
            var lost := [Begin("d", ALONE), Advance(0, FailedBetween)];
            CarefulRun(s, lost) && !Closed(Run(Run(s, lost), [Begin("a", WANTS_D), Advance(1, Done)]).disk)
  {
    LosesD();
    BeginsOnRow(Job(ALONE, []));
    PlacesWithoutD(Job(ALONE, []));
    RunTwo(State(map[], D_ROW, [Job(ALONE, [])], {}), Begin("a", WANTS_D), Advance(1, Done));
    EndsWithoutD(map["a" := WANTS_D["a"]]);
  }

  // ----- the handlers -----

  /** The disk with the catalogue's manifests of `ids` on it. */
  ghost function PlaceAll(disk: Disk, cat: Catalogue, ids: seq<Id>): Disk
    requires forall id :: id in ids ==> id in cat
  {
    disk + map id | id in ids :: cat[id]
  }

  lemma PlaceAllNext(disk: Disk, cat: Catalogue, ids: seq<Id>, i: nat)
    requires i < |ids| && forall id :: id in ids ==> id in cat
    ensures PlaceAll(disk, cat, ids[..i])[ids[i] := cat[ids[i]]] == PlaceAll(disk, cat, ids[..i + 1])
  {
    assert ids[..i + 1] == ids[..i] + [ids[i]];
  }

  /** After placing some applications the disk is closed exactly when their dependencies were there or among them. */
  lemma PlaceAllClosedExactly(disk: Disk, cat: Catalogue, ids: seq<Id>)
    requires Closed(disk) && forall id :: id in ids ==> id in cat && id != ""
    ensures Closed(PlaceAll(disk, cat, ids)) <==> KeptOnDisk(disk, cat, ids)
  {
    var disk' := PlaceAll(disk, cat, ids);
    assert disk'.Keys == disk.Keys + Elements(ids);
    if KeptOnDisk(disk, cat, ids) {
      forall a | a in disk' ensures DepsIn(disk'[a], disk'.Keys) {
        if a !in ids { assert DepsIn(disk[a], disk.Keys); }
      }
    }
    if Closed(disk') {
      forall a, e | a in ids && e in cat[a].deps && !IsCore(e.id) ensures e.id in ids || e.id in disk {
        assert DepsIn(disk'[a], disk'.Keys);
      }
    }
  }

  /** What a whole plan finds on disk or before, each part of it from the front does too. */
  lemma PrefixKept(disk: Disk, cat: Catalogue, o: seq<Id>, k: nat)
    requires Supported(disk, Job(cat, o)) && k <= |o|
    ensures KeptOnDisk(disk, cat, o[..k])
  {
    var job := Job(cat, o);
    forall a, e | a in o[..k] && e in cat[a].deps && !IsCore(e.id) ensures e.id in o[..k] || e.id in disk {
      var p :| 0 <= p < k && o[p] == a;
      assert DepsIn(cat[job.rest[p]], disk.Keys + Elements(job.rest[..p]));
      if e.id !in disk {
        var q :| 0 <= q < p && o[q] == e.id;
        assert o[..k][q] == e.id;
      }
    }
  }

  /** The plan is placed in order up to the first placing that fails, which leaves what its kind of failure leaves. */
  ghost predicate Placed(disk: Disk, disk': Disk, cat: Catalogue, order: seq<Id>, outcome: Id -> Outcome,
                         success: bool, installed: seq<Id>)
  {
    && (forall id :: id in order ==> id in cat) && installed <= order
    && AllDone(outcome, installed) && (success <==> installed == order)
    && var before := PlaceAll(disk, cat, installed);
       if success then disk' == before
       else
         var failed := order[|installed|];
         outcome(failed) != Done && disk' == PlacedOn(before, failed, cat[failed], outcome(failed))
  }

  /** The installation did not delete a folder that something installed needs. */
  ghost predicate LostNothing(disk: Disk, order: seq<Id>, outcome: Id -> Outcome, success: bool, installed: seq<Id>)
    requires installed <= order && (success <==> installed == order)
  {
    !success && outcome(order[|installed|]) == FailedBetween ==> !NeededBy(disk, order[|installed|])
  }

  ghost predicate AllDone(outcome: Id -> Outcome, ids: seq<Id>) {
    forall id :: id in ids ==> outcome(id) == Done
  }

  lemma AllDoneNext(outcome: Id -> Outcome, ids: seq<Id>, i: nat)
    requires i < |ids| && AllDone(outcome, ids[..i]) && outcome(ids[i]) == Done
    ensures AllDone(outcome, ids[..i + 1])
  {
    assert ids[..i + 1] == ids[..i] + [ids[i]];
  }

  lemma PlacedFailure(disk: Disk, disk': Disk, cat: Catalogue, order: seq<Id>, outcome: Id -> Outcome, i: nat)
    requires (forall id :: id in order ==> id in cat) && i < |order| && AllDone(outcome, order[..i])
    requires outcome(order[i]) != Done
    requires disk' == PlacedOn(PlaceAll(disk, cat, order[..i]), order[i], cat[order[i]], outcome(order[i]))
    ensures Placed(disk, disk', cat, order, outcome, false, order[..i])
  {
    assert order[..i] != order;
  }

  /** After the folder is gone the same applications declare a dependency on it as before. */
  lemma NeededWithout(disk: Disk, x: Id)
    ensures NeededBy(disk - {x}, x) <==> NeededBy(disk, x)
  {
    var disk' := disk - {x};
    forall y ensures y in disk' && Blocks(disk', y, x) <==> y in disk && Blocks(disk, y, x) {
    }
  }

  /** The part of a plan that is on disk when its installation ends. */
  function OnDisk(order: seq<Id>, outcome: Id -> Outcome, installed: seq<Id>): seq<Id>
    requires installed <= order
  {
    if installed != order && outcome(order[|installed|]) == FailedLate then order[..|installed| + 1] else installed
  }

  lemma WithoutClosedExactly(disk: Disk, x: Id)
    requires "" !in disk && (x in disk ==> DepsIn(disk[x], disk.Keys))
    ensures Closed(disk - {x}) <==> Closed(disk) && !NeededBy(disk - {x}, x)
  {
    NeededWithout(disk, x);
    if Closed(disk) {
      ClosedWithout(disk, x);
    } else {
      var a :| a in disk && !DepsIn(disk[a], disk.Keys);
      assert a in disk - {x};
      assert !DepsIn((disk - {x})[a], (disk - {x}).Keys);
    }
  }

  lemma LostBetweenClosedExactly(disk: Disk, cat: Catalogue, ids: seq<Id>, x: Id)
    requires Closed(disk) && x !in ids && forall id :: id in ids ==> id in cat && id != ""
    ensures var last := PlaceAll(disk, cat, ids) - {x};
            Closed(last) <==> KeptOnDisk(disk, cat, ids) && !NeededBy(last, x)
  {
    var before := PlaceAll(disk, cat, ids);
    if x in before {
      assert DepsIn(disk[x], disk.Keys) && disk.Keys <= before.Keys;
      assert DepsIn(before[x], before.Keys);
    }
    WithoutClosedExactly(before, x);
    PlaceAllClosedExactly(disk, cat, ids);
  }

  lemma PlacedLateClosedExactly(disk: Disk, cat: Catalogue, order: seq<Id>, k: nat)
    requires Closed(disk) && k < |order| && forall id :: id in order ==> id in cat && id != ""
    ensures Closed(PlaceAll(disk, cat, order[..k])[order[k] := cat[order[k]]])
       <==> KeptOnDisk(disk, cat, order[..k + 1])
  {
    PlaceAllNext(disk, cat, order, k);
    PlaceAllClosedExactly(disk, cat, order[..k + 1]);
  }

  /** Every way an installation can end leaves the disk closed exactly when what it placed found its dependencies and it
      did not delete a folder that something needs. */
  lemma PlacedClosedExactly(disk: Disk, disk': Disk, cat: Catalogue, order: seq<Id>, outcome: Id -> Outcome,
                            success: bool, k: nat)
    requires Closed(disk) && Distinct(order) && k <= |order| && forall id :: id in order ==> id in cat && id != ""
    requires Placed(disk, disk', cat, order, outcome, success, order[..k])
    ensures ClosedExactly(disk, disk', cat, order, outcome, success, order[..k])
  {
    assert forall id :: id in order[..k] ==> id in order;
    if !success {
      var x := order[k];
      assert forall p :: 0 <= p < k ==> order[p] != x;
      match outcome(x) {
        case FailedEarly => PlaceAllClosedExactly(disk, cat, order[..k]);
        case FailedBetween => LostBetweenClosedExactly(disk, cat, order[..k], x);
        case _ => PlacedLateClosedExactly(disk, cat, order, k);
      }
    } else {
      PlaceAllClosedExactly(disk, cat, order[..k]);
    }
  }

  /** The disk is closed exactly when what was placed found its dependencies and no needed folder was deleted. */
  ghost predicate ClosedExactly(disk: Disk, disk': Disk, cat: Catalogue, order: seq<Id>, outcome: Id -> Outcome,
                                success: bool, installed: seq<Id>)
    requires installed <= order && (success <==> installed == order)
  {
    Closed(disk') <==>
      KeptOnDisk(disk, cat, OnDisk(order, outcome, installed)) && LostNothing(disk', order, outcome, success, installed)
  }

  function Recorded(rows: Installed, id: Id, m: Manifest): Installed {
    rows[id := if m.version != "" then m.version else "0.0.0"]
  }

  /** The steps that place some applications of the only job, one after another. */
  ghost function Placings(cat: Catalogue, ids: seq<Id>): seq<Step>
    requires forall id :: id in ids ==> id in cat
  {
    if ids == [] then []
    else
      var id := ids[|ids| - 1];
      Placings(cat, ids[..|ids| - 1]) + [Advance(0, Done), Record(id, cat[id].version)]
  }

  /** The steps of an installation that places the first k of its order and, if that is not all, fails at the next. */
  ghost function Script(cat: Catalogue, order: seq<Id>, outcome: Id -> Outcome, k: nat): seq<Step>
    requires k <= |order| && forall id :: id in order ==> id in cat
  {
    if k < |order| then Placings(cat, order[..k]) + [Advance(0, outcome(order[k]))] else Placings(cat, order[..k])
  }

  ghost function Planned(disk: Disk, rows: Installed, cat: Catalogue, order: seq<Id>): State {
    State(disk, rows, [Job(cat, order)], {})
  }

  lemma {:induction false} RunConcat(s: State, a: seq<Step>, b: seq<Step>)
    ensures Run(s, a + b) == Run(Run(s, a), b)
    decreases a
  {
    if a == [] {
      assert a + b == b;
    } else {
      assert (a + b)[1..] == a[1..] + b;
      RunConcat(Next(s, a[0]), a[1..], b);
    }
  }

  lemma PlacingIs(disk: Disk, rows: Installed, cat: Catalogue, rest: seq<Id>, outcome: Outcome)
    requires rest != [] && rest[0] in cat
    ensures var t := Run(Planned(disk, rows, cat, rest), [Advance(0, outcome)]);
            t.disk == PlacedOn(disk, rest[0], cat[rest[0]], outcome) && t.rows == Synced(rows, disk)
    ensures Run(Planned(disk, rows, cat, rest), [Advance(0, Done), Record(rest[0], cat[rest[0]].version)])
         == Planned(disk[rest[0] := cat[rest[0]]], Recorded(Synced(rows, disk), rest[0], cat[rest[0]]), cat, rest[1..])
  {
    var s := Planned(disk, rows, cat, rest);
    RunTwo(s, Advance(0, Done), Record(rest[0], cat[rest[0]].version));
    assert [Job(cat, rest)][0 := Job(cat, rest[1..])] == [Job(cat, rest[1..])];
    assert [Advance(0, outcome)][1..] == [];
  }

  /** The first `i` applications of the order are placed, and their rows written. */
  ghost predicate Progress(disk: Disk, rows: Installed, disk': Disk, rows': Installed, cat: Catalogue, order: seq<Id>,
                           outcome: Id -> Outcome, i: nat)
    requires i <= |order| && forall id :: id in order ==> id in cat
  {
    && AllDone(outcome, order[..i])
    && disk' == PlaceAll(disk, cat, order[..i])
    && Planned(disk', rows', cat, order[i..]) == Run(Planned(disk, rows, cat, order), Placings(cat, order[..i]))
  }

  lemma NonePlaced(disk: Disk, rows: Installed, cat: Catalogue, order: seq<Id>, outcome: Id -> Outcome)
    requires forall id :: id in order ==> id in cat
    ensures Progress(disk, rows, disk, rows, cat, order, outcome, 0)
  {
    assert order[..0] == [] && order[0..] == order && PlaceAll(disk, cat, []) == disk;
  }

  lemma PlacingsNext(disk: Disk, rows: Installed, disk': Disk, rows': Installed, cat: Catalogue, order: seq<Id>, i: nat)
    requires i < |order| && forall id :: id in order ==> id in cat
    requires Planned(disk', rows', cat, order[i..]) == Run(Planned(disk, rows, cat, order), Placings(cat, order[..i]))
    ensures var id := order[i];
            Planned(disk'[id := cat[id]], Recorded(Synced(rows', disk'), id, cat[id]), cat, order[i + 1..])
            == Run(Planned(disk, rows, cat, order), Placings(cat, order[..i + 1]))
  {
    var id, front := order[i], order[..i + 1];
    assert front[..i] == order[..i] && order[i..][0] == id && order[i..][1..] == order[i + 1..];
    var place := [Advance(0, Done), Record(id, cat[id].version)];
    RunConcat(Planned(disk, rows, cat, order), Placings(cat, order[..i]), place);
    PlacingIs(disk', rows', cat, order[i..], Done);
  }

  lemma FailingIs(disk: Disk, rows: Installed, disk': Disk, rows': Installed, cat: Catalogue, order: seq<Id>,
                  outcome: Id -> Outcome, i: nat)
    requires i < |order| && forall id :: id in order ==> id in cat
    requires Planned(disk', rows', cat, order[i..]) == Run(Planned(disk, rows, cat, order), Placings(cat, order[..i]))
    ensures var last := PlacedOn(disk', order[i], cat[order[i]], outcome(order[i]));
            IsRun(disk, rows, last, Synced(rows', disk'), cat, order, outcome, order[..i])
  {
    var s, step := Planned(disk, rows, cat, order), Advance(0, outcome(order[i]));
    RunConcat(s, Placings(cat, order[..i]), [step]);
    PlacingIs(disk', rows', cat, order[i..], outcome(order[i]));
  }

  lemma OnePlaced(disk: Disk, rows: Installed, disk': Disk, rows': Installed, cat: Catalogue, order: seq<Id>,
                  outcome: Id -> Outcome, i: nat)
    requires i < |order| && (forall id :: id in order ==> id in cat) && outcome(order[i]) == Done
    requires Progress(disk, rows, disk', rows', cat, order, outcome, i)
    ensures var id := order[i];
            && order[..i] + [id] == order[..i + 1]
            && Progress(disk, rows, disk'[id := cat[id]], Recorded(Synced(rows', disk'), id, cat[id]), cat, order,
                        outcome, i + 1)
  {
    var id, front := order[i], order[..i + 1];
    PlaceAllNext(disk, cat, order, i);
    PlacingsNext(disk, rows, disk', rows', cat, order, i);
    AllDoneNext(outcome, order, i);
    assert order[..i] + [id] == front;
    assert disk'[id := cat[id]] == PlaceAll(disk, cat, front);
  }

  lemma EndsEarly(disk: Disk, rows: Installed, disk': Disk, rows': Installed, cat: Catalogue, order: seq<Id>,
                  outcome: Id -> Outcome, i: nat)
    requires i < |order| && Closed(disk) && Distinct(order) && forall id :: id in order ==> id in cat && id != ""
    requires Progress(disk, rows, disk', rows', cat, order, outcome, i) && outcome(order[i]) != Done
    ensures var last := PlacedOn(disk', order[i], cat[order[i]], outcome(order[i]));
            Ended(disk, rows, last, Synced(rows', disk'), cat, order, outcome, false, order[..i])
  {
    var last := PlacedOn(disk', order[i], cat[order[i]], outcome(order[i]));
    PlacedFailure(disk, last, cat, order, outcome, i);
    FailingIs(disk, rows, disk', rows', cat, order, outcome, i);
    PlacedClosedExactly(disk, last, cat, order, outcome, false, i);
  }

  lemma EndsWhole(disk: Disk, rows: Installed, disk': Disk, rows': Installed, cat: Catalogue, order: seq<Id>,
                  outcome: Id -> Outcome)
    requires Closed(disk) && Distinct(order) && forall id :: id in order ==> id in cat && id != ""
    requires Progress(disk, rows, disk', rows', cat, order, outcome, |order|)
    ensures order[..|order|] == order
    ensures Ended(disk, rows, disk', rows', cat, order, outcome, true, order)
  {
    assert order[..|order|] == order;
    PlacedClosedExactly(disk, disk', cat, order, outcome, true, |order|);
  }

  /** Disk and rows are those the steps of the installation lead to. */
  ghost predicate IsRun(disk: Disk, rows: Installed, disk': Disk, rows': Installed, cat: Catalogue, order: seq<Id>,
                        outcome: Id -> Outcome, installed: seq<Id>)
    requires (forall id :: id in order ==> id in cat) && installed <= order
  {
    var t := Run(Planned(disk, rows, cat, order), Script(cat, order, outcome, |installed|));
    disk' == t.disk && rows' == t.rows
  }

  /** How an installation of a planned order ends: what is on disk, when that is closed, and by which steps. */
  ghost predicate Ended(disk: Disk, rows: Installed, disk': Disk, rows': Installed, cat: Catalogue, order: seq<Id>,
                        outcome: Id -> Outcome, success: bool, installed: seq<Id>)
  {
    && Placed(disk, disk', cat, order, outcome, success, installed)
    && ClosedExactly(disk, disk', cat, order, outcome, success, installed)
    && IsRun(disk, rows, disk', rows', cat, order, outcome, installed)
  }

  lemma BeginThen(s: State, target: Id, cat: Catalogue, rest: seq<Step>)
    requires PlanIn(s, target, cat).ok && s.jobs == [] && s.removing == {}
    ensures Run(s, [Begin(target, cat)] + rest)
         == Run(Planned(s.disk, Synced(s.rows, s.disk), cat, PlanIn(s, target, cat).order), rest)
  {
    RunFirst(s, Begin(target, cat), rest);
    assert [] + [Job(cat, PlanIn(s, target, cat).order)] == [Job(cat, PlanIn(s, target, cat).order)];
  }

  lemma SyncedTwice(rows: Installed, disk: Disk)
    ensures Synced(Synced(rows, disk), disk) == Synced(rows, disk)
  {
  }

  /** A change of version, and the row it writes when it succeeds. */
  function Changed(s: State, id: Id, m: Manifest, outcome: Outcome): State {
    var t := Next(s, ChangeVersion(id, m, outcome));
    if CanChange(s, id) && outcome == Done then Next(t, Record(id, m.version)) else t
  }

  lemma ChangedIs(s: State, id: Id, m: Manifest, outcome: Outcome)
    requires Closed(s.disk) && s.jobs == []
    ensures !CanChange(s, id) ==> Changed(s, id, m, outcome) == s.(rows := Synced(s.rows, s.disk))
    ensures CanChange(s, id) ==>
              var t, rows := Changed(s, id, m, outcome), Synced(s.rows, s.disk);
              && t == s.(disk := PlacedOn(s.disk, id, m, outcome),
                         rows := if outcome == Done then Recorded(rows, id, m) else rows)
              && (Closed(t.disk) <==> ChangeIsSafe(s, id, m, outcome))
  {
    if CanChange(s, id) { ChangeVersionExactly(s, id, m, outcome); }
  }

  class StoreHandler {
    var disk: Disk
    var rows: Installed
    var removing: set<Id>

    /** With no other installation under way. */
    ghost function Idle(): State
      reads this
    {
      State(disk, rows, [], removing)
    }

    /** The installed applications as the table shows them, after it has taken over what is on disk. */
    method GetInstalledRows() returns (r: Installed)
      modifies this`rows
      ensures r == rows == Synced(old(rows), disk)
      ensures r.Keys == old(rows).Keys + disk.Keys
      ensures forall id :: id in disk && disk[id].version != "" ==> r[id] == disk[id].version
      ensures forall id :: id in disk && disk[id].version == "" ==>
                r[id] == if id in old(rows) then old(rows)[id] else "1.0.0"
      ensures forall id :: id in old(rows) && id !in disk ==> r[id] == old(rows)[id]
    {
      rows := Synced(rows, disk);
      r := rows;
    }

    /** Plans, then places one application after another; `outcome` tells how each placing ends. */
    method Install(appId: Id, cat: Catalogue, outcome: Id -> Outcome) returns (success: bool, installed: seq<Id>)
      requires Closed(disk)
      modifies this`disk, this`rows
      ensures var plan := PlanFor(cat, Synced(old(rows), old(disk)), appId);
              if plan.ok then
                && Ended(old(disk), Synced(old(rows), old(disk)), disk, rows, cat, plan.order, outcome, success,
                         installed)
                && (KeptOnDisk(old(disk), cat, plan.order) ==>
                      (Closed(disk) <==> LostNothing(disk, plan.order, outcome, success, installed)))
              else !success && installed == [] && disk == old(disk) && rows == Synced(old(rows), disk)
      ensures var plan := PlanFor(cat, Synced(old(rows), old(disk)), appId);
              plan.ok ==>
                var t := Run(old(Idle()).(removing := {}),
                             [Begin(appId, cat)] + Script(cat, plan.order, outcome, |installed|));
                disk == t.disk && rows == t.rows
    {
      var installate := GetInstalledRows();
      var piano := PianificaInstallazione(appId, cat, installate);
      if !piano.ok {
        return false, [];
      }
      if !IsCore(appId) { OkPlanIsTopological(cat, installate, appId); }
      ghost var s := old(Idle()).(removing := {});
      success, installed := InstallaPiano(cat, piano.order, outcome);
      if KeptOnDisk(old(disk), cat, piano.order) {
        PlanSupportedExactly(s, appId, cat);
        PrefixKept(old(disk), cat, piano.order, |OnDisk(piano.order, outcome, installed)|);
        OnDiskIsPrefix(piano.order, outcome, installed);
      }
      BeginThen(s, appId, cat, Script(cat, piano.order, outcome, |installed|));
    }

    method InstallaPiano(cat: Catalogue, ordine: seq<Id>, outcome: Id -> Outcome)
        returns (success: bool, installed: seq<Id>)
      requires Closed(disk) && Distinct(ordine) && forall id :: id in ordine ==> id in cat && id != ""
      modifies this`disk, this`rows
      ensures Ended(old(disk), old(rows), disk, rows, cat, ordine, outcome, success, installed)
    {
      installed := [];
      NonePlaced(disk, old(rows), cat, ordine, outcome);
      for i := 0 to |ordine|
        invariant installed == ordine[..i]
        invariant Progress(old(disk), old(rows), disk, rows, cat, ordine, outcome, i)
      {
        var id := ordine[i];
        ghost var disk', rows' := disk, rows;
        InstallaSingola(id, cat[id], outcome(id));
        if outcome(id) != Done {
          EndsEarly(old(disk), old(rows), disk', rows', cat, ordine, outcome, i);
          return false, installed;
        }
        OnePlaced(old(disk), old(rows), disk', rows', cat, ordine, outcome, i);
        installed := installed + [id];
      }
      EndsWhole(old(disk), old(rows), disk, rows, cat, ordine, outcome);
      success := true;
    }

    /** Places one application: an existing folder is deleted before the new one is renamed into its place. */
    method InstallaSingola(id: Id, manifest: Manifest, outcome: Outcome)
      modifies this`disk, this`rows
      ensures disk == PlacedOn(old(disk), id, manifest, outcome)
      ensures rows == if outcome == Done then Recorded(Synced(old(rows), old(disk)), id, manifest)
                      else Synced(old(rows), old(disk))
      ensures outcome == Done ==> id in rows && rows[id] == if manifest.version != "" then manifest.version else "0.0.0"
    {
      var _ := GetInstalledRows();
      if outcome == FailedEarly { return; }
      disk := disk - {id};
      if outcome == FailedBetween { return; }
      disk := disk[id := manifest];
      assert disk == old(disk)[id := manifest];
      if outcome == FailedLate { return; }
      rows := Recorded(rows, id, manifest);
    }

    /** A stored package replaces the installed one without planning. */
    method InstallaVersione(appId: Id, archived: Option<Manifest>, outcome: Outcome) returns (success: bool)
      requires Closed(disk)
      modifies this`disk, this`rows
      ensures var known := appId != "" && appId in Synced(old(rows), old(disk)) && archived.Some?;
              && (success <==> known && outcome == Done)
              && disk == (if known then PlacedOn(old(disk), appId, archived.value, outcome) else old(disk))
              && (known ==> (Closed(disk) <==> ChangeIsSafe(old(Idle()), appId, archived.value, outcome)))
      ensures archived.Some? ==> Idle() == Changed(old(Idle()), appId, archived.value, outcome)
    {
      ghost var s := Idle();
      var installate := GetInstalledRows();
      if archived.Some? { ChangedIs(s, appId, archived.value, outcome); }
      SyncedTwice(s.rows, disk);
      if appId == "" || appId !in installate || archived.None? { return false; }
      InstallaSingola(appId, archived.value, outcome);
      success := outcome == Done;
    }

    /** The gate of an uninstall; `installed` lists the rows in their order. */
    method Uninstall(appId: Id, installed: seq<Id>) returns (passed: bool, blockedBy: seq<Id>)
      requires forall x :: x in installed <==> x in Synced(rows, disk)
      modifies this`removing, this`rows
      ensures (passed <==> Free(disk, appId)) && Idle() == Next(old(Idle()), Gate(appId))
      ensures blockedBy == BlockedBy(appId, installed, disk)
      ensures removing == (if passed then old(removing) + {appId} else old(removing)) && rows == Synced(old(rows), disk)
    {
      var _ := GetInstalledRows();
      passed, blockedBy := CanUninstall(appId, installed, disk);
      if passed {
        removing := removing + {appId};
      }
    }

    /** The removal of folder and row, some time after the gate. */
    method FinishUninstall(appId: Id)
      requires Closed(disk) && appId in removing
      modifies this
      ensures disk == old(disk) - {appId} && rows == old(rows) - {appId} && removing == old(removing) - {appId}
      ensures Idle() == Next(old(Idle()), Remove(appId))
      ensures Closed(disk) <==> !NeededBy(old(disk), appId)
    {
      ClosedWithout(disk, appId);
      disk := disk - {appId};
      rows := rows - {appId};
      removing := removing - {appId};
    }
  }

  lemma OnDiskIsPrefix(order: seq<Id>, outcome: Id -> Outcome, installed: seq<Id>)
    requires installed <= order
    ensures var d := OnDisk(order, outcome, installed); |d| <= |order| && d == order[..|d|]
  {
  }
}

/** Whole histories of requests, starting from an empty organisation. */
module TaskRuns {
  import opened Wrappers
  import opened Graphs
  import opened TaskState
  import opened TaskInvariants
  import opened TaskProperties
  import TaskBatch
  import TaskPlans
  import Keys
  import Text

  datatype Request =
    | NewProject(name: string, newId: Id)
    | NewTask(pid: Id, spec: TaskSpec, newId: Id)
    | NewPlan(pid: Id, entries: seq<TaskBatch.Entry>, ids: nat -> Id, rowIds: nat -> Id)
    | Reparent(ref: Ref, parent: Option<Ref>)
    | MoveTo(ref: Ref, status: string)
    | Delete(ref: Ref)
    | Depend(pid: Id, task: Ref, blocker: Ref, newId: Id)
    | Undepend(pid: Id, rowId: Id)
    | Link(task: Ref, other: Ref, linkType: Option<LinkType>, newId: Id)
    | Unlink(task: Ref, link: LinkId)

  ghost function Serve(db: Db, q: Request): Db {
    match q
    case NewProject(name, id) => CreateProject(db, name, id).0
    case NewTask(pid, spec, id) => CreateTask(db, pid, spec, id).0
    case NewPlan(pid, entries, ids, rowIds) => TaskBatch.CreatePlan(db, pid, entries, ids, rowIds).0
    case Reparent(ref, parent) => SetParent(db, ref, parent).0
    case MoveTo(ref, status) => Move(db, ref, status).0
    case Delete(ref) => DeleteTask(db, ref).0
    case Depend(pid, t, b, id) => AddDependency(db, pid, t, b, id).0
    case Undepend(pid, rowId) => RemoveDependency(db, pid, rowId).0
    case Link(t, o, linkType, id) => AddLink(db, t, o, linkType, id).0
    case Unlink(t, link) => RemoveLink(db, t, link).0
  }

  ghost function RunFrom(db: Db, qs: seq<Request>): Db {
    if qs == [] then db else Serve(RunFrom(db, qs[..|qs| - 1]), qs[|qs| - 1])
  }

  const EMPTY := Db(map[], map[], map[])

  ghost function Run(qs: seq<Request>): Db { RunFrom(EMPTY, qs) }

  lemma ServeKeepsInv(db: Db, q: Request)
    requires Inv(db)
    ensures Inv(Serve(db, q))
  {
    hide Inv;
    match q
    case NewProject(name, id) => CreateProjectKeepsInv(db, name, id);
    case NewTask(pid, spec, id) => AddTaskKeepsInv(db, pid, spec, id);
    case NewPlan(pid, entries, ids, rowIds) => TaskPlans.CreatePlanKeepsInv(db, pid, entries, ids, rowIds);
    case Reparent(ref, parent) => SetParentKeepsInv(db, ref, parent);
    case MoveTo(ref, status) => MoveKeepsInv(db, ref, status);
    case Delete(ref) => DeleteTaskKeepsInv(db, ref);
    case Depend(pid, t, b, id) => AddDependencyKeepsInv(db, pid, t, b, id);
    case Undepend(pid, rowId) => RemoveKeepsInv(db, rowId);
    case Link(t, o, linkType, id) => AddLinkKeepsInv(db, t, o, linkType, id);
    case Unlink(t, link) => RemoveLinkKeepsInv(db, t, link);
  }

  lemma {:induction false} RunFromKeepsInv(db: Db, qs: seq<Request>)
    requires Inv(db)
    ensures Inv(RunFrom(db, qs))
    decreases |qs|
  {
    hide Inv, Serve;
    if qs != [] {
      RunFromKeepsInv(db, qs[..|qs| - 1]);
      ServeKeepsInv(RunFrom(db, qs[..|qs| - 1]), qs[|qs| - 1]);
    }
  }

  /** After any history of requests the links are sound and the blocking graph is a DAG. */
  lemma EveryRunSound(qs: seq<Request>)
    ensures Inv(Run(qs))
  {
    assert BlockingEdges(EMPTY.rows) == {};
    RunFromKeepsInv(EMPTY, qs);
  }

  /** After any history: no cycle, no dangling end, and while a task of a project
      is open some open task of that project is not blocked. */
  lemma EveryRunCanProgress(qs: seq<Request>)
    ensures Acyclic(BlockingEdges(Run(qs).rows))
    ensures forall e :: e in BlockingEdges(Run(qs).rows) ==> e.0 in Run(qs).tasks && e.1 in Run(qs).tasks
    ensures forall t :: Open(Run(qs), t) ==>
      exists u :: u in OpenTasks(Run(qs), Run(qs).tasks[t].project) && !IsBlocked(Run(qs), u)
  {
    var db := Run(qs);
    EveryRunSound(qs);
    forall e | e in BlockingEdges(db.rows) ensures e.0 in db.tasks && e.1 in db.tasks {
      var r := BlockingRow(db.rows, e.0, e.1);
      assert RowSound(db.tasks, db.rows[r]);
    }
    forall t | Open(db, t) ensures exists u :: u in OpenTasks(db, db.tasks[t].project) && !IsBlocked(db, u) {
      SomeOpenTaskIsUnblocked(db, t);
    }
  }

  /** After any history, two different tasks agree on the links between them. */
  lemma EveryRunLinksAgree(qs: seq<Request>, a: Id, t: LinkType, b: Id)
    requires a in Run(qs).tasks && b in Run(qs).tasks && a != b
    ensures Lists(Run(qs), a, t, b) <==> Lists(Run(qs), b, Inverse(t), a)
  {
    EveryRunSound(qs);
    LinksSeenFromBothSides(Run(qs), a, t, b);
  }

  // ---- keys ----

  /** Projects are never renumbered: prefixes stay and counters only grow. */
  ghost predicate CountersGrow(before: map<Id, Project>, after: map<Id, Project>) {
    forall p :: p in before ==>
      p in after && after[p].prefix == before[p].prefix && after[p].nextNumber >= before[p].nextNumber
  }

  lemma IssuedStays(before: map<Id, Project>, after: map<Id, Project>, pid: Id, key: string)
    requires CountersGrow(before, after) && Issued(before, pid, key)
    ensures Issued(after, pid, key)
  {
    var n: nat :| 1 <= n < before[pid].nextNumber && key == Keys.Render(before[pid].prefix, n);
    assert n < after[pid].nextNumber;
  }

  /** Tasks that are new in `after` carry keys that no project had issued before. */
  ghost predicate NewKeysFresh(before: Db, after: Db) {
    forall u, pid :: u in after.tasks && u !in before.tasks ==> !Issued(before.projects, pid, after.tasks[u].key)
  }

  lemma AddTaskExact(db: Db, pid: Id, spec: TaskSpec, newId: Id)
    requires PrefixesSound(db.projects) && AddTask(db, pid, spec, newId).Ok?
    ensures pid in db.projects
    ensures var p, after := db.projects[pid], AddTask(db, pid, spec, newId).value;
      && after.projects == db.projects[pid := p.(nextNumber := p.nextNumber + 1)]
      && after.tasks.Keys == db.tasks.Keys + {newId}
      && after.tasks[newId].key == Keys.Render(p.prefix, p.nextNumber)
  {
    hide ValidateParent;
  }

  lemma AddTaskKeys(db: Db, pid: Id, spec: TaskSpec, newId: Id)
    requires PrefixesSound(db.projects) && AddTask(db, pid, spec, newId).Ok?
    ensures var after := AddTask(db, pid, spec, newId).value;
      && CountersGrow(db.projects, after.projects) && NewKeysFresh(db, after)
      && after.tasks.Keys == db.tasks.Keys + {newId}
  {
    var after := AddTask(db, pid, spec, newId).value;
    var n := db.projects[pid].nextNumber;
    AddTaskExact(db, pid, spec, newId);
    hide AddTask, Issued;
    forall q ensures !Issued(db.projects, q, Keys.Render(db.projects[pid].prefix, n)) {
      if Issued(db.projects, q, Keys.Render(db.projects[pid].prefix, n)) {
        IssuedElsewhere(db.projects, pid, q, n, Keys.Render(db.projects[pid].prefix, n));
      }
    }
  }

  lemma {:induction false} StageAllKeys(db: Db, pid: Id, entries: seq<TaskBatch.Entry>, ids: nat -> Id, n: nat)
    requires Inv(db) && n <= |entries| && TaskBatch.StageAll(db, pid, entries, ids, n).Ok?
    ensures var after := TaskBatch.StageAll(db, pid, entries, ids, n).value;
      CountersGrow(db.projects, after.projects) && NewKeysFresh(db, after)
    decreases n
  {
    hide AddTask, RowsSound, PairsUnique, Acyclic, ParentsSound, KeysSound;
    if n > 0 {
      StageAllKeys(db, pid, entries, ids, n - 1);
      TaskBatch.StageAllKeepsInv(db, pid, entries, ids, n - 1);
      hide CountersGrow, NewKeysFresh;
      var mid := TaskBatch.StageAll(db, pid, entries, ids, n - 1).value;
      AddTaskKeys(mid, pid, entries[n - 1].spec, ids(n - 1));
      AddTaskKeepsOthers(mid, pid, entries[n - 1].spec, ids(n - 1));
      FreshInTwoSteps(db, mid, TaskBatch.StageAll(db, pid, entries, ids, n).value);
    }
  }

  lemma AddTaskKeepsOthers(db: Db, pid: Id, spec: TaskSpec, newId: Id)
    requires AddTask(db, pid, spec, newId).Ok?
    ensures var after := AddTask(db, pid, spec, newId).value;
      forall t :: t in db.tasks ==> t in after.tasks && after.tasks[t].key == db.tasks[t].key
  {
  }

  lemma FreshInTwoSteps(db: Db, mid: Db, after: Db)
    requires CountersGrow(db.projects, mid.projects) && CountersGrow(mid.projects, after.projects)
    requires NewKeysFresh(db, mid) && NewKeysFresh(mid, after)
    requires forall t :: t in mid.tasks && t in after.tasks ==> after.tasks[t].key == mid.tasks[t].key
    ensures CountersGrow(db.projects, after.projects) && NewKeysFresh(db, after)
  {
    forall u, pid | u in after.tasks && u !in db.tasks ensures !Issued(db.projects, pid, after.tasks[u].key) {
      if Issued(db.projects, pid, after.tasks[u].key) {
        IssuedStays(db.projects, mid.projects, pid, after.tasks[u].key);
      }
    }
  }

  lemma PlanKeys(db: Db, pid: Id, entries: seq<TaskBatch.Entry>, ids: nat -> Id, rowIds: nat -> Id)
    requires Inv(db) && TaskBatch.Plan(db, pid, entries, ids, rowIds).Ok?
    ensures var after := TaskBatch.Plan(db, pid, entries, ids, rowIds).value;
      CountersGrow(db.projects, after.projects) && NewKeysFresh(db, after)
  {
    StageAllKeys(db, pid, entries, ids, |entries|);
    var staged := TaskBatch.StageAll(db, pid, entries, ids, |entries|).value;
    var edges := TaskBatch.BatchEdges(entries, TaskBatch.ByRef(entries, ids, |entries|), |entries|);
    TaskPlans.InsertsKeepTasks(staged, pid, edges, rowIds);
  }

  /** Requests other than the creating ones add no task and leave the projects alone. */
  ghost predicate Creates(q: Request) { q.NewProject? || q.NewTask? || q.NewPlan? }

  lemma OthersAddNoTask(db: Db, q: Request)
    requires !Creates(q)
    ensures Serve(db, q).tasks.Keys <= db.tasks.Keys && Serve(db, q).projects == db.projects
  {
    match q
    case Link(t, o, linkType, id) => LinkKeepsTasks(db, t, o, linkType, id);
    case Reparent(ref, parent) =>
    case Unlink(t, link) =>
    case _ =>
  }

  lemma ServeKeys(db: Db, q: Request)
    requires Inv(db)
    ensures CountersGrow(db.projects, Serve(db, q).projects) && NewKeysFresh(db, Serve(db, q))
  {
    if !Creates(q) {
      OthersAddNoTask(db, q);
    } else if q.NewPlan? {
      if TaskBatch.Plan(db, q.pid, q.entries, q.ids, q.rowIds).Ok? { PlanKeys(db, q.pid, q.entries, q.ids, q.rowIds); }
    } else if q.NewTask? {
      if AddTask(db, q.pid, q.spec, q.newId).Ok? { AddTaskKeys(db, q.pid, q.spec, q.newId); }
    }
  }

  lemma LinkKeepsTasks(db: Db, a: Ref, b: Ref, linkType: Option<LinkType>, id: Id)
    ensures AddLink(db, a, b, linkType, id).0.tasks.Keys == db.tasks.Keys
    ensures AddLink(db, a, b, linkType, id).0.projects == db.projects
    ensures linkType.Some? && !Hierarchy(linkType.value) ==> AddLink(db, a, b, linkType, id).0.tasks == db.tasks
  {
    hide Resolve, AddHierarchyLink, AddRowLink;
    var t, o := Resolve(db.tasks, a), Resolve(db.tasks, b);
    if t.Some? && o.Some? && linkType.Some? && t.value in db.tasks && o.value in db.tasks {
      var pid := db.tasks[t.value].project;
      HierarchyLinkShape(db, t.value, o.value);
      HierarchyLinkShape(db, o.value, t.value);
      RowLinkShape(db, pid, t.value, o.value, linkType.value, id);
      RowLinkShape(db, pid, o.value, t.value, Inverse(linkType.value), id);
    }
  }

  lemma HierarchyLinkShape(db: Db, child: Id, parent: Id)
    requires child in db.tasks
    ensures AddHierarchyLink(db, child, parent).0.tasks.Keys == db.tasks.Keys
    ensures AddHierarchyLink(db, child, parent).0.projects == db.projects
  {
  }

  lemma RowLinkShape(db: Db, pid: Id, source: Id, target: Id, stored: LinkType, id: Id)
    ensures AddRowLink(db, pid, source, target, stored, id).0.tasks == db.tasks
    ensures AddRowLink(db, pid, source, target, stored, id).0.projects == db.projects
  {
  }

  lemma {:induction false} CountersGrowOverRun(db: Db, qs: seq<Request>)
    requires Inv(db)
    ensures CountersGrow(db.projects, RunFrom(db, qs).projects)
    decreases |qs|
  {
    if qs != [] {
      CountersGrowOverRun(db, qs[..|qs| - 1]);
      RunFromKeepsInv(db, qs[..|qs| - 1]);
      ServeKeys(RunFrom(db, qs[..|qs| - 1]), qs[|qs| - 1]);
    }
  }

  /** A key, once given to a task, is never given to a task created later, even
      after the first one was deleted.  (And no two live tasks share one: Inv.) */
  lemma KeyNeverReissued(qs: seq<Request>, t: Id, later: seq<Request>, q: Request, u: Id)
    requires t in Run(qs).tasks
    requires u in Serve(RunFrom(Run(qs), later), q).tasks && u !in RunFrom(Run(qs), later).tasks
    ensures Serve(RunFrom(Run(qs), later), q).tasks[u].key != Run(qs).tasks[t].key
  {
    var db := Run(qs);
    var mid := RunFrom(db, later);
    EveryRunSound(qs);
    assert Issued(db.projects, db.tasks[t].project, db.tasks[t].key);
    CountersGrowOverRun(db, later);
    IssuedStays(db.projects, mid.projects, db.tasks[t].project, db.tasks[t].key);
    RunFromKeepsInv(db, later);
    ServeKeys(mid, q);
  }

  // ---- the parent tree ----

  /** The request gives no task a parent that has more than MAX_DEPTH ancestors. */
  ghost predicate ShallowParents(db: Db, q: Request) {
    match q
    case Reparent(ref, parent) =>
      var t := Resolve(db.tasks, ref);
      var p := ParentRef(parent);
      t.Some? && t.value in db.tasks && p.Some? && ValidateParent(db, t.value, p.value).Ok? ==>
        Shallow(db.tasks, ValidateParent(db, t.value, p.value).value)
    case Link(a, b, linkType, _) =>
      var t, o := Resolve(db.tasks, a), Resolve(db.tasks, b);
      t.Some? && o.Some? && linkType.Some? && Hierarchy(linkType.value) ==>
        Shallow(db.tasks, if linkType.value.ChildOf? then o.value else t.value)
    case _ => true
  }

  lemma SetParentOfForest(db: Db, t: Id, parent: Option<Ref>)
    requires Forest(db.tasks) && t in db.tasks && SetParentOf(db, t, parent).Ok?
    requires ParentRef(parent).Some? ==> Shallow(db.tasks, ValidateParent(db, t, ParentRef(parent).value).value)
    ensures Forest(SetParentOf(db, t, parent).value.tasks)
  {
    if ParentRef(parent).None? {
      FewerParentsForest(db.tasks, WithParent(db, t, None).tasks);
    } else {
      ShallowParentSafe(db, t, ParentRef(parent).value);
    }
  }

  /** A task that was just inserted has no children, so any parent is safe for it. */
  lemma NewTaskParentSafe(db: Db, mid: Db, newId: Id, parent: Ref)
    requires ParentsSound(db.tasks) && Forest(mid.tasks) && newId !in db.tasks && newId in mid.tasks
    requires mid.tasks.Keys == db.tasks.Keys + {newId} && forall t :: t in db.tasks ==> mid.tasks[t] == db.tasks[t]
    requires ValidateParent(mid, newId, parent).Ok?
    ensures Forest(WithParent(mid, newId, Some(ValidateParent(mid, newId, parent).value)).tasks)
  {
    var p := ValidateParent(mid, newId, parent).value;
    assert p in db.tasks by { ResolveSound(mid, parent); }
    forall j: nat ensures Up(mid.tasks, p, j) != Some(newId) {
      UpStaysInside(db, mid.tasks, newId, p, j);
    }
    AcceptedParentExact(mid, newId, parent);
  }

  lemma AddTaskForest(db: Db, pid: Id, spec: TaskSpec, newId: Id)
    requires ParentsSound(db.tasks) && Forest(db.tasks) && AddTask(db, pid, spec, newId).Ok?
    ensures Forest(AddTask(db, pid, spec, newId).value.tasks)
  {
    var mid := InsertTask(db, pid, spec, newId);
    FewerParentsForest(db.tasks, mid.tasks);
    if ParentRef(spec.parent).None? {
      FewerParentsForest(mid.tasks, WithParent(mid, newId, None).tasks);
    } else {
      NewTaskParentSafe(db, mid, newId, ParentRef(spec.parent).value);
    }
  }

  lemma {:induction false} StageAllForest(db: Db, pid: Id, entries: seq<TaskBatch.Entry>, ids: nat -> Id, n: nat)
    requires Inv(db) && Forest(db.tasks) && n <= |entries| && TaskBatch.StageAll(db, pid, entries, ids, n).Ok?
    ensures Forest(TaskBatch.StageAll(db, pid, entries, ids, n).value.tasks)
    decreases n
  {
    hide Forest, AddTask, RowsSound, PairsUnique, Acyclic, PrefixesSound, KeysSound;
    if n > 0 {
      StageAllForest(db, pid, entries, ids, n - 1);
      TaskBatch.StageAllKeepsInv(db, pid, entries, ids, n - 1);
      AddTaskForest(TaskBatch.StageAll(db, pid, entries, ids, n - 1).value, pid, entries[n - 1].spec, ids(n - 1));
    }
  }

  lemma HierarchyLinkForest(db: Db, child: Id, parent: Id)
    requires Forest(db.tasks) && child in db.tasks && parent in db.tasks && Shallow(db.tasks, parent)
    ensures Forest(AddHierarchyLink(db, child, parent).0.tasks)
  {
    if ValidateParent(db, child, parent).Ok? {
      ShallowParentSafe(db, child, parent);
    }
  }

  lemma PlanForest(db: Db, pid: Id, entries: seq<TaskBatch.Entry>, ids: nat -> Id, rowIds: nat -> Id)
    requires Inv(db) && Forest(db.tasks)
    ensures Forest(TaskBatch.CreatePlan(db, pid, entries, ids, rowIds).0.tasks)
  {
    if TaskBatch.Plan(db, pid, entries, ids, rowIds).Ok? {
      StageAllForest(db, pid, entries, ids, |entries|);
      var staged := TaskBatch.StageAll(db, pid, entries, ids, |entries|).value;
      var edges := TaskBatch.BatchEdges(entries, TaskBatch.ByRef(entries, ids, |entries|), |entries|);
      TaskPlans.InsertsKeepTasks(staged, pid, edges, rowIds);
    }
  }

  lemma CreateTaskForest(db: Db, pid: Id, spec: TaskSpec, newId: Id)
    requires ParentsSound(db.tasks) && Forest(db.tasks)
    ensures Forest(CreateTask(db, pid, spec, newId).0.tasks)
  {
    if AddTask(db, pid, spec, newId).Ok? {
      AddTaskForest(db, pid, spec, newId);
    }
  }

  lemma DependencyKeepsTasks(db: Db, pid: Id, t: Ref, b: Ref, id: Id)
    ensures AddDependency(db, pid, t, b, id).0.tasks == db.tasks
  {
  }

  lemma DeleteForest(db: Db, ref: Ref)
    requires Forest(db.tasks)
    ensures Forest(DeleteTask(db, ref).0.tasks)
  {
    FewerParentsForest(db.tasks, DeleteTask(db, ref).0.tasks);
  }

  lemma UnlinkForest(db: Db, t: Ref, link: LinkId)
    requires Forest(db.tasks)
    ensures Forest(RemoveLink(db, t, link).0.tasks)
  {
    FewerParentsForest(db.tasks, RemoveLink(db, t, link).0.tasks);
  }

  lemma MoveForest(db: Db, ref: Ref, status: string)
    requires Forest(db.tasks)
    ensures Forest(Move(db, ref, status).0.tasks)
  {
    FewerParentsForest(db.tasks, Move(db, ref, status).0.tasks);
  }

  lemma ReparentForest(db: Db, ref: Ref, parent: Option<Ref>)
    requires Forest(db.tasks) && ShallowParents(db, Reparent(ref, parent))
    ensures Forest(SetParent(db, ref, parent).0.tasks)
  {
    var t := Resolve(db.tasks, ref);
    if t.Some? && t.value in db.tasks && SetParentOf(db, t.value, parent).Ok? {
      SetParentOfForest(db, t.value, parent);
    }
  }

  lemma ServeForest(db: Db, q: Request)
    requires Inv(db) && Forest(db.tasks) && ShallowParents(db, q)
    ensures Forest(Serve(db, q).tasks)
  {
    match q
    case NewProject(name, id) =>
    case NewTask(pid, spec, id) =>
      CreateTaskForest(db, pid, spec, id);
    case NewPlan(pid, entries, ids, rowIds) => PlanForest(db, pid, entries, ids, rowIds);
    case Reparent(ref, parent) => ReparentForest(db, ref, parent);
    case MoveTo(ref, status) => MoveForest(db, ref, status);
    case Delete(ref) => DeleteForest(db, ref);
    case Depend(pid, t, b, id) => DependencyKeepsTasks(db, pid, t, b, id);
    case Undepend(pid, rowId) =>
    case Link(a, b, linkType, id) => LinkForest(db, a, b, linkType, id);
    case Unlink(t, link) => UnlinkForest(db, t, link);
  }

  lemma LinkForest(db: Db, a: Ref, b: Ref, linkType: Option<LinkType>, id: Id)
    requires Forest(db.tasks) && ShallowParents(db, Link(a, b, linkType, id))
    ensures Forest(AddLink(db, a, b, linkType, id).0.tasks)
  {
    var t, o := Resolve(db.tasks, a), Resolve(db.tasks, b);
    ResolveSound(db, a);
    ResolveSound(db, b);
    LinkKeepsTasks(db, a, b, linkType, id);
    if t.Some? && o.Some? && linkType.Some? && Hierarchy(linkType.value) {
      if linkType.value.ChildOf? {
        HierarchyLinkForest(db, t.value, o.value);
      } else {
        HierarchyLinkForest(db, o.value, t.value);
      }
    }
  }

  ghost predicate ShallowRun(qs: seq<Request>) {
    qs == [] || (ShallowRun(qs[..|qs| - 1]) && ShallowParents(Run(qs[..|qs| - 1]), qs[|qs| - 1]))
  }

  /** Histories that only pick parents with at most MAX_DEPTH ancestors keep the
      parent pointers a forest. */
  lemma {:induction false} ShallowRunsKeepForest(qs: seq<Request>)
    requires ShallowRun(qs)
    ensures Forest(Run(qs).tasks)
    decreases |qs|
  {
    if qs == [] {
      assert ParentEdges(EMPTY.tasks) == {};
    } else {
      ShallowRunsKeepForest(qs[..|qs| - 1]);
      EveryRunSound(qs[..|qs| - 1]);
      ServeForest(Run(qs[..|qs| - 1]), qs[|qs| - 1]);
    }
  }

  // ---- and the ones that do not may break it ----

  function Name(n: nat): (s: Id)
    ensures |s| == n + 1
  {
    seq(n + 1, _ => 'x')
  }

  lemma NameAsParent(n: nat)
    ensures ParentRef(Some(Name(n))) == Some(Name(n))
  {
    Text.StripOfVisible(Name(n));
  }

  /** A reachable forest in which `bottom` sits n levels below `top`. */
  ghost predicate Chained(db: Db, n: nat, top: Id, bottom: Id) {
    && Forest(db.tasks) && "p" in db.projects
    && InProject(db, "p", top) && InProject(db, "p", bottom) && Up(db.tasks, bottom, n) == Some(top)
    && forall t :: t in db.tasks ==> |t| <= n + 1
  }

  lemma ChainStep(db: Db, n: nat, top: Id, bottom: Id, id: Id)
    requires Inv(db) && Chained(db, n, top, bottom) && ParentRef(Some(bottom)) == Some(bottom) && |id| == n + 2
    ensures Chained(Serve(db, NewTask("p", TaskSpec(true, "todo", Some(bottom)), id)), n + 1, top, id)
  {
    var spec := TaskSpec(true, "todo", Some(bottom));
    assert ParentsSound(db.tasks) && PrefixesSound(db.projects);
    hide Inv, ParentsSound, PrefixesSound, ParentRef, Forest, AddTask;
    NewChildOneBelow(db, "p", spec, id, bottom, n);
    TaskPlans.AddTaskShape(db, "p", spec, id);
    AddTaskExact(db, "p", spec, id);
  }

  lemma RunAppend(qs: seq<Request>, q: Request)
    ensures Run(qs + [q]) == Serve(Run(qs), q)
  {
    assert (qs + [q])[..|qs|] == qs;
  }

  /** The first task of an empty project is a chain of length 0. */
  lemma LoneTask(db: Db, q: Request)
    requires db.tasks == map[] && "p" in db.projects
    requires q == NewTask("p", TaskSpec(true, "todo", None), Name(0))
    ensures Chained(Serve(db, q), 0, Name(0), Name(0))
  {
    var after := Serve(db, q);
    assert after.tasks.Keys == {Name(0)} && after.tasks[Name(0)].parent == None;
    assert ParentEdges(after.tasks) == {};
  }

  lemma FirstTask() returns (qs: seq<Request>)
    ensures Chained(Run(qs), 0, Name(0), Name(0))
  {
    var p, q := NewProject("Demo", "p"), NewTask("p", TaskSpec(true, "todo", None), Name(0));
    qs := [p, q];
    RunAppend([], p);
    RunAppend([p], q);
    assert [] + [p] == [p] && [p] + [q] == qs && Run([]) == EMPTY;
    hide Keys.FirstFree, Keys.DerivePrefix, Chained;
    LoneTask(Run([p]), q);
  }

  lemma {:induction false} GrowChain(n: nat) returns (qs: seq<Request>)
    ensures Chained(Run(qs), n, Name(0), Name(n))
  {
    hide Chained, Serve, Run, Inv, ParentRef, Name;
    if n == 0 {
      qs := FirstTask();
    } else {
      var before := GrowChain(n - 1);
      var q := NewTask("p", TaskSpec(true, "todo", Some(Name(n - 1))), Name(n));
      EveryRunSound(before);
      NameAsParent(n - 1);
      ChainStep(Run(before), n - 1, Name(0), Name(n - 1), Name(n));
      RunAppend(before, q);
      qs := before + [q];
    }
  }

  lemma ClosesAt(n: nat) returns (qs: seq<Request>)
    requires n > MAX_DEPTH
    ensures !Forest(Run(qs).tasks)
  {
    var before := GrowChain(n);
    NameAsParent(n);
    hide ParentRef, Name, Forest, Run;
    LongChainAcceptsCycle(Run(before), Name(0), Name(n), Some(Name(n)), n);
    RunAppend(before, Reparent(Name(0), Some(Name(n))));
    qs := before + [Reparent(Name(0), Some(Name(n)))];
  }

  /** The bound of the ancestor walk is visible: some history of accepted
      requests ends with tasks that are each other's ancestors. */
  lemma SomeRunClosesParentCycle() returns (qs: seq<Request>)
    ensures !Forest(Run(qs).tasks)
  {
    qs := ClosesAt(MAX_DEPTH + 1);
  }
}

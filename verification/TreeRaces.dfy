/** Concurrent parent changes.  A request that gives a task a parent first walks up
    from that parent and then writes the pointer; any other request may commit in
    between.  The bound of the walk and the time of the walk both matter. */
module TreeRaces {
  import opened Wrappers
  import opened Graphs
  import opened TaskState
  import opened TaskInvariants
  import opened TaskProperties
  import TaskPlans
  import TaskBatch
  import TaskRaces
  import TaskRuns

  /** What a caller holds after its walk: the pointer to write, how many pointers had
      been written by then, and whether the task was above the bound of the walk. */
  datatype Ticket = Ticket(project: Id, task: Id, parent: Id, version: nat, missed: bool)

  datatype Step =
    | Look(caller: nat, task: Id, parent: Ref)
    | Apply(caller: nat)
    | Whole(q: TaskRuns.Request)

  datatype State = State(db: Db, tickets: map<nat, Ticket>, version: nat)

  /** The request gives a task a parent, so it is a look and an apply. */
  predicate SetsParent(q: TaskRuns.Request) {
    || (q.Reparent? && ParentRef(q.parent).Some?)
    || (q.Link? && q.linkType.Some? && Hierarchy(q.linkType.value))
  }

  ghost function TicketFor(s: State, t: Id, p: Id): Ticket
    requires t in s.db.tasks
  {
    Ticket(s.db.tasks[t].project, t, p, s.version, AncestorBeyond(s.db.tasks, p, t, MAX_DEPTH))
  }

  /** Both tasks still exist, so the pointer is written. */
  ghost predicate Applies(s: State, step: Step) {
    && step.Apply? && step.caller in s.tickets
    && s.tickets[step.caller].task in s.db.tasks && s.tickets[step.caller].parent in s.db.tasks
  }

  ghost function Next(s: State, step: Step): State {
    match step
    case Look(c, t, parent) =>
      if t !in s.db.tasks || ValidateParent(s.db, t, parent).Err? then s.(tickets := s.tickets - {c})
      else s.(tickets := s.tickets[c := TicketFor(s, t, ValidateParent(s.db, t, parent).value)])
    case Apply(c) =>
      if !Applies(s, step) then s.(tickets := s.tickets - {c})
      else State(WithParent(s.db, s.tickets[c].task, Some(s.tickets[c].parent)), s.tickets - {c}, s.version + 1)
    case Whole(q) =>
      if SetsParent(q) || Recreates(s, TaskRuns.Serve(s.db, q)) then s else s.(db := TaskRuns.Serve(s.db, q))
  }

  /** A new task is given the id of one that a pending request still names; drawn ids do not repeat. */
  ghost predicate Recreates(s: State, after: Db) {
    exists c :: c in s.tickets
      && (TaskRaces.Revived(s.db, after, s.tickets[c].task) || TaskRaces.Revived(s.db, after, s.tickets[c].parent))
  }

  ghost function Run(db: Db, steps: seq<Step>): State {
    if steps == [] then State(db, map[], 0) else Next(Run(db, steps[..|steps| - 1]), steps[|steps| - 1])
  }

  // ---- one step ----

  /** If the step writes a pointer, the task is not above its new parent by then. */
  ghost predicate Harmless(s: State, step: Step) {
    Applies(s, step) ==>
      var k := s.tickets[step.caller];
      !Reaches(ParentEdges(s.db.tasks), k.parent, k.task)
  }

  /** No pointer was written since the walk, and the walk met every ancestor that matters. */
  predicate Fresh(s: State, step: Step) {
    step.Apply? && step.caller in s.tickets ==>
      s.tickets[step.caller].version == s.version && !s.tickets[step.caller].missed
  }

  ghost predicate TicketSound(s: State, k: Ticket) {
    && k.version <= s.version && k.task != k.parent
    && TaskRaces.EndSound(s.db, k.project, k.task) && TaskRaces.EndSound(s.db, k.project, k.parent)
    && (k.version == s.version && Reaches(ParentEdges(s.db.tasks), k.parent, k.task) ==> k.missed)
  }

  ghost predicate RaceInv(s: State) {
    Inv(s.db) && forall c :: c in s.tickets ==> TicketSound(s, s.tickets[c])
  }

  /** A written pointer leaves the tree a forest exactly when the step was harmless. */
  lemma ApplyExact(s: State, step: Step)
    requires Forest(s.db.tasks) && Applies(s, step)
    ensures Forest(Next(s, step).db.tasks) <==> Harmless(s, step)
  {
    var k := s.tickets[step.caller];
    var after := Next(s, step).db.tasks;
    RedirectedParent(s.db.tasks, k.task, k.parent);
    hide Acyclic, Reaches, ParentEdges;
    AcyclicRedirect(ParentEdges(s.db.tasks), ParentEdges(after), k.task, k.parent);
  }

  lemma FreshIsHarmless(s: State, step: Step)
    requires RaceInv(s) && Fresh(s, step)
    ensures Harmless(s, step)
  {
    if Applies(s, step) {
      assert TicketSound(s, s.tickets[step.caller]);
    }
  }

  // ---- what steps do to tickets ----

  lemma LookSound(s: State, t: Id, parent: Ref)
    requires Inv(s.db) && t in s.db.tasks && ValidateParent(s.db, t, parent).Ok?
    ensures TicketSound(s, TicketFor(s, t, ValidateParent(s.db, t, parent).value))
  {
    var p := ValidateParent(s.db, t, parent).value;
    hide Inv, Resolve;
    if Reaches(ParentEdges(s.db.tasks), p, t) {
      var k: nat :| Hops(ParentEdges(s.db.tasks), p, t, k);
      HopsAreAncestors(s.db.tasks, p, t, k);
      assert !AncestorWithin(s.db.tasks, p, t, MAX_DEPTH);
    }
  }

  lemma LookKeeps(s: State, step: Step)
    requires RaceInv(s) && step.Look?
    ensures RaceInv(Next(s, step))
  {
    var after := Next(s, step);
    if step.task in s.db.tasks && ValidateParent(s.db, step.task, step.parent).Ok? {
      LookSound(s, step.task, step.parent);
    }
    hide Inv, Reaches, ValidateParent, TicketFor;
    forall c | c in after.tickets && c != step.caller ensures TicketSound(after, after.tickets[c]) {
      assert TicketSound(s, s.tickets[c]);
    }
  }

  lemma ApplyKeeps(s: State, step: Step)
    requires RaceInv(s) && step.Apply?
    ensures RaceInv(Next(s, step))
  {
    var after := Next(s, step);
    hide Inv, Reaches, ParentEdges;
    if Applies(s, step) {
      var k := s.tickets[step.caller];
      assert TicketSound(s, k);
      WithParentKeepsInv(s.db, k.task, Some(k.parent));
    }
    forall c | c in after.tickets ensures TicketSound(after, after.tickets[c]) {
      assert TicketSound(s, s.tickets[c]);
    }
  }

  /** Old tasks keep their pointers or lose them. */
  ghost predicate NoNewPointers(tasks: map<Id, Task>, after: map<Id, Task>) {
    forall t :: t in tasks && t in after && after[t].parent.Some? ==> after[t].parent == tasks[t].parent
  }

  lemma LinkAddsNoPointer(db: Db, a: Ref, b: Ref, linkType: Option<LinkType>, id: Id)
    requires linkType.Some? ==> !Hierarchy(linkType.value)
    ensures AddLink(db, a, b, linkType, id).0.tasks == db.tasks
  {
    if linkType.Some? { TaskRuns.LinkKeepsTasks(db, a, b, linkType, id); }
    hide AddRowLink, Resolve;
  }

  lemma PlanAddsNoPointer(db: Db, pid: Id, entries: seq<TaskBatch.Entry>, ids: nat -> Id, rowIds: nat -> Id)
    ensures NoNewPointers(db.tasks, TaskBatch.CreatePlan(db, pid, entries, ids, rowIds).0.tasks)
  {
    if TaskBatch.Plan(db, pid, entries, ids, rowIds).Ok? {
      TaskPlans.StageAllShape(db, pid, entries, ids, |entries|);
      var staged := TaskBatch.StageAll(db, pid, entries, ids, |entries|).value;
      var edges := TaskBatch.BatchEdges(entries, TaskBatch.ByRef(entries, ids, |entries|), |entries|);
      TaskPlans.InsertsKeepTasks(staged, pid, edges, rowIds);
    }
  }

  lemma CreateAddsNoPointer(db: Db, pid: Id, spec: TaskSpec, id: Id)
    ensures NoNewPointers(db.tasks, CreateTask(db, pid, spec, id).0.tasks)
  {
    if AddTask(db, pid, spec, id).Ok? { TaskPlans.AddTaskShape(db, pid, spec, id); }
    hide AddTask;
  }

  lemma ServeAddsNoPointer(db: Db, q: TaskRuns.Request)
    requires !SetsParent(q)
    ensures NoNewPointers(db.tasks, TaskRuns.Serve(db, q).tasks)
  {
    hide Resolve, ValidateParent;
    match q
    case NewTask(pid, spec, id) => CreateAddsNoPointer(db, pid, spec, id);
    case NewPlan(pid, entries, ids, rowIds) => PlanAddsNoPointer(db, pid, entries, ids, rowIds);
    case Link(a, b, linkType, id) => LinkAddsNoPointer(db, a, b, linkType, id);
    case Depend(pid, t, b, id) => TaskRuns.DependencyKeepsTasks(db, pid, t, b, id);
    case _ =>
  }

  /** So the ancestors of an old task are among its old ancestors. */
  lemma {:induction false} OldPaths(tasks: map<Id, Task>, after: map<Id, Task>, p: Id, t: Id, n: nat)
    requires ParentsSound(tasks) && NoNewPointers(tasks, after) && !(p !in tasks && p in after)
    requires Hops(ParentEdges(after), p, t, n)
    ensures Reaches(ParentEdges(tasks), p, t)
    decreases n
  {
    if n == 0 {
      ReachesSelf(ParentEdges(tasks), p);
    } else {
      var c :| (p, c) in ParentEdges(after) && Hops(ParentEdges(after), c, t, n - 1);
      assert ParentSound(tasks, p);
      OldPaths(tasks, after, c, t, n - 1);
      assert (p, c) in ParentEdges(tasks);
      ReachesStep(ParentEdges(tasks), p, c, t);
    }
  }

  lemma WholeKeepsTicket(s: State, q: TaskRuns.Request, k: Ticket)
    requires Inv(s.db) && !SetsParent(q) && TicketSound(s, k)
    requires !TaskRaces.Revived(s.db, TaskRuns.Serve(s.db, q), k.task)
    requires !TaskRaces.Revived(s.db, TaskRuns.Serve(s.db, q), k.parent)
    ensures TicketSound(s.(db := TaskRuns.Serve(s.db, q)), k)
  {
    assert ParentsSound(s.db.tasks);
    hide Inv, TaskRuns.Serve, SetsParent, ParentEdges;
    var db := TaskRuns.Serve(s.db, q);
    TaskRaces.ServeKeepsProjects(s.db, q);
    ServeAddsNoPointer(s.db, q);
    if Reaches(ParentEdges(db.tasks), k.parent, k.task) {
      var n: nat :| Hops(ParentEdges(db.tasks), k.parent, k.task, n);
      OldPaths(s.db.tasks, db.tasks, k.parent, k.task, n);
    }
  }

  lemma WholeKeeps(s: State, step: Step)
    requires RaceInv(s) && step.Whole?
    ensures RaceInv(Next(s, step))
  {
    hide Inv, TaskRuns.Serve, SetsParent, TicketSound;
    if !SetsParent(step.q) && !Recreates(s, TaskRuns.Serve(s.db, step.q)) {
      TaskRuns.ServeKeepsInv(s.db, step.q);
      forall c | c in s.tickets ensures TicketSound(s.(db := TaskRuns.Serve(s.db, step.q)), s.tickets[c]) {
        WholeKeepsTicket(s, step.q, s.tickets[c]);
      }
    }
  }

  lemma NextKeeps(s: State, step: Step)
    requires RaceInv(s)
    ensures RaceInv(Next(s, step))
  {
    hide RaceInv, Next;
    match step
    case Look(_, _, _) => LookKeeps(s, step);
    case Apply(_) => ApplyKeeps(s, step);
    case Whole(_) => WholeKeeps(s, step);
  }

  lemma OtherStepsKeepForest(s: State, step: Step)
    requires Inv(s.db) && Forest(s.db.tasks) && !Applies(s, step)
    ensures Forest(Next(s, step).db.tasks)
  {
    if step.Whole? && !SetsParent(step.q) {
      assert TaskRuns.ShallowParents(s.db, step.q);
      hide Inv, Forest, TaskRuns.Serve, TaskRuns.ShallowParents;
      TaskRuns.ServeForest(s.db, step.q);
    } else {
      hide Inv, Forest, TaskRuns.Serve, TaskRuns.ShallowParents;
    }
  }

  // ---- whole interleavings ----

  ghost predicate AllHarmless(db: Db, steps: seq<Step>) {
    steps == []
    || (AllHarmless(db, steps[..|steps| - 1]) && Harmless(Run(db, steps[..|steps| - 1]), steps[|steps| - 1]))
  }

  ghost predicate AllFresh(db: Db, steps: seq<Step>) {
    steps == [] || (AllFresh(db, steps[..|steps| - 1]) && Fresh(Run(db, steps[..|steps| - 1]), steps[|steps| - 1]))
  }

  ghost predicate AlwaysForest(db: Db, steps: seq<Step>) {
    Forest(Run(db, steps).db.tasks) && (steps == [] || AlwaysForest(db, steps[..|steps| - 1]))
  }

  lemma {:induction false} RunKeepsInv(db: Db, steps: seq<Step>)
    requires Inv(db)
    ensures RaceInv(Run(db, steps))
    decreases |steps|
  {
    if steps != [] {
      hide Next;
      RunKeepsInv(db, steps[..|steps| - 1]);
      NextKeeps(Run(db, steps[..|steps| - 1]), steps[|steps| - 1]);
    }
  }

  /** However the requests interleave, the tree is a forest at every moment exactly
      when no pointer that is written leads to a task below by the time it is written. */
  lemma {:induction false} AlwaysForestExact(db: Db, steps: seq<Step>)
    requires Inv(db) && Forest(db.tasks)
    ensures AlwaysForest(db, steps) <==> AllHarmless(db, steps)
    decreases |steps|
  {
    if steps != [] {
      var first, last := steps[..|steps| - 1], steps[|steps| - 1];
      var s := Run(db, first);
      AlwaysForestExact(db, first);
      RunKeepsInv(db, first);
      assert Inv(s.db);
      hide Inv, RaceInv, Forest, Next;
      if AllHarmless(db, first) {
        if Applies(s, last) { ApplyExact(s, last); } else { OtherStepsKeepForest(s, last); }
      }
    }
  }

  /** It is enough that every pointer is written before another one is, and that its
      walk did not stop below the task. */
  lemma {:induction false} FreshRunsKeepForest(db: Db, steps: seq<Step>)
    requires Inv(db) && Forest(db.tasks) && AllFresh(db, steps)
    ensures AllHarmless(db, steps) && AlwaysForest(db, steps)
    decreases |steps|
  {
    hide Inv, RaceInv, Forest, Next;
    if steps != [] {
      var first := steps[..|steps| - 1];
      FreshRunsKeepForest(db, first);
      RunKeepsInv(db, first);
      FreshIsHarmless(Run(db, first), steps[|steps| - 1]);
    }
    AlwaysForestExact(db, steps);
  }

  // ---- two walks that cross ----

  /** Each of two tasks is to become the parent of the other; both walk before either writes. */
  function CrossedWalks(a: Id, b: Id): seq<Step> {
    [Look(0, a, b), Look(1, b, a), Apply(0), Apply(1)]
  }

  lemma RunStep(db: Db, steps: seq<Step>, step: Step)
    ensures Run(db, steps + [step]) == Next(Run(db, steps), step)
  {
    assert (steps + [step])[..|steps|] == steps;
  }

  lemma TopLevelAccepted(db: Db, t: Id, p: Id)
    requires t in db.tasks && InProject(db, db.tasks[t].project, p) && t != p && db.tasks[p].parent.None?
    ensures ValidateParent(db, t, p) == Ok(p) && !AncestorBeyond(db.tasks, p, t, MAX_DEPTH)
  {
    assert Resolve(db.tasks, p) == Some(p);
    forall k: nat | k >= 1 ensures Up(db.tasks, p, k).None? {
    }
  }

  lemma AfterTheWalks(db: Db, pid: Id, a: Id, b: Id)
    requires InProject(db, pid, a) && InProject(db, pid, b) && a != b
    requires db.tasks[a].parent.None? && db.tasks[b].parent.None?
    ensures Run(db, CrossedWalks(a, b)[..2])
      == State(db, map[0 := Ticket(pid, a, b, 0, false), 1 := Ticket(pid, b, a, 0, false)], 0)
  {
    var q := CrossedWalks(a, b);
    TopLevelAccepted(db, a, b);
    TopLevelAccepted(db, b, a);
    hide ValidateParent, AncestorBeyond;
    RunStep(db, [], q[0]);
    RunStep(db, q[..1], q[1]);
    assert [] + [q[0]] == q[..1] && q[..1] + [q[1]] == q[..2];
    assert Run(db, []) == State(db, map[], 0);
    assert Run(db, q[..1]) == State(db, map[0 := Ticket(pid, a, b, 0, false)], 0);
  }

  /** From any two top-level tasks of a project: each walk accepts a parent without
      ancestors, and together they close a cycle. */
  lemma CrossedWalksCloseCycle(db: Db, pid: Id, a: Id, b: Id)
    requires InProject(db, pid, a) && InProject(db, pid, b) && a != b
    requires db.tasks[a].parent.None? && db.tasks[b].parent.None?
    ensures !Forest(Run(db, CrossedWalks(a, b)).db.tasks)
  {
    var q := CrossedWalks(a, b);
    AfterTheWalks(db, pid, a, b);
    RunStep(db, q[..2], q[2]);
    RunStep(db, q[..3], q[3]);
    assert q[..2] + [q[2]] == q[..3] && q[..3] + [q[3]] == q;
    var tasks := Run(db, q).db.tasks;
    assert tasks[a].parent == Some(b) && tasks[b].parent == Some(a);
    var E := ParentEdges(tasks);
    assert (a, b) in E && (b, a) in E;
    ReachesEdge(E, b, a);
    assert OnCycle(E, a);
  }
}

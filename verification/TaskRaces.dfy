/** Concurrent requests on the blocking graph.  add_dependency and a blocking
    add_link first look (they read the project's edges and search them) and then
    insert.  Any other request may commit in between, as one transaction; so may a
    whole add_dependency or add_link.  The database enforces the unique pair, the
    unique id and that both ends of a row exist. */
module TaskRaces {
  import opened Wrappers
  import opened Graphs
  import opened TaskState
  import opened TaskInvariants
  import opened TaskProperties
  import TaskBatch
  import TaskPlans
  import TaskRuns

  /** What a caller holds after its look: the row to insert, whether it replaces the
      rows of its pair, and how many additions of blocking rows it has seen. */
  datatype Ticket = Ticket(row: Row, replacing: bool, version: nat)

  datatype Step =
    | Look(caller: nat, project: Id, task: Id, blocker: Id)
    | LookLink(caller: nat, task: Ref, other: Ref, linkType: LinkType)
    | Insert(caller: nat, newId: Id)
    | Whole(q: TaskRuns.Request)

  datatype State = State(db: Db, tickets: map<nat, Ticket>, version: nat)

  /** All checks of add_dependency pass and it would add a row. */
  ghost predicate Clears(db: Db, pid: Id, t: Id, b: Id) {
    && InProject(db, pid, t) && InProject(db, pid, b) && t != b
    && FindEdge(db.rows, t, b).None? && !Reaches(ProjectEdges(db.rows, pid), b, t)
  }

  /** All checks of a blocking add_link pass. */
  ghost predicate ClearsLink(db: Db, taskRef: Ref, otherRef: Ref, linkType: LinkType) {
    && linkType in {DependsOn, Blocks} && Linkable(db, taskRef, otherRef)
    && var row := LinkedRow(db, taskRef, otherRef, linkType);
       !Reaches(ProjectEdges(db.rows, row.project), row.dependsOn, row.task)
  }

  ghost function LinkedRow(db: Db, taskRef: Ref, otherRef: Ref, linkType: LinkType): Row
    requires Linkable(db, taskRef, otherRef)
  {
    var (source, target) := WantedEdge(db, taskRef, otherRef, linkType);
    Row(db.tasks[source].project, source, target, DependsOn)
  }

  ghost function Ticketed(s: State, c: nat, granted: bool, row: Row, replacing: bool): State {
    s.(tickets := if granted then s.tickets[c := Ticket(row, replacing, s.version)] else s.tickets - {c})
  }

  ghost function Next(s: State, step: Step): State {
    match step
    case Look(c, pid, t, b) => Ticketed(s, c, Clears(s.db, pid, t, b), Row(pid, t, b, DependsOn), false)
    case LookLink(c, t, o, linkType) =>
      if !ClearsLink(s.db, t, o, linkType) then s.(tickets := s.tickets - {c})
      else Ticketed(s, c, true, LinkedRow(s.db, t, o, linkType), true)
    case Insert(c, newId) =>
      if c !in s.tickets then s
      else if !Inserts(s, step) then s.(tickets := s.tickets - {c})
      else
        var k := s.tickets[c];
        State(s.db.(rows := Kept(s.db.rows, k)[newId := k.row]), s.tickets - {c}, s.version + 1)
    case Whole(q) =>
      var db := TaskRuns.Serve(s.db, q);
      if Recreates(s, db) then s else State(db, s.tickets, if Adds(s.db, q) then s.version + 1 else s.version)
  }

  /** The rows the insert leaves in place. */
  ghost function Kept(rows: map<Id, Row>, k: Ticket): map<Id, Row> {
    if k.replacing then RowsApart(rows, k.row.task, k.row.dependsOn) else rows
  }

  ghost predicate PairFree(rows: map<Id, Row>, row: Row) {
    forall r :: r in rows ==> RowEdge(rows[r]) != RowEdge(row)
  }

  /** The step adds a row: its id and its pair are free and both its ends exist. */
  ghost predicate Inserts(s: State, step: Step) {
    && step.Insert? && step.caller in s.tickets
    && var k := s.tickets[step.caller];
       && step.newId !in Kept(s.db.rows, k) && PairFree(Kept(s.db.rows, k), k.row)
       && k.row.task in s.db.tasks && k.row.dependsOn in s.db.tasks
  }

  /** A request served in one piece adds a blocking row between tasks that were there before. */
  ghost predicate Adds(db: Db, q: TaskRuns.Request) {
    !q.NewPlan? && !(BlockingEdges(TaskRuns.Serve(db, q).rows) <= BlockingEdges(db.rows))
  }

  /** A new task is given the id of one that a pending request still names; drawn ids do not repeat. */
  ghost predicate Recreates(s: State, after: Db) {
    exists c :: c in s.tickets
      && (Revived(s.db, after, s.tickets[c].row.task) || Revived(s.db, after, s.tickets[c].row.dependsOn))
  }

  ghost predicate Revived(db: Db, after: Db, t: Id) { t !in db.tasks && t in after.tasks }

  ghost function Run(db: Db, steps: seq<Step>): State {
    if steps == [] then State(db, map[], 0) else Next(Run(db, steps[..|steps| - 1]), steps[|steps| - 1])
  }

  // ---- one step ----

  /** If the step adds a row, the row closes no cycle with the rows that are there by then. */
  ghost predicate Harmless(s: State, step: Step) {
    Inserts(s, step) ==>
      var k := s.tickets[step.caller];
      !Reaches(BlockingEdges(Kept(s.db.rows, k)), k.row.dependsOn, k.row.task)
  }

  /** Since the caller's look no blocking row was added between tasks it could see. */
  predicate Fresh(s: State, step: Step) {
    step.Insert? && step.caller in s.tickets ==> s.tickets[step.caller].version == s.version
  }

  /** The task, while it exists, is in that project. */
  ghost predicate EndSound(db: Db, pid: Id, t: Id) {
    t in db.tasks ==> db.tasks[t].project == pid
  }

  ghost predicate TicketSound(s: State, k: Ticket) {
    && k.version <= s.version && k.row.linkType == DependsOn && k.row.task != k.row.dependsOn
    && EndSound(s.db, k.row.project, k.row.task) && EndSound(s.db, k.row.project, k.row.dependsOn)
    && (k.version == s.version ==> !Reaches(BlockingEdges(s.db.rows), k.row.dependsOn, k.row.task))
  }

  ghost predicate RaceInv(s: State) {
    Inv(s.db) && forall c :: c in s.tickets ==> TicketSound(s, s.tickets[c])
  }

  /** An inserted row leaves the graph acyclic exactly when the step was harmless. */
  lemma InsertExact(s: State, step: Step)
    requires RaceInv(s) && Inserts(s, step)
    ensures Acyclic(BlockingEdges(Next(s, step).db.rows)) <==> Harmless(s, step)
  {
    var k := s.tickets[step.caller];
    var kept := Kept(s.db.rows, k);
    assert TicketSound(s, k);
    FewerRowsSound(s.db.tasks, s.db.rows, kept);
    AddedRowEdges(kept, step.newId, k.row);
    AcyclicAddEdge(BlockingEdges(kept), k.row.task, k.row.dependsOn);
    hide Inv, LinksSound, Reaches, Acyclic, BlockingEdges, ProjectEdges, Kept;
  }

  lemma FreshIsHarmless(s: State, step: Step)
    requires RaceInv(s) && Fresh(s, step)
    ensures Harmless(s, step)
  {
    if Inserts(s, step) {
      var k := s.tickets[step.caller];
      var kept := Kept(s.db.rows, k);
      assert TicketSound(s, k);
      FewerRowsSound(s.db.tasks, s.db.rows, kept);
      if Reaches(BlockingEdges(kept), k.row.dependsOn, k.row.task) {
        ReachesMono(BlockingEdges(kept), BlockingEdges(s.db.rows), k.row.dependsOn, k.row.task);
      }
      hide Inv, Reaches, BlockingEdges, Kept;
    }
  }

  /** The insert on a fresh ticket does what the request in one piece would do now. */
  lemma FreshInsertIsRequest(s: State, step: Step)
    requires RaceInv(s) && Inserts(s, step) && Fresh(s, step)
    ensures var (k, row) := (s.tickets[step.caller], s.tickets[step.caller].row);
      Next(s, step).db
      == if k.replacing then AddRowLink(s.db, row.project, row.task, row.dependsOn, DependsOn, step.newId).0
         else AddDependency(s.db, row.project, row.task, row.dependsOn, step.newId).0
  {
    var k := s.tickets[step.caller];
    var row := k.row;
    assert TicketSound(s, k);
    ProjectReach(s.db.tasks, s.db.rows, row.project, row.dependsOn, row.task);
    if !k.replacing {
      assert FindEdge(s.db.rows, row.task, row.dependsOn).None? by {
        forall r | r in s.db.rows ensures !IsPair(s.db.rows, r, row.task, row.dependsOn) {
          assert RowEdge(s.db.rows[r]) != RowEdge(row);
        }
      }
    }
    hide Inv, Reaches, BlockingEdges, ProjectEdges, FindEdge, PairFree;
  }

  // ---- what steps do to tickets ----

  lemma LookKeeps(s: State, step: Step)
    requires RaceInv(s) && step.Look?
    ensures RaceInv(Next(s, step))
  {
    var after := Next(s, step);
    assert RowsSound(s.db.tasks, s.db.rows);
    hide Inv, Reaches, BlockingEdges, ProjectEdges;
    forall c | c in after.tickets ensures TicketSound(after, after.tickets[c]) {
      if c == step.caller {
        ProjectReach(s.db.tasks, s.db.rows, step.project, step.blocker, step.task);
      } else {
        assert TicketSound(s, s.tickets[c]);
      }
    }
  }

  lemma LinkedRowSound(s: State, t: Ref, o: Ref, linkType: LinkType)
    requires Inv(s.db) && ClearsLink(s.db, t, o, linkType)
    ensures TicketSound(s, Ticket(LinkedRow(s.db, t, o, linkType), true, s.version))
  {
    var row := LinkedRow(s.db, t, o, linkType);
    assert RowsSound(s.db.tasks, s.db.rows);
    ProjectReach(s.db.tasks, s.db.rows, row.project, row.dependsOn, row.task);
    ReachesSelf(BlockingEdges(s.db.rows), row.task);
    hide Inv, Reaches, BlockingEdges, ProjectEdges, Resolve;
  }

  lemma LookLinkKeeps(s: State, step: Step)
    requires RaceInv(s) && step.LookLink?
    ensures RaceInv(Next(s, step))
  {
    var after := Next(s, step);
    if ClearsLink(s.db, step.task, step.other, step.linkType) {
      LinkedRowSound(s, step.task, step.other, step.linkType);
    }
    hide Inv, Reaches, BlockingEdges, ClearsLink, LinkedRow;
    forall c | c in after.tickets && c != step.caller ensures TicketSound(after, after.tickets[c]) {
      assert TicketSound(s, s.tickets[c]);
    }
  }

  lemma InsertKeepsInv(s: State, step: Step)
    requires RaceInv(s) && Inserts(s, step) && Harmless(s, step)
    ensures Inv(Next(s, step).db)
  {
    var k := s.tickets[step.caller];
    var kept := Kept(s.db.rows, k);
    assert TicketSound(s, k) && RowSound(s.db.tasks, k.row);
    FewerRowsSound(s.db.tasks, s.db.rows, kept);
    if Reaches(ProjectEdges(kept, k.row.project), k.row.dependsOn, k.row.task) {
      ReachesMono(ProjectEdges(kept, k.row.project), BlockingEdges(kept), k.row.dependsOn, k.row.task);
    }
    AddedRowSound(s.db.tasks, kept, step.newId, k.row);
    hide LinksSound, Reaches, Kept;
  }

  lemma InsertKeeps(s: State, step: Step)
    requires RaceInv(s) && step.Insert? && Harmless(s, step)
    ensures RaceInv(Next(s, step))
  {
    var after := Next(s, step);
    if Inserts(s, step) { InsertKeepsInv(s, step); }
    hide Inv, Reaches, BlockingEdges, Kept, PairFree;
    forall c | c in after.tickets ensures TicketSound(after, after.tickets[c]) {
      assert TicketSound(s, s.tickets[c]);
    }
  }

  /** A plan only links tasks that nobody else can see before it commits. */
  lemma BatchEdgesApart(db: Db, pid: Id, entries: seq<TaskBatch.Entry>, ids: nat -> Id, rowIds: nat -> Id)
    returns (P: Edges, S: set<Id>)
    requires Inv(db) && TaskBatch.Plan(db, pid, entries, ids, rowIds).Ok?
    ensures BlockingEdges(TaskBatch.Plan(db, pid, entries, ids, rowIds).value.rows) == BlockingEdges(db.rows) + P
    ensures S !! db.tasks.Keys && S <= TaskBatch.Plan(db, pid, entries, ids, rowIds).value.tasks.Keys
    ensures forall e :: e in P ==> e.0 in S && e.1 in S
    ensures var after := TaskBatch.Plan(db, pid, entries, ids, rowIds).value;
      forall t :: t in db.tasks ==> t in after.tasks && after.tasks[t] == db.tasks[t]
  {
    var n := |entries|;
    var byRef := TaskBatch.ByRef(entries, ids, n);
    var staged, edges := TaskBatch.StageAll(db, pid, entries, ids, n).value, TaskBatch.BatchEdges(entries, byRef, n);
    TaskPlans.AcceptedIsWellFormed(entries);
    TaskPlans.RefusedIffCyclic(entries);
    TaskPlans.StagedPlusPayload(db, pid, entries, ids);
    TaskPlans.StageAllShape(db, pid, entries, ids, n);
    TaskPlans.StagedIsNamed(db, pid, entries, ids);
    hide Inv, Acyclic, TaskBatch.StageAll, TaskBatch.BatchEdges, TaskBatch.ByRef, TaskBatch.Refusal;
    TaskPlans.InsertsSound(staged, pid, edges, rowIds);
    P, S := TaskPlans.EdgeSet(edges), set x | x in byRef :: byRef[x];
    TaskPlans.EdgesBetweenNew(entries, byRef, S);
  }

  lemma ReachAcrossBatch(D: Edges, P: Edges, S: set<Id>, x: Id, y: Id)
    requires forall e :: e in D ==> e.0 !in S && e.1 !in S
    requires forall e :: e in P ==> e.0 in S && e.1 in S
    requires x !in S && Reaches(D + P, x, y)
    ensures Reaches(D, x, y)
  {
    var n: nat :| Hops(D + P, x, y, n);
    HopsStayApart(D, P, S, x, y, n);
  }

  /** A ticket survives a change of the tables that keeps the projects of tasks and
      opens no path between its ends, or that is counted. */
  lemma TicketSurvives(s: State, after: State, k: Ticket)
    requires TicketSound(s, k) && after.version >= s.version
    requires forall t :: t in s.db.tasks && t in after.db.tasks ==> after.db.tasks[t].project == s.db.tasks[t].project
    requires !Revived(s.db, after.db, k.row.task) && !Revived(s.db, after.db, k.row.dependsOn)
    requires after.version == s.version && !Reaches(BlockingEdges(s.db.rows), k.row.dependsOn, k.row.task) ==>
      !Reaches(BlockingEdges(after.db.rows), k.row.dependsOn, k.row.task)
    ensures TicketSound(after, k)
  {
    hide Reaches, BlockingEdges;
  }

  lemma HierarchyKeepsProjects(db: Db, child: Id, parent: Id)
    requires child in db.tasks
    ensures SameProjects(db.tasks, AddHierarchyLink(db, child, parent).0.tasks)
  {
    hide ValidateParent;
  }

  lemma LinkKeepsProjects(db: Db, a: Ref, b: Ref, linkType: Option<LinkType>, id: Id)
    ensures SameProjects(db.tasks, AddLink(db, a, b, linkType, id).0.tasks)
  {
    var t, o := Resolve(db.tasks, a), Resolve(db.tasks, b);
    hide Resolve, AddHierarchyLink, AddRowLink;
    TaskRuns.LinkKeepsTasks(db, a, b, linkType, id);
    if t.Some? && o.Some? && t.value in db.tasks && o.value in db.tasks {
      HierarchyKeepsProjects(db, t.value, o.value);
      HierarchyKeepsProjects(db, o.value, t.value);
    }
  }

  /** Tasks stay in their project. */
  ghost predicate SameProjects(tasks: map<Id, Task>, after: map<Id, Task>) {
    forall t :: t in tasks && t in after ==> after[t].project == tasks[t].project
  }

  lemma PlanKeepsProjects(db: Db, pid: Id, entries: seq<TaskBatch.Entry>, ids: nat -> Id, rowIds: nat -> Id)
    ensures SameProjects(db.tasks, TaskBatch.CreatePlan(db, pid, entries, ids, rowIds).0.tasks)
  {
    if TaskBatch.Plan(db, pid, entries, ids, rowIds).Ok? {
      TaskPlans.StageAllShape(db, pid, entries, ids, |entries|);
      var staged := TaskBatch.StageAll(db, pid, entries, ids, |entries|).value;
      var edges := TaskBatch.BatchEdges(entries, TaskBatch.ByRef(entries, ids, |entries|), |entries|);
      TaskPlans.InsertsKeepTasks(staged, pid, edges, rowIds);
    }
  }

  lemma CreateKeepsProjects(db: Db, pid: Id, spec: TaskSpec, id: Id)
    ensures SameProjects(db.tasks, CreateTask(db, pid, spec, id).0.tasks)
  {
    if AddTask(db, pid, spec, id).Ok? { TaskPlans.AddTaskShape(db, pid, spec, id); }
    hide AddTask;
  }

  lemma ParentKeepsProjects(db: Db, ref: Ref, parent: Option<Ref>)
    ensures SameProjects(db.tasks, SetParent(db, ref, parent).0.tasks)
  {
    hide ValidateParent, Resolve;
  }

  lemma ServeKeepsProjects(db: Db, q: TaskRuns.Request)
    ensures SameProjects(db.tasks, TaskRuns.Serve(db, q).tasks)
  {
    hide Resolve;
    match q
    case NewTask(pid, spec, id) => CreateKeepsProjects(db, pid, spec, id);
    case NewPlan(pid, entries, ids, rowIds) => PlanKeepsProjects(db, pid, entries, ids, rowIds);
    case Link(a, b, linkType, id) => LinkKeepsProjects(db, a, b, linkType, id);
    case Reparent(ref, parent) => ParentKeepsProjects(db, ref, parent);
    case Depend(pid, t, b, id) => TaskRuns.DependencyKeepsTasks(db, pid, t, b, id);
    case _ =>
  }

  lemma PlanOpensNothing(db: Db, q: TaskRuns.Request, x: Id, y: Id)
    requires Inv(db) && q.NewPlan? && TaskBatch.Plan(db, q.pid, q.entries, q.ids, q.rowIds).Ok?
    requires !Revived(db, TaskRuns.Serve(db, q), x) && Reaches(BlockingEdges(TaskRuns.Serve(db, q).rows), x, y)
    ensures Reaches(BlockingEdges(db.rows), x, y)
  {
    var P, S := BatchEdgesApart(db, q.pid, q.entries, q.ids, q.rowIds);
    TaskPlans.OldEdgesAvoid(db, S);
    hide Inv, Reaches, BlockingEdges, TaskBatch.Plan;
    ReachAcrossBatch(BlockingEdges(db.rows), P, S, x, y);
  }

  /** A request in one piece opens no path from a task that was there before, unless
      it is counted; a whole plan never does. */
  lemma WholeOpensNothing(db: Db, q: TaskRuns.Request, x: Id, y: Id)
    requires Inv(db) && !Adds(db, q) && !Revived(db, TaskRuns.Serve(db, q), x)
    requires Reaches(BlockingEdges(TaskRuns.Serve(db, q).rows), x, y)
    ensures Reaches(BlockingEdges(db.rows), x, y)
  {
    if !q.NewPlan? {
      hide Inv, TaskRuns.Serve, Reaches, BlockingEdges;
      ReachesMono(BlockingEdges(TaskRuns.Serve(db, q).rows), BlockingEdges(db.rows), x, y);
    } else if TaskBatch.Plan(db, q.pid, q.entries, q.ids, q.rowIds).Ok? {
      hide Inv, TaskRuns.Serve, Reaches, BlockingEdges;
      PlanOpensNothing(db, q, x, y);
    } else {
      hide Inv, Reaches, BlockingEdges, TaskBatch.Plan;
      assert TaskRuns.Serve(db, q) == db;
    }
  }

  lemma WholeKeepsTicket(s: State, step: Step, k: Ticket)
    requires Inv(s.db) && step.Whole? && !Recreates(s, TaskRuns.Serve(s.db, step.q)) && TicketSound(s, k)
    requires exists c :: c in s.tickets && s.tickets[c] == k
    ensures TicketSound(Next(s, step), k)
  {
    var after := Next(s, step);
    var db := TaskRuns.Serve(s.db, step.q);
    assert after.db == db && !Revived(s.db, db, k.row.task) && !Revived(s.db, db, k.row.dependsOn);
    hide Inv, TaskRuns.Serve, Reaches, BlockingEdges, Adds, Recreates;
    ServeKeepsProjects(s.db, step.q);
    if after.version == s.version && Reaches(BlockingEdges(db.rows), k.row.dependsOn, k.row.task) {
      WholeOpensNothing(s.db, step.q, k.row.dependsOn, k.row.task);
    }
    TicketSurvives(s, after, k);
  }

  lemma WholeKeeps(s: State, step: Step)
    requires RaceInv(s) && step.Whole?
    ensures RaceInv(Next(s, step))
  {
    var after := Next(s, step);
    hide Inv, TaskRuns.Serve, Adds, TicketSound;
    if !Recreates(s, TaskRuns.Serve(s.db, step.q)) {
      hide Recreates;
      TaskRuns.ServeKeepsInv(s.db, step.q);
      forall c | c in after.tickets ensures TicketSound(after, after.tickets[c]) {
        WholeKeepsTicket(s, step, s.tickets[c]);
      }
    }
  }

  lemma NextKeeps(s: State, step: Step)
    requires RaceInv(s) && Harmless(s, step)
    ensures RaceInv(Next(s, step))
  {
    hide RaceInv, Harmless, Next;
    match step
    case Look(_, _, _, _) => LookKeeps(s, step);
    case LookLink(_, _, _, _) => LookLinkKeeps(s, step);
    case Insert(_, _) => InsertKeeps(s, step);
    case Whole(_) => WholeKeeps(s, step);
  }

  // ---- whole interleavings ----

  ghost predicate AllHarmless(db: Db, steps: seq<Step>) {
    steps == []
    || (AllHarmless(db, steps[..|steps| - 1]) && Harmless(Run(db, steps[..|steps| - 1]), steps[|steps| - 1]))
  }

  ghost predicate AlwaysAcyclic(db: Db, steps: seq<Step>) {
    && Acyclic(BlockingEdges(Run(db, steps).db.rows))
    && (steps == [] || AlwaysAcyclic(db, steps[..|steps| - 1]))
  }

  ghost predicate AllFresh(db: Db, steps: seq<Step>) {
    steps == [] || (AllFresh(db, steps[..|steps| - 1]) && Fresh(Run(db, steps[..|steps| - 1]), steps[|steps| - 1]))
  }

  lemma {:induction false} HarmlessRunKeepsInv(db: Db, steps: seq<Step>)
    requires Inv(db) && AllHarmless(db, steps)
    ensures RaceInv(Run(db, steps))
    decreases |steps|
  {
    if steps != [] {
      HarmlessRunKeepsInv(db, steps[..|steps| - 1]);
      NextKeeps(Run(db, steps[..|steps| - 1]), steps[|steps| - 1]);
    }
  }

  /** However the requests interleave, the graph is acyclic at every moment exactly
      when every row that is added closes no cycle by the time it is added. */
  lemma {:induction false} AlwaysAcyclicExact(db: Db, steps: seq<Step>)
    requires Inv(db)
    ensures AlwaysAcyclic(db, steps) <==> AllHarmless(db, steps)
    decreases |steps|
  {
    if steps != [] {
      var first, last := steps[..|steps| - 1], steps[|steps| - 1];
      AlwaysAcyclicExact(db, first);
      if AllHarmless(db, first) {
        HarmlessRunKeepsInv(db, first);
        if Inserts(Run(db, first), last) {
          InsertExact(Run(db, first), last);
        } else {
          NextKeeps(Run(db, first), last);
        }
      }
    }
  }

  /** It is enough that no insert uses a look that is older than another addition of a
      blocking row.  Removals, deletions and whole plans in between do no harm. */
  lemma {:induction false} FreshRunsStayAcyclic(db: Db, steps: seq<Step>)
    requires Inv(db) && AllFresh(db, steps)
    ensures AllHarmless(db, steps) && AlwaysAcyclic(db, steps) && Inv(Run(db, steps).db)
    decreases |steps|
  {
    if steps != [] {
      var first := steps[..|steps| - 1];
      FreshRunsStayAcyclic(db, first);
      HarmlessRunKeepsInv(db, first);
      FreshIsHarmless(Run(db, first), steps[|steps| - 1]);
    }
    HarmlessRunKeepsInv(db, steps);
    AlwaysAcyclicExact(db, steps);
  }

  // ---- looks that cross ----

  /** Two requests for opposite edges both look before either inserts. */
  function CrossedLooks(pid: Id, a: Id, b: Id, x: Id, y: Id): seq<Step> {
    [Look(0, pid, a, b), Look(1, pid, b, a), Insert(0, x), Insert(1, y)]
  }

  /** A whole link request for the opposite edge falls between look and insert. */
  function LookAndLink(pid: Id, a: Id, b: Id, x: Id, y: Id): seq<Step> {
    [Look(0, pid, a, b), Whole(TaskRuns.Link(b, a, Some(DependsOn), x)), Insert(0, y)]
  }

  lemma RunStep(db: Db, steps: seq<Step>, step: Step)
    ensures Run(db, steps + [step]) == Next(Run(db, steps), step)
  {
    assert (steps + [step])[..|steps|] == steps;
  }

  ghost function Wants(pid: Id, a: Id, b: Id): Ticket { Ticket(Row(pid, a, b, DependsOn), false, 0) }

  lemma AfterTheLooks(db: Db, pid: Id, a: Id, b: Id, x: Id, y: Id)
    requires Clears(db, pid, a, b) && Clears(db, pid, b, a)
    ensures Run(db, CrossedLooks(pid, a, b, x, y)[..2])
      == State(db, map[0 := Wants(pid, a, b), 1 := Wants(pid, b, a)], 0)
  {
    var q := CrossedLooks(pid, a, b, x, y);
    hide Clears;
    RunStep(db, [], q[0]);
    RunStep(db, q[..1], q[1]);
    assert [] + [q[0]] == q[..1] && q[..1] + [q[1]] == q[..2];
    assert Run(db, []) == State(db, map[], 0);
    assert Run(db, q[..1]) == State(db, map[0 := Wants(pid, a, b)], 0);
  }

  lemma InsertWanted(s: State, c: nat, pid: Id, a: Id, b: Id, id: Id)
    requires c in s.tickets && s.tickets[c].row == Row(pid, a, b, DependsOn) && !s.tickets[c].replacing
    requires id !in s.db.rows && PairFree(s.db.rows, s.tickets[c].row) && a in s.db.tasks && b in s.db.tasks
    ensures var after := Next(s, Insert(c, id));
      after.db == s.db.(rows := s.db.rows[id := Row(pid, a, b, DependsOn)]) && after.tickets == s.tickets - {c}
  {
    hide PairFree;
  }

  lemma ClearPairFree(db: Db, pid: Id, a: Id, b: Id)
    requires Clears(db, pid, a, b)
    ensures PairFree(db.rows, Row(pid, a, b, DependsOn))
  {
    forall r | r in db.rows ensures RowEdge(db.rows[r]) != (a, b) {
      assert !IsPair(db.rows, r, a, b);
    }
  }

  /** Wherever either of two opposite edges could be added, this interleaving adds
      both, and closes a cycle. */
  lemma CrossedLooksCloseCycle(db: Db, pid: Id, a: Id, b: Id, x: Id, y: Id)
    requires Inv(db) && Clears(db, pid, a, b) && Clears(db, pid, b, a)
    requires x !in db.rows && y !in db.rows && x != y
    ensures var rows := Run(db, CrossedLooks(pid, a, b, x, y)).db.rows;
      {(a, b), (b, a)} <= BlockingEdges(rows) && !Acyclic(BlockingEdges(rows))
  {
    var q := CrossedLooks(pid, a, b, x, y);
    AfterTheLooks(db, pid, a, b, x, y);
    RunStep(db, q[..2], q[2]);
    RunStep(db, q[..3], q[3]);
    assert q[..2] + [q[2]] == q[..3] && q[..3] + [q[3]] == q;
    ClearPairFree(db, pid, a, b);
    ClearPairFree(db, pid, b, a);
    hide Inv, Next, Run, BlockingEdges, Acyclic;
    var s := Run(db, q[..2]);
    InsertWanted(s, 0, pid, a, b, x);
    InsertWanted(Run(db, q[..3]), 1, pid, b, a, y);
    BothEdgesCycle(Run(db, q).db.rows, x, y, a, b);
  }

  lemma LinkBetweenStrangers(db: Db, pid: Id, a: Id, b: Id, x: Id)
    requires Clears(db, pid, b, a) && Clears(db, pid, a, b) && x !in db.rows
    ensures AddLink(db, b, a, Some(DependsOn), x).0 == db.(rows := db.rows[x := Row(pid, b, a, DependsOn)])
  {
    LinkIsRowLink(db, b, a, DependsOn, x);
    forall r | r in db.rows ensures !Joins(db.rows[r], b, a) {
      assert !IsPair(db.rows, r, a, b) && !IsPair(db.rows, r, b, a);
    }
    assert RowsApart(db.rows, b, a) == db.rows;
    hide Reaches, FindEdge, AddLink;
  }

  lemma AfterTheLink(db: Db, pid: Id, a: Id, b: Id, x: Id, y: Id)
    requires Clears(db, pid, a, b) && Clears(db, pid, b, a) && x !in db.rows
    ensures var s := Run(db, LookAndLink(pid, a, b, x, y)[..2]);
      && s.db == db.(rows := db.rows[x := Row(pid, b, a, DependsOn)])
      && s.tickets == map[0 := Wants(pid, a, b)]
  {
    var q := LookAndLink(pid, a, b, x, y);
    RunStep(db, [], q[0]);
    RunStep(db, q[..1], q[1]);
    assert [] + [q[0]] == q[..1] && q[..1] + [q[1]] == q[..2];
    assert Run(db, []) == State(db, map[], 0);
    LinkBetweenStrangers(db, pid, a, b, x);
    assert InProject(db, pid, a) && InProject(db, pid, b);
    assert Run(db, q[..1]) == State(db, map[0 := Wants(pid, a, b)], 0);
    hide AddLink, BlockingEdges, Clears;
  }

  /** The same with a link request: the insert is older than an addition, and closes a cycle. */
  lemma LookAndLinkCloseCycle(db: Db, pid: Id, a: Id, b: Id, x: Id, y: Id)
    requires Inv(db) && Clears(db, pid, a, b) && Clears(db, pid, b, a)
    requires x !in db.rows && y !in db.rows && x != y
    ensures var rows := Run(db, LookAndLink(pid, a, b, x, y)).db.rows;
      {(a, b), (b, a)} <= BlockingEdges(rows) && !Acyclic(BlockingEdges(rows))
    ensures !AllFresh(db, LookAndLink(pid, a, b, x, y))
  {
    var q := LookAndLink(pid, a, b, x, y);
    RunStep(db, q[..2], q[2]);
    assert q[..2] + [q[2]] == q;
    AfterTheLink(db, pid, a, b, x, y);
    ClearPairFree(db, pid, a, b);
    assert InProject(db, pid, a) && InProject(db, pid, b);
    var s := Run(db, q[..2]);
    hide Next, Run, Clears, BlockingEdges, Acyclic, TaskRuns.Serve, AllFresh, Inv;
    assert PairFree(s.db.rows, Row(pid, a, b, DependsOn));
    InsertWanted(s, 0, pid, a, b, y);
    BothEdgesCycle(Run(db, q).db.rows, y, x, a, b);
    if AllFresh(db, q) { FreshRunsStayAcyclic(db, q); }
  }

  lemma BothEdgesCycle(rows: map<Id, Row>, x: Id, y: Id, a: Id, b: Id)
    requires IsPair(rows, x, a, b) && IsPair(rows, y, b, a)
    requires rows[x].linkType.DependsOn? && rows[y].linkType.DependsOn?
    ensures {(a, b), (b, a)} <= BlockingEdges(rows) && !Acyclic(BlockingEdges(rows))
  {
    var E := BlockingEdges(rows);
    assert RowEdge(rows[x]) in E && RowEdge(rows[y]) in E;
    ReachesEdge(E, b, a);
    assert OnCycle(E, a);
  }
}

/** Every request keeps the link graph a DAG, its rows well-formed and its keys unique. */
module TaskInvariants {
  import opened Wrappers
  import opened Graphs
  import opened TaskState
  import Keys

  // ---- lookups under the invariant ----

  lemma ResolveSound(db: Db, ref: Ref)
    ensures Resolve(db.tasks, ref).Some? ==> Resolve(db.tasks, ref).value in db.tasks
  {
  }

  /** Callers may name a task by its key. */
  lemma ResolveByKey(db: Db, t: Id)
    requires Inv(db) && t in db.tasks && db.tasks[t].key !in db.tasks
    ensures Resolve(db.tasks, db.tasks[t].key) == Some(t)
  {
    var key := db.tasks[t].key;
    assert Issued(db.projects, db.tasks[t].project, key);
    var p := db.projects[db.tasks[t].project];
    var n: nat :| 1 <= n < p.nextNumber && key == Keys.Render(p.prefix, n);
    Keys.UpperOfKey(p.prefix, n);
    assert HasKey(db.tasks, t, Keys.Upper(key));
  }

  // ---- the check on one project's edges speaks for the whole graph ----

  lemma BlockingRow(rows: map<Id, Row>, a: Id, b: Id) returns (r: Id)
    requires (a, b) in BlockingEdges(rows)
    ensures r in rows && rows[r].linkType.DependsOn? && rows[r].task == a && rows[r].dependsOn == b
  {
    r :| r in rows && rows[r].linkType.DependsOn? && RowEdge(rows[r]) == (a, b);
  }

  lemma {:induction false} HopsInProject(tasks: map<Id, Task>, rows: map<Id, Row>, pid: Id, a: Id, b: Id, n: nat)
    requires RowsSound(tasks, rows) && a in tasks && tasks[a].project == pid
    requires Hops(BlockingEdges(rows), a, b, n)
    ensures Reaches(ProjectEdges(rows, pid), a, b)
    decreases n
  {
    if n == 0 {
      ReachesSelf(ProjectEdges(rows, pid), a);
    } else {
      var c :| (a, c) in BlockingEdges(rows) && Hops(BlockingEdges(rows), c, b, n - 1);
      var r := BlockingRow(rows, a, c);
      assert RowSound(tasks, rows[r]);
      assert RowEdge(rows[r]) in ProjectEdges(rows, pid);
      HopsInProject(tasks, rows, pid, c, b, n - 1);
      ReachesStep(ProjectEdges(rows, pid), a, c, b);
    }
  }

  lemma ProjectReach(tasks: map<Id, Task>, rows: map<Id, Row>, pid: Id, a: Id, b: Id)
    requires RowsSound(tasks, rows) && a in tasks && tasks[a].project == pid
    ensures Reaches(ProjectEdges(rows, pid), a, b) <==> Reaches(BlockingEdges(rows), a, b)
  {
    if Reaches(BlockingEdges(rows), a, b) {
      var n: nat :| Hops(BlockingEdges(rows), a, b, n);
      HopsInProject(tasks, rows, pid, a, b, n);
    }
    if Reaches(ProjectEdges(rows, pid), a, b) {
      ReachesMono(ProjectEdges(rows, pid), BlockingEdges(rows), a, b);
    }
  }

  // ---- adding a row ----

  lemma AddedRowEdges(rows: map<Id, Row>, id: Id, r: Row)
    requires id !in rows
    ensures BlockingEdges(rows[id := r]) == BlockingEdges(rows) + (if r.linkType.DependsOn? then {RowEdge(r)} else {})
    ensures ProjectEdges(rows[id := r], r.project)
      == ProjectEdges(rows, r.project) + (if r.linkType.DependsOn? then {RowEdge(r)} else {})
  {
    var after := rows[id := r];
    assert after[id] == r;
    forall s | s in rows ensures s in after && after[s] == rows[s] {
    }
  }

  /** A sound new row on a fresh pair, not closing a cycle, keeps the links sound. */
  lemma AddedRowSound(tasks: map<Id, Task>, rows: map<Id, Row>, id: Id, r: Row)
    requires LinksSound(tasks, rows) && id !in rows && RowSound(tasks, r)
    requires forall s :: s in rows ==> RowEdge(rows[s]) != RowEdge(r)
    requires r.linkType.DependsOn? ==> !Reaches(ProjectEdges(rows, r.project), r.dependsOn, r.task)
    ensures LinksSound(tasks, rows[id := r])
  {
    AddedRowEdges(rows, id, r);
    if r.linkType.DependsOn? {
      ProjectReach(tasks, rows, r.project, r.dependsOn, r.task);
      AcyclicAddEdge(BlockingEdges(rows), r.task, r.dependsOn);
    } else {
      assert BlockingEdges(rows[id := r]) == BlockingEdges(rows);
    }
  }

  // ---- dropping rows ----

  lemma FewerRowsSound(tasks: map<Id, Task>, rows: map<Id, Row>, kept: map<Id, Row>)
    requires LinksSound(tasks, rows)
    requires forall r :: r in kept ==> r in rows && kept[r] == rows[r]
    ensures LinksSound(tasks, kept)
    ensures BlockingEdges(kept) <= BlockingEdges(rows)
  {
    AcyclicSubset(BlockingEdges(kept), BlockingEdges(rows));
  }

  // ---- dependencies and links ----

  lemma AddDependencyKeepsInv(db: Db, pid: Id, t: Ref, b: Ref, newId: Id)
    requires Inv(db)
    ensures Inv(AddDependency(db, pid, t, b, newId).0)
  {
    var after := AddDependency(db, pid, t, b, newId).0;
    if after != db {
      var r := Row(pid, Resolve(db.tasks, t).value, Resolve(db.tasks, b).value, DependsOn);
      forall s | s in db.rows ensures RowEdge(db.rows[s]) != RowEdge(r) {
        assert !IsPair(db.rows, s, r.task, r.dependsOn);
      }
      AddedRowSound(db.tasks, db.rows, newId, r);
    }
  }

  lemma AddRowLinkKeepsInv(db: Db, pid: Id, source: Id, target: Id, stored: LinkType, newId: Id)
    requires Inv(db) && Stored(stored)
    requires source in db.tasks && target in db.tasks
    requires db.tasks[source].project == pid && db.tasks[target].project == pid
    ensures Inv(AddRowLink(db, pid, source, target, stored, newId).0)
  {
    var kept := RowsApart(db.rows, source, target);
    var after := AddRowLink(db, pid, source, target, stored, newId);
    if after.1.Ok? {
      FewerRowsSound(db.tasks, db.rows, kept);
      var r := Row(pid, source, target, stored);
      if stored.DependsOn? && Reaches(ProjectEdges(kept, pid), target, source) {
        ReachesMono(ProjectEdges(kept, pid), ProjectEdges(db.rows, pid), target, source);
      }
      forall s | s in kept ensures RowEdge(kept[s]) != RowEdge(r) {
        assert !Joins(db.rows[s], source, target);
      }
      AddedRowSound(db.tasks, kept, newId, r);
    }
  }

  /** Moves within a project's tasks that keep keys leave links and keys sound. */
  lemma SameKeysKeepInv(db: Db, tasks: map<Id, Task>)
    requires Inv(db) && tasks.Keys == db.tasks.Keys && ParentsSound(tasks)
    requires forall t :: t in tasks ==> tasks[t].project == db.tasks[t].project && tasks[t].key == db.tasks[t].key
    ensures Inv(db.(tasks := tasks))
  {
    forall r | r in db.rows ensures RowSound(tasks, db.rows[r]) {
      assert RowSound(db.tasks, db.rows[r]);
    }
  }

  lemma OneParentSound(tasks: map<Id, Task>, t: Id, parent: Option<Id>)
    requires ParentsSound(tasks) && t in tasks
    requires parent.Some? ==>
      parent.value != t && parent.value in tasks && tasks[parent.value].project == tasks[t].project
    ensures ParentsSound(tasks[t := tasks[t].(parent := parent)])
  {
    var after := tasks[t := tasks[t].(parent := parent)];
    forall u | u in after ensures ParentSound(after, u) {
      assert ParentSound(tasks, u);
    }
  }

  lemma WithParentKeepsInv(db: Db, t: Id, parent: Option<Id>)
    requires Inv(db) && t in db.tasks
    requires parent.Some? ==>
      parent.value != t && parent.value in db.tasks && db.tasks[parent.value].project == db.tasks[t].project
    ensures Inv(WithParent(db, t, parent))
  {
    var tasks := WithParent(db, t, parent).tasks;
    OneParentSound(db.tasks, t, parent);
    hide ParentsSound;
    SameKeysKeepInv(db, tasks);
  }

  lemma SetParentOfKeepsInv(db: Db, t: Id, parent: Option<Ref>)
    requires Inv(db) && t in db.tasks
    ensures SetParentOf(db, t, parent).Ok? ==> Inv(SetParentOf(db, t, parent).value)
  {
    hide Inv;
    if SetParentOf(db, t, parent).Ok? {
      var ref := ParentRef(parent);
      WithParentKeepsInv(db, t, if ref.None? then None else Some(ValidateParent(db, t, ref.value).value));
    }
  }

  lemma AddLinkKeepsInv(db: Db, taskRef: Ref, otherRef: Ref, linkType: Option<LinkType>, newId: Id)
    requires Inv(db)
    ensures Inv(AddLink(db, taskRef, otherRef, linkType, newId).0)
  {
    hide Inv;
    var t, o := Resolve(db.tasks, taskRef), Resolve(db.tasks, otherRef);
    ResolveSound(db, taskRef);
    ResolveSound(db, otherRef);
    if t.Some? && o.Some? && linkType.Some? && db.tasks[o.value].project == db.tasks[t.value].project {
      var pid := db.tasks[t.value].project;
      match linkType.value
      case ChildOf => HierarchyLinkKeepsInv(db, t.value, o.value);
      case ParentOf => HierarchyLinkKeepsInv(db, o.value, t.value);
      case DependsOn => AddRowLinkKeepsInv(db, pid, t.value, o.value, DependsOn, newId);
      case RelatesTo => AddRowLinkKeepsInv(db, pid, t.value, o.value, RelatesTo, newId);
      case Duplicates => AddRowLinkKeepsInv(db, pid, t.value, o.value, Duplicates, newId);
      case Blocks => AddRowLinkKeepsInv(db, pid, o.value, t.value, DependsOn, newId);
      case DuplicatedBy => AddRowLinkKeepsInv(db, pid, o.value, t.value, Duplicates, newId);
    }
  }

  lemma HierarchyLinkKeepsInv(db: Db, child: Id, parent: Id)
    requires Inv(db) && child in db.tasks && parent in db.tasks
    ensures Inv(AddHierarchyLink(db, child, parent).0)
  {
    hide Inv;
    if ValidateParent(db, child, parent).Ok? {
      WithParentKeepsInv(db, child, Some(parent));
    }
  }

  lemma RemoveKeepsInv(db: Db, rowId: Id)
    requires Inv(db)
    ensures Inv(db.(rows := db.rows - {rowId}))
  {
    FewerRowsSound(db.tasks, db.rows, db.rows - {rowId});
  }

  lemma RemoveLinkKeepsInv(db: Db, taskRef: Ref, link: LinkId)
    requires Inv(db)
    ensures Inv(RemoveLink(db, taskRef, link).0)
  {
    hide Inv;
    match link
    case ParentLink(c) => if c in db.tasks { WithParentKeepsInv(db, c, None); }
    case RowLink(r) => RemoveKeepsInv(db, r);
  }

  // ---- projects and tasks ----

  lemma CreateProjectKeepsInv(db: Db, name: string, newId: Id)
    requires Inv(db)
    ensures Inv(CreateProject(db, name, newId).0)
  {
    var (after, r) := CreateProject(db, name, newId);
    if r.Ok? {
      var prefix := r.value;
      assert Keys.FirstFree(Keys.DerivePrefix(name), Prefixes(db.projects), prefix);
      Keys.FirstFreeIsPlain(name, Prefixes(db.projects), prefix);
      forall p | p in db.projects ensures db.projects[p].prefix != prefix {
        assert db.projects[p].prefix in Prefixes(db.projects);
      }
      forall t | t in after.tasks ensures Issued(after.projects, after.tasks[t].project, after.tasks[t].key) {
        assert Issued(db.projects, db.tasks[t].project, db.tasks[t].key);
      }
    }
  }

  /** A number its project has not reached yet prints a key nobody has. */
  lemma IssuedElsewhere(projects: map<Id, Project>, p: Id, q: Id, m: nat, key: string)
    requires PrefixesSound(projects) && p in projects && Issued(projects, q, key)
    requires m >= projects[p].nextNumber
    ensures key != Keys.Render(projects[p].prefix, m)
  {
    var n: nat :| 1 <= n < projects[q].nextNumber && key == Keys.Render(projects[q].prefix, n);
    if key == Keys.Render(projects[p].prefix, m) {
      Keys.RenderInjective(projects[q].prefix, n, projects[p].prefix, m);
    }
  }

  /** Advancing a project's counter forgets no key and issues its next one. */
  lemma AdvanceIssues(projects: map<Id, Project>, pid: Id, q: Id, key: string)
    requires PrefixesSound(projects) && pid in projects
    ensures var after := projects[pid := projects[pid].(nextNumber := projects[pid].nextNumber + 1)];
      && PrefixesSound(after)
      && Issued(after, pid, Keys.Render(projects[pid].prefix, projects[pid].nextNumber))
      && (Issued(projects, q, key) ==> Issued(after, q, key))
  {
    var after := projects[pid := projects[pid].(nextNumber := projects[pid].nextNumber + 1)];
    if Issued(projects, q, key) {
      var n: nat :| 1 <= n < projects[q].nextNumber && key == Keys.Render(projects[q].prefix, n);
      assert n < after[q].nextNumber && after[q].prefix == projects[q].prefix;
    }
  }

  lemma InsertTaskKeepsKeys(db: Db, pid: Id, spec: TaskSpec, newId: Id)
    requires PrefixesSound(db.projects) && KeysSound(db.projects, db.tasks) && pid in db.projects && newId !in db.tasks
    ensures var after := InsertTask(db, pid, spec, newId);
      PrefixesSound(after.projects) && KeysSound(after.projects, after.tasks)
  {
    var after := InsertTask(db, pid, spec, newId);
    var p := db.projects[pid];
    AdvanceIssues(db.projects, pid, pid, "");
    forall t | t in db.tasks
      ensures Issued(after.projects, db.tasks[t].project, db.tasks[t].key)
      ensures db.tasks[t].key != Keys.Render(p.prefix, p.nextNumber)
    {
      IssuedElsewhere(db.projects, pid, db.tasks[t].project, p.nextNumber, db.tasks[t].key);
      AdvanceIssues(db.projects, pid, db.tasks[t].project, db.tasks[t].key);
    }
  }

  lemma InsertTaskKeepsInv(db: Db, pid: Id, spec: TaskSpec, newId: Id)
    requires Inv(db) && pid in db.projects && newId !in db.tasks
    ensures Inv(InsertTask(db, pid, spec, newId))
  {
    var after := InsertTask(db, pid, spec, newId);
    InsertTaskKeepsKeys(db, pid, spec, newId);
    forall r | r in after.rows ensures RowSound(after.tasks, after.rows[r]) {
      assert RowSound(db.tasks, db.rows[r]);
    }
    forall t | t in after.tasks ensures ParentSound(after.tasks, t) {
      assert t != newId ==> ParentSound(db.tasks, t);
    }
  }

  lemma AddTaskKeepsInv(db: Db, pid: Id, spec: TaskSpec, newId: Id)
    requires Inv(db)
    ensures AddTask(db, pid, spec, newId).Ok? ==> Inv(AddTask(db, pid, spec, newId).value)
  {
    hide Inv;
    if pid in db.projects && newId !in db.tasks {
      InsertTaskKeepsInv(db, pid, spec, newId);
      SetParentOfKeepsInv(InsertTask(db, pid, spec, newId), newId, spec.parent);
    }
  }

  lemma SetParentKeepsInv(db: Db, ref: Ref, parent: Option<Ref>)
    requires Inv(db)
    ensures Inv(SetParent(db, ref, parent).0)
  {
    hide Inv;
    var t := Resolve(db.tasks, ref);
    if t.Some? && t.value in db.tasks {
      SetParentOfKeepsInv(db, t.value, parent);
    }
  }

  lemma SameParentsSound(tasks: map<Id, Task>, after: map<Id, Task>)
    requires ParentsSound(tasks) && after.Keys == tasks.Keys
    requires forall t :: t in tasks ==> after[t].parent == tasks[t].parent && after[t].project == tasks[t].project
    ensures ParentsSound(after)
  {
    forall t | t in after ensures ParentSound(after, t) {
      assert ParentSound(tasks, t);
    }
  }

  lemma MoveKeepsInv(db: Db, ref: Ref, status: string)
    requires Inv(db)
    ensures Inv(Move(db, ref, status).0)
  {
    var tasks := Move(db, ref, status).0.tasks;
    SameParentsSound(db.tasks, tasks);
    hide ParentsSound;
    SameKeysKeepInv(db, tasks);
  }

  lemma WithoutTaskParentsSound(tasks: map<Id, Task>, t: Id)
    requires ParentsSound(tasks)
    ensures ParentsSound(WithoutTask(tasks, t))
  {
    forall c | c in WithoutTask(tasks, t) ensures ParentSound(WithoutTask(tasks, t), c) {
      assert ParentSound(tasks, c);
    }
  }

  lemma WithoutTaskKeysSound(projects: map<Id, Project>, tasks: map<Id, Task>, t: Id)
    requires KeysSound(projects, tasks)
    ensures KeysSound(projects, WithoutTask(tasks, t))
  {
  }

  lemma WithoutTaskLinksSound(tasks: map<Id, Task>, rows: map<Id, Row>, t: Id)
    requires LinksSound(tasks, rows)
    ensures LinksSound(WithoutTask(tasks, t), RowsWithout(rows, t))
  {
    FewerRowsSound(tasks, rows, RowsWithout(rows, t));
    forall r | r in RowsWithout(rows, t) ensures RowSound(WithoutTask(tasks, t), rows[r]) {
      assert RowSound(tasks, rows[r]);
    }
  }

  lemma DeleteTaskKeepsInv(db: Db, ref: Ref)
    requires Inv(db)
    ensures Inv(DeleteTask(db, ref).0)
  {
    var t := Resolve(db.tasks, ref);
    if t.Some? {
      WithoutTaskParentsSound(db.tasks, t.value);
      WithoutTaskKeysSound(db.projects, db.tasks, t.value);
      WithoutTaskLinksSound(db.tasks, db.rows, t.value);
    }
  }

  // ---- what the DAG is for ----

  ghost predicate Open(db: Db, t: Id) {
    t in db.tasks && db.tasks[t].status != DONE_STATUS
  }

  ghost function OpenTasks(db: Db, pid: Id): set<Id> {
    set u | u in db.tasks && db.tasks[u].project == pid && Open(db, u)
  }

  lemma BlockedHasOpenBlocker(db: Db, pid: Id, u: Id)
    requires RowsSound(db.tasks, db.rows) && u in OpenTasks(db, pid) && IsBlocked(db, u)
    ensures HasExit(BlockingEdges(db.rows), OpenTasks(db, pid), u)
  {
    var b :| WaitsOn(db, u, b) && db.tasks[b].status != DONE_STATUS;
    var r := BlockingRow(db.rows, u, b);
    assert RowSound(db.tasks, db.rows[r]);
  }

  lemma AllBlockedHasNoSink(db: Db, pid: Id)
    requires RowsSound(db.tasks, db.rows) && forall u :: u in OpenTasks(db, pid) ==> IsBlocked(db, u)
    ensures NoSink(BlockingEdges(db.rows), OpenTasks(db, pid))
  {
    forall u | u in OpenTasks(db, pid) ensures HasExit(BlockingEdges(db.rows), OpenTasks(db, pid), u) {
      BlockedHasOpenBlocker(db, pid, u);
    }
  }

  lemma NoSinkNotAcyclic(E: Edges, S: set<Node>, x: Node)
    requires x in S && NoSink(E, S)
    ensures !Acyclic(E)
  {
    NoSinkReachesCycle(E, S, x);
  }

  /** As long as some task of a project is open, one of its open tasks can be started. */
  lemma SomeOpenTaskIsUnblocked(db: Db, t: Id)
    requires Inv(db) && Open(db, t)
    ensures exists u :: u in OpenTasks(db, db.tasks[t].project) && !IsBlocked(db, u)
  {
    var pid := db.tasks[t].project;
    assert RowsSound(db.tasks, db.rows) && Acyclic(BlockingEdges(db.rows)) && t in OpenTasks(db, pid);
    hide Inv, RowsSound, IsBlocked, NoSink, Acyclic, OpenTasks;
    if forall u :: u in OpenTasks(db, pid) ==> IsBlocked(db, u) {
      AllBlockedHasNoSink(db, pid);
      NoSinkNotAcyclic(BlockingEdges(db.rows), OpenTasks(db, pid), t);
    }
  }
}

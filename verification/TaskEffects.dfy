/** What the requests change, told task by task and row by row, and what readers see of it. */
module TaskEffects {
  import opened Wrappers
  import opened TaskState
  import opened TaskInvariants
  import opened TaskProperties
  import Keys
  import Text

  // ---- references ----

  /** Among the tasks `known` the reference names p: by its id, or else by its key
      in any letter case. */
  ghost predicate NamedBy(tasks: map<Id, Task>, known: set<Id>, ref: Ref, p: Id) {
    p in known && p in tasks && if ref in known then p == ref else tasks[p].key == Keys.Upper(ref)
  }

  lemma ResolveNames(db: Db, ref: Ref, p: Id)
    requires Inv(db)
    ensures Resolve(db.tasks, ref) == Some(p) <==> NamedBy(db.tasks, db.tasks.Keys, ref, p)
  {
    if NamedBy(db.tasks, db.tasks.Keys, ref, p) && ref !in db.tasks {
      assert HasKey(db.tasks, p, Keys.Upper(ref));
    }
  }

  // ---- parents ----

  /** A parent field that names nobody: absent or blank. */
  predicate NoParent(field: Option<Ref>) { field.None? || Text.Blank(field.value) }

  /** What a parent field stands for among the tasks `known` of one project. */
  ghost predicate ParentIs(tasks: map<Id, Task>, known: set<Id>, pid: Id, field: Option<Ref>, parent: Option<Id>) {
    if NoParent(field) then parent == None
    else
      && parent.Some? && NamedBy(tasks, known, Text.Strip(field.value), parent.value)
      && tasks[parent.value].project == pid
  }

  /** Of all tasks only t changes, and of t only the parent. */
  ghost predicate OnlyParentChanged(db: Db, t: Id, after: Db) {
    && after.projects == db.projects && after.rows == db.rows
    && after.tasks.Keys == db.tasks.Keys && t in db.tasks
    && (forall u :: u in db.tasks && u != t ==> after.tasks[u] == db.tasks[u])
    && after.tasks[t] == db.tasks[t].(parent := after.tasks[t].parent)
  }

  /** The field is blank, or names another task of the project that has t among none
      of its first fifty ancestors. */
  ghost predicate ParentAllowed(db: Db, t: Id, field: Option<Ref>)
    requires t in db.tasks
  {
    NoParent(field) || exists p ::
      && ParentIs(db.tasks, db.tasks.Keys, db.tasks[t].project, field, Some(p))
      && p != t && !AncestorWithin(db.tasks, p, t, 50)
  }

  lemma ValidParentExact(db: Db, t: Id, ref: Ref, p: Id)
    requires Inv(db) && t in db.tasks
    ensures ValidateParent(db, t, ref) == Ok(p) <==>
      && NamedBy(db.tasks, db.tasks.Keys, ref, p) && db.tasks[p].project == db.tasks[t].project
      && p != t && !AncestorWithin(db.tasks, p, t, 50)
  {
    ResolveNames(db, ref, p);
    ResolveSound(db, ref);
    hide Inv, Resolve, NamedBy, AncestorWithin;
  }

  /** A parent is stored exactly when the field allows it, and then as the field
      says; a blank field clears the pointer. */
  lemma SetParentOfMeaning(db: Db, t: Id, field: Option<Ref>)
    requires Inv(db) && t in db.tasks
    ensures SetParentOf(db, t, field).Ok? <==> ParentAllowed(db, t, field)
    ensures SetParentOf(db, t, field).Ok? ==>
      var after := SetParentOf(db, t, field).value;
      && OnlyParentChanged(db, t, after)
      && ParentIs(db.tasks, db.tasks.Keys, db.tasks[t].project, field, after.tasks[t].parent)
  {
    BlankField(field);
    if !NoParent(field) {
      var ref := Text.Strip(field.value);
      hide Inv, ValidateParent, NamedBy, AncestorWithin, NoParent, ParentRef, OnlyParentChanged;
      forall p ensures ValidateParent(db, t, ref) == Ok(p) <==>
        ParentIs(db.tasks, db.tasks.Keys, db.tasks[t].project, field, Some(p))
        && p != t && !AncestorWithin(db.tasks, p, t, 50)
      {
        ValidParentExact(db, t, ref, p);
      }
      if ValidateParent(db, t, ref).Ok? {
        PointerSet(db, t, ValidateParent(db, t, ref).value);
      }
    }
  }

  lemma PointerSet(db: Db, t: Id, p: Id)
    requires t in db.tasks
    ensures OnlyParentChanged(db, t, WithParent(db, t, Some(p)))
    ensures t in WithParent(db, t, Some(p)).tasks && WithParent(db, t, Some(p)).tasks[t].parent == Some(p)
  {
  }

  /** The task the reference names got the parent the field names. */
  ghost predicate ParentMade(db: Db, ref: Ref, field: Option<Ref>, after: Db) {
    exists t ::
      && NamedBy(db.tasks, db.tasks.Keys, ref, t) && OnlyParentChanged(db, t, after)
      && ParentIs(db.tasks, db.tasks.Keys, db.tasks[t].project, field, after.tasks[t].parent)
  }

  /** The update request: refused changes nothing, and neither does an absent field. */
  lemma SetParentMeaning(db: Db, ref: Ref, field: Option<Ref>)
    requires Inv(db)
    ensures var (after, r) := SetParent(db, ref, field);
      && (r.Err? || field.None? ==> after == db)
      && (r.Ok? && field.Some? ==> ParentMade(db, ref, field, after))
  {
    var (after, r) := SetParent(db, ref, field);
    if r.Ok? && field.Some? {
      var t := Resolve(db.tasks, ref).value;
      ResolveNames(db, ref, t);
      hide Inv, SetParentOf;
      SetParentOfMeaning(db, t, field);
    }
  }

  // ---- new projects and tasks ----

  /** A new project gets the first free prefix and starts counting at one. */
  lemma CreateProjectMeaning(db: Db, name: string, newId: Id)
    ensures var (after, r) := CreateProject(db, name, newId);
      && (r.Ok? <==> newId !in db.projects)
      && (r.Err? ==> after == db)
      && (r.Ok? ==>
            && after == Db(db.projects[newId := Project(r.value, 1)], db.tasks, db.rows)
            && Keys.FirstFree(Keys.DerivePrefix(name), set p | p in db.projects :: db.projects[p].prefix, r.value))
  {
    Keys.FirstFreeExists(Keys.DerivePrefix(name), Prefixes(db.projects));
    assert Prefixes(db.projects) == set p | p in db.projects :: db.projects[p].prefix;
  }

  ghost predicate TasksKept(before: map<Id, Task>, after: map<Id, Task>) {
    forall t :: t in before ==> t in after && after[t] == before[t]
  }

  /** Task `id` has the fields of its request and the given key. */
  ghost predicate HasFields(tasks: map<Id, Task>, known: set<Id>, id: Id, pid: Id, spec: TaskSpec, key: string) {
    && id in tasks
    && tasks[id].project == pid && tasks[id].status == spec.status && tasks[id].key == key
    && ParentIs(tasks, known, pid, spec.parent, tasks[id].parent)
  }

  /** One task was created and nothing else changed but its project's counter. */
  ghost predicate TaskMade(db: Db, pid: Id, spec: TaskSpec, newId: Id, after: Db) {
    && pid in db.projects && newId !in db.tasks
    && after.rows == db.rows
    && after.tasks.Keys == db.tasks.Keys + {newId} && TasksKept(db.tasks, after.tasks)
    && var p := db.projects[pid];
       && HasFields(after.tasks, db.tasks.Keys, newId, pid, spec, p.prefix + "-" + Keys.Decimal(p.nextNumber))
       && after.projects == db.projects[pid := Project(p.prefix, p.nextNumber + 1)]
  }

  /** The request can be met: its project exists, its id is new, and the task its
      parent field names, if any, is another task of the project. */
  ghost predicate Creatable(db: Db, pid: Id, spec: TaskSpec, newId: Id) {
    && pid in db.projects && spec.fieldsOk && newId !in db.tasks
    && (NoParent(spec.parent) ||
        (Text.Strip(spec.parent.value) != newId &&
         exists p :: ParentIs(db.tasks, db.tasks.Keys, pid, spec.parent, Some(p))))
  }

  /** Looking a reference up with the new task in place. */
  lemma ResolveWithNew(db: Db, mid: Db, newId: Id, ref: Ref, p: Id)
    requires Inv(mid) && newId !in db.tasks && ref != newId && p != newId
    requires mid.tasks.Keys == db.tasks.Keys + {newId} && TasksKept(db.tasks, mid.tasks)
    ensures Resolve(mid.tasks, ref) == Some(p) <==> NamedBy(db.tasks, db.tasks.Keys, ref, p)
    ensures Resolve(mid.tasks, ref) == Some(p) <==> NamedBy(mid.tasks, db.tasks.Keys, ref, p)
  {
    ResolveNames(mid, ref, p);
  }

  lemma AboveOldTask(db: Db, mid: Db, newId: Id, p: Id)
    requires Inv(db) && p in db.tasks && newId !in db.tasks && TasksKept(db.tasks, mid.tasks)
    ensures !AncestorWithin(mid.tasks, p, newId, MAX_DEPTH)
  {
    forall k: nat ensures Up(mid.tasks, p, k) != Some(newId) {
      UpStaysInside(db, mid.tasks, newId, p, k);
    }
  }

  /** Whether the staged task gets the parent its field names. */
  lemma NewParentExact(db: Db, mid: Db, pid: Id, newId: Id, field: Option<Ref>)
    requires Inv(db) && Inv(mid) && newId !in db.tasks && newId in mid.tasks && mid.tasks[newId].project == pid
    requires mid.tasks.Keys == db.tasks.Keys + {newId} && TasksKept(db.tasks, mid.tasks) && !NoParent(field)
    ensures ValidateParent(mid, newId, Text.Strip(field.value)).Ok? <==>
      Text.Strip(field.value) != newId && exists p :: ParentIs(db.tasks, db.tasks.Keys, pid, field, Some(p))
    ensures ValidateParent(mid, newId, Text.Strip(field.value)).Ok? ==>
      ParentIs(mid.tasks, db.tasks.Keys, pid, field, Some(ValidateParent(mid, newId, Text.Strip(field.value)).value))
  {
    var ref := Text.Strip(field.value);
    var r := Resolve(mid.tasks, ref);
    ResolveSound(mid, ref);
    if ref != newId && r.Some? && r.value != newId {
      ResolveWithNew(db, mid, newId, ref, r.value);
      AboveOldTask(db, mid, newId, r.value);
      assert ParentIs(db.tasks, db.tasks.Keys, pid, field, r) <==> mid.tasks[r.value].project == pid;
    }
    hide Resolve;
    if p :| ref != newId && ParentIs(db.tasks, db.tasks.Keys, pid, field, Some(p)) {
      ResolveWithNew(db, mid, newId, ref, p);
      AboveOldTask(db, mid, newId, p);
    }
    if ref == newId {
      assert Resolve(mid.tasks, ref) == Some(newId) by { ResolveNames(mid, ref, newId); }
    }
  }

  /** The staged task before its parent is set. */
  lemma InsertTaskMeaning(db: Db, pid: Id, spec: TaskSpec, newId: Id)
    requires Inv(db) && pid in db.projects && newId !in db.tasks
    ensures var (mid, p) := (InsertTask(db, pid, spec, newId), db.projects[pid]);
      && Inv(mid) && mid.rows == db.rows && mid.projects == db.projects[pid := Project(p.prefix, p.nextNumber + 1)]
      && mid.tasks == db.tasks[newId := Task(pid, Keys.Render(p.prefix, p.nextNumber), None, spec.status)]
  {
    InsertTaskKeepsInv(db, pid, spec, newId);
    assert db.projects[pid].nextNumber >= 1;
  }

  /** A task is created exactly when its request can be met, and then as asked. */
  lemma AddTaskMeaning(db: Db, pid: Id, spec: TaskSpec, newId: Id)
    requires Inv(db)
    ensures AddTask(db, pid, spec, newId).Ok? <==> Creatable(db, pid, spec, newId)
    ensures AddTask(db, pid, spec, newId).Ok? ==> TaskMade(db, pid, spec, newId, AddTask(db, pid, spec, newId).value)
  {
    hide Inv;
    if pid in db.projects && spec.fieldsOk && newId !in db.tasks {
      var mid := InsertTask(db, pid, spec, newId);
      InsertTaskMeaning(db, pid, spec, newId);
      hide InsertTask, ValidateParent, NamedBy;
      BlankField(spec.parent);
      if !NoParent(spec.parent) {
        NewParentExact(db, mid, pid, newId, spec.parent);
      }
      if SetParentOf(mid, newId, spec.parent).Ok? {
        SetParentOfMeaning(mid, newId, spec.parent);
        hide SetParentOf;
      }
    }
  }

  lemma BlankField(field: Option<Ref>)
    ensures ParentRef(field).None? <==> NoParent(field)
    ensures !NoParent(field) ==> ParentRef(field) == Some(Text.Strip(field.value))
  {
    Text.StripEmpty(if field.Some? then field.value else "");
  }

  // ---- moving and deleting ----

  /** A moved task has the new status, and nothing else changes. */
  lemma MoveMeaning(db: Db, ref: Ref, status: string)
    requires Inv(db)
    ensures var (after, r) := Move(db, ref, status);
      && (r.Ok? <==> exists t :: NamedBy(db.tasks, db.tasks.Keys, ref, t))
      && (r.Err? ==> after == db)
      && forall t :: NamedBy(db.tasks, db.tasks.Keys, ref, t) ==>
           && after.projects == db.projects && after.rows == db.rows && after.tasks.Keys == db.tasks.Keys
           && after.tasks[t] == Task(db.tasks[t].project, db.tasks[t].key, db.tasks[t].parent, status)
           && forall u :: u in db.tasks && u != t ==> after.tasks[u] == db.tasks[u]
  {
    forall t ensures Resolve(db.tasks, ref) == Some(t) <==> NamedBy(db.tasks, db.tasks.Keys, ref, t) {
      ResolveNames(db, ref, t);
    }
    if Resolve(db.tasks, ref).Some? {
      assert NamedBy(db.tasks, db.tasks.Keys, ref, Resolve(db.tasks, ref).value);
    }
  }

  /** Task t is gone, with every row that names it; its children are top-level, and
      every other task and row is as it was. */
  ghost predicate TaskGone(db: Db, t: Id, after: Db) {
    && after.projects == db.projects
    && after.tasks.Keys == db.tasks.Keys - {t}
    && (forall u :: u in after.tasks ==>
          if db.tasks[u].parent == Some(t)
          then after.tasks[u] == Task(db.tasks[u].project, db.tasks[u].key, None, db.tasks[u].status)
          else after.tasks[u] == db.tasks[u])
    && (forall r :: r in after.rows <==> r in db.rows && db.rows[r].task != t && db.rows[r].dependsOn != t)
    && forall r :: r in after.rows ==> after.rows[r] == db.rows[r]
  }

  lemma WithoutTaskGone(db: Db, t: Id)
    ensures TaskGone(db, t, Db(db.projects, WithoutTask(db.tasks, t), RowsWithout(db.rows, t)))
  {
  }

  lemma DeleteTaskMeaning(db: Db, ref: Ref)
    requires Inv(db)
    ensures var (after, found) := DeleteTask(db, ref);
      && (found <==> exists t :: NamedBy(db.tasks, db.tasks.Keys, ref, t))
      && (!found ==> after == db)
      && forall t :: NamedBy(db.tasks, db.tasks.Keys, ref, t) ==> TaskGone(db, t, after)
  {
    forall t ensures Resolve(db.tasks, ref) == Some(t) <==> NamedBy(db.tasks, db.tasks.Keys, ref, t) {
      ResolveNames(db, ref, t);
    }
    hide Inv, Resolve, NamedBy, TaskGone, WithoutTask, RowsWithout;
    if Resolve(db.tasks, ref).Some? {
      WithoutTaskGone(db, Resolve(db.tasks, ref).value);
    }
  }

  // ---- who is blocked ----

  /** Some row makes t wait on an existing task that is not done and not `but`. */
  ghost predicate OpenBlockerBut(db: Db, t: Id, but: Option<Id>) {
    exists r :: OpenRow(db, t, r) && Some(db.rows[r].dependsOn) != but
  }

  ghost predicate OpenRow(db: Db, t: Id, r: Id) {
    && r in db.rows && db.rows[r].linkType == DependsOn && db.rows[r].task == t
    && db.rows[r].dependsOn in db.tasks && db.tasks[db.rows[r].dependsOn].status != "done"
  }

  /** Any one blocker that is not done blocks. */
  lemma BlockedExact(db: Db, t: Id)
    ensures IsBlocked(db, t) <==> OpenBlockerBut(db, t, None)
  {
    if IsBlocked(db, t) {
      var b :| WaitsOn(db, t, b) && db.tasks[b].status != DONE_STATUS;
      var r := BlockingRow(db.rows, t, b);
      assert OpenRow(db, t, r);
    }
    if r :| OpenRow(db, t, r) {
      assert RowEdge(db.rows[r]) in BlockingEdges(db.rows);
      assert WaitsOn(db, t, db.rows[r].dependsOn);
    }
  }

  /** Moving task b to another status: whoever waits on it is blocked afterwards
      exactly when b is not done now or another blocker is open.  In particular,
      finishing b frees exactly those whose only open blocker it was. */
  lemma MoveBlocks(db: Db, ref: Ref, b: Id, status: string, t: Id)
    requires Inv(db) && NamedBy(db.tasks, db.tasks.Keys, ref, b)
    ensures IsBlocked(Move(db, ref, status).0, t) <==>
      OpenBlockerBut(db, t, Some(b)) || (status != "done" && WaitsOn(db, t, b))
  {
    var after := Move(db, ref, status).0;
    MoveMeaning(db, ref, status);
    BlockedExact(after, t);
    hide Move, Inv;
    forall r | r in db.rows && db.rows[r].dependsOn != b ensures OpenRow(after, t, r) <==> OpenRow(db, t, r) {
    }
    if r :| OpenRow(after, t, r) && after.rows[r].dependsOn == b {
      assert RowEdge(db.rows[r]) in BlockingEdges(db.rows);
    }
    if WaitsOn(db, t, b) && status != "done" {
      var r := BlockingRow(db.rows, t, b);
      assert OpenRow(after, t, r);
    }
  }

  /** A new dependency blocks its task exactly when the blocker is not done, and
      nobody else. */
  lemma NewDependencyBlocks(db: Db, pid: Id, taskRef: Ref, blockerRef: Ref, newId: Id, u: Id)
    requires AddDependency(db, pid, taskRef, blockerRef, newId).0 != db
    ensures var (t, b) := (Resolve(db.tasks, taskRef).value, Resolve(db.tasks, blockerRef).value);
      IsBlocked(AddDependency(db, pid, taskRef, blockerRef, newId).0, u)
      <==> IsBlocked(db, u) || (u == t && db.tasks[b].status != "done")
  {
    var t, b := Resolve(db.tasks, taskRef).value, Resolve(db.tasks, blockerRef).value;
    AddedRowEdges(db.rows, newId, Row(pid, t, b, DependsOn));
    hide Resolve;
  }

  /** So does an accepted link that says which of two tasks waits. */
  lemma NewLinkBlocks(db: Db, taskRef: Ref, otherRef: Ref, linkType: LinkType, newId: Id)
    requires linkType in {DependsOn, Blocks} && AddLink(db, taskRef, otherRef, Some(linkType), newId).1.Ok?
    ensures var after := AddLink(db, taskRef, otherRef, Some(linkType), newId).0;
      var (t, o) := (Resolve(db.tasks, taskRef).value, Resolve(db.tasks, otherRef).value);
      var (waits, on) := if linkType == DependsOn then (t, o) else (o, t);
      WaitsOn(after, waits, on) && (db.tasks[on].status != "done" ==> IsBlocked(after, waits))
  {
    var after := AddLink(db, taskRef, otherRef, Some(linkType), newId).0;
    var t, o := Resolve(db.tasks, taskRef).value, Resolve(db.tasks, otherRef).value;
    AddLinkReplacesPair(db, taskRef, otherRef, linkType, newId);
    assert RowEdge(after.rows[newId]) in BlockingEdges(after.rows);
    ResolveSound(db, taskRef);
    ResolveSound(db, otherRef);
  }

  lemma RowsOfOthers(db: Db, t: Id, after: Db, u: Id)
    requires TaskGone(db, t, after) && u != t
    ensures forall r :: OpenRow(after, u, r) <==> OpenRow(db, u, r) && db.rows[r].dependsOn != t
    ensures forall v :: v != t ==> (WaitsOn(after, u, v) <==> WaitsOn(db, u, v))
  {
    forall v | v != t ensures (u, v) in BlockingEdges(after.rows) <==> (u, v) in BlockingEdges(db.rows) {
      if (u, v) in BlockingEdges(db.rows) {
        var r := BlockingRow(db.rows, u, v);
        assert RowEdge(after.rows[r]) in BlockingEdges(after.rows);
      }
      if (u, v) in BlockingEdges(after.rows) {
        var r := BlockingRow(after.rows, u, v);
        assert RowEdge(db.rows[r]) in BlockingEdges(db.rows);
      }
    }
  }

  /** Deleting t takes nothing from who waits on whom among the others: each is
      blocked afterwards exactly when a blocker other than t is open. */
  lemma DeleteBlocks(db: Db, ref: Ref, t: Id, u: Id, v: Id)
    requires Inv(db) && NamedBy(db.tasks, db.tasks.Keys, ref, t) && u != t && v != t
    ensures WaitsOn(DeleteTask(db, ref).0, u, v) <==> WaitsOn(db, u, v)
    ensures IsBlocked(DeleteTask(db, ref).0, u) <==> OpenBlockerBut(db, u, Some(t))
  {
    var after := DeleteTask(db, ref).0;
    DeleteTaskMeaning(db, ref);
    BlockedExact(after, u);
    hide DeleteTask, Inv, NamedBy, TaskGone, OpenRow, WaitsOn, IsBlocked;
    RowsOfOthers(db, t, after, u);
  }

  // ---- links ----

  /** An accepted hierarchy link sets one parent pointer and nothing else. */
  lemma HierarchyLinkMeaning(db: Db, taskRef: Ref, otherRef: Ref, linkType: LinkType, newId: Id)
    requires Hierarchy(linkType) && AddLink(db, taskRef, otherRef, Some(linkType), newId).1.Ok?
    ensures var (after, r) := AddLink(db, taskRef, otherRef, Some(linkType), newId);
      var (t, o) := (Resolve(db.tasks, taskRef).value, Resolve(db.tasks, otherRef).value);
      var (child, parent) := if linkType == ChildOf then (t, o) else (o, t);
      && r == Ok(ParentLink(child)) && OnlyParentChanged(db, child, after) && after.tasks[child].parent == Some(parent)
  {
    ResolveSound(db, taskRef);
    ResolveSound(db, otherRef);
    hide Resolve;
  }

  /** The link the request names exists: the row is one of the project, or the
      child is a task of the project. */
  ghost predicate LinkInProject(db: Db, pid: Id, link: LinkId) {
    match link
    case ParentLink(c) => c in db.tasks && db.tasks[c].project == pid
    case RowLink(r) => r in db.rows && db.rows[r].project == pid
  }

  /** A link of the project is removed, and no other one with it. */
  lemma RemoveLinkMeaning(db: Db, taskRef: Ref, link: LinkId)
    requires Inv(db) && Resolve(db.tasks, taskRef).Some?
    ensures var (after, r) := RemoveLink(db, taskRef, link);
      && r.Ok? && (r.value <==> LinkInProject(db, db.tasks[Resolve(db.tasks, taskRef).value].project, link))
      && (!r.value ==> after == db)
      && (r.value ==> OnlyLinkGone(db, link, after))
  {
    ResolveSound(db, taskRef);
    var (after, r) := RemoveLink(db, taskRef, link);
    hide Resolve, OnlyLinkGone;
    if r.value {
      match link
      case ParentLink(c) => PointerGone(db, c);
      case RowLink(row) => RowGone(db, row);
    }
  }

  /** Nobody lists the link any more, and every other link is listed as before. */
  ghost predicate OnlyLinkGone(db: Db, link: LinkId, after: Db) {
    && after.projects == db.projects && after.tasks.Keys == db.tasks.Keys
    && (forall a, t, o :: a in db.tasks ==> !ListsLink(after, a, link, t, o))
    && forall a, l, t, o :: a in db.tasks && l != link ==>
         (ListsLink(after, a, l, t, o) <==> ListsLink(db, a, l, t, o))
  }

  lemma PointerGone(db: Db, child: Id)
    requires child in db.tasks
    ensures OnlyLinkGone(db, ParentLink(child), WithParent(db, child, None))
  {
  }

  lemma RowGone(db: Db, row: Id)
    ensures OnlyLinkGone(db, RowLink(row), db.(rows := db.rows - {row}))
  {
  }

  /** A removed dependency is gone and nothing else is. */
  lemma RemoveDependencyMeaning(db: Db, pid: Id, rowId: Id)
    ensures var (after, found) := RemoveDependency(db, pid, rowId);
      && (found <==> LinkInProject(db, pid, RowLink(rowId)))
      && (!found ==> after == db)
      && (found ==>
            && after.projects == db.projects && after.tasks == db.tasks
            && after.rows.Keys == db.rows.Keys - {rowId}
            && forall r :: r in after.rows ==> after.rows[r] == db.rows[r])
  {
  }

  /** A row says of its two ends what its type says, read from `a`. */
  ghost predicate RowSays(r: Row, a: Id, t: LinkType, b: Id) {
    match t
    case DependsOn => r.linkType == DependsOn && r.task == a && r.dependsOn == b
    case Blocks => r.linkType == DependsOn && r.task == b && r.dependsOn == a
    case Duplicates => r.linkType == Duplicates && r.task == a && r.dependsOn == b
    case DuplicatedBy => r.linkType == Duplicates && r.task == b && r.dependsOn == a
    case RelatesTo => r.linkType == RelatesTo && Joins(r, a, b)
    case _ => false
  }

  lemma RowListed(db: Db, a: Id, t: LinkType, b: Id, r: Id)
    requires RowsSound(db.tasks, db.rows) && a in db.tasks && b in db.tasks && a != b
    ensures ListsLink(db, a, RowLink(r), t, b) <==> r in db.rows && RowSays(db.rows[r], a, t, b)
  {
    assert r in db.rows ==> RowSound(db.tasks, db.rows[r]);
  }

  lemma PointerListed(db: Db, a: Id, t: LinkType, b: Id, c: Id)
    requires a in db.tasks && b in db.tasks && a != b
    ensures ListsLink(db, a, ParentLink(c), t, b) <==>
      (c == a && t == ChildOf && db.tasks[a].parent == Some(b)) || (c == b && t == ParentOf && db.tasks[b].parent == Some(a))
  {
  }

  /** What a task lists about another one: its parent, its children, and what the
      rows between the two say. */
  lemma ListsMeaning(db: Db, a: Id, t: LinkType, b: Id)
    requires Inv(db) && a in db.tasks && b in db.tasks && a != b
    ensures Lists(db, a, t, b) <==>
      match t
      case ChildOf => db.tasks[a].parent == Some(b)
      case ParentOf => db.tasks[b].parent == Some(a)
      case _ => exists r :: r in db.rows && RowSays(db.rows[r], a, t, b)
  {
    assert RowsSound(db.tasks, db.rows);
    hide Inv, RowsSound, ListsLink;
    if Lists(db, a, t, b) {
      var l :| ListsLink(db, a, l, t, b);
      if l.RowLink? { RowListed(db, a, t, b, l.row); } else { PointerListed(db, a, t, b, l.child); }
    }
    PointerListed(db, a, t, b, a);
    PointerListed(db, a, t, b, b);
    if r :| r in db.rows && RowSays(db.rows[r], a, t, b) {
      RowListed(db, a, t, b, r);
      assert Lists(db, a, t, b);
    }
  }
}

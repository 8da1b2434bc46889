/** One organisation's projects, tasks and task links, and what every request
    does to them.  Each operation is a function from the stored rows to the rows
    that are committed; a refused operation commits nothing. */
module TaskState {
  import opened Wrappers
  import opened Graphs
  import Keys
  import Text

  type Id = string
  /** A task reference as callers write it: an id or a key in any letter case. */
  type Ref = string

  datatype LinkType = DependsOn | Blocks | ChildOf | ParentOf | RelatesTo | Duplicates | DuplicatedBy

  datatype Project = Project(prefix: string, nextNumber: nat)
  datatype Task = Task(project: Id, key: string, parent: Option<Id>, status: string)
  datatype Row = Row(project: Id, task: Id, dependsOn: Id, linkType: LinkType)
  datatype Db = Db(projects: map<Id, Project>, tasks: map<Id, Task>, rows: map<Id, Row>)

  datatype LinkId = ParentLink(child: Id) | RowLink(row: Id)

  /** The caller-supplied fields of a new task.  `fieldsOk` stands for the
      lookups of status, priority and milestone, which may refuse the task. */
  datatype TaskSpec = TaskSpec(fieldsOk: bool, status: string, parent: Option<Ref>)

  datatype Error =
    | ProjectNotFound | TaskNotFound | BadField | IdClash
    | SelfDependency | SelfLink | WrongProject | WouldCycle | UnknownLinkType
    | ParentNotFound | OwnParent | ParentElsewhere | ParentCycle
    | EmptyBatch | BatchTooLarge | UnknownFields(index: nat) | RefRequired(index: nat)
    | DuplicateRef(ref: string) | TitleRequired(index: nat)
    | BatchSelfDependency(ref: string) | UnknownRef(ref: string, dep: string)
    | BatchCycle(refs: set<string>)

  const MAX_DEPTH: nat := 50
  const DONE_STATUS := "done"

  // ---- link types ----

  function Inverse(t: LinkType): LinkType {
    match t
    case DependsOn => Blocks
    case Blocks => DependsOn
    case ChildOf => ParentOf
    case ParentOf => ChildOf
    case RelatesTo => RelatesTo
    case Duplicates => DuplicatedBy
    case DuplicatedBy => Duplicates
  }

  predicate Hierarchy(t: LinkType) { t.ChildOf? || t.ParentOf? }

  /** The types a row may carry; a row always reads task -> dependsOn. */
  predicate Stored(t: LinkType) { t.DependsOn? || t.RelatesTo? || t.Duplicates? }

  // ---- edges ----

  ghost function RowEdge(r: Row): (Node, Node) { (r.task, r.dependsOn) }

  /** Every blocking edge of the organisation. */
  ghost function BlockingEdges(rows: map<Id, Row>): Edges {
    set r | r in rows && rows[r].linkType.DependsOn? :: RowEdge(rows[r])
  }

  /** The blocking edges of one project, which is what the cycle checks read. */
  ghost function ProjectEdges(rows: map<Id, Row>, pid: Id): Edges {
    set r | r in rows && rows[r].linkType.DependsOn? && rows[r].project == pid :: RowEdge(rows[r])
  }

  /** Child -> parent edges. */
  ghost function ParentEdges(tasks: map<Id, Task>): Edges {
    set t | t in tasks && tasks[t].parent.Some? :: (t, tasks[t].parent.value)
  }

  predicate Joins(r: Row, a: Id, b: Id) {
    (r.task == a && r.dependsOn == b) || (r.task == b && r.dependsOn == a)
  }

  predicate Touches(r: Row, t: Id) { r.task == t || r.dependsOn == t }

  // ---- lookups ----

  ghost predicate HasKey(tasks: map<Id, Task>, id: Id, key: string) {
    id in tasks && tasks[id].key == key
  }

  /** By id first, then by key. */
  ghost function Resolve(tasks: map<Id, Task>, ref: Ref): Option<Id> {
    if ref in tasks then Some(ref)
    else if exists id :: HasKey(tasks, id, Keys.Upper(ref)) then
      var id :| HasKey(tasks, id, Keys.Upper(ref)); Some(id)
    else None
  }

  ghost predicate IsPair(rows: map<Id, Row>, r: Id, a: Id, b: Id) {
    r in rows && rows[r].task == a && rows[r].dependsOn == b
  }

  /** The row a -> b, whatever its link type. */
  ghost function FindEdge(rows: map<Id, Row>, a: Id, b: Id): Option<Id> {
    if exists r :: IsPair(rows, r, a, b) then var r :| IsPair(rows, r, a, b); Some(r) else None
  }

  /** The k-th ancestor of t, if the chain is that long. */
  ghost function Up(tasks: map<Id, Task>, t: Id, k: nat): Option<Id>
    decreases k
  {
    if k == 0 then Some(t)
    else if t in tasks && tasks[t].parent.Some? then Up(tasks, tasks[t].parent.value, k - 1)
    else None
  }

  ghost predicate AncestorWithin(tasks: map<Id, Task>, t: Id, a: Id, limit: nat) {
    exists k: nat :: 1 <= k <= limit && Up(tasks, t, k) == Some(a)
  }

  // ---- parents ----

  ghost function ValidateParent(db: Db, t: Id, parent: Ref): Result<Id, Error>
    requires t in db.tasks
  {
    var p := Resolve(db.tasks, parent);
    if p.None? then Err(ParentNotFound)
    else if p.value == t then Err(OwnParent)
    else if p.value !in db.tasks || db.tasks[p.value].project != db.tasks[t].project then Err(ParentElsewhere)
    else if AncestorWithin(db.tasks, p.value, t, MAX_DEPTH) then Err(ParentCycle)
    else Ok(p.value)
  }

  ghost function WithParent(db: Db, t: Id, parent: Option<Id>): Db
    requires t in db.tasks
  {
    db.(tasks := db.tasks[t := db.tasks[t].(parent := parent)])
  }

  /** The reference a parent field stands for; a blank one stands for no parent. */
  function ParentRef(parent: Option<Ref>): Option<Ref> {
    var ref := Text.Strip(if parent.Some? then parent.value else "");
    if ref == "" then None else Some(ref)
  }

  ghost function SetParentOf(db: Db, t: Id, parent: Option<Ref>): Result<Db, Error>
    requires t in db.tasks
  {
    var ref := ParentRef(parent);
    if ref.None? then Ok(WithParent(db, t, None))
    else
      var p := ValidateParent(db, t, ref.value);
      if p.Err? then Err(p.error) else Ok(WithParent(db, t, Some(p.value)))
  }

  // ---- projects and tasks ----

  ghost function Prefixes(projects: map<Id, Project>): set<string> {
    set p | p in projects :: projects[p].prefix
  }

  ghost function CreateProject(db: Db, name: string, newId: Id): (Db, Result<string, Error>) {
    Keys.FirstFreeExists(Keys.DerivePrefix(name), Prefixes(db.projects));
    var prefix :| Keys.FirstFree(Keys.DerivePrefix(name), Prefixes(db.projects), prefix);
    if newId in db.projects then (db, Err(IdClash))
    else (db.(projects := db.projects[newId := Project(prefix, 1)]), Ok(prefix))
  }

  function NumberFor(p: Project): nat { if p.nextNumber == 0 then 1 else p.nextNumber }

  /** Inserts the row and advances the project's counter. */
  ghost function InsertTask(db: Db, pid: Id, spec: TaskSpec, newId: Id): Db
    requires pid in db.projects
  {
    var p := db.projects[pid];
    var n := NumberFor(p);
    db.(projects := db.projects[pid := p.(nextNumber := n + 1)],
        tasks := db.tasks[newId := Task(pid, Keys.Render(p.prefix, n), None, spec.status)])
  }

  ghost function AddTask(db: Db, pid: Id, spec: TaskSpec, newId: Id): Result<Db, Error> {
    if pid !in db.projects then Err(ProjectNotFound)
    else if !spec.fieldsOk then Err(BadField)
    else if newId in db.tasks then Err(IdClash)
    else SetParentOf(InsertTask(db, pid, spec, newId), newId, spec.parent)
  }

  /** A request that stages its writes and commits them only when it succeeds. */
  ghost function Commit(db: Db, r: Result<Db, Error>): (Db, Result<(), Error>) {
    match r
    case Ok(after) => (after, Ok(()))
    case Err(e) => (db, Err(e))
  }

  ghost function CreateTask(db: Db, pid: Id, spec: TaskSpec, newId: Id): (Db, Result<(), Error>) {
    Commit(db, AddTask(db, pid, spec, newId))
  }

  /** An update of the parent field; an absent field is left as it is. */
  ghost function SetParent(db: Db, ref: Ref, parent: Option<Ref>): (Db, Result<(), Error>) {
    var t := Resolve(db.tasks, ref);
    if t.None? || t.value !in db.tasks then (db, Err(TaskNotFound))
    else if parent.None? then (db, Ok(()))
    else Commit(db, SetParentOf(db, t.value, parent))
  }

  ghost function Move(db: Db, ref: Ref, status: string): (Db, Result<(), Error>) {
    var t := Resolve(db.tasks, ref);
    if t.None? || t.value !in db.tasks then (db, Err(TaskNotFound))
    else (db.(tasks := db.tasks[t.value := db.tasks[t.value].(status := status)]), Ok(()))
  }

  /** The tasks without `t`; its children become top-level. */
  ghost function WithoutTask(tasks: map<Id, Task>, t: Id): map<Id, Task> {
    map c | c in tasks && c != t :: if tasks[c].parent == Some(t) then tasks[c].(parent := None) else tasks[c]
  }

  ghost function RowsWithout(rows: map<Id, Row>, t: Id): map<Id, Row> {
    map r | r in rows && !Touches(rows[r], t) :: rows[r]
  }

  ghost function DeleteTask(db: Db, ref: Ref): (Db, bool) {
    var t := Resolve(db.tasks, ref);
    if t.None? then (db, false)
    else (Db(db.projects, WithoutTask(db.tasks, t.value), RowsWithout(db.rows, t.value)), true)
  }

  // ---- dependencies ----

  ghost function AddDependency(db: Db, pid: Id, taskRef: Ref, blockerRef: Ref, newId: Id): (Db, Result<Id, Error>) {
    var t, b := Resolve(db.tasks, taskRef), Resolve(db.tasks, blockerRef);
    if taskRef == blockerRef then (db, Err(SelfDependency))
    else if t.None? || b.None? || t.value !in db.tasks || b.value !in db.tasks then (db, Err(TaskNotFound))
    else if db.tasks[t.value].project != pid || db.tasks[b.value].project != pid then (db, Err(WrongProject))
    else if FindEdge(db.rows, t.value, b.value).Some? then (db, Ok(FindEdge(db.rows, t.value, b.value).value))
    else if Reaches(ProjectEdges(db.rows, pid), b.value, t.value) then (db, Err(WouldCycle))
    else if newId in db.rows then (db, Err(IdClash))
    else (db.(rows := db.rows[newId := Row(pid, t.value, b.value, DependsOn)]), Ok(newId))
  }

  ghost function RemoveDependency(db: Db, pid: Id, rowId: Id): (Db, bool) {
    if rowId !in db.rows || db.rows[rowId].project != pid then (db, false)
    else (db.(rows := db.rows - {rowId}), true)
  }

  // ---- links ----

  ghost function RowsApart(rows: map<Id, Row>, a: Id, b: Id): map<Id, Row> {
    map r | r in rows && !Joins(rows[r], a, b) :: rows[r]
  }

  ghost function AddHierarchyLink(db: Db, child: Id, parent: Id): (Db, Result<LinkId, Error>)
    requires child in db.tasks
  {
    var p := ValidateParent(db, child, parent);
    if p.Err? then (db, Err(p.error)) else (WithParent(db, child, Some(parent)), Ok(ParentLink(child)))
  }

  /** Stores source -> target under `stored`, replacing every row between the two. */
  ghost function AddRowLink(db: Db, pid: Id, source: Id, target: Id, stored: LinkType, newId: Id)
    : (Db, Result<LinkId, Error>)
  {
    var kept := RowsApart(db.rows, source, target);
    if stored.DependsOn? && Reaches(ProjectEdges(db.rows, pid), target, source) then (db, Err(WouldCycle))
    else if newId in kept then (db, Err(IdClash))
    else (db.(rows := kept[newId := Row(pid, source, target, stored)]), Ok(RowLink(newId)))
  }

  ghost function AddLink(db: Db, taskRef: Ref, otherRef: Ref, linkType: Option<LinkType>, newId: Id)
    : (Db, Result<LinkId, Error>)
  {
    var t, o := Resolve(db.tasks, taskRef), Resolve(db.tasks, otherRef);
    if t.None? || t.value !in db.tasks then (db, Err(TaskNotFound))
    else if linkType.None? then (db, Err(UnknownLinkType))
    else if t.value == otherRef then (db, Err(SelfLink))
    else if o.None? || o.value !in db.tasks then (db, Err(TaskNotFound))
    else if db.tasks[o.value].project != db.tasks[t.value].project then (db, Err(WrongProject))
    else
      var pid := db.tasks[t.value].project;
      match linkType.value
      case ChildOf => AddHierarchyLink(db, t.value, o.value)
      case ParentOf => AddHierarchyLink(db, o.value, t.value)
      case DependsOn => AddRowLink(db, pid, t.value, o.value, DependsOn, newId)
      case RelatesTo => AddRowLink(db, pid, t.value, o.value, RelatesTo, newId)
      case Duplicates => AddRowLink(db, pid, t.value, o.value, Duplicates, newId)
      case Blocks => AddRowLink(db, pid, o.value, t.value, DependsOn, newId)
      case DuplicatedBy => AddRowLink(db, pid, o.value, t.value, Duplicates, newId)
  }

  ghost function RemoveLink(db: Db, taskRef: Ref, link: LinkId): (Db, Result<bool, Error>) {
    var t := Resolve(db.tasks, taskRef);
    if t.None? || t.value !in db.tasks then (db, Err(TaskNotFound))
    else
      var pid := db.tasks[t.value].project;
      match link
      case ParentLink(child) =>
        if child !in db.tasks || db.tasks[child].project != pid then (db, Ok(false))
        else (WithParent(db, child, None), Ok(true))
      case RowLink(row) =>
        if row !in db.rows || db.rows[row].project != pid then (db, Ok(false))
        else (db.(rows := db.rows - {row}), Ok(true))
  }

  // ---- what readers see ----

  /** What `a` lists: `other` under `t`, through the given link. */
  ghost predicate ListsLink(db: Db, a: Id, l: LinkId, t: LinkType, other: Id)
    requires a in db.tasks
  {
    match l
    case ParentLink(c) =>
      || (c == a && t == ChildOf && db.tasks[a].parent == Some(other) && other in db.tasks)
      || (c == other && t == ParentOf && other in db.tasks && db.tasks[other].parent == Some(a))
    case RowLink(r) =>
      && r in db.rows && other in db.tasks
      && if db.rows[r].task == a && db.rows[r].dependsOn in db.tasks
         then t == db.rows[r].linkType && other == db.rows[r].dependsOn
         else db.rows[r].dependsOn == a && t == Inverse(db.rows[r].linkType) && other == db.rows[r].task
  }

  ghost predicate Lists(db: Db, a: Id, t: LinkType, other: Id)
    requires a in db.tasks
  {
    exists l :: ListsLink(db, a, l, t, other)
  }

  /** `t` waits on `b`. */
  ghost predicate WaitsOn(db: Db, t: Id, b: Id) {
    (t, b) in BlockingEdges(db.rows) && b in db.tasks
  }

  ghost predicate IsBlocked(db: Db, t: Id) {
    exists b :: WaitsOn(db, t, b) && db.tasks[b].status != DONE_STATUS
  }

  // ---- the invariant ----

  /** Both ends of every row exist and lie in the row's own project. */
  ghost predicate RowSound(tasks: map<Id, Task>, r: Row) {
    && Stored(r.linkType)
    && r.task in tasks && tasks[r.task].project == r.project
    && r.dependsOn in tasks && tasks[r.dependsOn].project == r.project
  }

  ghost predicate RowsSound(tasks: map<Id, Task>, rows: map<Id, Row>) {
    forall r :: r in rows ==> RowSound(tasks, rows[r])
  }

  /** The unique constraint of the link table: one row per ordered pair. */
  ghost predicate PairsUnique(rows: map<Id, Row>) {
    forall r, s :: r in rows && s in rows && RowEdge(rows[r]) == RowEdge(rows[s]) ==> r == s
  }

  ghost predicate ParentSound(tasks: map<Id, Task>, t: Id)
    requires t in tasks
  {
    tasks[t].parent.Some? ==>
      && tasks[t].parent.value != t
      && tasks[t].parent.value in tasks && tasks[tasks[t].parent.value].project == tasks[t].project
  }

  ghost predicate ParentsSound(tasks: map<Id, Task>) {
    forall t {:trigger ParentSound(tasks, t)} :: t in tasks ==> ParentSound(tasks, t)
  }

  ghost predicate PrefixesSound(projects: map<Id, Project>) {
    && (forall p :: p in projects ==> Keys.PlainPrefix(projects[p].prefix) && projects[p].nextNumber >= 1)
    && forall p, q :: p in projects && q in projects && projects[p].prefix == projects[q].prefix ==> p == q
  }

  /** The key is one its project has already issued. */
  ghost predicate Issued(projects: map<Id, Project>, pid: Id, key: string) {
    pid in projects && exists n: nat :: 1 <= n < projects[pid].nextNumber && key == Keys.Render(projects[pid].prefix, n)
  }

  ghost predicate KeysSound(projects: map<Id, Project>, tasks: map<Id, Task>) {
    && (forall t :: t in tasks ==> Issued(projects, tasks[t].project, tasks[t].key))
    && forall t, u :: t in tasks && u in tasks && tasks[t].key == tasks[u].key ==> t == u
  }

  ghost predicate LinksSound(tasks: map<Id, Task>, rows: map<Id, Row>) {
    RowsSound(tasks, rows) && PairsUnique(rows) && Acyclic(BlockingEdges(rows))
  }

  ghost predicate Inv(db: Db) {
    && LinksSound(db.tasks, db.rows)
    && ParentsSound(db.tasks)
    && PrefixesSound(db.projects)
    && KeysSound(db.projects, db.tasks)
  }
}

/** The task tables and the requests that update them in place.  Every method is
    proved to do what the corresponding function of TaskState says. */
module TaskStore {
  import opened Wrappers
  import opened Graphs
  import opened TaskState
  import opened TaskInvariants
  import opened TaskEffects
  import Keys
  import Search

  /** One line of a task's link list. */
  datatype Listed = Listed(id: LinkId, linkType: LinkType, other: Id)

  /** The blocking fields added to a serialized task. */
  datatype Blocking = Blocking(blockedBy: set<Id>, blocks: set<Id>, isBlocked: bool)

  class Store {
    var projects: map<Id, Project>
    var tasks: map<Id, Task>
    var rows: map<Id, Row>

    ghost function State(): Db
      reads this
    {
      Db(projects, tasks, rows)
    }

    ghost predicate Valid()
      reads this
    {
      Inv(State())
    }

    constructor ()
      ensures Valid() && State() == Db(map[], map[], map[])
    {
      projects, tasks, rows := map[], map[], map[];
      new;
      assert BlockingEdges(rows) == {};
    }

    // ---- lookups ----

    method ResolveTask(ref: Ref) returns (t: Option<Id>)
      requires Valid()
      ensures t == Resolve(tasks, ref) && (t.Some? ==> t.value in tasks)
    {
      var key := Keys.Upper(ref);
      if ref in tasks {
        t := Some(ref);
      } else if id :| id in tasks && tasks[id].key == key {
        t := Some(id);
        assert HasKey(tasks, id, key);
      } else {
        t := None;
      }
    }

    method FindRow(a: Id, b: Id) returns (r: Option<Id>)
      requires Valid()
      ensures r == FindEdge(rows, a, b)
    {
      if id :| id in rows && rows[id].task == a && rows[id].dependsOn == b {
        r := Some(id);
        assert IsPair(rows, id, a, b);
        assert RowEdge(rows[FindEdge(rows, a, b).value]) == RowEdge(rows[id]);
      } else {
        r := None;
      }
    }

    /** The adjacency the cycle checks read, in no particular order. */
    method EdgesForProject(pid: Id) returns (edges: seq<(Node, Node)>)
      ensures Search.EdgeSet(edges) == ProjectEdges(rows, pid)
    {
      edges := [];
      var todo := rows.Keys;
      while todo != {}
        invariant todo <= rows.Keys
        invariant forall e :: e in edges <==>
          exists r :: r in rows.Keys - todo && rows[r].linkType.DependsOn? && rows[r].project == pid
            && e == RowEdge(rows[r])
        decreases todo
      {
        var r :| r in todo;
        ghost var before := edges;
        if rows[r].linkType.DependsOn? && rows[r].project == pid {
          edges := edges + [(rows[r].task, rows[r].dependsOn)];
        }
        todo := todo - {r};
      }
    }

    /** Up to `limit` ancestors of t, nearest first; a repeated id ends the walk. */
    method AncestorIds(t: Id, limit: nat) returns (seen: seq<Id>)
      requires t in tasks && ParentsSound(tasks)
      ensures forall a :: a in seen <==> AncestorWithin(tasks, t, a, limit)
    {
      seen := [];
      var current := tasks[t].parent;
      assert ParentSound(tasks, t);
      AncestorStep(tasks, t, 0);
      while current.Some? && current.value !in seen && |seen| < limit
        invariant |seen| <= limit
        invariant current == Up(tasks, t, |seen| + 1) && (current.Some? ==> current.value in tasks)
        invariant forall i :: 0 <= i < |seen| ==> Up(tasks, t, i + 1) == Some(seen[i]) && seen[i] in tasks
      {
        seen := seen + [current.value];
        assert ParentSound(tasks, current.value);
        AncestorStep(tasks, t, |seen|);
        current := tasks[current.value].parent;
      }
      forall i | 0 <= i < |seen| ensures AncestorWithin(tasks, t, seen[i], limit) {
      }
      forall a | AncestorWithin(tasks, t, a, limit) ensures a in seen {
        var k: nat :| 1 <= k <= limit && Up(tasks, t, k) == Some(a);
        if k <= |seen| {
          assert seen[k - 1] == a;
        } else {
          WalkRepeats(tasks, t, seen, k);
        }
      }
    }

    // ---- parents ----

    method CheckParent(t: Id, parent: Ref) returns (r: Result<Id, Error>)
      requires Valid() && t in tasks
      ensures r == ValidateParent(State(), t, parent)
      ensures r.Ok? ==> r.value in tasks
    {
      var p := ResolveTask(parent);
      if p.None? { return Err(ParentNotFound); }
      if p.value == t { return Err(OwnParent); }
      if tasks[p.value].project != tasks[t].project { return Err(ParentElsewhere); }
      var ancestors := AncestorIds(p.value, MAX_DEPTH);
      if t in ancestors { return Err(ParentCycle); }
      return Ok(p.value);
    }

    method AssignParent(t: Id, parent: Option<Ref>) returns (r: Result<(), Error>)
      requires Valid() && t in tasks
      modifies this`tasks
      ensures Valid() && (State(), r) == Commit(old(State()), SetParentOf(old(State()), t, parent))
    {
      SetParentOfKeepsInv(State(), t, parent);
      var ref := ParentRef(parent);
      if ref.None? {
        tasks := tasks[t := tasks[t].(parent := None)];
        return Ok(());
      }
      var p := CheckParent(t, ref.value);
      if p.Err? { return Err(p.error); }
      tasks := tasks[t := tasks[t].(parent := Some(p.value))];
      return Ok(());
    }

    method UpdateParent(ref: Ref, parent: Option<Ref>) returns (r: Result<(), Error>)
      requires Valid()
      modifies this`tasks
      ensures Valid() && (State(), r) == SetParent(old(State()), ref, parent)
      ensures r.Ok? && parent.Some? ==> ParentMade(old(State()), ref, parent, State())
    {
      SetParentMeaning(State(), ref, parent);
      var t := ResolveTask(ref);
      if t.None? { return Err(TaskNotFound); }
      if parent.None? { return Ok(()); }
      r := AssignParent(t.value, parent);
    }

    // ---- projects and tasks ----

    method NewProject(name: string, newId: Id) returns (r: Result<string, Error>)
      requires Valid()
      modifies this`projects
      ensures Valid() && (State(), r) == CreateProject(old(State()), name, newId)
    {
      CreateProjectKeepsInv(State(), name, newId);
      var existing := set p | p in projects :: projects[p].prefix;
      var prefix := Keys.UniquePrefix(Keys.DerivePrefix(name), existing);
      assert existing == Prefixes(projects);
      if newId in projects { return Err(IdClash); }
      Keys.FirstFreeExists(Keys.DerivePrefix(name), existing);
      var chosen := CreateProject(State(), name, newId).1.value;
      Keys.FirstFreeUnique(Keys.DerivePrefix(name), existing, prefix, chosen);
      projects := projects[newId := Project(prefix, 1)];
      return Ok(prefix);
    }

    /** Stages a task.  On a refusal the caller rolls the transaction back. */
    method StageTask(pid: Id, spec: TaskSpec, newId: Id) returns (r: Result<(), Error>)
      requires Valid()
      modifies this`tasks, this`projects
      ensures var staged := AddTask(old(State()), pid, spec, newId);
        if staged.Ok? then r == Ok(()) && State() == staged.value && Valid() else r == Err(staged.error)
    {
      if pid !in projects { return Err(ProjectNotFound); }
      if !spec.fieldsOk { return Err(BadField); }
      if newId in tasks { return Err(IdClash); }
      InsertTaskKeepsInv(State(), pid, spec, newId);
      var num := if projects[pid].nextNumber == 0 then 1 else projects[pid].nextNumber;
      var key := Keys.Render(projects[pid].prefix, num);
      projects := projects[pid := projects[pid].(nextNumber := num + 1)];
      tasks := tasks[newId := Task(pid, key, None, spec.status)];
      r := AssignParent(newId, spec.parent);
    }

    method NewTask(pid: Id, spec: TaskSpec, newId: Id) returns (r: Result<(), Error>)
      requires Valid()
      modifies this`tasks, this`projects
      ensures Valid() && (State(), r) == CreateTask(old(State()), pid, spec, newId)
      ensures r.Ok? <==> Creatable(old(State()), pid, spec, newId)
      ensures r.Ok? ==> TaskMade(old(State()), pid, spec, newId, State())
    {
      AddTaskMeaning(State(), pid, spec, newId);
      var savedTasks, savedProjects := tasks, projects;
      r := StageTask(pid, spec, newId);
      if r.Err? {
        tasks, projects := savedTasks, savedProjects;
      }
    }

    method MoveTask(ref: Ref, status: string) returns (r: Result<(), Error>)
      requires Valid()
      modifies this`tasks
      ensures Valid() && (State(), r) == Move(old(State()), ref, status)
    {
      MoveKeepsInv(State(), ref, status);
      var t := ResolveTask(ref);
      if t.None? { return Err(TaskNotFound); }
      tasks := tasks[t.value := tasks[t.value].(status := status)];
      return Ok(());
    }

    method DeleteEdgesForTask(t: Id)
      modifies this`rows
      ensures rows == RowsWithout(old(rows), t)
      ensures forall r :: r in rows <==> r in old(rows) && old(rows)[r].task != t && old(rows)[r].dependsOn != t
      ensures forall r :: r in rows ==> rows[r] == old(rows)[r]
    {
      rows := map r | r in rows && !Touches(rows[r], t) :: rows[r];
    }

    /** Children outlive their parent. */
    method DetachChildren(t: Id)
      modifies this`tasks
      ensures tasks == map c | c in old(tasks) ::
        if old(tasks)[c].parent == Some(t) then old(tasks)[c].(parent := None) else old(tasks)[c]
    {
      tasks := map c | c in tasks :: if tasks[c].parent == Some(t) then tasks[c].(parent := None) else tasks[c];
    }

    method DeleteRow(t: Id)
      modifies this`tasks, this`rows
      ensures tasks == WithoutTask(old(tasks), t) && rows == RowsWithout(old(rows), t)
      ensures TaskGone(old(State()), t, State())
    {
      WithoutTaskGone(State(), t);
      DeleteEdgesForTask(t);
      DetachChildren(t);
      tasks := tasks - {t};
    }

    method Delete(ref: Ref) returns (found: bool)
      requires Valid()
      modifies this`tasks, this`rows
      ensures Valid() && (State(), found) == DeleteTask(old(State()), ref)
      ensures if found then exists t :: NamedBy(old(tasks), old(tasks).Keys, ref, t) && TaskGone(old(State()), t, State())
              else State() == old(State())
    {
      DeleteTaskKeepsInv(State(), ref);
      DeleteTaskMeaning(State(), ref);
      var t := ResolveTask(ref);
      if t.None? { return false; }
      DeleteRow(t.value);
      return true;
    }

    // ---- dependencies ----

    method NewDependency(pid: Id, taskRef: Ref, blockerRef: Ref, newId: Id) returns (r: Result<Id, Error>)
      requires Valid()
      modifies this`rows
      ensures Valid() && (State(), r) == AddDependency(old(State()), pid, taskRef, blockerRef, newId)
    {
      AddDependencyKeepsInv(State(), pid, taskRef, blockerRef, newId);
      if taskRef == blockerRef { return Err(SelfDependency); }
      var t := ResolveTask(taskRef);
      var b := ResolveTask(blockerRef);
      if t.None? || b.None? { return Err(TaskNotFound); }
      if tasks[t.value].project != pid || tasks[b.value].project != pid { return Err(WrongProject); }
      var existing := FindRow(t.value, b.value);
      if existing.Some? { return Ok(existing.value); }
      var edges := EdgesForProject(pid);
      var cycle := Search.ReachesByStack(edges, b.value, t.value);
      if cycle { return Err(WouldCycle); }
      if newId in rows { return Err(IdClash); }
      rows := rows[newId := Row(pid, t.value, b.value, DependsOn)];
      return Ok(newId);
    }

    method DropDependency(pid: Id, rowId: Id) returns (found: bool)
      requires Valid()
      modifies this`rows
      ensures Valid() && (State(), found) == RemoveDependency(old(State()), pid, rowId)
    {
      RemoveKeepsInv(State(), rowId);
      if rowId !in rows || rows[rowId].project != pid { return false; }
      rows := rows - {rowId};
      return true;
    }

    method BlockingOf(id: Id) returns (out: Blocking)
      ensures Annotates(State(), id, out)
    {
      var blockedBy := set r | r in rows && rows[r].linkType.DependsOn? && rows[r].task == id
        && rows[r].dependsOn in tasks :: rows[r].dependsOn;
      var blocks := set r | r in rows && rows[r].linkType.DependsOn? && rows[r].dependsOn == id
        && rows[r].task in tasks :: rows[r].task;
      NeighboursOf(State(), id, blockedBy, blocks);
      BlockedExact(State(), id);
      out := Blocking(blockedBy, blocks, exists b :: b in blockedBy && tasks[b].status != DONE_STATUS);
    }

    /** The blocking fields of every listed task. */
    method AnnotateBlocking(ids: seq<Id>) returns (out: map<Id, Blocking>)
      ensures forall id :: id in out <==> id in ids
      ensures forall id :: id in ids ==> Annotates(State(), id, out[id])
    {
      out := map[];
      for i := 0 to |ids|
        invariant forall id :: id in out <==> id in ids[..i]
        invariant forall id :: id in out ==> Annotates(State(), id, out[id])
      {
        var b := BlockingOf(ids[i]);
        out := out[ids[i] := b];
        assert ids[..i + 1] == ids[..i] + [ids[i]];
      }
      assert ids[..|ids|] == ids;
    }

    // ---- links ----

    method LinkParent(child: Id, parent: Id) returns (r: Result<LinkId, Error>)
      requires Valid() && child in tasks && parent in tasks
      modifies this`tasks
      ensures Valid() && (State(), r) == AddHierarchyLink(old(State()), child, parent)
    {
      HierarchyLinkKeepsInv(State(), child, parent);
      var p := CheckParent(child, parent);
      if p.Err? { return Err(p.error); }
      tasks := tasks[child := tasks[child].(parent := Some(parent))];
      return Ok(ParentLink(child));
    }

    method LinkRow(pid: Id, source: Id, target: Id, stored: LinkType, newId: Id) returns (r: Result<LinkId, Error>)
      requires Valid() && Stored(stored) && source in tasks && target in tasks
      requires tasks[source].project == pid && tasks[target].project == pid
      modifies this`rows
      ensures Valid() && (State(), r) == AddRowLink(old(State()), pid, source, target, stored, newId)
    {
      AddRowLinkKeepsInv(State(), pid, source, target, stored, newId);
      if stored == DependsOn {
        var edges := EdgesForProject(pid);
        var cycle := Search.ReachesByStack(edges, target, source);
        if cycle { return Err(WouldCycle); }
      }
      var kept := map s | s in rows && !Joins(rows[s], source, target) :: rows[s];
      if newId in kept { return Err(IdClash); }
      rows := kept[newId := Row(pid, source, target, stored)];
      return Ok(RowLink(newId));
    }

    method NewLink(taskRef: Ref, otherRef: Ref, linkType: Option<LinkType>, newId: Id)
      returns (r: Result<LinkId, Error>)
      requires Valid()
      modifies this`tasks, this`rows
      ensures Valid() && (State(), r) == AddLink(old(State()), taskRef, otherRef, linkType, newId)
    {
      hide Inv, Resolve, AddHierarchyLink, AddRowLink;
      var t := ResolveTask(taskRef);
      if t.None? { return Err(TaskNotFound); }
      if linkType.None? { return Err(UnknownLinkType); }
      if t.value == otherRef { return Err(SelfLink); }
      var o := ResolveTask(otherRef);
      if o.None? { return Err(TaskNotFound); }
      var pid := tasks[t.value].project;
      if tasks[o.value].project != pid { return Err(WrongProject); }
      if Hierarchy(linkType.value) {
        var child, parent := if linkType.value == ChildOf then t.value else o.value,
                             if linkType.value == ChildOf then o.value else t.value;
        r := LinkParent(child, parent);
      } else {
        var forward := Stored(linkType.value);
        var source, target := if forward then t.value else o.value, if forward then o.value else t.value;
        r := LinkRow(pid, source, target, if forward then linkType.value else Inverse(linkType.value), newId);
      }
    }

    method DropLink(taskRef: Ref, link: LinkId) returns (r: Result<bool, Error>)
      requires Valid()
      modifies this`tasks, this`rows
      ensures Valid() && (State(), r) == RemoveLink(old(State()), taskRef, link)
    {
      RemoveLinkKeepsInv(State(), taskRef, link);
      hide Inv, Resolve;
      var t := ResolveTask(taskRef);
      if t.None? { return Err(TaskNotFound); }
      var pid := tasks[t.value].project;
      match link {
        case ParentLink(child) =>
          if child !in tasks || tasks[child].project != pid { return Ok(false); }
          tasks := tasks[child := tasks[child].(parent := None)];
        case RowLink(row) =>
          if row !in rows || rows[row].project != pid { return Ok(false); }
          rows := rows - {row};
      }
      return Ok(true);
    }

    /** Every link of a task, seen from its side, each once. */
    method Collect(t: Id) returns (out: seq<Listed>)
      requires Valid() && t in tasks
      ensures forall e :: e in out <==> ListsLink(State(), t, e.id, e.linkType, e.other)
      ensures DistinctIds(out)
    {
      out := [];
      assert ParentSound(tasks, t);
      if tasks[t].parent.Some? && tasks[t].parent.value in tasks {
        out := [Listed(ParentLink(t), ChildOf, tasks[t].parent.value)];
      }
      hide Inv;
      var children := CollectChildren(t);
      var linked := CollectRows(t);
      ConcatDistinct(out, children);
      ConcatDistinct(out + children, linked);
      out := out + children + linked;
    }

    method CollectChildren(t: Id) returns (out: seq<Listed>)
      ensures forall e :: e in out <==> IsChild(tasks, t, e)
      ensures DistinctIds(out)
    {
      out := [];
      var todo := set c | c in tasks && tasks[c].parent == Some(t);
      while todo != {}
        invariant forall c :: c in todo ==> c in tasks && tasks[c].parent == Some(t)
        invariant forall e :: e in out <==> IsChild(tasks, t, e) && e.other !in todo
        invariant DistinctIds(out)
        decreases todo
      {
        var c :| c in todo;
        ConcatDistinct(out, [Listed(ParentLink(c), ParentOf, c)]);
        out := out + [Listed(ParentLink(c), ParentOf, c)];
        todo := todo - {c};
      }
    }

    method CollectRows(t: Id) returns (out: seq<Listed>)
      requires t in tasks
      ensures forall e :: e in out <==> e.id.RowLink? && ListsLink(State(), t, e.id, e.linkType, e.other)
      ensures DistinctIds(out)
    {
      out := [];
      var todo := rows.Keys;
      while todo != {}
        invariant todo <= rows.Keys
        invariant forall e :: e in out <==>
          e.id.RowLink? && e.id.row !in todo && ListsLink(State(), t, e.id, e.linkType, e.other)
        invariant DistinctIds(out)
        decreases todo
      {
        var r :| r in todo;
        var row := rows[r];
        todo := todo - {r};
        if row.task == t && row.dependsOn in tasks {
          ConcatDistinct(out, [Listed(RowLink(r), row.linkType, row.dependsOn)]);
          out := out + [Listed(RowLink(r), row.linkType, row.dependsOn)];
        } else if row.dependsOn == t && row.task in tasks {
          ConcatDistinct(out, [Listed(RowLink(r), Inverse(row.linkType), row.task)]);
          out := out + [Listed(RowLink(r), Inverse(row.linkType), row.task)];
        }
      }
    }
  }

  ghost predicate IsChild(tasks: map<Id, Task>, t: Id, e: Listed) {
    e == Listed(ParentLink(e.other), ParentOf, e.other) && e.other in tasks && tasks[e.other].parent == Some(t)
  }

  /** What annotate_blocking writes on task `id`. */
  ghost predicate Annotates(db: Db, id: Id, b: Blocking) {
    && (forall t :: t in b.blockedBy <==> WaitsOn(db, id, t))
    && (forall t :: t in b.blocks <==> t in db.tasks && (t, id) in BlockingEdges(db.rows))
    && (b.isBlocked <==> OpenBlockerBut(db, id, None))
  }

  ghost predicate DistinctIds(out: seq<Listed>) {
    forall i, j :: 0 <= i < j < |out| ==> out[i].id != out[j].id
  }

  lemma ConcatDistinct(a: seq<Listed>, b: seq<Listed>)
    requires DistinctIds(a) && DistinctIds(b)
    requires forall e, f :: e in a && f in b ==> e.id != f.id
    ensures DistinctIds(a + b)
  {
    var out := a + b;
    forall i, j | 0 <= i < j < |out| ensures out[i].id != out[j].id {
      assert i < |a| <= j ==> out[i] in a && out[j] in b;
    }
  }

  lemma {:induction false} AncestorStep(tasks: map<Id, Task>, t: Id, k: nat)
    requires Up(tasks, t, k).Some? && Up(tasks, t, k).value in tasks
    ensures Up(tasks, t, k + 1) == tasks[Up(tasks, t, k).value].parent
    decreases k
  {
    if k > 0 {
      AncestorStep(tasks, tasks[t].parent.value, k - 1);
    }
  }

  /** Past the first repetition the walk only meets ids it has seen. */
  lemma {:induction false} WalkRepeats(tasks: map<Id, Task>, t: Id, seen: seq<Id>, k: nat)
    requires forall i :: 0 <= i < |seen| ==> Up(tasks, t, i + 1) == Some(seen[i]) && seen[i] in tasks
    requires Up(tasks, t, |seen| + 1).Some? ==> Up(tasks, t, |seen| + 1).value in seen
    requires k > |seen| && Up(tasks, t, k).Some?
    ensures Up(tasks, t, k).value in seen
    decreases k
  {
    if k > |seen| + 1 {
      UpPrefix(tasks, t, k - 1);
      WalkRepeats(tasks, t, seen, k - 1);
      var a := Up(tasks, t, k - 1).value;
      AncestorStep(tasks, t, k - 1);
      var i :| 0 <= i < |seen| && seen[i] == a;
      AncestorStep(tasks, t, i + 1);
      assert i + 1 < |seen| ==> Up(tasks, t, i + 2) == Some(seen[i + 1]);
    }
  }

  lemma {:induction false} UpPrefix(tasks: map<Id, Task>, t: Id, k: nat)
    requires Up(tasks, t, k + 1).Some?
    ensures Up(tasks, t, k).Some? && Up(tasks, t, k).value in tasks
    decreases k
  {
    if k > 0 {
      UpPrefix(tasks, tasks[t].parent.value, k - 1);
    }
  }

  lemma NeighboursOf(db: Db, id: Id, blockedBy: set<Id>, blocks: set<Id>)
    requires blockedBy == set r | r in db.rows && db.rows[r].linkType.DependsOn? && db.rows[r].task == id
          && db.rows[r].dependsOn in db.tasks :: db.rows[r].dependsOn
    requires blocks == set r | r in db.rows && db.rows[r].linkType.DependsOn? && db.rows[r].dependsOn == id
          && db.rows[r].task in db.tasks :: db.rows[r].task
    ensures forall b :: b in blockedBy <==> WaitsOn(db, id, b)
    ensures forall b :: b in blocks <==> b in db.tasks && (b, id) in BlockingEdges(db.rows)
  {
    forall b | WaitsOn(db, id, b) ensures b in blockedBy {
      var r := BlockingRow(db.rows, id, b);
    }
    forall b | b in db.tasks && (b, id) in BlockingEdges(db.rows) ensures b in blocks {
      var r := BlockingRow(db.rows, b, id);
    }
  }
}

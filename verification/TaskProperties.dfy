/** What the single operations on the task graph promise, and where they fall short. */
module TaskProperties {
  import opened Wrappers
  import opened Graphs
  import opened TaskState
  import opened TaskInvariants

  ghost predicate InProject(db: Db, pid: Id, t: Id) {
    t in db.tasks && db.tasks[t].project == pid
  }

  // ---- add_dependency ----

  /** A new pair is refused exactly when the edge would close a cycle. */
  lemma AddDependencyExact(db: Db, pid: Id, t: Id, b: Id, newId: Id)
    requires Inv(db) && InProject(db, pid, t) && InProject(db, pid, b)
    requires FindEdge(db.rows, t, b).None? && newId !in db.rows
    ensures var (after, r) := AddDependency(db, pid, t, b, newId);
      && (r.Ok? <==> Acyclic(BlockingEdges(db.rows) + {(t, b)}))
      && (r.Ok? ==> BlockingEdges(after.rows) == BlockingEdges(db.rows) + {(t, b)})
      && (r.Err? ==> after == db)
  {
    AcyclicAddEdge(BlockingEdges(db.rows), t, b);
    ReachesSelf(BlockingEdges(db.rows), t);
    ProjectReach(db.tasks, db.rows, pid, b, t);
    AddedRowEdges(db.rows, newId, Row(pid, t, b, DependsOn));
    hide Inv, Acyclic, Reaches, BlockingEdges, ProjectEdges, FindEdge;
  }

  /** An accepted call leaves the dependency in place unless the pair already had
      a row of another type, which is returned as it is. */
  lemma AcceptedDependencyHolds(db: Db, pid: Id, taskRef: Ref, blockerRef: Ref, newId: Id)
    requires Inv(db) && AddDependency(db, pid, taskRef, blockerRef, newId).1.Ok?
    ensures var (t, b) := (Resolve(db.tasks, taskRef).value, Resolve(db.tasks, blockerRef).value);
      (t, b) in BlockingEdges(AddDependency(db, pid, taskRef, blockerRef, newId).0.rows)
      <==> forall r :: IsPair(db.rows, r, t, b) ==> db.rows[r].linkType.DependsOn?
  {
    var t, b := Resolve(db.tasks, taskRef).value, Resolve(db.tasks, blockerRef).value;
    var after := AddDependency(db, pid, taskRef, blockerRef, newId).0;
    if FindEdge(db.rows, t, b).None? {
      AddedRowEdges(db.rows, newId, Row(pid, t, b, DependsOn));
    } else {
      var r := FindEdge(db.rows, t, b).value;
      assert IsPair(db.rows, r, t, b);
      if db.rows[r].linkType.DependsOn? {
        assert RowEdge(db.rows[r]) in BlockingEdges(db.rows);
      }
      if (t, b) in BlockingEdges(db.rows) {
        var s := BlockingRow(db.rows, t, b);
        assert RowEdge(db.rows[s]) == RowEdge(db.rows[r]);
      }
    }
  }

  /** The shortfall is real: relate any two tasks, then ask for the dependency.
      The request is accepted, the old row is returned and nothing is added. */
  lemma RelatedPairSwallowsDependency(db: Db, pid: Id, t: Id, b: Id, first: Id, second: Id)
    requires Inv(db) && InProject(db, pid, t) && InProject(db, pid, b) && t != b && first !in db.rows
    ensures var related := AddLink(db, t, b, Some(RelatesTo), first).0;
      AddDependency(related, pid, t, b, second) == (related, Ok(first)) && (t, b) !in BlockingEdges(related.rows)
  {
    var related := AddLink(db, t, b, Some(RelatesTo), first).0;
    assert PairsUnique(related.rows) by { AddLinkKeepsInv(db, t, b, Some(RelatesTo), first); }
    assert IsPair(related.rows, first, t, b);
    OnlyRowOfPair(related.rows, first, t, b);
    if (t, b) in BlockingEdges(related.rows) {
      var r := BlockingRow(related.rows, t, b);
      OnlyRowOfPair(related.rows, r, t, b);
    }
  }

  lemma AddDependencyKeepsPairs(db: Db, pid: Id, taskRef: Ref, blockerRef: Ref, newId: Id)
    requires Inv(db)
    ensures PairsUnique(AddDependency(db, pid, taskRef, blockerRef, newId).0.rows)
  {
    AddDependencyKeepsInv(db, pid, taskRef, blockerRef, newId);
  }

  /** What an accepted call returns is the row of the pair. */
  lemma AcceptedPair(db: Db, pid: Id, taskRef: Ref, blockerRef: Ref, newId: Id)
    requires AddDependency(db, pid, taskRef, blockerRef, newId).1.Ok?
    ensures var (after, r) := AddDependency(db, pid, taskRef, blockerRef, newId);
      && after.tasks == db.tasks
      && IsPair(after.rows, r.value, Resolve(db.tasks, taskRef).value, Resolve(db.tasks, blockerRef).value)
  {
    hide Reaches, Resolve;
  }

  /** Adding an edge again returns the same row and writes nothing. */
  lemma AddDependencyIdempotent(db: Db, pid: Id, taskRef: Ref, blockerRef: Ref, newId: Id, later: Id)
    requires Inv(db) && AddDependency(db, pid, taskRef, blockerRef, newId).1.Ok?
    ensures var (after, r) := AddDependency(db, pid, taskRef, blockerRef, newId);
      AddDependency(after, pid, taskRef, blockerRef, later) == (after, r)
  {
    hide Inv, Reaches, Resolve, FindEdge, IsPair, PairsUnique;
    var (after, r) := AddDependency(db, pid, taskRef, blockerRef, newId);
    AcceptedPair(db, pid, taskRef, blockerRef, newId);
    AddDependencyKeepsPairs(db, pid, taskRef, blockerRef, newId);
    OnlyRowOfPair(after.rows, r.value, Resolve(db.tasks, taskRef).value, Resolve(db.tasks, blockerRef).value);
  }

  lemma OnlyRowOfPair(rows: map<Id, Row>, r: Id, a: Id, b: Id)
    requires PairsUnique(rows) && IsPair(rows, r, a, b)
    ensures FindEdge(rows, a, b) == Some(r)
  {
    var s := FindEdge(rows, a, b).value;
    assert RowEdge(rows[s]) == RowEdge(rows[r]);
  }

  /** Removing the row an add created restores the state. */
  lemma RemoveUndoesAdd(db: Db, pid: Id, taskRef: Ref, blockerRef: Ref, newId: Id)
    requires AddDependency(db, pid, taskRef, blockerRef, newId).0 != db
    ensures RemoveDependency(AddDependency(db, pid, taskRef, blockerRef, newId).0, pid, newId) == (db, true)
  {
    hide Reaches, FindEdge, Resolve;
    var after := AddDependency(db, pid, taskRef, blockerRef, newId).0;
    assert after.rows - {newId} == db.rows;
  }

  // ---- links: one fact seen from two sides ----

  lemma InverseTwice(t: LinkType)
    ensures Inverse(Inverse(t)) == t
  {
  }

  lemma {:induction false} ListedFromOtherSide(db: Db, a: Id, t: LinkType, b: Id)
    requires Inv(db) && a in db.tasks && b in db.tasks && a != b && Lists(db, a, t, b)
    ensures Lists(db, b, Inverse(t), a)
  {
    InverseTwice(t);
    var l :| ListsLink(db, a, l, t, b);
    match l
    case ParentLink(c) =>
      assert ListsLink(db, b, l, Inverse(t), a);
    case RowLink(r) =>
      assert RowSound(db.tasks, db.rows[r]);
      InverseTwice(db.rows[r].linkType);
      assert ListsLink(db, b, l, Inverse(t), a);
  }

  lemma LinksSeenFromBothSides(db: Db, a: Id, t: LinkType, b: Id)
    requires Inv(db) && a in db.tasks && b in db.tasks && a != b
    ensures Lists(db, a, t, b) <==> Lists(db, b, Inverse(t), a)
  {
    InverseTwice(t);
    if Lists(db, a, t, b) { ListedFromOtherSide(db, a, t, b); }
    if Lists(db, b, Inverse(t), a) { ListedFromOtherSide(db, b, Inverse(t), a); }
  }

  /** On a task linked to itself the two sides agree exactly when it is not
      stored as a duplicate of itself. */
  lemma SelfLinkSides(db: Db, a: Id)
    requires Inv(db) && a in db.tasks
    ensures (forall t :: Lists(db, a, t, a) <==> Lists(db, a, Inverse(t), a))
      <==> !exists r :: IsPair(db.rows, r, a, a) && db.rows[r].linkType.Duplicates?
  {
    if r :| IsPair(db.rows, r, a, a) && db.rows[r].linkType.Duplicates? {
      assert ListsLink(db, a, RowLink(r), Duplicates, a);
      forall l ensures !ListsLink(db, a, l, DuplicatedBy, a) {
        if l.RowLink? && l.row in db.rows && IsPair(db.rows, l.row, a, a) {
          assert RowEdge(db.rows[l.row]) == RowEdge(db.rows[r]);
        }
      }
      assert !Lists(db, a, Inverse(Duplicates), a);
    } else {
      forall t | Lists(db, a, t, a) ensures Lists(db, a, Inverse(t), a) {
        SelfListedBothWays(db, a, t);
      }
      forall t | Lists(db, a, Inverse(t), a) ensures Lists(db, a, t, a) {
        InverseTwice(t);
        SelfListedBothWays(db, a, Inverse(t));
      }
    }
  }

  lemma NoSelfDependency(db: Db, a: Id, r: Id)
    requires LinksSound(db.tasks, db.rows) && IsPair(db.rows, r, a, a)
    ensures !db.rows[r].linkType.DependsOn?
  {
    var E := BlockingEdges(db.rows);
    if db.rows[r].linkType.DependsOn? {
      assert RowEdge(db.rows[r]) in E;
      ReachesSelf(E, a);
      assert OnCycle(E, a);
    }
  }

  /** A row between a task and itself that is no duplicate relates them. */
  lemma SelfRowRelates(db: Db, a: Id, r: Id, t: LinkType)
    requires LinksSound(db.tasks, db.rows) && a in db.tasks && ListsLink(db, a, RowLink(r), t, a)
    requires !db.rows[r].linkType.Duplicates?
    ensures t == RelatesTo
  {
    assert RowSound(db.tasks, db.rows[r]);
    NoSelfDependency(db, a, r);
  }

  lemma SelfListedBothWays(db: Db, a: Id, t: LinkType)
    requires Inv(db) && a in db.tasks && Lists(db, a, t, a)
    requires !exists r :: IsPair(db.rows, r, a, a) && db.rows[r].linkType.Duplicates?
    ensures Lists(db, a, Inverse(t), a)
  {
    var l :| ListsLink(db, a, l, t, a);
    if l.RowLink? {
      assert IsPair(db.rows, l.row, a, a);
      SelfRowRelates(db, a, l.row, t);
    } else {
      hide Inv;
      assert ListsLink(db, a, l, Inverse(t), a);
    }
  }

  /** The self-link check compares the task's id with the reference as written.  Of
      all references to the task itself exactly those other than its id get past it,
      and then the types without a check of their own are accepted. */
  lemma SelfLinkExact(db: Db, taskRef: Ref, otherRef: Ref, linkType: LinkType, newId: Id)
    requires Inv(db) && newId !in db.rows
    requires Resolve(db.tasks, taskRef).Some? && Resolve(db.tasks, otherRef) == Resolve(db.tasks, taskRef)
    ensures AddLink(db, taskRef, otherRef, Some(linkType), newId).1.Ok? <==>
      otherRef != Resolve(db.tasks, taskRef).value && linkType in {RelatesTo, Duplicates, DuplicatedBy}
  {
    hide Inv;
    var t := Resolve(db.tasks, taskRef).value;
    ResolveSound(db, taskRef);
    assert Resolve(db.tasks, t) == Some(t);
    hide Resolve;
    ReachesSelf(ProjectEdges(db.rows, db.tasks[t].project), t);
    hide Reaches;
  }

  /** Such references exist: every task's key is one. */
  lemma SelfLinkByKey(db: Db, t: Id, newId: Id)
    requires Inv(db) && t in db.tasks && db.tasks[t].key !in db.tasks && newId !in db.rows
    ensures AddLink(db, t, db.tasks[t].key, Some(RelatesTo), newId).1.Ok?
  {
    ResolveByKey(db, t);
    hide Inv;
    SelfLinkExact(db, t, db.tasks[t].key, RelatesTo, newId);
  }

  // ---- add_link ----

  /** `after` differs from `rows` in one row, the only one between a and b. */
  ghost predicate PairReplaced(rows: map<Id, Row>, after: map<Id, Row>, a: Id, b: Id, newId: Id) {
    && newId in after
    && (forall s :: s in after && Joins(after[s], a, b) <==> s == newId)
    && (forall s :: s in rows && !Joins(rows[s], a, b) ==> s in after && after[s] == rows[s])
    && (forall s :: s in after && s != newId ==> s in rows && after[s] == rows[s])
  }

  lemma AddRowLinkReplaces(db: Db, pid: Id, source: Id, target: Id, stored: LinkType, newId: Id)
    requires AddRowLink(db, pid, source, target, stored, newId).1.Ok?
    ensures var (after, r) := AddRowLink(db, pid, source, target, stored, newId);
      && r == Ok(RowLink(newId)) && after.tasks == db.tasks && after.projects == db.projects
      && PairReplaced(db.rows, after.rows, source, target, newId)
      && PairReplaced(db.rows, after.rows, target, source, newId)
      && after.rows[newId] == Row(pid, source, target, stored)
  {
  }

  /** How the stored row of a link reads: from the task for the stored types, from the other side otherwise. */
  ghost function RowFor(pid: Id, t: Id, o: Id, linkType: LinkType): Row {
    if Stored(linkType) then Row(pid, t, o, linkType) else Row(pid, o, t, Inverse(linkType))
  }

  /** An accepted link of a row type leaves exactly one row between the two
      tasks, keeps every other row, and is listed from the caller's side. */
  lemma AddLinkReplacesPair(db: Db, taskRef: Ref, otherRef: Ref, linkType: LinkType, newId: Id)
    requires !Hierarchy(linkType)
    requires AddLink(db, taskRef, otherRef, Some(linkType), newId).1.Ok?
    ensures var (after, r) := AddLink(db, taskRef, otherRef, Some(linkType), newId);
      var (t, o) := (Resolve(db.tasks, taskRef).value, Resolve(db.tasks, otherRef).value);
      && r == Ok(RowLink(newId)) && after.tasks == db.tasks && after.projects == db.projects
      && PairReplaced(db.rows, after.rows, t, o, newId)
      && after.rows[newId] == RowFor(db.tasks[t].project, t, o, linkType)
      && (t != o ==> ListsLink(after, t, RowLink(newId), linkType, o))
  {
    var t, o := Resolve(db.tasks, taskRef).value, Resolve(db.tasks, otherRef).value;
    var pid := db.tasks[t].project;
    InverseTwice(linkType);
    if Stored(linkType) {
      AddRowLinkReplaces(db, pid, t, o, linkType, newId);
    } else {
      AddRowLinkReplaces(db, pid, o, t, Inverse(linkType), newId);
    }
  }

  /** When the cycle check of a stored dependency refuses, and when without need:
      E0 is the graph without the pair's old rows. */
  lemma RowLinkRefused(db: Db, pid: Id, source: Id, target: Id, newId: Id)
    requires LinksSound(db.tasks, db.rows) && InProject(db, pid, source) && InProject(db, pid, target)
    ensures var E := BlockingEdges(db.rows);
      var wanted := BlockingEdges(RowsApart(db.rows, source, target)) + {(source, target)};
      && (AddRowLink(db, pid, source, target, DependsOn, newId).1 == Err(WouldCycle) <==> Reaches(E, target, source))
      && (Reaches(E, target, source) && Acyclic(wanted) <==> OnlyWayIsTheEdge(E, target, source))
  {
    var E := BlockingEdges(db.rows);
    ProjectReach(db.tasks, db.rows, pid, target, source);
    RowsApartEdges(db.rows, source, target);
    RefusedWithoutNeed(E, source, target);
  }

  /** The edge a -> b is there, and it is the only way from a to b. */
  ghost predicate OnlyWayIsTheEdge(E: Edges, a: Id, b: Id) {
    a != b && (a, b) in E && !Reaches(E - {(a, b)}, a, b)
  }

  lemma RefusedWithoutNeed(E: Edges, source: Id, target: Id)
    requires Acyclic(E)
    ensures var wanted := E - {(source, target), (target, source)} + {(source, target)};
      Reaches(E, target, source) && Acyclic(wanted) <==> OnlyWayIsTheEdge(E, target, source)
  {
    var E0 := E - {(source, target), (target, source)};
    AcyclicSubset(E0, E);
    AcyclicAddEdge(E0, source, target);
    if source == target {
      ReachesSelf(E0, source);
    } else if (target, source) in E {
      ReachesEdge(E, target, source);
      assert (source, target) !in E by { assert !OnCycle(E, source); }
      assert E0 == E - {(target, source)};
    } else if Reaches(E, target, source) {
      var n: nat :| Hops(E, target, source, n);
      HopsWithoutExits(E, E0, target, source, n);
    }
  }

  /** Both ends of a link request exist in one project and pass the self-link check. */
  ghost predicate Linkable(db: Db, taskRef: Ref, otherRef: Ref) {
    var t, o := Resolve(db.tasks, taskRef), Resolve(db.tasks, otherRef);
    && t.Some? && o.Some? && t.value in db.tasks && o.value in db.tasks
    && db.tasks[o.value].project == db.tasks[t.value].project && otherRef != t.value
  }

  /** What a blocking link request asks for, as an edge. */
  ghost function WantedEdge(db: Db, taskRef: Ref, otherRef: Ref, linkType: LinkType): (Id, Id)
    requires Linkable(db, taskRef, otherRef)
  {
    var t, o := Resolve(db.tasks, taskRef).value, Resolve(db.tasks, otherRef).value;
    if linkType.DependsOn? then (t, o) else (o, t)
  }

  lemma LinkIsRowLink(db: Db, taskRef: Ref, otherRef: Ref, linkType: LinkType, newId: Id)
    requires linkType in {DependsOn, Blocks} && Linkable(db, taskRef, otherRef)
    ensures var (source, target) := WantedEdge(db, taskRef, otherRef, linkType);
      AddLink(db, taskRef, otherRef, Some(linkType), newId)
      == AddRowLink(db, db.tasks[source].project, source, target, DependsOn, newId)
  {
    hide Resolve, AddRowLink;
  }

  /** A blocking link is refused exactly when its edge would close a cycle in the
      graph as it stands, the pair's old rows included.  The refusal is needless,
      for the graph with the link instead of those rows has no cycle, exactly when
      the link reverses an edge that is the only way between its ends. */
  lemma NeedlessRefusal(db: Db, taskRef: Ref, otherRef: Ref, linkType: LinkType, newId: Id)
    requires Inv(db) && linkType in {DependsOn, Blocks} && Linkable(db, taskRef, otherRef)
    ensures var (source, target) := WantedEdge(db, taskRef, otherRef, linkType);
      var (E, refused) := (BlockingEdges(db.rows), AddLink(db, taskRef, otherRef, Some(linkType), newId).1);
      && (refused == Err(WouldCycle) <==> Reaches(E, target, source))
      && (refused == Err(WouldCycle) && Acyclic(BlockingEdges(RowsApart(db.rows, source, target)) + {(source, target)})
          <==> OnlyWayIsTheEdge(E, target, source))
  {
    assert LinksSound(db.tasks, db.rows);
    hide Inv, LinksSound, Reaches, Acyclic, OnlyWayIsTheEdge, AddLink, AddRowLink;
    LinkIsRowLink(db, taskRef, otherRef, linkType, newId);
    var (source, target) := WantedEdge(db, taskRef, otherRef, linkType);
    RowLinkRefused(db, db.tasks[source].project, source, target, newId);
  }

  /** Such requests exist: where nothing is linked yet, let b depend on a and then
      ask for the reverse. */
  lemma ReversalRefused(db: Db, a: Id, b: Id, first: Id, second: Id)
    requires Inv(db) && db.rows == map[] && a != b
    requires a in db.tasks && InProject(db, db.tasks[a].project, b)
    ensures var (linked, r) := AddLink(db, b, a, Some(DependsOn), first);
      && r.Ok? && BlockingEdges(linked.rows) == {(b, a)}
      && AddLink(linked, a, b, Some(DependsOn), second).1 == Err(WouldCycle)
  {
    var pid := db.tasks[a].project;
    var linked := AddLink(db, b, a, Some(DependsOn), first).0;
    AddLinkKeepsInv(db, b, a, Some(DependsOn), first);
    assert LinksSound(linked.tasks, linked.rows);
    FirstEdge(db, pid, b, a, first);
    LinkIsRowLink(db, b, a, DependsOn, first);
    hide Inv;
    ReachesEdge({(b, a)}, b, a);
    LinkIsRowLink(linked, a, b, DependsOn, second);
    RowLinkRefused(linked, pid, a, b, second);
  }

  lemma FirstEdge(db: Db, pid: Id, source: Id, target: Id, newId: Id)
    requires db.rows == map[] && source != target
    ensures AddRowLink(db, pid, source, target, DependsOn, newId).0
      == db.(rows := map[newId := Row(pid, source, target, DependsOn)])
    ensures AddRowLink(db, pid, source, target, DependsOn, newId).1.Ok?
    ensures BlockingEdges(map[newId := Row(pid, source, target, DependsOn)]) == {(source, target)}
  {
    assert ProjectEdges(db.rows, pid) == {};
    var rows := map[newId := Row(pid, source, target, DependsOn)];
    assert newId in rows && RowEdge(rows[newId]) in BlockingEdges(rows);
  }

  lemma RowsApartEdges(rows: map<Id, Row>, a: Id, b: Id)
    ensures BlockingEdges(RowsApart(rows, a, b)) == BlockingEdges(rows) - {(a, b), (b, a)}
  {
    var kept := RowsApart(rows, a, b);
    forall e | e in BlockingEdges(rows) && e != (a, b) && e != (b, a) ensures e in BlockingEdges(kept) {
      var r := BlockingRow(rows, e.0, e.1);
      assert kept[r] == rows[r];
    }
    forall e | e in BlockingEdges(kept) ensures e in BlockingEdges(rows) && e != (a, b) && e != (b, a) {
      var r := BlockingRow(kept, e.0, e.1);
    }
  }

  // ---- the parent tree ----

  lemma {:induction false} HopsAreAncestors(tasks: map<Id, Task>, p: Id, t: Id, k: nat)
    ensures Hops(ParentEdges(tasks), p, t, k) <==> Up(tasks, p, k) == Some(t)
    decreases k
  {
    if k > 0 {
      if p in tasks && tasks[p].parent.Some? {
        var q := tasks[p].parent.value;
        assert (p, q) in ParentEdges(tasks);
        assert forall c :: (p, c) in ParentEdges(tasks) ==> c == q;
        HopsAreAncestors(tasks, q, t, k - 1);
      } else {
        assert forall c :: (p, c) !in ParentEdges(tasks);
      }
    }
  }

  ghost predicate Forest(tasks: map<Id, Task>) { Acyclic(ParentEdges(tasks)) }

  ghost predicate AncestorBeyond(tasks: map<Id, Task>, t: Id, a: Id, limit: nat) {
    exists k: nat :: k > limit && Up(tasks, t, k) == Some(a)
  }

  lemma RedirectedParent(tasks: map<Id, Task>, t: Id, p: Id)
    requires t in tasks
    ensures forall e ::
      e in ParentEdges(tasks[t := tasks[t].(parent := Some(p))])
      <==> (e in ParentEdges(tasks) && e.0 != t) || e == (t, p)
  {
    var after := tasks[t := tasks[t].(parent := Some(p))];
    assert after[t].parent == Some(p);
    forall e | e in ParentEdges(tasks) && e.0 != t ensures e in ParentEdges(after) {
      assert after[e.0] == tasks[e.0];
    }
    forall e | e in ParentEdges(after) && e != (t, p) ensures e in ParentEdges(tasks) && e.0 != t {
      assert after[e.0].parent == Some(e.1);
    }
  }

  /** An accepted parent keeps the tree a forest exactly when the task is not an
      ancestor of it above the bound of the walk. */
  lemma AcceptedParentExact(db: Db, t: Id, parent: Ref)
    requires Forest(db.tasks) && t in db.tasks && ValidateParent(db, t, parent).Ok?
    ensures var p := ValidateParent(db, t, parent).value;
      Forest(WithParent(db, t, Some(p)).tasks) <==> !AncestorBeyond(db.tasks, p, t, MAX_DEPTH)
  {
    var p := ValidateParent(db, t, parent).value;
    var E, F := ParentEdges(db.tasks), ParentEdges(WithParent(db, t, Some(p)).tasks);
    RedirectedParent(db.tasks, t, p);
    AcyclicRedirect(E, F, t, p);
    if AncestorBeyond(db.tasks, p, t, MAX_DEPTH) {
      var k: nat :| k > MAX_DEPTH && Up(db.tasks, p, k) == Some(t);
      HopsAreAncestors(db.tasks, p, t, k);
    }
    if Reaches(E, p, t) {
      var k: nat :| Hops(E, p, t, k);
      HopsAreAncestors(db.tasks, p, t, k);
      assert !AncestorWithin(db.tasks, p, t, MAX_DEPTH);
      assert k > MAX_DEPTH;
    }
  }

  lemma {:induction false} ChainEnds(tasks: map<Id, Task>, p: Id, m: nat, n: nat)
    requires Up(tasks, p, m).None? && m <= n
    ensures Up(tasks, p, n).None?
    decreases m
  {
    if p in tasks && tasks[p].parent.Some? {
      ChainEnds(tasks, tasks[p].parent.value, m - 1, n - 1);
    }
  }

  /** A parent with at most MAX_DEPTH ancestors is always safe. */
  ghost predicate Shallow(tasks: map<Id, Task>, p: Id) { Up(tasks, p, MAX_DEPTH + 1).None? }

  lemma ShallowParentSafe(db: Db, t: Id, parent: Ref)
    requires Forest(db.tasks) && t in db.tasks && ValidateParent(db, t, parent).Ok?
    requires Shallow(db.tasks, ValidateParent(db, t, parent).value)
    ensures Forest(WithParent(db, t, Some(ValidateParent(db, t, parent).value)).tasks)
  {
    var p := ValidateParent(db, t, parent).value;
    AcceptedParentExact(db, t, parent);
    if AncestorBeyond(db.tasks, p, t, MAX_DEPTH) {
      var k: nat :| k > MAX_DEPTH && Up(db.tasks, p, k) == Some(t);
      ChainEnds(db.tasks, p, MAX_DEPTH + 1, k);
    }
  }

  /** Dropping parent pointers keeps a forest. */
  lemma FewerParentsForest(tasks: map<Id, Task>, after: map<Id, Task>)
    requires Forest(tasks)
    requires forall t :: t in after && after[t].parent.Some? ==> t in tasks && tasks[t].parent == after[t].parent
    ensures Forest(after)
  {
    AcyclicSubset(ParentEdges(after), ParentEdges(tasks));
  }

  // ---- the bound is needed ----

  lemma {:induction false} UpSplits(tasks: map<Id, Task>, p: Id, m: nat, t: Id, n: nat)
    requires Up(tasks, p, m) == Some(t)
    ensures Up(tasks, p, m + n) == Up(tasks, t, n)
    decreases m
  {
    if m > 0 {
      UpSplits(tasks, tasks[p].parent.value, m - 1, t, n);
    }
  }

  /** In a forest a task is met at one height only. */
  lemma AncestorOnce(tasks: map<Id, Task>, p: Id, t: Id, m: nat, n: nat)
    requires Forest(tasks) && m <= n && Up(tasks, p, m) == Some(t) && Up(tasks, p, n) == Some(t)
    ensures m == n
  {
    if m < n {
      UpSplits(tasks, p, m, t, n - m);
      var q := tasks[t].parent.value;
      assert (t, q) in ParentEdges(tasks) && !OnCycle(ParentEdges(tasks), t);
      HopsAreAncestors(tasks, q, t, n - m - 1);
    }
  }

  /** The parent field names task p, by its id or by its key. */
  ghost predicate Names(db: Db, parent: Option<Ref>, p: Id) {
    ParentRef(parent).Some? && Resolve(db.tasks, ParentRef(parent).value) == Some(p)
  }

  /** Below a chain longer than the bound, making the bottom task the parent of
      the top one is accepted and closes a cycle. */
  lemma LongChainAcceptsCycle(db: Db, top: Id, bottom: Id, parent: Option<Ref>, k: nat)
    requires Forest(db.tasks)
    requires top in db.tasks && InProject(db, db.tasks[top].project, bottom) && Names(db, parent, bottom)
    requires k > MAX_DEPTH && Up(db.tasks, bottom, k) == Some(top)
    ensures SetParent(db, top, parent).1.Ok?
    ensures !Forest(SetParent(db, top, parent).0.tasks)
  {
    if bottom == top {
      AncestorOnce(db.tasks, bottom, top, 0, k);
    }
    forall j: nat | 1 <= j <= MAX_DEPTH ensures Up(db.tasks, bottom, j) != Some(top) {
      if Up(db.tasks, bottom, j) == Some(top) {
        AncestorOnce(db.tasks, bottom, top, j, k);
      }
    }
    var ref := ParentRef(parent).value;
    assert ValidateParent(db, top, ref) == Ok(bottom);
    assert AncestorBeyond(db.tasks, bottom, top, MAX_DEPTH);
    AcceptedParentExact(db, top, ref);
  }

  /** Such chains arise from ordinary requests: a task created under a parent
      sits one step below it. */
  lemma NewChildOneBelow(db: Db, pid: Id, spec: TaskSpec, newId: Id, p: Id, k: nat)
    requires ParentsSound(db.tasks) && Forest(db.tasks) && pid in db.projects && newId !in db.tasks && spec.fieldsOk
    requires InProject(db, pid, p) && ParentRef(spec.parent) == Some(p)
    ensures AddTask(db, pid, spec, newId).Ok?
    ensures Forest(AddTask(db, pid, spec, newId).value.tasks)
    ensures Up(AddTask(db, pid, spec, newId).value.tasks, newId, k + 1) == Up(db.tasks, p, k)
  {
    var mid := InsertTask(db, pid, spec, newId);
    FewerParentsForest(db.tasks, mid.tasks);
    forall j: nat ensures Up(mid.tasks, p, j) != Some(newId) {
      UpStaysInside(db, mid.tasks, newId, p, j);
    }
    assert ValidateParent(mid, newId, p) == Ok(p);
    AcceptedParentExact(mid, newId, p);
    var after := WithParent(mid, newId, Some(p)).tasks;
    UpStaysInside(db, after, newId, p, k);
  }

  /** Ancestors of an old task are not affected by a new one. */
  lemma {:induction false} UpStaysInside(db: Db, tasks: map<Id, Task>, newId: Id, p: Id, k: nat)
    requires ParentsSound(db.tasks) && p in db.tasks && newId !in db.tasks
    requires forall t :: t in db.tasks ==> t in tasks && tasks[t] == db.tasks[t]
    ensures Up(tasks, p, k) == Up(db.tasks, p, k) != Some(newId)
    decreases k
  {
    assert ParentSound(db.tasks, p);
    if k > 0 && db.tasks[p].parent.Some? {
      UpStaysInside(db, tasks, newId, db.tasks[p].parent.value, k - 1);
    }
  }
}

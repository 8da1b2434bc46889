/** The batch path trusts one peel over the payload; the single-edge path searches
    before every edge.  They accept the same plans and build the same graph. */
module TaskPlans {
  import opened Wrappers
  import opened Graphs
  import opened TaskState
  import opened TaskInvariants
  import opened TaskProperties
  import opened TaskBatch
  import TaskStore
  import Text

  type Edge = (Id, Id)

  ghost function EdgeSet(edges: seq<Edge>): Edges {
    set e | e in edges
  }

  ghost predicate NoRepeats(edges: seq<Edge>) {
    forall i, j :: 0 <= i < j < |edges| ==> edges[i] != edges[j]
  }

  ghost predicate AllInProject(db: Db, pid: Id, edges: seq<Edge>) {
    forall e :: e in edges ==> InProject(db, pid, e.0) && InProject(db, pid, e.1)
  }

  /** Row ids as drawn by the id generator: new, and never the same twice. */
  ghost predicate FreshIds(db: Db, rowIds: nat -> Id) {
    && (forall j :: rowIds(j) !in db.rows)
    && forall i, j :: rowIds(i) == rowIds(j) ==> i == j
  }

  lemma EdgeSetSplit(edges: seq<Edge>)
    requires edges != []
    ensures EdgeSet(edges) == EdgeSet(edges[..|edges| - 1]) + {edges[|edges| - 1]}
  {
    assert edges == edges[..|edges| - 1] + [edges[|edges| - 1]];
  }

  // ---- one edge after another ----

  /** add_dependency for each edge in turn, stopping at the first refusal. */
  ghost function EdgeByEdge(db: Db, pid: Id, edges: seq<Edge>, rowIds: nat -> Id): (Db, bool) {
    if edges == [] then (db, true)
    else
      var k := |edges| - 1;
      var (before, ok) := EdgeByEdge(db, pid, edges[..k], rowIds);
      if !ok then (before, false)
      else
        var (after, r) := AddDependency(before, pid, edges[k].0, edges[k].1, rowIds(k));
        (after, r.Ok?)
  }

  /** No pair of the list is taken by a row of another type. */
  ghost predicate PairsFree(rows: map<Id, Row>, edges: seq<Edge>) {
    forall r, e :: e in edges && IsPair(rows, r, e.0, e.1) ==> rows[r].linkType.DependsOn?
  }

  /** Every row is an old one or one of the first n drawn for new edges. */
  ghost predicate RowsFrom(before: map<Id, Row>, rows: map<Id, Row>, rowIds: nat -> Id, n: nat) {
    forall r :: r in rows ==>
      if r in before then rows[r] == before[r]
      else rows[r].linkType.DependsOn? && exists j: nat :: j < n && r == rowIds(j)
  }

  lemma RowsFromStep(before: map<Id, Row>, rows: map<Id, Row>, rowIds: nat -> Id, n: nat, row: Row)
    requires RowsFrom(before, rows, rowIds, n) && row.linkType.DependsOn? && rowIds(n) !in before
    ensures RowsFrom(before, rows[rowIds(n) := row], rowIds, n + 1)
  {
  }

  lemma RowsFromNext(before: map<Id, Row>, rows: map<Id, Row>, rowIds: nat -> Id, n: nat)
    requires RowsFrom(before, rows, rowIds, n)
    ensures RowsFrom(before, rows, rowIds, n + 1)
  {
  }

  /** What holds after a prefix of the edges has been accepted. */
  ghost predicate Progress(db: Db, edges: seq<Edge>, after: Db, rowIds: nat -> Id) {
    && after.tasks == db.tasks && after.projects == db.projects
    && BlockingEdges(after.rows) == BlockingEdges(db.rows) + EdgeSet(edges)
    && RowsFrom(db.rows, after.rows, rowIds, |edges|)
  }

  lemma ExistingEdgeProgress(db: Db, pid: Id, edges: seq<Edge>, before: Db, e: Edge, rowIds: nat -> Id, newId: Id)
    requires Inv(before) && Progress(db, edges, before, rowIds) && PairsFree(db.rows, [e])
    requires InProject(db, pid, e.0) && InProject(db, pid, e.1) && FindEdge(before.rows, e.0, e.1).Some?
    ensures AddDependency(before, pid, e.0, e.1, newId).0 == before && AddDependency(before, pid, e.0, e.1, newId).1.Ok?
    ensures Acyclic(BlockingEdges(before.rows) + {e}) && Progress(db, edges + [e], before, rowIds)
  {
    assert Acyclic(BlockingEdges(before.rows));
    hide Inv, AddDependency, Acyclic;
    ExistingPairIsEdge(db, edges, before, e, rowIds);
    AddExistingEdge(before, pid, e, newId);
    RowsFromNext(db.rows, before.rows, rowIds, |edges|);
    assert EdgeSet(edges + [e]) == EdgeSet(edges) + {e};
    assert BlockingEdges(before.rows) == BlockingEdges(db.rows) + EdgeSet(edges + [e]);
  }

  lemma NewEdgeProgress(db: Db, pid: Id, edges: seq<Edge>, before: Db, e: Edge, rowIds: nat -> Id)
    requires Inv(before) && Progress(db, edges, before, rowIds)
    requires rowIds(|edges|) !in before.rows && rowIds(|edges|) !in db.rows
    requires InProject(db, pid, e.0) && InProject(db, pid, e.1) && FindEdge(before.rows, e.0, e.1).None?
    ensures var (after, r) := AddDependency(before, pid, e.0, e.1, rowIds(|edges|));
      && (r.Ok? <==> Acyclic(BlockingEdges(before.rows) + {e}))
      && (r.Ok? ==> Progress(db, edges + [e], after, rowIds))
  {
    hide Inv, Acyclic, Reaches;
    AddDependencyExact(before, pid, e.0, e.1, rowIds(|edges|));
    assert e == (e.0, e.1);
    var (after, r) := AddDependency(before, pid, e.0, e.1, rowIds(|edges|));
    if r.Ok? {
      NewRowProgress(db, edges, before, e, rowIds, after, Row(pid, e.0, e.1, DependsOn));
    }
  }

  lemma ProgressStep(db: Db, pid: Id, edges: seq<Edge>, before: Db, e: Edge, rowIds: nat -> Id)
    requires Inv(before) && Progress(db, edges, before, rowIds) && FreshIds(db, rowIds)
    requires InProject(db, pid, e.0) && InProject(db, pid, e.1) && PairsFree(db.rows, [e])
    ensures var (after, r) := AddDependency(before, pid, e.0, e.1, rowIds(|edges|));
      && (r.Ok? <==> Acyclic(BlockingEdges(before.rows) + {e}))
      && (r.Ok? ==> Progress(db, edges + [e], after, rowIds))
  {
    if FindEdge(before.rows, e.0, e.1).Some? {
      ExistingEdgeProgress(db, pid, edges, before, e, rowIds, rowIds(|edges|));
    } else {
      NewEdgeProgress(db, pid, edges, before, e, rowIds);
    }
  }

  lemma NewRowProgress(db: Db, edges: seq<Edge>, before: Db, e: Edge, rowIds: nat -> Id, after: Db, row: Row)
    requires Progress(db, edges, before, rowIds) && rowIds(|edges|) !in db.rows && row.linkType.DependsOn?
    requires after == before.(rows := before.rows[rowIds(|edges|) := row])
    requires BlockingEdges(after.rows) == BlockingEdges(before.rows) + {e}
    ensures Progress(db, edges + [e], after, rowIds)
  {
    RowsFromStep(db.rows, before.rows, rowIds, |edges|, row);
    assert EdgeSet(edges + [e]) == EdgeSet(edges) + {e};
    assert BlockingEdges(after.rows) == BlockingEdges(db.rows) + EdgeSet(edges + [e]);
  }

  lemma ExistingPairIsEdge(db: Db, edges: seq<Edge>, before: Db, e: Edge, rowIds: nat -> Id)
    requires Progress(db, edges, before, rowIds) && PairsFree(db.rows, [e])
    requires FindEdge(before.rows, e.0, e.1).Some?
    ensures e in BlockingEdges(before.rows)
  {
    var r := FindEdge(before.rows, e.0, e.1).value;
    assert IsPair(before.rows, r, e.0, e.1);
    if r in db.rows && before.rows[r] == db.rows[r] {
      assert IsPair(db.rows, r, e.0, e.1) && e in [e];
    }
    assert RowEdge(before.rows[r]) == e;
  }

  lemma NoSelfEdge(rows: map<Id, Row>, e: Edge)
    requires Acyclic(BlockingEdges(rows)) && e in BlockingEdges(rows)
    ensures e.0 != e.1
  {
    assert !OnCycle(BlockingEdges(rows), e.0);
    ReachesSelf(BlockingEdges(rows), e.0);
    assert e == (e.0, e.1);
  }

  lemma AddExistingEdge(db: Db, pid: Id, e: Edge, newId: Id)
    requires Inv(db) && InProject(db, pid, e.0) && InProject(db, pid, e.1)
    requires e in BlockingEdges(db.rows) && FindEdge(db.rows, e.0, e.1).Some?
    ensures AddDependency(db, pid, e.0, e.1, newId).0 == db && AddDependency(db, pid, e.0, e.1, newId).1.Ok?
    ensures BlockingEdges(db.rows) + {e} == BlockingEdges(db.rows)
  {
    NoSelfEdge(db.rows, e);
  }

  lemma {:induction false} EdgeByEdgeKeepsInv(db: Db, pid: Id, edges: seq<Edge>, rowIds: nat -> Id)
    requires Inv(db)
    ensures Inv(EdgeByEdge(db, pid, edges, rowIds).0)
    decreases |edges|
  {
    if edges != [] {
      var k := |edges| - 1;
      EdgeByEdgeKeepsInv(db, pid, edges[..k], rowIds);
      AddDependencyKeepsInv(EdgeByEdge(db, pid, edges[..k], rowIds).0, pid, edges[k].0, edges[k].1, rowIds(k));
    }
  }

  lemma NoEdgesYet(db: Db, rowIds: nat -> Id)
    requires Inv(db)
    ensures Acyclic(BlockingEdges(db.rows) + EdgeSet([])) && Progress(db, [], db, rowIds)
  {
    assert BlockingEdges(db.rows) + EdgeSet([]) == BlockingEdges(db.rows);
  }

  /** Adding edges one by one succeeds in one order exactly when the finished
      graph has no cycle; so it does not depend on the order. */
  lemma {:induction false} EdgeByEdgeExact(db: Db, pid: Id, edges: seq<Edge>, rowIds: nat -> Id)
    requires Inv(db) && FreshIds(db, rowIds) && AllInProject(db, pid, edges) && PairsFree(db.rows, edges)
    ensures var (after, ok) := EdgeByEdge(db, pid, edges, rowIds);
      && (ok <==> Acyclic(BlockingEdges(db.rows) + EdgeSet(edges)))
      && (ok ==> Progress(db, edges, after, rowIds))
    decreases |edges|
  {
    hide Inv, Acyclic, AddDependency;
    if edges == [] {
      hide Progress;
      NoEdgesYet(db, rowIds);
    } else {
      var k := |edges| - 1;
      var first, e := edges[..k], edges[k];
      assert edges == first + [e];
      EdgeByEdgeExact(db, pid, first, rowIds);
      EdgeSetSplit(edges);
      var B := BlockingEdges(db.rows);
      assert B + EdgeSet(edges) == B + EdgeSet(first) + {e};
      if EdgeByEdge(db, pid, first, rowIds).1 {
        assert e in edges && PairsFree(db.rows, [e]);
        EdgeByEdgeKeepsInv(db, pid, first, rowIds);
        ProgressStep(db, pid, first, EdgeByEdge(db, pid, first, rowIds).0, e, rowIds);
      } else if Acyclic(B + EdgeSet(edges)) {
        AcyclicSubset(B + EdgeSet(first), B + EdgeSet(edges));
      }
    }
  }

  // ---- plain inserts ----

  /** With fresh row ids every insert goes through. */
  lemma {:induction false} InsertsGoThrough(db: Db, pid: Id, edges: seq<Edge>, rowIds: nat -> Id)
    requires FreshIds(db, rowIds)
    ensures InsertEdges(db, pid, edges, rowIds).Ok?
    ensures RowsFrom(db.rows, InsertEdges(db, pid, edges, rowIds).value.rows, rowIds, |edges|)
    decreases |edges|
  {
    if edges != [] {
      var k := |edges| - 1;
      InsertsGoThrough(db, pid, edges[..k], rowIds);
      var rows := InsertEdges(db, pid, edges[..k], rowIds).value.rows;
      assert rowIds(k) !in rows;
      RowsFromStep(db.rows, rows, rowIds, k, Row(pid, edges[k].0, edges[k].1, DependsOn));
    }
  }

  /** Pairs that carry a row: the old ones and those inserted so far. */
  ghost predicate PairsTaken(before: map<Id, Row>, rows: map<Id, Row>, edges: seq<Edge>) {
    forall r :: r in rows ==> (r in before && rows[r] == before[r]) || RowEdge(rows[r]) in edges
  }

  /** Distinct new edges that leave the graph acyclic are inserted soundly. */
  lemma {:induction false} InsertsSound(db: Db, pid: Id, edges: seq<Edge>, rowIds: nat -> Id)
    requires LinksSound(db.tasks, db.rows) && AllInProject(db, pid, edges) && NoRepeats(edges)
    requires forall r :: r in db.rows ==> RowEdge(db.rows[r]) !in edges
    requires Acyclic(BlockingEdges(db.rows) + EdgeSet(edges))
    requires InsertEdges(db, pid, edges, rowIds).Ok?
    ensures var after := InsertEdges(db, pid, edges, rowIds).value;
      && after.tasks == db.tasks && after.projects == db.projects
      && LinksSound(after.tasks, after.rows) && PairsTaken(db.rows, after.rows, edges)
      && BlockingEdges(after.rows) == BlockingEdges(db.rows) + EdgeSet(edges)
    decreases |edges|
  {
    hide LinksSound, Acyclic;
    if edges == [] {
      assert EdgeSet(edges) == {};
    } else {
      var k := |edges| - 1;
      var first, e := edges[..k], edges[k];
      EdgeSetSplit(edges);
      var B := BlockingEdges(db.rows);
      assert B + EdgeSet(edges) == B + EdgeSet(first) + {e};
      AcyclicSubset(B + EdgeSet(first), B + EdgeSet(edges));
      assert e in edges && forall d :: d in first ==> d in edges;
      InsertsSound(db, pid, first, rowIds);
      InsertOneSound(db, InsertEdges(db, pid, first, rowIds).value, pid, first, e, rowIds(k));
      assert edges == first + [e];
    }
  }

  lemma InsertOneSound(db: Db, mid: Db, pid: Id, first: seq<Edge>, e: Edge, id: Id)
    requires LinksSound(mid.tasks, mid.rows) && id !in mid.rows && PairsTaken(db.rows, mid.rows, first)
    requires InProject(mid, pid, e.0) && InProject(mid, pid, e.1) && e !in first
    requires forall r :: r in db.rows ==> RowEdge(db.rows[r]) != e
    requires Acyclic(BlockingEdges(mid.rows) + {e})
    ensures var rows := mid.rows[id := Row(pid, e.0, e.1, DependsOn)];
      && LinksSound(mid.tasks, rows) && PairsTaken(db.rows, rows, first + [e])
      && BlockingEdges(rows) == BlockingEdges(mid.rows) + {e}
  {
    var row := Row(pid, e.0, e.1, DependsOn);
    assert RowEdge(row) == e;
    AcyclicAddEdge(BlockingEdges(mid.rows), e.0, e.1);
    ProjectReach(mid.tasks, mid.rows, pid, e.1, e.0);
    AddedRowEdges(mid.rows, id, row);
    AddedRowSound(mid.tasks, mid.rows, id, row);
  }

  // ---- the payload's edges between the new tasks ----

  /** What staging the tasks of a plan does: new tasks, no new links. */
  ghost predicate Staged(db: Db, pid: Id, entries: seq<Entry>, ids: nat -> Id, n: nat, after: Db) {
    && after.rows == db.rows
    && (forall t :: t in db.tasks ==> t in after.tasks && after.tasks[t] == db.tasks[t])
    && (forall i: nat :: i < n ==> ids(i) !in db.tasks && InProject(after, pid, ids(i)))
    && forall i: nat, j: nat :: i < j < n ==> ids(i) != ids(j)
  }

  lemma AddTaskShape(db: Db, pid: Id, spec: TaskSpec, newId: Id)
    requires AddTask(db, pid, spec, newId).Ok?
    ensures var after := AddTask(db, pid, spec, newId).value;
      && after.rows == db.rows && newId !in db.tasks && InProject(after, pid, newId)
      && forall t :: t in db.tasks ==> t in after.tasks && after.tasks[t] == db.tasks[t]
  {
  }

  lemma {:induction false} StageAllShape(db: Db, pid: Id, entries: seq<Entry>, ids: nat -> Id, n: nat)
    requires n <= |entries| && StageAll(db, pid, entries, ids, n).Ok?
    ensures Staged(db, pid, entries, ids, n, StageAll(db, pid, entries, ids, n).value)
    decreases n
  {
    hide AddTask;
    if n > 0 {
      StageAllShape(db, pid, entries, ids, n - 1);
      AddTaskShape(StageAll(db, pid, entries, ids, n - 1).value, pid, entries[n - 1].spec, ids(n - 1));
    }
  }

  ghost predicate RefsDiffer(entries: seq<Entry>) {
    forall i, j :: 0 <= i < j < |entries| ==> RefAt(entries, i) != RefAt(entries, j)
  }

  lemma WellFormedRefsDiffer(entries: seq<Entry>)
    requires ShapeError(entries, 0).None?
    ensures RefsDiffer(entries)
  {
    forall i, j | 0 <= i < j < |entries| ensures RefAt(entries, i) != RefAt(entries, j) {
      DistinctRefs(entries, i, j);
    }
  }

  lemma {:induction false} ByRefAt(entries: seq<Entry>, ids: nat -> Id, n: nat, j: nat)
    requires j < n <= |entries| && RefsDiffer(entries)
    ensures RefAt(entries, j) in ByRef(entries, ids, n) && ByRef(entries, ids, n)[RefAt(entries, j)] == ids(j)
    decreases n
  {
    if j < n - 1 {
      ByRefAt(entries, ids, n - 1, j);
    }
  }

  lemma {:induction false} ByRefKey(entries: seq<Entry>, ids: nat -> Id, n: nat, ref: string)
    requires n <= |entries|
    ensures ref in ByRef(entries, ids, n) <==> HasRef(entries, n, ref)
    decreases n
  {
    if n > 0 {
      ByRefKey(entries, ids, n - 1, ref);
    }
  }

  /** Every ref the payload mentions has an id, and different refs have different ids. */
  ghost predicate Named(entries: seq<Entry>, byRef: map<string, Id>) {
    && (forall i :: 0 <= i < |entries| ==> RefAt(entries, i) in byRef)
    && (forall i, d :: 0 <= i < |entries| && d in entries[i].dependsOn ==> d in byRef)
    && forall x, y :: x in byRef && y in byRef && byRef[x] == byRef[y] ==> x == y
  }

  /** Dependencies only name entries of the payload (an entry may still name itself). */
  ghost predicate RefsExist(entries: seq<Entry>) {
    forall i, d :: 0 <= i < |entries| && d in entries[i].dependsOn ==> HasRef(entries, |entries|, d)
  }

  /** Every id in the table is one that was drawn for an entry. */
  lemma ByRefDrawn(entries: seq<Entry>, ids: nat -> Id, x: string) returns (i: nat)
    requires RefsDiffer(entries) && HasRef(entries, |entries|, x)
    ensures i < |entries| && RefAt(entries, i) == x
    ensures x in ByRef(entries, ids, |entries|) && ByRef(entries, ids, |entries|)[x] == ids(i)
  {
    i :| 0 <= i < |entries| && RefAt(entries, i) == x;
    ByRefAt(entries, ids, |entries|, i);
  }

  lemma StagedIdsDiffer(entries: seq<Entry>, ids: nat -> Id, x: string, y: string)
    requires RefsDiffer(entries) && forall i: nat, j: nat :: i < j < |entries| ==> ids(i) != ids(j)
    requires HasRef(entries, |entries|, x) && HasRef(entries, |entries|, y)
    ensures var byRef := ByRef(entries, ids, |entries|);
      x in byRef && y in byRef && (byRef[x] == byRef[y] ==> x == y)
  {
    hide RefsDiffer, ByRef, RefAt;
    var i := ByRefDrawn(entries, ids, x);
    var j := ByRefDrawn(entries, ids, y);
    assert ids(i) == ids(j) ==> i == j;
  }

  lemma StagedIsNamed(db: Db, pid: Id, entries: seq<Entry>, ids: nat -> Id)
    requires ShapeError(entries, 0).None? && RefsExist(entries)
    requires StageAll(db, pid, entries, ids, |entries|).Ok?
    ensures Named(entries, ByRef(entries, ids, |entries|))
    ensures forall x :: x in ByRef(entries, ids, |entries|) ==>
      exists i: nat :: i < |entries| && ByRef(entries, ids, |entries|)[x] == ids(i)
  {
    var n := |entries|;
    var byRef := ByRef(entries, ids, n);
    StageAllShape(db, pid, entries, ids, n);
    WellFormedRefsDiffer(entries);
    hide StageAll, ShapeError, ByRef, RefsDiffer;
    forall i | 0 <= i < n ensures RefAt(entries, i) in byRef {
      ByRefAt(entries, ids, n, i);
    }
    forall i, d | 0 <= i < n && d in entries[i].dependsOn ensures d in byRef {
      ByRefKey(entries, ids, n, d);
    }
    forall x, y | x in byRef && y in byRef && byRef[x] == byRef[y] ensures x == y {
      ByRefKey(entries, ids, n, x);
      ByRefKey(entries, ids, n, y);
      StagedIdsDiffer(entries, ids, x, y);
    }
    forall x | x in byRef ensures exists i: nat :: i < n && byRef[x] == ids(i) {
      ByRefKey(entries, ids, n, x);
      var i := ByRefDrawn(entries, ids, x);
    }
  }

  lemma EntryEdgesMember(byRef: map<string, Id>, ref: string, wanted: seq<string>, e: Edge)
    ensures e in EntryEdges(byRef, ref, wanted) <==>
      e.0 == Look(byRef, ref) && exists d :: d in wanted && e.1 == Look(byRef, d)
  {
    var edges := EntryEdges(byRef, ref, wanted);
    if e in edges {
      var j :| 0 <= j < |edges| && edges[j] == e;
      assert wanted[j] in wanted;
    }
    if d :| d in wanted && e == (Look(byRef, ref), Look(byRef, d)) {
      var j :| 0 <= j < |wanted| && wanted[j] == d;
      assert edges[j] == e;
    }
  }

  lemma {:induction false} BatchEdgesMember(entries: seq<Entry>, byRef: map<string, Id>, n: nat, e: Edge)
    requires n <= |entries|
    ensures e in BatchEdges(entries, byRef, n) <==> exists i, d ::
      0 <= i < n && d in entries[i].dependsOn && e == (Look(byRef, RefAt(entries, i)), Look(byRef, d))
    decreases n
  {
    if n > 0 {
      BatchEdgesMember(entries, byRef, n - 1, e);
      EntryEdgesMember(byRef, RefAt(entries, n - 1), Unique(entries[n - 1].dependsOn), e);
      UniqueExact(entries[n - 1].dependsOn);
    }
  }

  /** The rows a batch inserts are the payload's edges under the ids of its refs. */
  lemma BatchEdgesAreImage(entries: seq<Entry>, byRef: map<string, Id>)
    requires Named(entries, byRef)
    ensures EdgeSet(BatchEdges(entries, byRef, |entries|)) == Image(PayloadEdges(entries), byRef)
  {
    forall e ensures e in EdgeSet(BatchEdges(entries, byRef, |entries|)) <==> e in Image(PayloadEdges(entries), byRef) {
      BatchEdgesMember(entries, byRef, |entries|, e);
      if e in Image(PayloadEdges(entries), byRef) {
        var p :| p in PayloadEdges(entries) && p.0 in byRef && p.1 in byRef && e == (byRef[p.0], byRef[p.1]);
        var i, d :| 0 <= i < |entries| && d in entries[i].dependsOn && p == (RefAt(entries, i), d);
      }
      if i, d :|
        0 <= i < |entries| && d in entries[i].dependsOn && e == (Look(byRef, RefAt(entries, i)), Look(byRef, d))
      {
        assert (RefAt(entries, i), d) in PayloadEdges(entries);
      }
    }
  }

  lemma EntryEdgesNoRepeats(entries: seq<Entry>, byRef: map<string, Id>, i: nat)
    requires Named(entries, byRef) && i < |entries|
    ensures NoRepeats(EntryEdges(byRef, RefAt(entries, i), Unique(entries[i].dependsOn)))
  {
    var wanted := Unique(entries[i].dependsOn);
    UniqueExact(entries[i].dependsOn);
    forall j, k | 0 <= j < k < |wanted| ensures Look(byRef, wanted[j]) != Look(byRef, wanted[k]) {
      assert wanted[j] in wanted && wanted[k] in wanted;
    }
  }

  lemma NoRepeatsConcat(a: seq<Edge>, b: seq<Edge>)
    requires NoRepeats(a) && NoRepeats(b) && forall e :: e in a ==> e !in b
    ensures NoRepeats(a + b)
  {
    var c := a + b;
    forall i, j | 0 <= i < j < |c| ensures c[i] != c[j] {
      assert i < |a| <= j ==> c[i] in a && c[j] in b;
    }
  }

  lemma {:induction false} BatchEdgesNoRepeats(entries: seq<Entry>, byRef: map<string, Id>, n: nat)
    requires RefsDiffer(entries) && Named(entries, byRef) && n <= |entries|
    ensures NoRepeats(BatchEdges(entries, byRef, n))
    decreases n
  {
    if n > 0 {
      BatchEdgesNoRepeats(entries, byRef, n - 1);
      EntryEdgesNoRepeats(entries, byRef, n - 1);
      var first := BatchEdges(entries, byRef, n - 1);
      var last := EntryEdges(byRef, RefAt(entries, n - 1), Unique(entries[n - 1].dependsOn));
      forall e | e in first ensures e !in last {
        BatchEdgesMember(entries, byRef, n - 1, e);
        EntryEdgesMember(byRef, RefAt(entries, n - 1), Unique(entries[n - 1].dependsOn), e);
        var i, d :| 0 <= i < n - 1 && d in entries[i].dependsOn
          && e == (Look(byRef, RefAt(entries, i)), Look(byRef, d));
      }
      NoRepeatsConcat(first, last);
    }
  }

  // ---- the two paths agree ----

  /** A payload both paths can work on: every entry is well formed and every
      dependency names an entry.  It may still depend on itself or be cyclic. */
  ghost predicate WellFormed(entries: seq<Entry>) {
    0 < |entries| <= MAX_BATCH && ShapeError(entries, 0).None? && RefsExist(entries)
  }

  lemma HasRefInRefs(entries: seq<Entry>, d: string)
    ensures HasRef(entries, |entries|, d) <==> d in Refs(entries)
  {
  }

  /** The batch refuses a well-formed payload exactly when it has a cycle. */
  lemma RefusedIffCyclic(entries: seq<Entry>)
    requires WellFormed(entries)
    ensures Refusal(entries).None? <==> Acyclic(PayloadEdges(entries))
  {
    var E := PayloadEdges(entries);
    RefsKnown(entries, 0);
    AcyclicIffNoneReachesCycle(E);
    if RefError(entries, 0).Some? {
      var k :| 0 <= k < |entries| && !DepsKnown(entries, k);
      var d :| d in entries[k].dependsOn && !(d != RefAt(entries, k) && d in Refs(entries));
      HasRefInRefs(entries, d);
      assert (d, d) in E;
      ReachesSelf(E, d);
      assert OnCycle(E, d);
    } else if Cyclic(entries) == {} {
      forall e | e in E ensures !ReachesCycle(E, e.0) {
        assert e.0 in Refs(entries);
        assert e.0 !in Cyclic(entries);
      }
    } else {
      var r :| r in Cyclic(entries);
      var z :| Reaches(E, r, z) && OnCycle(E, z);
    }
  }

  /** New tasks have no links yet, so only the payload can close a cycle. */
  lemma StagedPlusPayload(db: Db, pid: Id, entries: seq<Entry>, ids: nat -> Id)
    requires Inv(db) && WellFormed(entries) && StageAll(db, pid, entries, ids, |entries|).Ok?
    ensures var after := StageAll(db, pid, entries, ids, |entries|).value;
      var edges := BatchEdges(entries, ByRef(entries, ids, |entries|), |entries|);
      && Inv(after) && AllInProject(after, pid, edges) && NoRepeats(edges)
      && (forall r :: r in after.rows ==> RowEdge(after.rows[r]) !in edges)
      && (Acyclic(BlockingEdges(after.rows) + EdgeSet(edges)) <==> Acyclic(PayloadEdges(entries)))
  {
    var n := |entries|;
    var after, byRef := StageAll(db, pid, entries, ids, n).value, ByRef(entries, ids, n);
    var edges := BatchEdges(entries, byRef, n);
    StageAllKeepsInv(db, pid, entries, ids, n);
    StageAllShape(db, pid, entries, ids, n);
    StagedIsNamed(db, pid, entries, ids);
    WellFormedRefsDiffer(entries);
    BatchEdgesNoRepeats(entries, byRef, n);
    BatchEdgesAreImage(entries, byRef);
    AcyclicRenamed(PayloadEdges(entries), byRef);
    var newIds := set x | x in byRef :: byRef[x];
    EdgesBetweenNew(entries, byRef, newIds);
    OldEdgesAvoid(db, newIds);
    AcyclicApart(BlockingEdges(after.rows), EdgeSet(edges), newIds);
  }

  lemma EdgesBetweenNew(entries: seq<Entry>, byRef: map<string, Id>, newIds: set<Id>)
    requires Named(entries, byRef) && newIds == set x | x in byRef :: byRef[x]
    ensures forall e :: e in BatchEdges(entries, byRef, |entries|) ==> e.0 in newIds && e.1 in newIds
  {
    forall e | e in BatchEdges(entries, byRef, |entries|) ensures e.0 in newIds && e.1 in newIds {
      BatchEdgesMember(entries, byRef, |entries|, e);
    }
  }

  lemma OldEdgesAvoid(db: Db, newIds: set<Id>)
    requires RowsSound(db.tasks, db.rows) && newIds !! db.tasks.Keys
    ensures forall r :: r in db.rows ==> db.rows[r].task !in newIds && db.rows[r].dependsOn !in newIds
    ensures forall e :: e in BlockingEdges(db.rows) ==> e.0 !in newIds && e.1 !in newIds
  {
    forall r | r in db.rows ensures db.rows[r].task !in newIds && db.rows[r].dependsOn !in newIds {
      assert RowSound(db.tasks, db.rows[r]);
    }
  }

  lemma CreatePlanKeepsInv(db: Db, pid: Id, entries: seq<Entry>, ids: nat -> Id, rowIds: nat -> Id)
    requires Inv(db)
    ensures Inv(CreatePlan(db, pid, entries, ids, rowIds).0)
  {
    if Plan(db, pid, entries, ids, rowIds).Ok? {
      AcceptedIsWellFormed(entries);
      RefusedIffCyclic(entries);
      StagedPlusPayload(db, pid, entries, ids);
      var staged := StageAll(db, pid, entries, ids, |entries|).value;
      InsertsSound(staged, pid, BatchEdges(entries, ByRef(entries, ids, |entries|), |entries|), rowIds);
    }
  }

  lemma AcceptedIsWellFormed(entries: seq<Entry>)
    requires Refusal(entries).None?
    ensures WellFormed(entries)
  {
    RefsKnown(entries, 0);
    forall i, d | 0 <= i < |entries| && d in entries[i].dependsOn ensures HasRef(entries, |entries|, d) {
      assert DepsKnown(entries, i);
      HasRefInRefs(entries, d);
    }
  }

  /** What a payload must look like: up to 200 entries without unknown fields, each
      with a visible title and a visible ref of its own, naming only refs of the
      payload, and without a cycle. */
  ghost predicate Proper(entries: seq<Entry>) {
    && 1 <= |entries| <= 200
    && (forall i :: 0 <= i < |entries| ==> ProperEntry(entries[i]))
    && (forall i, j :: 0 <= i < j < |entries| ==> entries[i].ref != entries[j].ref)
    && (forall i, d :: 0 <= i < |entries| && d in entries[i].dependsOn ==> Mentioned(entries, d))
    && Acyclic(PayloadEdges(entries))
  }

  ghost predicate ProperEntry(e: Entry) {
    e.unknown == {} && e.ref.Some? && !Text.Blank(e.ref.value) && !Text.Blank(e.title)
  }

  ghost predicate Mentioned(entries: seq<Entry>, d: string) {
    exists j :: 0 <= j < |entries| && entries[j].ref == Some(d)
  }

  lemma {:induction false} ShapeFine(entries: seq<Entry>, i: nat)
    requires i <= |entries| && forall j :: i <= j < |entries| ==> EntryError(entries, j).None?
    ensures ShapeError(entries, i).None?
    decreases |entries| - i
  {
    if i < |entries| {
      ShapeFine(entries, i + 1);
    }
  }

  /** Exactly the proper payloads pass the checks. */
  lemma PayloadExact(entries: seq<Entry>)
    ensures Refusal(entries).None? <==> Proper(entries)
  {
    hide PayloadEdges, Acyclic, RefError, Cyclic;
    if Refusal(entries).None? || Proper(entries) {
      if Refusal(entries).None? {
        AcceptedIsWellFormed(entries);
        forall i | 0 <= i < |entries| ensures ProperEntry(entries[i]) {
          ShapeOkAt(entries, 0, i);
        }
        forall i, j | 0 <= i < j < |entries| ensures entries[i].ref != entries[j].ref {
          DistinctRefs(entries, i, j);
        }
      } else {
        ShapeFine(entries, 0);
      }
      forall d ensures HasRef(entries, |entries|, d) <==> Mentioned(entries, d) {
        if j :| 0 <= j < |entries| && RefAt(entries, j) == d {
          assert ProperEntry(entries[j]) && entries[j].ref == Some(d);
        }
        if j :| 0 <= j < |entries| && entries[j].ref == Some(d) {
          assert RefAt(entries, j) == d;
        }
      }
      forall i, d | 0 <= i < |entries| && d in entries[i].dependsOn
        ensures HasRef(entries, |entries|, d) && Mentioned(entries, d)
      {
      }
      RefusedIffCyclic(entries);
    }
  }

  ghost predicate Repeats(entries: seq<Entry>, i: nat)
    requires i < |entries|
  {
    exists j :: 0 <= j < i && entries[j].ref == entries[i].ref
  }

  lemma EntryErrorExact(entries: seq<Entry>, i: nat)
    requires i < |entries| && forall j :: 0 <= j < i ==> ProperEntry(entries[j])
    ensures EntryError(entries, i).None? <==> ProperEntry(entries[i]) && !Repeats(entries, i)
    ensures entries[i].ref.Some? && !Text.Blank(entries[i].ref.value) ==>
      (Repeats(entries, i) <==> exists j :: 0 <= j < i && RefAt(entries, j) == entries[i].ref.value)
  {
    forall j | 0 <= j < i && entries[i].ref.Some?
      ensures entries[j].ref == entries[i].ref <==> RefAt(entries, j) == entries[i].ref.value
    {
      assert ProperEntry(entries[j]);
    }
  }

  /** A payload is refused for its first improper or repeated entry, and for the
      first thing wrong with it. */
  lemma ShapeRefusal(entries: seq<Entry>, i: nat)
    requires 1 <= |entries| <= 200 && i < |entries| && (!ProperEntry(entries[i]) || Repeats(entries, i))
    requires forall j :: 0 <= j < i ==> ProperEntry(entries[j]) && !Repeats(entries, j)
    ensures var (e, r) := (entries[i], Refusal(entries));
      if e.unknown != {} then r == Some(UnknownFields(i))
      else if e.ref.None? || Text.Blank(e.ref.value) then r == Some(RefRequired(i))
      else if Repeats(entries, i) then r == Some(DuplicateRef(e.ref.value))
      else r == Some(TitleRequired(i))
  {
    forall j | 0 <= j <= i ensures EntryError(entries, j).None? <==> j < i {
      EntryErrorExact(entries, j);
    }
    EntryErrorExact(entries, i);
    FirstShapeError(entries, 0, i);
  }

  lemma {:induction false} FirstShapeError(entries: seq<Entry>, k: nat, i: nat)
    requires k <= i < |entries| && EntryError(entries, i).Some?
    requires forall j :: k <= j < i ==> EntryError(entries, j).None?
    ensures ShapeError(entries, k) == EntryError(entries, i)
    decreases i - k
  {
    if k < i {
      FirstShapeError(entries, k + 1, i);
    }
  }

  /** A well-formed payload without self-dependencies is refused with the refs that
      lie on or before a cycle. */
  lemma CycleRefusal(entries: seq<Entry>)
    requires WellFormed(entries) && !Acyclic(PayloadEdges(entries))
    requires forall i, d :: 0 <= i < |entries| && d in entries[i].dependsOn ==> d != RefAt(entries, i)
    ensures Refusal(entries).Some? && Refusal(entries).value.BatchCycle?
    ensures forall r :: r in Refusal(entries).value.refs <==>
      HasRef(entries, |entries|, r) && ReachesCycle(PayloadEdges(entries), r)
  {
    RefusedIffCyclic(entries);
    RefsKnown(entries, 0);
    forall r ensures HasRef(entries, |entries|, r) <==> r in Refs(entries) {
      HasRefInRefs(entries, r);
    }
  }

  /** The fast path and the slow path agree.  For every well-formed payload whose
      tasks can be created, and for every order of its edges, the batch is
      accepted exactly when creating the tasks and then calling add_dependency for
      one edge after the other accepts every edge.  Both then hold the same tasks
      and the same blocking edges; a refused batch changes nothing. */
  lemma BatchAgreesWithEdgeByEdge(db: Db, pid: Id, entries: seq<Entry>, ids: nat -> Id, rowIds: nat -> Id,
                                  order: seq<Edge>, laterIds: nat -> Id)
    requires Inv(db) && WellFormed(entries) && FreshIds(db, rowIds) && FreshIds(db, laterIds)
    requires StageAll(db, pid, entries, ids, |entries|).Ok?
    requires EdgeSet(order) == EdgeSet(BatchEdges(entries, ByRef(entries, ids, |entries|), |entries|))
    ensures var batch := CreatePlan(db, pid, entries, ids, rowIds);
      var slow := EdgeByEdge(StageAll(db, pid, entries, ids, |entries|).value, pid, order, laterIds);
      && (batch.1.Ok? <==> slow.1)
      && (batch.1.Ok? ==> BlockingEdges(batch.0.rows) == BlockingEdges(slow.0.rows))
      && (batch.1.Ok? ==> batch.0.tasks == slow.0.tasks && batch.0.projects == slow.0.projects)
      && (batch.1.Err? ==> batch.0 == db)
  {
    var staged := StageAll(db, pid, entries, ids, |entries|).value;
    var edges := BatchEdges(entries, ByRef(entries, ids, |entries|), |entries|);
    RefusedIffCyclic(entries);
    StagedPlusPayload(db, pid, entries, ids);
    StageAllShape(db, pid, entries, ids, |entries|);
    SameEdges(staged, pid, edges, order);
    EdgeByEdgeExact(staged, pid, order, laterIds);
    InsertsGoThrough(staged, pid, edges, rowIds);
    if Acyclic(PayloadEdges(entries)) {
      InsertsSound(staged, pid, edges, rowIds);
    }
  }

  lemma SameEdges(db: Db, pid: Id, edges: seq<Edge>, order: seq<Edge>)
    requires EdgeSet(order) == EdgeSet(edges) && AllInProject(db, pid, edges)
    requires forall r :: r in db.rows ==> RowEdge(db.rows[r]) !in edges
    ensures AllInProject(db, pid, order) && PairsFree(db.rows, order)
  {
    forall e | e in order ensures e in edges {
      assert e in EdgeSet(order);
    }
    forall r, e | e in order ensures !IsPair(db.rows, r, e.0, e.1) {
      if r in db.rows {
        assert RowEdge(db.rows[r]) !in edges;
        assert e == (e.0, e.1);
      }
    }
  }

  // ---- the plan as asked for ----

  lemma {:induction false} InsertsKeepTasks(db: Db, pid: Id, edges: seq<Edge>, rowIds: nat -> Id)
    requires InsertEdges(db, pid, edges, rowIds).Ok?
    ensures InsertEdges(db, pid, edges, rowIds).value.tasks == db.tasks
    ensures InsertEdges(db, pid, edges, rowIds).value.projects == db.projects
    decreases |edges|
  {
    if edges != [] {
      InsertsKeepTasks(db, pid, edges[..|edges| - 1], rowIds);
    }
  }

  /** Entry i names entry j, and the row says so. */
  ghost predicate PlannedRow(pid: Id, entries: seq<Entry>, ids: nat -> Id, i: nat, j: nat, row: Row) {
    && i < |entries| && j < |entries| && RefAt(entries, j) in entries[i].dependsOn
    && row == Row(pid, ids(i), ids(j), DependsOn)
  }

  ghost predicate Planned(pid: Id, entries: seq<Entry>, ids: nat -> Id, row: Row) {
    exists i: nat, j: nat :: PlannedRow(pid, entries, ids, i, j, row)
  }

  ghost predicate HasNewRow(rows: map<Id, Row>, after: map<Id, Row>, row: Row) {
    exists r :: r in after && r !in rows && after[r] == row
  }

  /** Old rows are kept, and the new ones are the dependencies the payload names. */
  ghost predicate RowsMade(rows: map<Id, Row>, pid: Id, entries: seq<Entry>, ids: nat -> Id, after: map<Id, Row>) {
    && (forall r :: r in rows ==> r in after && after[r] == rows[r])
    && (forall r :: r in after && r !in rows ==> Planned(pid, entries, ids, after[r]))
    && forall row :: Planned(pid, entries, ids, row) ==> HasNewRow(rows, after, row)
  }

  /** Every entry became the task it describes, and every dependency it names a row;
      nothing else changed. */
  ghost predicate PlanMade(db: Db, pid: Id, entries: seq<Entry>, ids: nat -> Id, after: Db) {
    TasksMade(db, pid, entries, ids, |entries|, after) && RowsMade(db.rows, pid, entries, ids, after.rows)
  }

  /** The rows gained are one for every edge, and no others. */
  ghost predicate RowsInserted(rows: map<Id, Row>, pid: Id, edges: seq<Edge>, after: map<Id, Row>) {
    && (forall r :: r in rows ==> r in after && after[r] == rows[r])
    && (forall r :: r in after && r !in rows ==>
          (after[r].task, after[r].dependsOn) in edges
          && after[r] == Row(pid, after[r].task, after[r].dependsOn, DependsOn))
    && forall e :: e in edges ==> HasNewRow(rows, after, Row(pid, e.0, e.1, DependsOn))
  }

  lemma OneRowInserted(rows: map<Id, Row>, pid: Id, edges: seq<Edge>, mid: map<Id, Row>, id: Id, e: Edge)
    requires RowsInserted(rows, pid, edges, mid) && id !in mid
    ensures RowsInserted(rows, pid, edges + [e], mid[id := Row(pid, e.0, e.1, DependsOn)])
  {
    var row := Row(pid, e.0, e.1, DependsOn);
    var after := mid[id := row];
    assert after[id] == row && HasNewRow(rows, after, row);
    forall f | f in edges ensures HasNewRow(rows, after, Row(pid, f.0, f.1, DependsOn)) {
      var r :| r in mid && r !in rows && mid[r] == Row(pid, f.0, f.1, DependsOn);
      assert after[r] == mid[r];
    }
  }

  lemma {:induction false} InsertedRows(db: Db, pid: Id, edges: seq<Edge>, rowIds: nat -> Id)
    requires InsertEdges(db, pid, edges, rowIds).Ok?
    ensures RowsInserted(db.rows, pid, edges, InsertEdges(db, pid, edges, rowIds).value.rows)
    decreases |edges|
  {
    if edges != [] {
      var k := |edges| - 1;
      InsertedRows(db, pid, edges[..k], rowIds);
      hide RowsInserted;
      assert edges == edges[..k] + [edges[k]];
      OneRowInserted(db.rows, pid, edges[..k], InsertEdges(db, pid, edges[..k], rowIds).value.rows, rowIds(k), edges[k]);
    }
  }

  /** The batch's edges are the dependencies between the entries' tasks. */
  lemma BatchEdgeIsPlanned(pid: Id, entries: seq<Entry>, ids: nat -> Id, e: Edge)
    requires RefsDiffer(entries) && RefsExist(entries)
    ensures e in BatchEdges(entries, ByRef(entries, ids, |entries|), |entries|)
      <==> Planned(pid, entries, ids, Row(pid, e.0, e.1, DependsOn))
  {
    var n, byRef := |entries|, ByRef(entries, ids, |entries|);
    BatchEdgesMember(entries, byRef, n, e);
    hide BatchEdges, ByRef, RefsDiffer;
    forall i: nat | i < n ensures Look(byRef, RefAt(entries, i)) == ids(i) {
      ByRefAt(entries, ids, n, i);
    }
    if e in BatchEdges(entries, byRef, n) {
      var i, d :| 0 <= i < n && d in entries[i].dependsOn && e == (Look(byRef, RefAt(entries, i)), Look(byRef, d));
      assert HasRef(entries, n, d);
      var j :| 0 <= j < n && RefAt(entries, j) == d;
      assert PlannedRow(pid, entries, ids, i, j, Row(pid, e.0, e.1, DependsOn));
    }
  }

  lemma BatchRowsMade(rows: map<Id, Row>, pid: Id, entries: seq<Entry>, ids: nat -> Id, after: map<Id, Row>)
    requires RefsDiffer(entries) && RefsExist(entries)
    requires RowsInserted(rows, pid, BatchEdges(entries, ByRef(entries, ids, |entries|), |entries|), after)
    ensures RowsMade(rows, pid, entries, ids, after)
  {
    hide BatchEdges, ByRef, RefsDiffer, RefsExist, RefAt, HasNewRow;
    forall row: Row | row == Row(pid, row.task, row.dependsOn, DependsOn)
      ensures (row.task, row.dependsOn) in BatchEdges(entries, ByRef(entries, ids, |entries|), |entries|)
        <==> Planned(pid, entries, ids, row)
    {
      BatchEdgeIsPlanned(pid, entries, ids, (row.task, row.dependsOn));
    }
  }

  /** An accepted plan is carried out as asked. */
  lemma CreatePlanMakes(db: Db, pid: Id, entries: seq<Entry>, ids: nat -> Id, rowIds: nat -> Id)
    requires Inv(db) && CreatePlan(db, pid, entries, ids, rowIds).1.Ok?
    ensures PlanMade(db, pid, entries, ids, CreatePlan(db, pid, entries, ids, rowIds).0)
  {
    hide Inv, StageAll, BatchEdges, InsertEdges, ByRef, Refusal, TasksMade, RowsMade, RowsInserted, RefsDiffer;
    var n := |entries|;
    var staged, edges := StageAll(db, pid, entries, ids, n).value, BatchEdges(entries, ByRef(entries, ids, n), n);
    AcceptedIsWellFormed(entries);
    WellFormedRefsDiffer(entries);
    StageAllMakes(db, pid, entries, ids, n);
    StageAllShape(db, pid, entries, ids, n);
    InsertsKeepTasks(staged, pid, edges, rowIds);
    InsertedRows(staged, pid, edges, rowIds);
    BatchRowsMade(db.rows, pid, entries, ids, InsertEdges(staged, pid, edges, rowIds).value.rows);
    SameTasksMade(db, pid, entries, ids, n, staged, CreatePlan(db, pid, entries, ids, rowIds).0);
  }

  lemma SameTasksMade(db: Db, pid: Id, entries: seq<Entry>, ids: nat -> Id, n: nat, mid: Db, after: Db)
    requires TasksMade(db, pid, entries, ids, n, mid) && after.tasks == mid.tasks && after.projects == mid.projects
    ensures TasksMade(db, pid, entries, ids, n, after)
  {
  }

  // ---- the request itself ----

  /** Checks the payload, stages tasks and edges, and rolls everything back on any failure. */
  method CreateTasks(store: TaskStore.Store, pid: Id, entries: seq<Entry>, ids: nat -> Id, rowIds: nat -> Id)
    returns (r: Result<seq<Created>, Error>)
    requires store.Valid()
    modifies store
    ensures store.Valid() && store.State() == CreatePlan(old(store.State()), pid, entries, ids, rowIds).0
    ensures r.Err? ==> CreatePlan(old(store.State()), pid, entries, ids, rowIds).1 == Err(r.error)
    ensures r.Ok? ==> CreatePlan(old(store.State()), pid, entries, ids, rowIds).1.Ok?
    ensures r.Ok? ==> Reports(store.tasks, entries, ids, r.value)
    ensures r.Ok? ==> PlanMade(old(store.State()), pid, entries, ids, store.State())
  {
    ghost var db := store.State();
    CreatePlanKeepsInv(store.State(), pid, entries, ids, rowIds);
    var deps := Validate(entries);
    if deps.Err? { return Err(deps.error); }
    r := WritePlan(store, pid, entries, deps.value, ids, rowIds);
    hide Inv, CreatePlan, PlanMade, Reports;
    if r.Ok? { CreatePlanMakes(db, pid, entries, ids, rowIds); }
  }

  method WritePlan(store: TaskStore.Store, pid: Id, entries: seq<Entry>, deps: map<string, seq<string>>,
                   ids: nat -> Id, rowIds: nat -> Id)
    returns (r: Result<seq<Created>, Error>)
    requires store.Valid() && Refusal(entries).None? && deps == DepsOf(entries, |entries|)
    modifies store
    ensures store.State() == CreatePlan(old(store.State()), pid, entries, ids, rowIds).0
    ensures r.Err? ==> CreatePlan(old(store.State()), pid, entries, ids, rowIds).1 == Err(r.error)
    ensures r.Ok? ==> CreatePlan(old(store.State()), pid, entries, ids, rowIds).1.Ok?
    ensures r.Ok? ==> Reports(store.tasks, entries, ids, r.value)
  {
    var savedProjects, savedTasks, savedRows := store.projects, store.tasks, store.rows;
    var byRef := StageTasks(store, pid, entries, ids);
    if byRef.Err? {
      store.projects, store.tasks, store.rows := savedProjects, savedTasks, savedRows;
      return Err(byRef.error);
    }
    CreatedTasksExist(old(store.State()), pid, entries, ids, rowIds);
    ghost var staged := store.State();
    var ok := InsertAll(store, pid, entries, deps, byRef.value, rowIds);
    if !ok {
      store.projects, store.tasks, store.rows := savedProjects, savedTasks, savedRows;
      return Err(IdClash);
    }
    WellFormedRefsDiffer(entries);
    forall i: nat | i < |entries|
      ensures RefAt(entries, i) in byRef.value && byRef.value[RefAt(entries, i)] == ids(i) && ids(i) in store.tasks
    {
      ByRefAt(entries, ids, |entries|, i);
    }
    var created := seq(|entries|, i requires 0 <= i < |entries| reads store =>
      var id := Look(byRef.value, RefAt(entries, i));
      Created(RefAt(entries, i), id, if id in store.tasks then store.tasks[id].key else ""));
    return Ok(created);
  }

  /** One line per entry, in input order, with the id and key its task got. */
  ghost predicate Reports(tasks: map<Id, Task>, entries: seq<Entry>, ids: nat -> Id, out: seq<Created>) {
    && |out| == |entries|
    && forall i: nat :: i < |entries| ==>
      ids(i) in tasks && out[i] == Created(RefAt(entries, i), ids(i), tasks[ids(i)].key)
  }

  lemma CreatedTasksExist(db: Db, pid: Id, entries: seq<Entry>, ids: nat -> Id, rowIds: nat -> Id)
    requires Refusal(entries).None?
    ensures CreatePlan(db, pid, entries, ids, rowIds).1.Ok? ==>
      forall i: nat :: i < |entries| ==> ids(i) in CreatePlan(db, pid, entries, ids, rowIds).0.tasks
  {
    if CreatePlan(db, pid, entries, ids, rowIds).1.Ok? {
      StageAllShape(db, pid, entries, ids, |entries|);
      var staged := StageAll(db, pid, entries, ids, |entries|).value;
      InsertsKeepTasks(staged, pid, BatchEdges(entries, ByRef(entries, ids, |entries|), |entries|), rowIds);
    }
  }
}

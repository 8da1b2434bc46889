/** Creating a whole plan, tasks and dependency edges, in one transaction. */
module TaskBatch {
  import opened Wrappers
  import opened Graphs
  import opened TaskState
  import opened TaskInvariants
  import opened TaskEffects
  import Keys
  import TaskStore
  import Text

  const MAX_BATCH := 200

  datatype Entry = Entry(unknown: set<string>, ref: Option<string>, title: string, dependsOn: seq<string>,
                         spec: TaskSpec)

  datatype Created = Created(ref: string, id: Id, key: string)

  // ---- what the payload says ----

  function RefAt(entries: seq<Entry>, i: nat): string
    requires i < |entries|
  {
    if entries[i].ref.Some? then entries[i].ref.value else ""
  }

  function Refs(entries: seq<Entry>): set<string> {
    set i | 0 <= i < |entries| :: RefAt(entries, i)
  }

  /** ref -> dependency ref, for every dependency the payload names. */
  ghost function PayloadEdges(entries: seq<Entry>): Edges {
    set i, d | 0 <= i < |entries| && d in entries[i].dependsOn :: (RefAt(entries, i), d)
  }

  /** First occurrences, in order. */
  function Unique(s: seq<string>): seq<string> {
    if s == [] then []
    else
      var u := Unique(s[..|s| - 1]);
      if s[|s| - 1] in u then u else u + [s[|s| - 1]]
  }

  lemma {:induction false} UniqueExact(s: seq<string>)
    ensures forall x :: x in Unique(s) <==> x in s
    ensures Distinct(Unique(s))
    decreases |s|
  {
    if s != [] {
      UniqueExact(s[..|s| - 1]);
      assert s == s[..|s| - 1] + [s[|s| - 1]];
    }
  }

  /** The order is that of first occurrence. */
  lemma {:induction false} UniqueInOrder(s: seq<string>, i: nat)
    requires i <= |s|
    ensures Unique(s[..i]) <= Unique(s)
    decreases |s|
  {
    if i < |s| {
      UniqueInOrder(s[..|s| - 1], i);
      assert s[..|s| - 1][..i] == s[..i];
    } else {
      assert s[..i] == s;
    }
  }

  // ---- refusals, in the order they are found ----

  ghost function EntryError(entries: seq<Entry>, i: nat): Option<Error>
    requires i < |entries|
  {
    var e := entries[i];
    if e.unknown != {} then Some(UnknownFields(i))
    else if e.ref.None? || Text.Blank(e.ref.value) then Some(RefRequired(i))
    else if exists j :: 0 <= j < i && RefAt(entries, j) == e.ref.value then Some(DuplicateRef(e.ref.value))
    else if Text.Blank(e.title) then Some(TitleRequired(i))
    else None
  }

  ghost function ShapeError(entries: seq<Entry>, i: nat): Option<Error>
    requires i <= |entries|
    decreases |entries| - i
  {
    if i == |entries| then None
    else if EntryError(entries, i).Some? then EntryError(entries, i)
    else ShapeError(entries, i + 1)
  }

  ghost function WantedError(entries: seq<Entry>, ref: string, wanted: seq<string>, j: nat): Option<Error>
    requires j <= |wanted|
    decreases |wanted| - j
  {
    if j == |wanted| then None
    else if wanted[j] == ref then Some(BatchSelfDependency(ref))
    else if wanted[j] !in Refs(entries) then Some(UnknownRef(ref, wanted[j]))
    else WantedError(entries, ref, wanted, j + 1)
  }

  ghost function RefError(entries: seq<Entry>, i: nat): Option<Error>
    requires i <= |entries|
    decreases |entries| - i
  {
    if i == |entries| then None
    else
      var e := WantedError(entries, RefAt(entries, i), Unique(entries[i].dependsOn), 0);
      if e.Some? then e else RefError(entries, i + 1)
  }

  ghost function Cyclic(entries: seq<Entry>): set<string> {
    set r | r in Refs(entries) && ReachesCycle(PayloadEdges(entries), r)
  }

  /** Why a payload is refused before anything is written, if it is. */
  ghost function Refusal(entries: seq<Entry>): Option<Error> {
    if entries == [] then Some(EmptyBatch)
    else if |entries| > MAX_BATCH then Some(BatchTooLarge)
    else if ShapeError(entries, 0).Some? then ShapeError(entries, 0)
    else if RefError(entries, 0).Some? then RefError(entries, 0)
    else if Cyclic(entries) != {} then Some(BatchCycle(Cyclic(entries)))
    else None
  }

  // ---- the peel ----

  ghost function Wanted(deps: map<string, seq<string>>, r: string): set<string>
    requires r in deps
  {
    set d | d in deps[r]
  }

  ghost function DepEdges(deps: map<string, seq<string>>): Edges {
    set r, d | r in deps && d in deps[r] :: (r, d)
  }

  ghost predicate Distinct(s: seq<string>) {
    forall i, j :: 0 <= i < j < |s| ==> s[i] != s[j]
  }

  /** Every ref comes after all it depends on. */
  ghost predicate Topological(deps: map<string, seq<string>>, order: seq<string>) {
    && Distinct(order)
    && forall i :: 0 <= i < |order| ==> order[i] in deps && forall d :: d in deps[order[i]] ==> d in order[..i]
  }

  lemma TopologicalAppend(deps: map<string, seq<string>>, order: seq<string>, r: string)
    requires Topological(deps, order) && r in deps && r !in order
    requires forall d :: d in deps[r] ==> d in order
    ensures Topological(deps, order + [r])
  {
    var after := order + [r];
    forall i | 0 <= i < |after| ensures after[i] in deps && forall d :: d in deps[after[i]] ==> d in after[..i] {
      assert after[..i] == order[..i];
      assert order[..|order|] == order;
    }
  }

  lemma PeeledIsClear(deps: map<string, seq<string>>, r: string)
    requires r in deps
    requires forall d :: d in deps[r] ==> !ReachesCycle(DepEdges(deps), d)
    ensures !ReachesCycle(DepEdges(deps), r)
  {
    if ReachesCycle(DepEdges(deps), r) {
      ReachesCycleStep(DepEdges(deps), r);
    }
  }

  ghost predicate Stuck(deps: map<string, seq<string>>, left: set<string>, r: string) {
    r in deps && exists d :: d in deps[r] && d in left
  }

  lemma StuckReachesCycle(deps: map<string, seq<string>>, left: set<string>)
    requires forall r {:trigger Stuck(deps, left, r)} :: r in left ==> Stuck(deps, left, r)
    ensures forall r :: r in left ==> ReachesCycle(DepEdges(deps), r)
  {
    var E := DepEdges(deps);
    forall r | r in left ensures HasExit(E, left, r) {
      assert Stuck(deps, left, r);
      var d :| d in deps[r] && d in left;
      assert (r, d) in E;
    }
    forall r | r in left ensures ReachesCycle(E, r) {
      NoSinkReachesCycle(E, left, r);
    }
  }

  /** Kahn's algorithm.  What is left over is exactly what sits on or behind a
      cycle; everything else was removed in dependency order. */
  method Peel(refs: seq<string>, deps: map<string, seq<string>>) returns (left: set<string>, ghost order: seq<string>)
    requires Distinct(refs) && (forall r :: r in refs <==> r in deps)
    requires forall r, d :: r in deps && d in deps[r] ==> d in deps
    ensures forall r :: r in left <==> r in deps && ReachesCycle(DepEdges(deps), r)
    ensures Topological(deps, order) && forall r :: r in order <==> r in deps && r !in left
  {
    var remaining := map r | r in deps :: set d | d in deps[r];
    var ready := WithoutDependencies(refs, remaining);
    order := [];
    while ready != []
      invariant Peeling(deps, remaining, ready) && Peeled(deps, remaining, order)
      decreases |remaining.Keys|
    {
      remaining, ready, order := PeelNext(refs, deps, remaining, ready, order);
    }
    left := remaining.Keys;
    NothingReady(deps, remaining);
  }

  /** One round: removes the last ready ref and forgets it everywhere. */
  method PeelNext(refs: seq<string>, ghost deps: map<string, seq<string>>, before: map<string, set<string>>,
                  ready0: seq<string>, ghost order0: seq<string>)
    returns (remaining: map<string, set<string>>, ready: seq<string>, ghost order: seq<string>)
    requires Distinct(refs) && (forall r :: r in before ==> r in refs) && ready0 != []
    requires forall r, d :: r in deps && d in deps[r] ==> d in deps
    requires Peeling(deps, before, ready0) && Peeled(deps, before, order0)
    ensures Peeling(deps, remaining, ready) && Peeled(deps, remaining, order)
    ensures |remaining.Keys| < |before.Keys|
  {
    ReadyIsClear(deps, before, ready0, order0, ready0[|ready0| - 1]);
    WaitingWithout(deps, before, ready0);
    var done := ready0[|ready0| - 1];
    order := order0 + [done];
    ghost var waiting := before - {done};
    remaining, ready := Discard(refs, before - {done}, ready0[..|ready0| - 1], done);
    DiscardKeepsPeeling(deps, waiting, remaining, ready, done);
  }

  lemma NothingReady(deps: map<string, seq<string>>, remaining: map<string, set<string>>)
    requires Peeling(deps, remaining, [])
    ensures forall r :: r in remaining ==> ReachesCycle(DepEdges(deps), r)
  {
    forall r | r in remaining.Keys ensures Stuck(deps, remaining.Keys, r) {
      var d :| d in remaining[r];
      assert d in Wanted(deps, r);
    }
    StuckReachesCycle(deps, remaining.Keys);
  }

  /** What has been removed: in dependency order, and clear of cycles. */
  ghost predicate Peeled(deps: map<string, seq<string>>, remaining: map<string, set<string>>, order: seq<string>) {
    && (forall r :: r in order <==> r in deps && r !in remaining)
    && Topological(deps, order)
    && forall r :: r in order ==> !ReachesCycle(DepEdges(deps), r)
  }

  /** A ref that waits for nothing depends only on removed refs. */
  lemma ReadyIsClear(deps: map<string, seq<string>>, remaining: map<string, set<string>>, ready: seq<string>,
                     order: seq<string>, done: string)
    requires done in ready && Peeling(deps, remaining, ready) && Peeled(deps, remaining, order)
    requires forall d :: d in deps[done] ==> d in deps
    ensures done in remaining && Peeled(deps, remaining - {done}, order + [done])
  {
    forall d | d in deps[done] ensures d in order {
      assert d in Wanted(deps, done) && d !in remaining[done];
    }
    PeeledIsClear(deps, done);
    TopologicalAppend(deps, order, done);
  }

  lemma WaitingWithout(deps: map<string, seq<string>>, remaining: map<string, set<string>>, ready: seq<string>)
    requires ready != [] && Peeling(deps, remaining, ready)
    ensures var done, rest, later := ready[|ready| - 1], ready[..|ready| - 1], remaining - {ready[|ready| - 1]};
      && |later.Keys| < |remaining.Keys|
      && (forall r :: r in later ==> later[r] == Wanted(deps, r) * (later.Keys + {done}))
      && (forall r :: r in rest <==> r in later && later[r] == {}) && Distinct(rest)
  {
    var done, rest, later := ready[|ready| - 1], ready[..|ready| - 1], remaining - {ready[|ready| - 1]};
    assert ready == rest + [done];
    assert done in remaining && later.Keys == remaining.Keys - {done};
    assert later.Keys + {done} == remaining.Keys;
  }

  /** The loop state: what each remaining ref still waits for, and which wait for nothing. */
  ghost predicate Peeling(deps: map<string, seq<string>>, remaining: map<string, set<string>>, ready: seq<string>) {
    && remaining.Keys <= deps.Keys
    && (forall r :: r in remaining ==> remaining[r] == Wanted(deps, r) * remaining.Keys)
    && (forall r :: r in ready <==> r in remaining && remaining[r] == {})
    && Distinct(ready)
  }

  method WithoutDependencies(refs: seq<string>, remaining: map<string, set<string>>) returns (ready: seq<string>)
    requires Distinct(refs) && forall r :: r in refs <==> r in remaining
    ensures (forall r :: r in ready <==> r in remaining && remaining[r] == {}) && Distinct(ready)
  {
    ready := [];
    for i := 0 to |refs|
      invariant forall r :: r in ready <==> r in refs[..i] && remaining[r] == {}
      invariant Distinct(ready)
    {
      assert refs[..i + 1] == refs[..i] + [refs[i]];
      if remaining[refs[i]] == {} {
        ready := ready + [refs[i]];
      }
    }
    assert refs[..|refs|] == refs;
  }

  lemma DiscardKeepsPeeling(deps: map<string, seq<string>>, before: map<string, set<string>>,
                            remaining: map<string, set<string>>, ready: seq<string>, done: string)
    requires before.Keys <= deps.Keys && done !in before && remaining.Keys == before.Keys
    requires forall r :: r in before ==> before[r] == Wanted(deps, r) * (before.Keys + {done})
    requires forall r :: r in before ==> remaining[r] == before[r] - {done}
    requires (forall r :: r in ready <==> r in remaining && remaining[r] == {}) && Distinct(ready)
    ensures Peeling(deps, remaining, ready)
  {
    forall r | r in remaining ensures remaining[r] == Wanted(deps, r) * remaining.Keys {
    }
  }

  /** The inner loop: forget `done` everywhere, in payload order. */
  method Discard(refs: seq<string>, before: map<string, set<string>>, ready0: seq<string>, done: string)
    returns (remaining: map<string, set<string>>, ready: seq<string>)
    requires Distinct(refs) && forall r :: r in before ==> r in refs
    requires (forall r :: r in ready0 <==> r in before && before[r] == {}) && Distinct(ready0)
    ensures remaining.Keys == before.Keys && forall r :: r in before ==> remaining[r] == before[r] - {done}
    ensures (forall r :: r in ready <==> r in remaining && remaining[r] == {}) && Distinct(ready)
  {
    remaining, ready := before, ready0;
    for i := 0 to |refs|
      invariant remaining.Keys == before.Keys
      invariant forall j :: 0 <= j < i && refs[j] in before ==> remaining[refs[j]] == before[refs[j]] - {done}
      invariant forall j :: i <= j < |refs| && refs[j] in before ==> remaining[refs[j]] == before[refs[j]]
      invariant (forall r :: r in ready <==> r in remaining && remaining[r] == {}) && Distinct(ready)
    {
      var ref := refs[i];
      if ref in remaining && done in remaining[ref] {
        remaining := remaining[ref := remaining[ref] - {done}];
        if remaining[ref] == {} {
          ready := ready + [ref];
        }
      }
    }
    forall r | r in before ensures remaining[r] == before[r] - {done} {
      var j :| 0 <= j < |refs| && refs[j] == r;
    }
  }

  // ---- validation ----

  method CheckShape(entries: seq<Entry>) returns (r: Result<map<string, seq<string>>, Error>)
    ensures r.Err? ==> ShapeError(entries, 0) == Some(r.error)
    ensures r.Ok? ==> ShapeError(entries, 0).None? && r.value == DepsOf(entries, |entries|)
  {
    var deps := map[];
    for i := 0 to |entries|
      invariant ShapeError(entries, 0) == ShapeError(entries, i)
      invariant deps == DepsOf(entries, i)
      invariant forall k :: k in deps <==> exists j :: 0 <= j < i && RefAt(entries, j) == k
    {
      var e := entries[i];
      if e.unknown != {} { return Err(UnknownFields(i)); }
      if e.ref.None? || Text.Blank(e.ref.value) { return Err(RefRequired(i)); }
      if e.ref.value in deps { return Err(DuplicateRef(e.ref.value)); }
      if Text.Blank(e.title) { return Err(TitleRequired(i)); }
      deps := deps[e.ref.value := Unique(e.dependsOn)];
    }
    return Ok(deps);
  }

  /** ref -> its dependencies without repetitions, for the first n entries. */
  ghost function DepsOf(entries: seq<Entry>, n: nat): map<string, seq<string>>
    requires n <= |entries|
  {
    if n == 0 then map[] else DepsOf(entries, n - 1)[RefAt(entries, n - 1) := Unique(entries[n - 1].dependsOn)]
  }

  method CheckWanted(ref: string, wanted: seq<string>, known: set<string>, ghost entries: seq<Entry>)
    returns (r: Option<Error>)
    requires known == Refs(entries)
    ensures r == WantedError(entries, ref, wanted, 0)
  {
    for j := 0 to |wanted|
      invariant WantedError(entries, ref, wanted, 0) == WantedError(entries, ref, wanted, j)
    {
      if wanted[j] == ref { return Some(BatchSelfDependency(ref)); }
      if wanted[j] !in known { return Some(UnknownRef(ref, wanted[j])); }
    }
    return None;
  }

  method CheckRefs(entries: seq<Entry>, deps: map<string, seq<string>>) returns (r: Option<Error>)
    requires ShapeError(entries, 0).None? && deps == DepsOf(entries, |entries|)
    ensures r == RefError(entries, 0)
  {
    DepsOfKeySet(entries);
    for i := 0 to |entries|
      invariant RefError(entries, 0) == RefError(entries, i)
    {
      DepsOfAt(entries, |entries|, i);
      r := CheckWanted(RefAt(entries, i), deps[RefAt(entries, i)], deps.Keys, entries);
      if r.Some? { return; }
    }
    return None;
  }

  method CheckCycles(entries: seq<Entry>, deps: map<string, seq<string>>) returns (left: set<string>)
    requires ShapeError(entries, 0).None? && RefError(entries, 0).None? && deps == DepsOf(entries, |entries|)
    ensures left == Cyclic(entries)
  {
    DepsOfKeySet(entries);
    DepsOfEdges(entries);
    var refs := seq(|entries|, i requires 0 <= i < |entries| => RefAt(entries, i));
    forall i, j | 0 <= i < j < |refs| ensures refs[i] != refs[j] {
      DistinctRefs(entries, i, j);
    }
    forall r ensures r in refs <==> r in deps {
      assert r in refs ==> exists i :: 0 <= i < |entries| && RefAt(entries, i) == r;
      if i :| 0 <= i < |entries| && RefAt(entries, i) == r {
        assert refs[i] == r;
      }
    }
    forall r, d | r in deps && d in deps[r] ensures d in deps {
      assert (r, d) in DepEdges(deps);
      DependenciesKnown(entries, r, d);
    }
    ghost var order;
    left, order := Peel(refs, deps);
  }

  method Validate(entries: seq<Entry>) returns (r: Result<map<string, seq<string>>, Error>)
    ensures r.Err? ==> Refusal(entries) == Some(r.error)
    ensures r.Ok? ==> Refusal(entries).None? && r.value == DepsOf(entries, |entries|)
  {
    if entries == [] { return Err(EmptyBatch); }
    if |entries| > MAX_BATCH { return Err(BatchTooLarge); }
    r := CheckShape(entries);
    if r.Err? { return; }
    var bad := CheckRefs(entries, r.value);
    if bad.Some? { return Err(bad.value); }
    var left := CheckCycles(entries, r.value);
    if left != {} { return Err(BatchCycle(left)); }
  }

  // ---- facts about well-shaped payloads ----

  lemma {:induction false} ShapeOkAt(entries: seq<Entry>, i: nat, j: nat)
    requires i <= j < |entries| && ShapeError(entries, i).None?
    ensures EntryError(entries, j).None?
    decreases |entries| - i
  {
    if i < j {
      ShapeOkAt(entries, i + 1, j);
    }
  }

  ghost predicate HasRef(entries: seq<Entry>, n: nat, k: string)
    requires n <= |entries|
  {
    exists j :: 0 <= j < n && RefAt(entries, j) == k
  }

  lemma {:induction false} DepsOfKeys(entries: seq<Entry>, n: nat, k: string)
    requires n <= |entries|
    ensures k in DepsOf(entries, n) <==> HasRef(entries, n, k)
    decreases n
  {
    if n > 0 {
      DepsOfKeys(entries, n - 1, k);
    }
  }

  lemma {:induction false} DepsOfAt(entries: seq<Entry>, n: nat, j: nat)
    requires j < n <= |entries| && ShapeError(entries, 0).None?
    ensures RefAt(entries, j) in DepsOf(entries, n)
    ensures DepsOf(entries, n)[RefAt(entries, j)] == Unique(entries[j].dependsOn)
    decreases n
  {
    if j < n - 1 {
      DepsOfAt(entries, n - 1, j);
      DistinctRefs(entries, j, n - 1);
    }
  }

  lemma DistinctRefs(entries: seq<Entry>, i: nat, j: nat)
    requires ShapeError(entries, 0).None? && i < j < |entries|
    ensures RefAt(entries, i) != RefAt(entries, j)
  {
    ShapeOkAt(entries, 0, j);
  }

  lemma DepsOfKeySet(entries: seq<Entry>)
    ensures DepsOf(entries, |entries|).Keys == Refs(entries)
  {
    var deps := DepsOf(entries, |entries|);
    forall k ensures k in deps <==> k in Refs(entries) {
      DepsOfKeys(entries, |entries|, k);
    }
  }

  lemma DepsOfEdges(entries: seq<Entry>)
    requires ShapeError(entries, 0).None?
    ensures DepEdges(DepsOf(entries, |entries|)) == PayloadEdges(entries)
  {
    var deps := DepsOf(entries, |entries|);
    DepsOfKeySet(entries);
    forall e | e in DepEdges(deps) ensures e in PayloadEdges(entries) {
      var i :| 0 <= i < |entries| && RefAt(entries, i) == e.0;
      DepsOfAt(entries, |entries|, i);
      UniqueExact(entries[i].dependsOn);
    }
    forall e | e in PayloadEdges(entries) ensures e in DepEdges(deps) {
      var i, d :| 0 <= i < |entries| && d in entries[i].dependsOn && e == (RefAt(entries, i), d);
      DepsOfAt(entries, |entries|, i);
      UniqueExact(entries[i].dependsOn);
    }
  }

  lemma {:induction false} WantedKnown(entries: seq<Entry>, ref: string, wanted: seq<string>, j: nat)
    requires j <= |wanted|
    ensures WantedError(entries, ref, wanted, j).None?
      <==> forall k :: j <= k < |wanted| ==> wanted[k] != ref && wanted[k] in Refs(entries)
    decreases |wanted| - j
  {
    if j < |wanted| {
      WantedKnown(entries, ref, wanted, j + 1);
    }
  }

  ghost predicate DepsKnown(entries: seq<Entry>, k: nat)
    requires k < |entries|
  {
    forall d :: d in entries[k].dependsOn ==> d != RefAt(entries, k) && d in Refs(entries)
  }

  /** No ref error: every dependency names another entry. */
  lemma {:induction false} RefsKnown(entries: seq<Entry>, i: nat)
    requires i <= |entries|
    ensures RefError(entries, i).None? <==> forall k :: i <= k < |entries| ==> DepsKnown(entries, k)
    decreases |entries| - i
  {
    if i < |entries| {
      var u := Unique(entries[i].dependsOn);
      UniqueExact(entries[i].dependsOn);
      WantedKnown(entries, RefAt(entries, i), u, 0);
      RefsKnown(entries, i + 1);
      forall k | 0 <= k < |u| && DepsKnown(entries, i) ensures u[k] != RefAt(entries, i) && u[k] in Refs(entries) {
        assert u[k] in u;
      }
      if forall k :: 0 <= k < |u| ==> u[k] != RefAt(entries, i) && u[k] in Refs(entries) {
        forall d | d in entries[i].dependsOn ensures d != RefAt(entries, i) && d in Refs(entries) {
          assert d in u;
        }
      }
    }
  }

  lemma DependenciesKnown(entries: seq<Entry>, r: string, d: string)
    requires RefError(entries, 0).None? && (r, d) in PayloadEdges(entries)
    ensures r != d && d in Refs(entries)
  {
    RefsKnown(entries, 0);
    var i :| 0 <= i < |entries| && d in entries[i].dependsOn && RefAt(entries, i) == r;
    assert DepsKnown(entries, i);
  }

  // ---- creation ----

  /** The first n tasks of the payload, staged in order; `ids` are the ids drawn for them. */
  ghost function StageAll(db: Db, pid: Id, entries: seq<Entry>, ids: nat -> Id, n: nat): Result<Db, Error>
    requires n <= |entries|
  {
    if n == 0 then Ok(db)
    else
      var before := StageAll(db, pid, entries, ids, n - 1);
      if before.Err? then before else AddTask(before.value, pid, entries[n - 1].spec, ids(n - 1))
  }

  ghost function ByRef(entries: seq<Entry>, ids: nat -> Id, n: nat): map<string, Id>
    requires n <= |entries|
  {
    if n == 0 then map[] else ByRef(entries, ids, n - 1)[RefAt(entries, n - 1) := ids(n - 1)]
  }

  function Look(byRef: map<string, Id>, ref: string): Id {
    if ref in byRef then byRef[ref] else ""
  }

  /** The edges of one task, in the order its dependencies are first named. */
  ghost function EntryEdges(byRef: map<string, Id>, ref: string, wanted: seq<string>): seq<(Id, Id)> {
    seq(|wanted|, j requires 0 <= j < |wanted| => (Look(byRef, ref), Look(byRef, wanted[j])))
  }

  ghost function BatchEdges(entries: seq<Entry>, byRef: map<string, Id>, n: nat): seq<(Id, Id)>
    requires n <= |entries|
  {
    if n == 0 then []
    else BatchEdges(entries, byRef, n - 1) + EntryEdges(byRef, RefAt(entries, n - 1), Unique(entries[n - 1].dependsOn))
  }

  /** Plain inserts, without any cycle check. */
  ghost function InsertEdges(db: Db, pid: Id, edges: seq<(Id, Id)>, rowIds: nat -> Id): Result<Db, Error> {
    if edges == [] then Ok(db)
    else
      var k := |edges| - 1;
      var before := InsertEdges(db, pid, edges[..k], rowIds);
      if before.Err? then before
      else if rowIds(k) in before.value.rows then Err(IdClash)
      else Ok(before.value.(rows := before.value.rows[rowIds(k) := Row(pid, edges[k].0, edges[k].1, DependsOn)]))
  }

  ghost function Plan(db: Db, pid: Id, entries: seq<Entry>, ids: nat -> Id, rowIds: nat -> Id): Result<Db, Error> {
    if Refusal(entries).Some? then Err(Refusal(entries).value)
    else
      var staged := StageAll(db, pid, entries, ids, |entries|);
      if staged.Err? then staged
      else InsertEdges(staged.value, pid, BatchEdges(entries, ByRef(entries, ids, |entries|), |entries|), rowIds)
  }

  ghost function CreatePlan(db: Db, pid: Id, entries: seq<Entry>, ids: nat -> Id, rowIds: nat -> Id)
    : (Db, Result<(), Error>)
  {
    Commit(db, Plan(db, pid, entries, ids, rowIds))
  }

  lemma {:induction false} StageAllStops(db: Db, pid: Id, entries: seq<Entry>, ids: nat -> Id, m: nat, n: nat)
    requires m <= n <= |entries| && StageAll(db, pid, entries, ids, m).Err?
    ensures StageAll(db, pid, entries, ids, n) == StageAll(db, pid, entries, ids, m)
    decreases n - m
  {
    hide AddTask;
    if m < n {
      StageAllStops(db, pid, entries, ids, m + 1, n);
    }
  }

  lemma {:induction false} InsertEdgesStops(db: Db, pid: Id, first: seq<(Id, Id)>, rest: seq<(Id, Id)>,
                                            rowIds: nat -> Id)
    requires InsertEdges(db, pid, first, rowIds).Err?
    ensures InsertEdges(db, pid, first + rest, rowIds) == InsertEdges(db, pid, first, rowIds)
    decreases |rest|
  {
    if rest == [] {
      assert first + rest == first;
    } else {
      var k := |rest| - 1;
      InsertEdgesStops(db, pid, first, rest[..k], rowIds);
      assert (first + rest)[..|first| + k] == first + rest[..k];
    }
  }

  lemma {:induction false} BatchEdgesSplit(entries: seq<Entry>, byRef: map<string, Id>, m: nat, n: nat)
    returns (rest: seq<(Id, Id)>)
    requires m <= n <= |entries|
    ensures BatchEdges(entries, byRef, n) == BatchEdges(entries, byRef, m) + rest
    decreases n - m
  {
    if m == n {
      rest := [];
    } else {
      var tail := BatchEdgesSplit(entries, byRef, m + 1, n);
      rest := EntryEdges(byRef, RefAt(entries, m), Unique(entries[m].dependsOn)) + tail;
    }
  }

  lemma {:induction false} StageAllKeepsInv(db: Db, pid: Id, entries: seq<Entry>, ids: nat -> Id, n: nat)
    requires Inv(db) && n <= |entries| && StageAll(db, pid, entries, ids, n).Ok?
    ensures Inv(StageAll(db, pid, entries, ids, n).value)
  {
    hide Inv, AddTask;
    if n > 0 {
      StageAllKeepsInv(db, pid, entries, ids, n - 1);
      AddTaskKeepsInv(StageAll(db, pid, entries, ids, n - 1).value, pid, entries[n - 1].spec, ids(n - 1));
    }
  }

  // ---- the tasks as asked for ----

  /** The tasks there are when entry i is staged: the old ones and those of earlier entries. */
  ghost function Before(db: Db, ids: nat -> Id, i: nat): set<Id> {
    db.tasks.Keys + set j: nat | j < i :: ids(j)
  }

  /** Entry i became task ids(i): in the project, with the entry's own status, the
      next number in a row, and the parent its own field names. */
  ghost predicate EntryMade(db: Db, pid: Id, entries: seq<Entry>, ids: nat -> Id, i: nat, tasks: map<Id, Task>)
    requires pid in db.projects && i < |entries|
  {
    var p := db.projects[pid];
    && ids(i) !in Before(db, ids, i)
    && HasFields(tasks, Before(db, ids, i), ids(i), pid, entries[i].spec, p.prefix + "-" + Keys.Decimal(p.nextNumber + i))
  }

  /** The first n entries became tasks; no other task changed, and the project's
      counter advanced by n. */
  ghost predicate TasksMade(db: Db, pid: Id, entries: seq<Entry>, ids: nat -> Id, n: nat, after: Db) {
    && (pid in db.projects || n == 0) && n <= |entries|
    && after.tasks.Keys == Before(db, ids, n) && TasksKept(db.tasks, after.tasks)
    && (forall i: nat :: i < n ==> EntryMade(db, pid, entries, ids, i, after.tasks))
    && (pid in db.projects ==>
          var p := db.projects[pid];
          after.projects == db.projects[pid := Project(p.prefix, p.nextNumber + n)])
    && (pid !in db.projects ==> after.projects == db.projects)
  }

  lemma EntryStaysMade(db: Db, pid: Id, entries: seq<Entry>, ids: nat -> Id, i: nat, tasks: map<Id, Task>,
                       after: map<Id, Task>)
    requires pid in db.projects && i < |entries| && EntryMade(db, pid, entries, ids, i, tasks) && TasksKept(tasks, after)
    ensures EntryMade(db, pid, entries, ids, i, after)
  {
  }

  lemma BeforeStep(db: Db, ids: nat -> Id, n: nat)
    ensures Before(db, ids, n + 1) == Before(db, ids, n) + {ids(n)}
  {
  }

  lemma OneMoreMade(db: Db, pid: Id, entries: seq<Entry>, ids: nat -> Id, n: nat, mid: Db, after: Db)
    requires n < |entries| && TasksMade(db, pid, entries, ids, n, mid)
    requires TaskMade(mid, pid, entries[n].spec, ids(n), after)
    ensures TasksMade(db, pid, entries, ids, n + 1, after)
  {
    BeforeStep(db, ids, n);
    hide HasFields, Before;
    forall i: nat | i < n ensures EntryMade(db, pid, entries, ids, i, after.tasks) {
      EntryStaysMade(db, pid, entries, ids, i, mid.tasks, after.tasks);
    }
  }

  lemma NothingMade(db: Db, pid: Id, entries: seq<Entry>, ids: nat -> Id)
    ensures TasksMade(db, pid, entries, ids, 0, db)
  {
    assert Before(db, ids, 0) == db.tasks.Keys;
  }

  /** Staging gives every task the fields of its own entry. */
  lemma {:induction false} StageAllMakes(db: Db, pid: Id, entries: seq<Entry>, ids: nat -> Id, n: nat)
    requires Inv(db) && n <= |entries| && StageAll(db, pid, entries, ids, n).Ok?
    ensures TasksMade(db, pid, entries, ids, n, StageAll(db, pid, entries, ids, n).value)
    decreases n
  {
    hide Inv, AddTask, Creatable, TaskMade, TasksMade;
    if n == 0 {
      NothingMade(db, pid, entries, ids);
    } else {
      var mid := StageAll(db, pid, entries, ids, n - 1).value;
      StageAllMakes(db, pid, entries, ids, n - 1);
      StageAllKeepsInv(db, pid, entries, ids, n - 1);
      AddTaskMeaning(mid, pid, entries[n - 1].spec, ids(n - 1));
      OneMoreMade(db, pid, entries, ids, n - 1, mid, StageAll(db, pid, entries, ids, n).value);
    }
  }

  method StageNext(store: TaskStore.Store, pid: Id, entries: seq<Entry>, ids: nat -> Id, i: nat, ghost db: Db)
    returns (r: Result<(), Error>)
    requires Inv(db) && i < |entries| && StageAll(db, pid, entries, ids, i) == Ok(store.State())
    modifies store`tasks, store`projects
    ensures r.Ok? ==> StageAll(db, pid, entries, ids, i + 1) == Ok(store.State())
    ensures r.Err? ==> StageAll(db, pid, entries, ids, |entries|) == Err(r.error)
  {
    StageAllKeepsInv(db, pid, entries, ids, i);
    r := store.StageTask(pid, entries[i].spec, ids(i));
    if r.Err? {
      StageAllStops(db, pid, entries, ids, i + 1, |entries|);
    }
  }

  /** Stages every task, keeping the ids by ref. */
  method StageTasks(store: TaskStore.Store, pid: Id, entries: seq<Entry>, ids: nat -> Id)
    returns (r: Result<map<string, Id>, Error>)
    requires store.Valid()
    modifies store`tasks, store`projects
    ensures r.Ok? ==> r.value == ByRef(entries, ids, |entries|)
    ensures r.Ok? ==> StageAll(old(store.State()), pid, entries, ids, |entries|) == Ok(store.State())
    ensures r.Ok? ==> TasksMade(old(store.State()), pid, entries, ids, |entries|, store.State())
    ensures r.Err? ==> StageAll(old(store.State()), pid, entries, ids, |entries|) == Err(r.error)
  {
    hide TasksMade;
    var byRef := map[];
    ghost var db := store.State();
    for i := 0 to |entries|
      invariant StageAll(db, pid, entries, ids, i) == Ok(store.State())
      invariant byRef == ByRef(entries, ids, i)
    {
      var staged := StageNext(store, pid, entries, ids, i, db);
      if staged.Err? { return Err(staged.error); }
      byRef := byRef[RefAt(entries, i) := ids(i)];
    }
    StageAllMakes(db, pid, entries, ids, |entries|);
    return Ok(byRef);
  }

  lemma InsertOneMore(db: Db, pid: Id, before: seq<(Id, Id)>, e: (Id, Id), rowIds: nat -> Id)
    requires InsertEdges(db, pid, before, rowIds).Ok?
    ensures var mid, id := InsertEdges(db, pid, before, rowIds).value, rowIds(|before|);
      InsertEdges(db, pid, before + [e], rowIds)
      == if id in mid.rows then Err(IdClash) else Ok(mid.(rows := mid.rows[id := Row(pid, e.0, e.1, DependsOn)]))
  {
    assert (before + [e])[..|before|] == before;
  }

  /** Inserts the dependency rows of one task. */
  method InsertWanted(store: TaskStore.Store, pid: Id, byRef: map<string, Id>, ref: string, wanted: seq<string>,
                      rowIds: nat -> Id, first: nat, ghost db: Db, ghost before: seq<(Id, Id)>)
    returns (ok: bool)
    requires first == |before| && InsertEdges(db, pid, before, rowIds) == Ok(store.State())
    modifies store`rows
    ensures var after := InsertEdges(db, pid, before + EntryEdges(byRef, ref, wanted), rowIds);
      if after.Ok? then ok && store.State() == after.value else !ok && after == Err(IdClash)
  {
    ghost var all := EntryEdges(byRef, ref, wanted);
    assert before + all[..0] == before;
    for j := 0 to |wanted|
      invariant InsertEdges(db, pid, before + all[..j], rowIds) == Ok(store.State())
    {
      Splice(before, all, j);
      InsertOneMore(db, pid, before + all[..j], all[j], rowIds);
      if rowIds(first + j) in store.rows {
        InsertEdgesStops(db, pid, before + all[..j + 1], all[j + 1..], rowIds);
        return false;
      }
      store.rows := store.rows[rowIds(first + j) := Row(pid, Look(byRef, ref), Look(byRef, wanted[j]), DependsOn)];
    }
    assert all[..|wanted|] == all;
    return true;
  }

  lemma Splice(before: seq<(Id, Id)>, all: seq<(Id, Id)>, j: nat)
    requires j < |all|
    ensures before + all[..j] + [all[j]] == before + all[..j + 1]
    ensures before + all[..j + 1] + all[j + 1..] == before + all
  {
  }

  lemma InsertsStop(db: Db, pid: Id, entries: seq<Entry>, byRef: map<string, Id>, rowIds: nat -> Id, n: nat)
    requires n <= |entries| && InsertEdges(db, pid, BatchEdges(entries, byRef, n), rowIds).Err?
    ensures InsertEdges(db, pid, BatchEdges(entries, byRef, |entries|), rowIds)
      == InsertEdges(db, pid, BatchEdges(entries, byRef, n), rowIds)
  {
    var rest := BatchEdgesSplit(entries, byRef, n, |entries|);
    InsertEdgesStops(db, pid, BatchEdges(entries, byRef, n), rest, rowIds);
  }

  /** The rows of entry i, given that those of the entries before it are in. */
  method InsertEntry(store: TaskStore.Store, pid: Id, entries: seq<Entry>, wanted: seq<string>,
                     byRef: map<string, Id>, rowIds: nat -> Id, i: nat, k: nat, ghost db: Db)
    returns (ok: bool)
    requires i < |entries| && wanted == Unique(entries[i].dependsOn) && k == |BatchEdges(entries, byRef, i)|
    requires InsertEdges(db, pid, BatchEdges(entries, byRef, i), rowIds) == Ok(store.State())
    modifies store`rows
    ensures k + |wanted| == |BatchEdges(entries, byRef, i + 1)|
    ensures ok ==> InsertEdges(db, pid, BatchEdges(entries, byRef, i + 1), rowIds) == Ok(store.State())
    ensures !ok ==> InsertEdges(db, pid, BatchEdges(entries, byRef, |entries|), rowIds) == Err(IdClash)
  {
    ok := InsertWanted(store, pid, byRef, RefAt(entries, i), wanted, rowIds, k, db, BatchEdges(entries, byRef, i));
    if !ok {
      InsertsStop(db, pid, entries, byRef, rowIds, i + 1);
    }
  }

  lemma NothingInserted(db: Db, pid: Id, entries: seq<Entry>, byRef: map<string, Id>, rowIds: nat -> Id)
    ensures BatchEdges(entries, byRef, 0) == []
    ensures InsertEdges(db, pid, BatchEdges(entries, byRef, 0), rowIds) == Ok(db)
  {
  }

  method InsertAll(store: TaskStore.Store, pid: Id, entries: seq<Entry>, deps: map<string, seq<string>>,
                   byRef: map<string, Id>, rowIds: nat -> Id)
    returns (ok: bool)
    requires ShapeError(entries, 0).None? && deps == DepsOf(entries, |entries|)
    modifies store`rows
    ensures var after := InsertEdges(old(store.State()), pid, BatchEdges(entries, byRef, |entries|), rowIds);
      if after.Ok? then ok && store.State() == after.value else !ok && after == Err(IdClash)
  {
    hide ShapeError, DepsOf, BatchEdges, InsertEdges, Unique, RefAt;
    ghost var db := store.State();
    var k := 0;
    NothingInserted(db, pid, entries, byRef, rowIds);
    for i := 0 to |entries|
      invariant k == |BatchEdges(entries, byRef, i)|
      invariant InsertEdges(db, pid, BatchEdges(entries, byRef, i), rowIds) == Ok(store.State())
    {
      DepsOfAt(entries, |entries|, i);
      var wanted := deps[RefAt(entries, i)];
      ok := InsertEntry(store, pid, entries, wanted, byRef, rowIds, i, k, db);
      if !ok { return; }
      k := k + |wanted|;
    }
    return true;
  }
}

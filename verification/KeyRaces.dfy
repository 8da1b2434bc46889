/** Task keys under concurrent creates.  A create reads its project's counter and
    later writes the task and the counter's next value, computed from what it read.
    Other creates and deletes may commit in between; the database refuses a key that
    a task of the project carries.  Keys are kept as project and number. */
module KeyRaces {
  import Keys
  import opened TaskState

  /** The number a caller has read from its project's counter. */
  datatype Ticket = Ticket(project: Id, number: nat)

  /** `Write` gives out `count` numbers in a row, which is one for a single task. */
  datatype Step =
    | NewProject(project: Id)
    | Read(caller: nat, project: Id)
    | Write(caller: nat, count: nat)
    | Delete(project: Id, number: nat)

  /** `given` remembers every key ever given to a task. */
  datatype State = State(counters: map<Id, nat>, live: set<(Id, nat)>, given: set<(Id, nat)>, tickets: map<nat, Ticket>)

  const START := State(map[], {}, {}, map[])

  function Numbers(k: Ticket, count: nat): set<(Id, nat)> {
    set n | k.number <= n < k.number + count :: (k.project, n)
  }

  /** The write goes through: its keys are free and its project exists. */
  predicate Writes(s: State, step: Step) {
    && step.Write? && step.caller in s.tickets && step.count > 0
    && s.tickets[step.caller].project in s.counters && Numbers(s.tickets[step.caller], step.count) !! s.live
  }

  function Next(s: State, step: Step): State {
    match step
    case NewProject(p) => if p in s.counters then s else s.(counters := s.counters[p := 1])
    case Read(c, p) =>
      if p !in s.counters then s else s.(tickets := s.tickets[c := Ticket(p, s.counters[p])])
    case Write(c, count) =>
      if c !in s.tickets then s
      else if !Writes(s, step) then s.(tickets := s.tickets - {c})
      else
        var k := s.tickets[c];
        var keys := Numbers(k, count);
        State(s.counters[k.project := k.number + count], s.live + keys, s.given + keys, s.tickets - {c})
    case Delete(p, n) => s.(live := s.live - {(p, n)})
  }

  function Run(steps: seq<Step>): State {
    if steps == [] then START else Next(Run(steps[..|steps| - 1]), steps[|steps| - 1])
  }

  /** The step gives a key to a task that another task was given before. */
  predicate Reissues(s: State, step: Step) {
    Writes(s, step) && !(Numbers(s.tickets[step.caller], step.count) !! s.given)
  }

  /** If the write goes through, the counter still is what the caller read. */
  predicate Fresh(s: State, step: Step) {
    Writes(s, step) ==> s.counters[s.tickets[step.caller].project] == s.tickets[step.caller].number
  }

  /** Exactly the numbers below a project's counter have been given. */
  ghost predicate Inv(s: State) {
    && (forall p, n: nat :: (p, n) in s.given <==> p in s.counters && 1 <= n < s.counters[p])
    && s.live <= s.given
    && (forall p :: p in s.counters ==> s.counters[p] >= 1)
    && forall c :: c in s.tickets ==>
      s.tickets[c].project in s.counters && 1 <= s.tickets[c].number <= s.counters[s.tickets[c].project]
  }

  /** As long as all writes were fresh: a write reissues a key exactly when it is not fresh. */
  lemma ReissueExact(s: State, step: Step)
    requires Inv(s)
    ensures Reissues(s, step) <==> !Fresh(s, step)
  {
    if Writes(s, step) {
      var k := s.tickets[step.caller];
      if !Fresh(s, step) {
        assert (k.project, k.number) in s.given && (k.project, k.number) in Numbers(k, step.count);
      }
    }
  }

  lemma NextKeepsInv(s: State, step: Step)
    requires Inv(s) && Fresh(s, step)
    ensures Inv(Next(s, step))
  {
  }

  // ---- whole interleavings ----

  ghost predicate AllFresh(steps: seq<Step>) {
    steps == [] || (AllFresh(steps[..|steps| - 1]) && Fresh(Run(steps[..|steps| - 1]), steps[|steps| - 1]))
  }

  ghost predicate NeverReissues(steps: seq<Step>) {
    steps == [] || (NeverReissues(steps[..|steps| - 1]) && !Reissues(Run(steps[..|steps| - 1]), steps[|steps| - 1]))
  }

  /** However creates and deletes interleave, no key is ever given a second time
      exactly when every create that goes through finds the counter it has read. */
  lemma {:induction false} NeverReissuedExact(steps: seq<Step>)
    ensures NeverReissues(steps) <==> AllFresh(steps)
    ensures AllFresh(steps) ==> Inv(Run(steps))
    decreases |steps|
  {
    if steps != [] {
      var first, last := steps[..|steps| - 1], steps[|steps| - 1];
      NeverReissuedExact(first);
      if AllFresh(first) {
        ReissueExact(Run(first), last);
        if Fresh(Run(first), last) { NextKeepsInv(Run(first), last); }
      }
    }
  }

  /** The printed keys are as distinct as their projects and numbers. */
  lemma PrintedKeysDiffer(projects: map<Id, Project>, p: Id, m: nat, q: Id, n: nat)
    requires PrefixesSound(projects) && p in projects && q in projects && (p, m) != (q, n)
    ensures Keys.Render(projects[p].prefix, m) != Keys.Render(projects[q].prefix, n)
  {
    if Keys.Render(projects[p].prefix, m) == Keys.Render(projects[q].prefix, n) {
      Keys.RenderInjective(projects[p].prefix, m, projects[q].prefix, n);
    }
  }

  // ---- a key given twice ----

  /** One create reads the counter; another one creates a task, which is deleted;
      then the first one writes. */
  function StaleCreate(): seq<Step> {
    [NewProject("p"), Read(0, "p"), Read(1, "p"), Write(1, 1), Delete("p", 1), Write(0, 1)]
  }

  lemma RunStep(steps: seq<Step>, step: Step)
    ensures Run(steps + [step]) == Next(Run(steps), step)
  {
    assert (steps + [step])[..|steps|] == steps;
  }

  lemma UpToTheReads()
    ensures Run(StaleCreate()[..3]) == State(map["p" := 1], {}, {}, map[0 := Ticket("p", 1), 1 := Ticket("p", 1)])
  {
    var q := StaleCreate();
    RunStep([], q[0]);
    RunStep(q[..1], q[1]);
    RunStep(q[..2], q[2]);
    assert [] + [q[0]] == q[..1] && q[..1] + [q[1]] == q[..2] && q[..2] + [q[2]] == q[..3];
    assert Run([]) == START && Run(q[..1]) == START.(counters := map["p" := 1]);
  }

  lemma OneNumber(k: Ticket)
    ensures Numbers(k, 1) == {(k.project, k.number)}
  {
  }

  /** The database lets it pass, and the key of the deleted task is given again. */
  lemma StaleCreateReissues()
    ensures Reissues(Run(StaleCreate()[..5]), StaleCreate()[5]) && !NeverReissues(StaleCreate())
  {
    var q := StaleCreate();
    UpToTheReads();
    RunStep(q[..3], q[3]);
    RunStep(q[..4], q[4]);
    assert q[..3] + [q[3]] == q[..4] && q[..4] + [q[4]] == q[..5] && q[..5] + [q[5]] == q;
    OneNumber(Ticket("p", 1));
    assert Run(q[..4]) == State(map["p" := 2], {("p", 1)}, {("p", 1)}, map[0 := Ticket("p", 1)]);
    assert Run(q[..5]) == State(map["p" := 2], {}, {("p", 1)}, map[0 := Ticket("p", 1)]);
    assert ("p", 1) in Numbers(Ticket("p", 1), 1);
    assert q[..|q| - 1] == q[..5];
  }
}

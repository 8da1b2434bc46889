/** Key prefixes under concurrent project creation.  A create reads the prefixes in
    use, picks the first free one, and later writes its project.  Nothing in the
    database keeps prefixes apart. */
module PrefixRaces {
  import Keys

  type Id = string

  datatype Step = Choose(caller: nat, name: string) | Create(caller: nat, project: Id)

  /** The prefix of every project, and what callers have picked. */
  datatype State = State(prefixes: map<Id, string>, chosen: map<nat, string>)

  const START := State(map[], map[])

  ghost function FirstFreeOf(name: string, taken: set<string>): (p: string)
    ensures Keys.FirstFree(Keys.DerivePrefix(name), taken, p)
  {
    Keys.FirstFreeExists(Keys.DerivePrefix(name), taken);
    var p :| Keys.FirstFree(Keys.DerivePrefix(name), taken, p);
    p
  }

  predicate Creates(s: State, step: Step) {
    step.Create? && step.caller in s.chosen && step.project !in s.prefixes
  }

  ghost function Next(s: State, step: Step): State {
    match step
    case Choose(c, name) => s.(chosen := s.chosen[c := FirstFreeOf(name, s.prefixes.Values)])
    case Create(c, p) =>
      if !Creates(s, step) then s else State(s.prefixes[p := s.chosen[c]], s.chosen - {c})
  }

  ghost function Run(steps: seq<Step>): State {
    if steps == [] then START else Next(Run(steps[..|steps| - 1]), steps[|steps| - 1])
  }

  /** The prefix that is written still is free. */
  ghost predicate StillFree(s: State, step: Step) {
    Creates(s, step) ==> s.chosen[step.caller] !in s.prefixes.Values
  }

  ghost predicate Distinct(prefixes: map<Id, string>) {
    forall p, q :: p in prefixes && q in prefixes && prefixes[p] == prefixes[q] ==> p == q
  }

  ghost predicate AllFree(steps: seq<Step>) {
    steps == [] || (AllFree(steps[..|steps| - 1]) && StillFree(Run(steps[..|steps| - 1]), steps[|steps| - 1]))
  }

  lemma NextDistinct(s: State, step: Step)
    requires Distinct(s.prefixes)
    ensures Distinct(Next(s, step).prefixes) <==> StillFree(s, step)
  {
    if Creates(s, step) && !StillFree(s, step) {
      var q :| q in s.prefixes && s.prefixes[q] == s.chosen[step.caller];
      var after := Next(s, step).prefixes;
      assert after[q] == after[step.project];
    }
  }

  lemma DuplicatesStay(s: State, step: Step)
    requires !Distinct(s.prefixes)
    ensures !Distinct(Next(s, step).prefixes)
  {
    var p, q :| p in s.prefixes && q in s.prefixes && s.prefixes[p] == s.prefixes[q] && p != q;
    var after := Next(s, step).prefixes;
    assert p in after && q in after && after[p] == after[q];
  }

  /** However creates interleave, projects have different prefixes exactly when every
      prefix still was free when it was written. */
  lemma {:induction false} PrefixesDistinctExact(steps: seq<Step>)
    ensures Distinct(Run(steps).prefixes) <==> AllFree(steps)
    decreases |steps|
  {
    if steps != [] {
      var s := Run(steps[..|steps| - 1]);
      PrefixesDistinctExact(steps[..|steps| - 1]);
      if Distinct(s.prefixes) { NextDistinct(s, steps[|steps| - 1]); } else { DuplicatesStay(s, steps[|steps| - 1]); }
    }
  }

  // ---- one prefix for two projects ----

  /** Two creates of the same name both choose before either writes. */
  function TwoCreates(name: string): seq<Step> {
    [Choose(0, name), Choose(1, name), Create(0, "p"), Create(1, "q")]
  }

  lemma RunStep(steps: seq<Step>, step: Step)
    ensures Run(steps + [step]) == Next(Run(steps), step)
  {
    assert (steps + [step])[..|steps|] == steps;
  }

  lemma BothChoose(name: string) returns (prefix: string)
    ensures Run(TwoCreates(name)[..2]) == State(map[], map[0 := prefix, 1 := prefix])
  {
    var q := TwoCreates(name);
    prefix := FirstFreeOf(name, START.prefixes.Values);
    RunStep([], q[0]);
    RunStep(q[..1], q[1]);
    assert [] + [q[0]] == q[..1] && q[..1] + [q[1]] == q[..2];
    hide Keys.FirstFree, Keys.DerivePrefix;
    assert Run([]) == START && Run(q[..1]).prefixes == map[];
  }

  /** Then the tasks of two different projects carry the same keys. */
  lemma TwoProjectsShareKeys(name: string)
    ensures var s := Run(TwoCreates(name));
      && "p" in s.prefixes && "q" in s.prefixes && "p" != "q"
      && forall n: nat :: Keys.Render(s.prefixes["p"], n) == Keys.Render(s.prefixes["q"], n)
  {
    assert "p" != "q" by { assert "p"[0] != "q"[0]; }
    var q := TwoCreates(name);
    var prefix := BothChoose(name);
    RunStep(q[..2], q[2]);
    RunStep(q[..3], q[3]);
    assert q[..2] + [q[2]] == q[..3] && q[..3] + [q[3]] == q;
    hide Run, FirstFreeOf, Keys.Render, Distinct;
    var s := Run(q[..3]);
    assert s.prefixes == map["p" := prefix] && 1 in s.chosen && s.chosen[1] == prefix;
    assert Run(q).prefixes == map["p" := prefix, "q" := prefix];
  }
}

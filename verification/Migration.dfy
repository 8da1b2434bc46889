/** The one-off migration that gives every agent a profile of its own. */
module Migration {
  import opened Wrappers
  import Keys

  type Id = string

  /** `config` stands for the runtime settings copied from agent to profile. */
  datatype Profile = Profile(name: string, config: string)
  datatype Agent = Agent(id: Id, name: string, profile: Option<Id>, config: string)
  /** A run or message row: who it belongs to, before and after. */
  datatype Owned = Owned(agent: Id, profile: Option<Id>)

  const NAME_LIMIT := 80

  function BaseName(a: Agent): string {
    var n := if a.name != "" then a.name else a.id;
    var cut := if |n| > NAME_LIMIT then n[..NAME_LIMIT] else n;
    if cut != "" then cut else "agent"
  }

  /** The first 80 characters of the name, or of the id where there is no name. */
  lemma BaseNameMeaning(a: Agent)
    ensures a.name != "" ==> BaseName(a) <= a.name && |BaseName(a)| == if |a.name| < 80 then |a.name| else 80
    ensures a.name == "" && a.id != "" ==> BaseName(a) <= a.id && |BaseName(a)| == if |a.id| < 80 then |a.id| else 80
    ensures a.name == "" && a.id == "" ==> BaseName(a) == "agent"
  {
  }

  // ---- a name nobody has ----

  function Suffixed(base: string, k: nat): string {
    if k == 0 then base else base + "-" + Keys.Decimal(k)
  }

  lemma SuffixedInjective(base: string, j: nat, k: nat)
    requires Suffixed(base, j) == Suffixed(base, k)
    ensures j == k
  {
    assert j > 0 ==> Suffixed(base, j)[|base| + 1..] == Keys.Decimal(j);
    assert k > 0 ==> Suffixed(base, k)[|base| + 1..] == Keys.Decimal(k);
    if j > 0 && k > 0 {
      Keys.DecimalInjective(j, k);
    }
  }

  /** k is the first suffix whose name is free. */
  ghost predicate FirstSuffix(base: string, names: set<string>, k: nat) {
    Suffixed(base, k) !in names && forall j: nat :: j < k ==> Suffixed(base, j) in names
  }

  /** The names tried so far are distinct and all taken. */
  ghost predicate Tried(base: string, names: set<string>, tried: set<string>, k: nat) {
    && tried <= names && |tried| == k
    && (forall j: nat :: j < k ==> Suffixed(base, j) in names)
    && forall t :: t in tried ==> exists j: nat :: j < k && t == Suffixed(base, j)
  }

  lemma TryOneMore(base: string, names: set<string>, tried: set<string>, k: nat)
    requires Tried(base, names, tried, k) && Suffixed(base, k) in names
    ensures Tried(base, names, tried + {Suffixed(base, k)}, k + 1) && Suffixed(base, k) !in tried && k < |names|
  {
    if Suffixed(base, k) in tried {
      var j: nat :| j < k && Suffixed(base, k) == Suffixed(base, j);
      SuffixedInjective(base, j, k);
    }
    SubsetSmaller(tried + {Suffixed(base, k)}, names);
  }

  lemma {:induction false} SubsetSmaller(a: set<string>, b: set<string>)
    requires a <= b
    ensures |a| <= |b|
    decreases a
  {
    if a != {} {
      var x :| x in a;
      SubsetSmaller(a - {x}, b - {x});
    }
  }

  /** Stops after at most as many suffixes as there are names. */
  method UniqueName(base: string, names: set<string>) returns (name: string)
    ensures exists k: nat :: FirstSuffix(base, names, k) && name == Suffixed(base, k) && k <= |names|
  {
    var suffix := 0;
    name := base;
    ghost var tried: set<string> := {};
    while name in names
      invariant name == Suffixed(base, suffix) && suffix <= |names|
      invariant Tried(base, names, tried, suffix)
      decreases |names| - suffix
    {
      TryOneMore(base, names, tried, suffix);
      tried := tried + {name};
      suffix := suffix + 1;
      name := base + "-" + Keys.Decimal(suffix);
    }
  }

  // ---- one agent after another ----

  datatype Progress = Progress(profiles: map<Id, Profile>, taken: set<Id>, mapping: map<Id, Id>)

  ghost function Names(profiles: map<Id, Profile>): set<string> {
    set p | p in profiles :: profiles[p].name
  }

  predicate Adopts(s: Progress, a: Agent) {
    a.profile.Some? && a.profile.value !in s.taken
  }

  function TargetOf(s: Progress, a: Agent, drawn: Id): Id {
    if Adopts(s, a) then a.profile.value
    else if a.id in s.profiles then drawn
    else a.id
  }

  /** What handling agent a does; `name` is the name a new profile would get. */
  function Handled(s: Progress, a: Agent, drawn: Id, name: string): Progress {
    var t := TargetOf(s, a, drawn);
    var inserted := if Adopts(s, a) then s.profiles else s.profiles[t := Profile(name, "")];
    Progress(if t in inserted then inserted[t := inserted[t].(config := a.config)] else inserted,
             s.taken + {t}, s.mapping[a.id := t])
  }

  /** The tables as the schema keeps them: distinct keys, references that resolve,
      names used once; and drawn ids that are new. */
  ghost predicate Sound(profiles: map<Id, Profile>, agents: seq<Agent>, drawn: nat -> Id) {
    && (forall i, j :: 0 <= i < j < |agents| ==> agents[i].id != agents[j].id)
    && (forall i :: 0 <= i < |agents| && agents[i].profile.Some? ==> agents[i].profile.value in profiles)
    && (forall p, q :: p in profiles && q in profiles && profiles[p].name == profiles[q].name ==> p == q)
    && (forall i, k: nat :: 0 <= i < |agents| ==> drawn(k) != agents[i].id)
    && (forall k: nat :: drawn(k) !in profiles)
    && forall j: nat, k: nat :: drawn(j) == drawn(k) ==> j == k
  }

  /** Where the profile of a handled agent came from. */
  ghost predicate FirstWithProfile(agents: seq<Agent>, i: nat)
    requires i < |agents|
  {
    agents[i].profile.Some? && forall j :: 0 <= j < i ==> agents[j].profile != agents[i].profile
  }

  // What holds after the first |ts| agents, ts[i] being the profile of agent i.

  ghost function AgentIds(agents: seq<Agent>, n: nat): set<Id>
    requires n <= |agents|
  {
    set i | 0 <= i < n :: agents[i].id
  }

  ghost predicate Mapped(agents: seq<Agent>, ts: seq<Id>, s: Progress) {
    && |ts| <= |agents|
    && (forall i :: 0 <= i < |ts| ==> agents[i].id in s.mapping && s.mapping[agents[i].id] == ts[i])
    && s.mapping.Keys == AgentIds(agents, |ts|)
    && forall t :: t in s.taken <==> t in ts
  }

  ghost predicate OneToOne(ts: seq<Id>) {
    forall i, j :: 0 <= i < j < |ts| ==> ts[i] != ts[j]
  }

  /** The first agent of a profile keeps it, everyone else gets a new one. */
  ghost predicate FirstWins(before: map<Id, Profile>, agents: seq<Agent>, ts: seq<Id>) {
    |ts| <= |agents| && forall i :: 0 <= i < |ts| ==>
      if FirstWithProfile(agents, i) then ts[i] == agents[i].profile.value else ts[i] !in before
  }

  ghost predicate ConfigsCopied(agents: seq<Agent>, ts: seq<Id>, profiles: map<Id, Profile>) {
    |ts| <= |agents| && forall i :: 0 <= i < |ts| ==> ts[i] in profiles && profiles[ts[i]].config == agents[i].config
  }

  /** Nobody is renamed, and profiles no agent got are left alone. */
  ghost predicate OthersKept(before: map<Id, Profile>, ts: seq<Id>, profiles: map<Id, Profile>) {
    && (forall p :: p in before ==> p in profiles && profiles[p].name == before[p].name)
    && (forall p :: p in before && p !in ts ==> profiles[p] == before[p])
    && forall p :: p in profiles && p !in before ==> p in ts
  }

  ghost predicate NamesUnique(profiles: map<Id, Profile>) {
    forall p, q :: p in profiles && q in profiles && profiles[p].name == profiles[q].name ==> p == q
  }

  ghost predicate DerivedName(a: Agent, name: string) {
    name == BaseName(a) || exists k: nat :: k >= 1 && name == BaseName(a) + "-" + Keys.Decimal(k)
  }

  /** New profiles are named after their agent. */
  ghost predicate NamesDerived(agents: seq<Agent>, ts: seq<Id>, profiles: map<Id, Profile>) {
    |ts| <= |agents| && forall i :: 0 <= i < |ts| && !FirstWithProfile(agents, i) ==>
      ts[i] in profiles && DerivedName(agents[i], profiles[ts[i]].name)
  }

  /** Ids in use are old ones, ids of handled agents, or drawn ones. */
  ghost predicate IdsKnown(before: map<Id, Profile>, agents: seq<Agent>, drawn: nat -> Id, n: nat,
                           profiles: map<Id, Profile>)
  {
    n <= |agents| && forall p :: p in profiles ==>
      p in before || (exists i :: 0 <= i < n && agents[i].id == p) || (exists k: nat :: k < n && drawn(k) == p)
  }

  ghost predicate Done(before: map<Id, Profile>, agents: seq<Agent>, drawn: nat -> Id, ts: seq<Id>, s: Progress) {
    && Mapped(agents, ts, s) && OneToOne(ts) && FirstWins(before, agents, ts)
    && ConfigsCopied(agents, ts, s.profiles) && OthersKept(before, ts, s.profiles)
    && NamesUnique(s.profiles) && NamesDerived(agents, ts, s.profiles)
    && IdsKnown(before, agents, drawn, |ts|, s.profiles)
  }

  /** A shared profile is still to be had exactly for the first agent that has it. */
  lemma AdoptsExact(before: map<Id, Profile>, agents: seq<Agent>, drawn: nat -> Id, ts: seq<Id>, s: Progress)
    requires Sound(before, agents, drawn) && Mapped(agents, ts, s) && FirstWins(before, agents, ts) && |ts| < |agents|
    ensures Adopts(s, agents[|ts|]) <==> FirstWithProfile(agents, |ts|)
  {
    var n := |ts|;
    if agents[n].profile.Some? {
      var p := agents[n].profile.value;
      if p in s.taken {
        var i :| 0 <= i < n && ts[i] == p;
        assert FirstWithProfile(agents, i);
      }
      if j :| 0 <= j < n && agents[j].profile == agents[n].profile {
        var i := FirstHolder(agents, j);
        assert ts[i] == p;
      }
    }
  }

  lemma {:induction false} FirstHolder(agents: seq<Agent>, j: nat) returns (i: nat)
    requires j < |agents| && agents[j].profile.Some?
    ensures i <= j && agents[i].profile == agents[j].profile && FirstWithProfile(agents, i)
    decreases j
  {
    if k :| 0 <= k < j && agents[k].profile == agents[j].profile {
      i := FirstHolder(agents, k);
    } else {
      i := j;
    }
  }

  lemma NewIdUnused(before: map<Id, Profile>, agents: seq<Agent>, drawn: nat -> Id, n: nat, profiles: map<Id, Profile>)
    requires Sound(before, agents, drawn) && IdsKnown(before, agents, drawn, n, profiles) && n < |agents|
    ensures drawn(n) !in profiles
  {
  }

  /** The profile an agent gets is none of those given out before. */
  lemma TargetIsNew(before: map<Id, Profile>, agents: seq<Agent>, drawn: nat -> Id, ts: seq<Id>, s: Progress)
    requires Sound(before, agents, drawn) && |ts| < |agents|
    requires Mapped(agents, ts, s) && FirstWins(before, agents, ts) && IdsKnown(before, agents, drawn, |ts|, s.profiles)
    requires (forall t :: t in ts ==> t in s.profiles) && forall p :: p in before ==> p in s.profiles
    ensures var a := agents[|ts|];
      var t := TargetOf(s, a, drawn(|ts|));
      && t !in ts && (t in s.profiles <==> Adopts(s, a)) && (Adopts(s, a) <==> FirstWithProfile(agents, |ts|))
  {
    AdoptsExact(before, agents, drawn, ts, s);
    NewIdUnused(before, agents, drawn, |ts|, s.profiles);
  }

  lemma HandledShape(s: Progress, a: Agent, drawn: Id, name: string)
    requires TargetOf(s, a, drawn) in s.profiles <==> Adopts(s, a)
    ensures var t, after := TargetOf(s, a, drawn), Handled(s, a, drawn, name);
      && after.profiles == s.profiles[t := Profile(if Adopts(s, a) then s.profiles[t].name else name, a.config)]
      && after.taken == s.taken + {t} && after.mapping == s.mapping[a.id := t]
  {
  }

  lemma GivenOutExist(agents: seq<Agent>, ts: seq<Id>, profiles: map<Id, Profile>)
    requires ConfigsCopied(agents, ts, profiles)
    ensures forall t :: t in ts ==> t in profiles
  {
  }

  lemma HandledDone(before: map<Id, Profile>, agents: seq<Agent>, drawn: nat -> Id, ts: seq<Id>, s: Progress,
                    name: string)
    requires Sound(before, agents, drawn) && Done(before, agents, drawn, ts, s) && |ts| < |agents|
    requires Adopts(s, agents[|ts|]) || (name !in Names(s.profiles) && DerivedName(agents[|ts|], name))
    ensures var a := agents[|ts|];
      Done(before, agents, drawn, ts + [TargetOf(s, a, drawn(|ts|))], Handled(s, a, drawn(|ts|), name))
  {
    var n, a := |ts|, agents[|ts|];
    var t, after := TargetOf(s, a, drawn(n)), Handled(s, a, drawn(n), name);
    GivenOutExist(agents, ts, s.profiles);
    TargetIsNew(before, agents, drawn, ts, s);
    HandledShape(s, a, drawn(n), name);
    var entry := after.profiles[t];
    MappedStep(agents, ts, s, after, t);
    ConfigsStep(agents, ts, s.profiles, t, entry);
    OthersStep(before, ts, s.profiles, t, entry);
    NamesStep(s.profiles, t, entry);
    DerivedStep(agents, ts, s.profiles, t, entry);
    IdsStep(before, agents, drawn, n, s.profiles, t, entry);
    FirstStep(before, agents, ts, t);
  }

  lemma MappedStep(agents: seq<Agent>, ts: seq<Id>, s: Progress, after: Progress, t: Id)
    requires Mapped(agents, ts, s) && |ts| < |agents| && t !in ts && OneToOne(ts)
    requires forall i, j :: 0 <= i < j < |agents| ==> agents[i].id != agents[j].id
    requires after.taken == s.taken + {t} && after.mapping == s.mapping[agents[|ts|].id := t]
    ensures Mapped(agents, ts + [t], after) && OneToOne(ts + [t])
  {
    AgentIdsStep(agents, |ts|);
    forall i | 0 <= i < |ts| ensures ts[i] != t {
      assert ts[i] in ts;
    }
  }

  lemma AgentIdsStep(agents: seq<Agent>, n: nat)
    requires n < |agents|
    ensures AgentIds(agents, n + 1) == AgentIds(agents, n) + {agents[n].id}
  {
  }

  lemma ConfigsStep(agents: seq<Agent>, ts: seq<Id>, profiles: map<Id, Profile>, t: Id, entry: Profile)
    requires ConfigsCopied(agents, ts, profiles) && |ts| < |agents| && t !in ts && entry.config == agents[|ts|].config
    ensures ConfigsCopied(agents, ts + [t], profiles[t := entry])
  {
    forall i | 0 <= i < |ts| ensures ts[i] != t {
      assert ts[i] in ts;
    }
  }

  lemma OthersStep(before: map<Id, Profile>, ts: seq<Id>, profiles: map<Id, Profile>, t: Id, entry: Profile)
    requires OthersKept(before, ts, profiles) && (t in profiles ==> entry.name == profiles[t].name)
    ensures OthersKept(before, ts + [t], profiles[t := entry])
  {
  }

  lemma NamesStep(profiles: map<Id, Profile>, t: Id, entry: Profile)
    requires NamesUnique(profiles)
    requires if t in profiles then entry.name == profiles[t].name else entry.name !in Names(profiles)
    ensures NamesUnique(profiles[t := entry])
  {
    forall p | p in profiles ensures profiles[p].name in Names(profiles) {
    }
  }

  lemma DerivedStep(agents: seq<Agent>, ts: seq<Id>, profiles: map<Id, Profile>, t: Id, entry: Profile)
    requires NamesDerived(agents, ts, profiles) && |ts| < |agents| && t !in ts
    requires FirstWithProfile(agents, |ts|) || DerivedName(agents[|ts|], entry.name)
    ensures NamesDerived(agents, ts + [t], profiles[t := entry])
  {
    forall i | 0 <= i < |ts| ensures ts[i] != t {
      assert ts[i] in ts;
    }
  }

  lemma IdsStep(before: map<Id, Profile>, agents: seq<Agent>, drawn: nat -> Id, n: nat, profiles: map<Id, Profile>,
                t: Id, entry: Profile)
    requires IdsKnown(before, agents, drawn, n, profiles) && n < |agents|
    requires t in profiles || t == agents[n].id || t == drawn(n)
    ensures IdsKnown(before, agents, drawn, n + 1, profiles[t := entry])
  {
    forall p | p in profiles[t := entry]
      ensures p in before || (exists i :: 0 <= i < n + 1 && agents[i].id == p)
        || (exists k: nat :: k < n + 1 && drawn(k) == p)
    {
      if p in profiles {
      } else {
        assert p == agents[n].id || p == drawn(n);
      }
    }
  }

  lemma FirstStep(before: map<Id, Profile>, agents: seq<Agent>, ts: seq<Id>, t: Id)
    requires FirstWins(before, agents, ts) && |ts| < |agents|
    requires if FirstWithProfile(agents, |ts|) then t == agents[|ts|].profile.value else t !in before
    ensures FirstWins(before, agents, ts + [t])
  {
  }

  // ---- the migration ----

  /** Every row of an agent points to the profile the agent was given, which has the
      agent's settings; rows of nobody are unchanged, and none is added or lost. */
  ghost predicate Repointed(agents: seq<Agent>, profiles: map<Id, Profile>, mapping: map<Id, Id>,
                            rows: map<Id, Owned>, after: map<Id, Owned>)
  {
    && after.Keys == rows.Keys
    && (forall r, i :: r in rows && 0 <= i < |agents| && rows[r].agent == agents[i].id ==>
          && agents[i].id in mapping && mapping[agents[i].id] in profiles
          && profiles[mapping[agents[i].id]].config == agents[i].config
          && after[r] == Owned(rows[r].agent, Some(mapping[agents[i].id])))
    && forall r :: r in rows && (forall i :: 0 <= i < |agents| ==> agents[i].id != rows[r].agent) ==> after[r] == rows[r]
  }

  /** The outcome of the split: agents map one to one onto existing profiles; the
      first agent of a shared profile keeps it and everyone else gets a new one named
      after the agent; every agent's settings are on its profile; names stay unique,
      nobody is renamed, profiles no agent uses are left alone, and none is added
      that no agent uses. */
  ghost predicate Split(before: map<Id, Profile>, agents: seq<Agent>, profiles: map<Id, Profile>,
                        mapping: map<Id, Id>)
  {
    && mapping.Keys == AgentIds(agents, |agents|)
    && (forall a, b :: a in mapping && b in mapping && mapping[a] == mapping[b] ==> a == b)
    && (forall i :: 0 <= i < |agents| ==>
          agents[i].id in mapping && SplitOne(before, agents, i, profiles, mapping[agents[i].id]))
    && NamesUnique(profiles) && (forall p :: p in before ==> p in profiles && profiles[p].name == before[p].name)
    && (forall p :: p in before && p !in mapping.Values ==> profiles[p] == before[p])
    && forall p :: p in profiles && p !in before ==> p in mapping.Values
  }

  ghost predicate SplitOne(before: map<Id, Profile>, agents: seq<Agent>, i: nat, profiles: map<Id, Profile>, t: Id)
    requires i < |agents|
  {
    && t in profiles && profiles[t].config == agents[i].config
    && if FirstWithProfile(agents, i) then t == agents[i].profile.value
       else t !in before && DerivedName(agents[i], profiles[t].name)
  }

  /** The agents with the profiles they were given. */
  function WithProfiles(agents: seq<Agent>, mapping: map<Id, Id>): seq<Agent> {
    seq(|agents|, i requires 0 <= i < |agents| =>
      if agents[i].id in mapping then agents[i].(profile := Some(mapping[agents[i].id])) else agents[i])
  }

  /** Splits shared profiles and points agents, runs and messages to the new owners. */
  method Migrate(before: map<Id, Profile>, agents: seq<Agent>, runs: map<Id, Owned>, messages: map<Id, Owned>,
                 drawn: nat -> Id)
    returns (profiles: map<Id, Profile>, mapping: map<Id, Id>, owners: seq<Agent>,
             ownedRuns: map<Id, Owned>, ownedMessages: map<Id, Owned>)
    requires Sound(before, agents, drawn)
    ensures Split(before, agents, profiles, mapping)
    ensures owners == WithProfiles(agents, mapping) && WithTheirs(agents, mapping, owners)
    ensures Repointed(agents, profiles, mapping, runs, ownedRuns)
    ensures Repointed(agents, profiles, mapping, messages, ownedMessages)
  {
    profiles, mapping := SplitProfiles(before, agents, drawn);
    SplitMaps(before, agents, profiles, mapping);
    hide Split, Repointed;
    owners := WithProfiles(agents, mapping);
    ownedRuns := Repoint(runs, mapping, agents, profiles);
    ownedMessages := Repoint(messages, mapping, agents, profiles);
  }

  /** The agents as they were, each with the profile it was given. */
  ghost predicate WithTheirs(agents: seq<Agent>, mapping: map<Id, Id>, owners: seq<Agent>) {
    |owners| == |agents| && forall i :: 0 <= i < |agents| ==>
      agents[i].id in mapping
      && owners[i] == Agent(agents[i].id, agents[i].name, Some(mapping[agents[i].id]), agents[i].config)
  }

  /** Exactly the agents are mapped, to profiles with their settings. */
  ghost predicate Maps(agents: seq<Agent>, profiles: map<Id, Profile>, mapping: map<Id, Id>) {
    && (forall a :: a in mapping ==> exists i :: 0 <= i < |agents| && agents[i].id == a)
    && forall i :: 0 <= i < |agents| ==>
         agents[i].id in mapping && mapping[agents[i].id] in profiles
         && profiles[mapping[agents[i].id]].config == agents[i].config
  }

  lemma SplitMaps(before: map<Id, Profile>, agents: seq<Agent>, profiles: map<Id, Profile>, mapping: map<Id, Id>)
    requires Split(before, agents, profiles, mapping)
    ensures Maps(agents, profiles, mapping)
  {
  }

  method Repoint(rows: map<Id, Owned>, mapping: map<Id, Id>, ghost agents: seq<Agent>, ghost profiles: map<Id, Profile>)
    returns (after: map<Id, Owned>)
    requires Maps(agents, profiles, mapping)
    ensures Repointed(agents, profiles, mapping, rows, after)
  {
    after := map r | r in rows ::
      if rows[r].agent in mapping then rows[r].(profile := Some(mapping[rows[r].agent])) else rows[r];
  }

  method SplitProfiles(before: map<Id, Profile>, agents: seq<Agent>, drawn: nat -> Id)
    returns (profiles: map<Id, Profile>, mapping: map<Id, Id>)
    requires Sound(before, agents, drawn)
    ensures Split(before, agents, profiles, mapping)
  {
    profiles := before;
    mapping := map[];
    var taken: set<Id> := {};
    ghost var ts: seq<Id> := [];
    for i := 0 to |agents|
      invariant |ts| == i && Done(before, agents, drawn, ts, Progress(profiles, taken, mapping))
    {
      profiles, taken, mapping := MigrateOne(before, agents, drawn, i, ts, profiles, taken, mapping);
      ts := ts + [mapping[agents[i].id]];
    }
    DoneMeaning(before, agents, drawn, ts, Progress(profiles, taken, mapping));
  }

  method MigrateOne(ghost before: map<Id, Profile>, agents: seq<Agent>, drawn: nat -> Id, i: nat, ghost ts: seq<Id>,
                    profiles0: map<Id, Profile>, taken0: set<Id>, mapping0: map<Id, Id>)
    returns (profiles: map<Id, Profile>, taken: set<Id>, mapping: map<Id, Id>)
    requires Sound(before, agents, drawn) && |ts| == i < |agents|
    requires Done(before, agents, drawn, ts, Progress(profiles0, taken0, mapping0))
    ensures agents[i].id in mapping
    ensures Done(before, agents, drawn, ts + [mapping[agents[i].id]], Progress(profiles, taken, mapping))
  {
    var a := agents[i];
    var target, name := "", "";
    profiles := profiles0;
    if a.profile.Some? && a.profile.value !in taken0 {
      target := a.profile.value;
    } else {
      name := UniqueName(BaseName(a), set p | p in profiles :: profiles[p].name);
      target := a.id;
      if target in profiles {
        target := drawn(i);
      }
      profiles := profiles[target := Profile(name, "")];
    }
    taken := taken0 + {target};
    if target in profiles {
      profiles := profiles[target := profiles[target].(config := a.config)];
    }
    mapping := mapping0[a.id := target];
    HandledDone(before, agents, drawn, ts, Progress(profiles0, taken0, mapping0), name);
  }

  lemma MappingInjective(agents: seq<Agent>, ts: seq<Id>, s: Progress)
    requires Mapped(agents, ts, s) && OneToOne(ts)
    ensures forall a, b :: a in s.mapping && b in s.mapping && s.mapping[a] == s.mapping[b] ==> a == b
  {
    forall a, b | a in s.mapping && b in s.mapping && s.mapping[a] == s.mapping[b] ensures a == b {
      var i :| 0 <= i < |ts| && agents[i].id == a;
      var j :| 0 <= j < |ts| && agents[j].id == b;
      assert ts[i] == ts[j];
    }
  }

  /** The bookkeeping in terms of the result. */
  lemma DoneMeaning(before: map<Id, Profile>, agents: seq<Agent>, drawn: nat -> Id, ts: seq<Id>, s: Progress)
    requires Done(before, agents, drawn, ts, s) && |ts| == |agents|
    ensures Split(before, agents, s.profiles, s.mapping)
  {
    forall i | 0 <= i < |ts| ensures ts[i] in s.mapping.Values {
      assert s.mapping[agents[i].id] == ts[i];
    }
    MappingInjective(agents, ts, s);
    forall i | 0 <= i < |agents|
      ensures agents[i].id in s.mapping && SplitOne(before, agents, i, s.profiles, s.mapping[agents[i].id])
    {
      assert s.mapping[agents[i].id] == ts[i];
    }
  }

  // ---- a second run ----

  /** After the split every agent is the first one with its profile. */
  lemma OwnersAreFirst(before: map<Id, Profile>, agents: seq<Agent>, profiles: map<Id, Profile>, mapping: map<Id, Id>,
                       i: nat)
    requires Split(before, agents, profiles, mapping) && i < |agents|
    requires forall j, k :: 0 <= j < k < |agents| ==> agents[j].id != agents[k].id
    ensures FirstWithProfile(WithProfiles(agents, mapping), i)
  {
    var owners := WithProfiles(agents, mapping);
    forall j | 0 <= j < i ensures owners[j].profile != owners[i].profile {
      assert mapping[agents[j].id] != mapping[agents[i].id];
    }
  }

  /** Agent a has the same profile in both, with the same content. */
  ghost predicate SameFor(a: Id, profiles: map<Id, Profile>, mapping: map<Id, Id>,
                          profiles2: map<Id, Profile>, mapping2: map<Id, Id>)
  {
    && a in mapping && a in mapping2 && mapping2[a] == mapping[a]
    && mapping[a] in profiles && mapping[a] in profiles2 && profiles2[mapping[a]] == profiles[mapping[a]]
  }

  /** What the second split does for agent i. */
  lemma KeptAgain(before: map<Id, Profile>, agents: seq<Agent>, profiles: map<Id, Profile>, mapping: map<Id, Id>,
                  profiles2: map<Id, Profile>, mapping2: map<Id, Id>, i: nat)
    requires forall j, k :: 0 <= j < k < |agents| ==> agents[j].id != agents[k].id
    requires Split(before, agents, profiles, mapping) && i < |agents|
    requires Split(profiles, WithProfiles(agents, mapping), profiles2, mapping2)
    ensures SameFor(agents[i].id, profiles, mapping, profiles2, mapping2)
  {
    var owners := WithProfiles(agents, mapping);
    OwnersAreFirst(before, agents, profiles, mapping, i);
    assert SplitOne(before, agents, i, profiles, mapping[agents[i].id]);
    assert owners[i].id == agents[i].id;
    assert SplitOne(profiles, owners, i, profiles2, mapping2[owners[i].id]);
  }

  lemma OwnersKeepIds(agents: seq<Agent>, mapping: map<Id, Id>)
    ensures AgentIds(WithProfiles(agents, mapping), |agents|) == AgentIds(agents, |agents|)
  {
    var owners := WithProfiles(agents, mapping);
    assert forall i :: 0 <= i < |agents| ==> owners[i].id == agents[i].id;
  }

  lemma SplitOthers(before: map<Id, Profile>, agents: seq<Agent>, profiles: map<Id, Profile>, mapping: map<Id, Id>)
    requires Split(before, agents, profiles, mapping)
    ensures forall p :: p in before ==> p in profiles
    ensures forall p :: p in before && p !in mapping.Values ==> profiles[p] == before[p]
    ensures forall p :: p in profiles && p !in before ==> p in mapping.Values
  {
  }

  /** Splitting again finds nothing to do: everyone keeps their profile and no
      profile changes. */
  lemma SplitAgain(before: map<Id, Profile>, agents: seq<Agent>, profiles: map<Id, Profile>, mapping: map<Id, Id>,
                   profiles2: map<Id, Profile>, mapping2: map<Id, Id>)
    requires forall j, k :: 0 <= j < k < |agents| ==> agents[j].id != agents[k].id
    requires Split(before, agents, profiles, mapping)
    requires Split(profiles, WithProfiles(agents, mapping), profiles2, mapping2)
    ensures mapping2 == mapping && profiles2 == profiles
  {
    SplitOthers(profiles, WithProfiles(agents, mapping), profiles2, mapping2);
    OwnersKeepIds(agents, mapping);
    assert mapping2.Keys == mapping.Keys == AgentIds(agents, |agents|);
    forall a | a in mapping ensures SameFor(a, profiles, mapping, profiles2, mapping2) {
      var i :| 0 <= i < |agents| && agents[i].id == a;
      KeptAgain(before, agents, profiles, mapping, profiles2, mapping2, i);
    }
    hide Split, AgentIds;
    SameProfiles(mapping, mapping2, profiles, profiles2);
  }

  lemma SameProfiles(mapping: map<Id, Id>, mapping2: map<Id, Id>, profiles: map<Id, Profile>,
                     profiles2: map<Id, Profile>)
    requires mapping2.Keys == mapping.Keys
    requires forall a :: a in mapping ==> SameFor(a, profiles, mapping, profiles2, mapping2)
    requires forall p :: p in profiles ==> p in profiles2
    requires forall p :: p in profiles && p !in mapping2.Values ==> profiles2[p] == profiles[p]
    requires forall p :: p in profiles2 && p !in profiles ==> p in mapping2.Values
    ensures mapping2 == mapping && profiles2 == profiles
  {
    forall p | p in mapping2.Values ensures p in profiles && p in profiles2 && profiles2[p] == profiles[p] {
      var a :| a in mapping2 && mapping2[a] == p;
      assert SameFor(a, profiles, mapping, profiles2, mapping2);
    }
  }
}

/** Rotating refresh tokens of local daemons (the rotation scheme of section
    4.14.2 of RFC 9700).  Exchanges of several callers interleave; each is a few
    database transactions:

      Look     read the row of the presented token and decide how to go on
      Profile  read the profile the token belongs to
      Retire   mark the row used if it still is live, mint the successor, commit
      Burn     revoke every row of the family, commit

    The raw tokens stand for their hashes, and a token is the key of its row. */
module DaemonAuth {
  import opened Wrappers

  type Token = string
  type Family = string
  type Caller = nat

  const REFRESH_TTL := 90 * 24 * 3600

  datatype Row = Row(profile: string, family: Family, expiresAt: int, used: bool, revoked: bool)

  /** Where a request stands. */
  datatype Progress =
    | Idle
    | Checking(token: Token, now: int)   // the row looked live when it was read
    | Allowed(token: Token, now: int)    // and its profile may still refresh
    | Burning(family: Family)

  /** A step of the system.  `Issue` is the daemon login, `LogOut` the read of a
      revocation; `drawn` is the newly drawn token. */
  datatype Step =
    | Issue(profile: string, family: Family, drawn: Token, now: int)
    | Look(caller: Caller, token: Token, now: int)
    | CheckProfile(caller: Caller, eligible: bool)
    | Retire(caller: Caller, drawn: Token)
    | Burn(caller: Caller)
    | LogOut(caller: Caller, token: Token)

  /** What the history records: successful exchanges and burned families. */
  datatype Event = Exchanged(token: Token, successor: Token, family: Family) | Burned(family: Family)

  datatype State = State(rows: map<Token, Row>, callers: map<Caller, Progress>, log: seq<Event>)

  const START := State(map[], map[], [])

  function At(s: State, c: Caller): Progress {
    if c in s.callers then s.callers[c] else Idle
  }

  function RevokeFamily(rows: map<Token, Row>, f: Family): map<Token, Row> {
    map t | t in rows :: if rows[t].family == f then rows[t].(revoked := true) else rows[t]
  }

  /** The compare-and-set of the retire step.  The code asks for a row that is
      neither used nor revoked; without `checkRevoked` it would ask only for an
      unused one. */
  predicate CanRetire(checkRevoked: bool, r: Row) {
    !r.used && (checkRevoked ==> !r.revoked)
  }

  function LookStep(s: State, c: Caller, token: Token, now: int): State {
    if token !in s.rows || s.rows[token].revoked then s.(callers := s.callers[c := Idle])
    else if s.rows[token].used then s.(callers := s.callers[c := Burning(s.rows[token].family)])
    else if s.rows[token].expiresAt <= now then s.(callers := s.callers[c := Idle])
    else s.(callers := s.callers[c := Checking(token, now)])
  }

  /** Retiring and minting commit together; a clash of the drawn token rolls both back. */
  function RetireStep(checkRevoked: bool, s: State, c: Caller, drawn: Token): State {
    match At(s, c)
    case Allowed(token, now) =>
      if token !in s.rows then s
      else
        var r := s.rows[token];
        if !CanRetire(checkRevoked, r) then s.(callers := s.callers[c := Burning(r.family)])
        else if drawn in s.rows then s.(callers := s.callers[c := Idle])
        else
          State(s.rows[token := r.(used := true)]
                  [drawn := Row(r.profile, r.family, now + REFRESH_TTL, false, false)],
                s.callers[c := Idle],
                s.log + [Exchanged(token, drawn, r.family)])
    case _ => s
  }

  function Next(checkRevoked: bool, s: State, step: Step): State {
    match step
    case Issue(profile, family, drawn, now) =>
      if drawn in s.rows || exists t :: t in s.rows && s.rows[t].family == family then s
      else s.(rows := s.rows[drawn := Row(profile, family, now + REFRESH_TTL, false, false)])
    case Look(c, token, now) => LookStep(s, c, token, now)
    case CheckProfile(c, eligible) =>
      (match At(s, c)
       case Checking(token, now) =>
         if token !in s.rows then s
         else if eligible then s.(callers := s.callers[c := Allowed(token, now)])
         else s.(callers := s.callers[c := Burning(s.rows[token].family)])
       case _ => s)
    case Retire(c, drawn) => RetireStep(checkRevoked, s, c, drawn)
    case Burn(c) =>
      (match At(s, c)
       case Burning(f) => State(RevokeFamily(s.rows, f), s.callers[c := Idle], s.log + [Burned(f)])
       case _ => s)
    case LogOut(c, token) =>
      if token !in s.rows then s else s.(callers := s.callers[c := Burning(s.rows[token].family)])
  }

  function Run(checkRevoked: bool, steps: seq<Step>): State {
    if steps == [] then START else Next(checkRevoked, Run(checkRevoked, steps[..|steps| - 1]), steps[|steps| - 1])
  }

  // ---- every token at most once, one unused token per family ----

  ghost predicate ExchangedIn(log: seq<Event>, t: Token) {
    exists i :: 0 <= i < |log| && log[i].Exchanged? && log[i].token == t
  }

  /** A row is used exactly when the log holds its exchange, and the log never
      holds two exchanges of one token. */
  ghost predicate UsedOnce(s: State) {
    && (forall t :: t in s.rows ==> (s.rows[t].used <==> ExchangedIn(s.log, t)))
    && (forall i :: 0 <= i < |s.log| && s.log[i].Exchanged? ==> s.log[i].token in s.rows)
    && forall i, j :: 0 <= i < j < |s.log| && s.log[i].Exchanged? && s.log[j].Exchanged? ==>
      s.log[i].token != s.log[j].token
  }

  ghost predicate Unused(s: State, f: Family, t: Token) {
    t in s.rows && s.rows[t].family == f && !s.rows[t].used
  }

  ghost predicate HasUnused(s: State, f: Family) {
    exists u :: Unused(s, f, u)
  }

  /** Every family has exactly one unused row: the end of its chain. */
  ghost predicate OneUnused(s: State) {
    && (forall t {:trigger HasUnused(s, s.rows[t].family)} :: t in s.rows ==> HasUnused(s, s.rows[t].family))
    && forall f, t, u :: Unused(s, f, t) && Unused(s, f, u) ==> t == u
  }

  lemma LogAppend(log: seq<Event>, e: Event, t: Token)
    ensures ExchangedIn(log + [e], t) <==> ExchangedIn(log, t) || (e.Exchanged? && e.token == t)
  {
    var after := log + [e];
    assert after[|log|] == e;
    if ExchangedIn(log, t) {
      var i :| 0 <= i < |log| && log[i].Exchanged? && log[i].token == t;
      assert after[i] == log[i];
    }
  }

  lemma SameUseUsedOnce(s: State, after: State)
    requires UsedOnce(s) && after.log == s.log && s.rows.Keys <= after.rows.Keys
    requires forall t :: t in after.rows ==> (after.rows[t].used <==> t in s.rows && s.rows[t].used)
    ensures UsedOnce(after)
  {
    forall t | t in after.rows && t !in s.rows ensures !ExchangedIn(s.log, t) {
    }
  }

  lemma BurnUsedOnce(s: State, after: State, f: Family)
    requires UsedOnce(s) && after.log == s.log + [Burned(f)] && after.rows == RevokeFamily(s.rows, f)
    ensures UsedOnce(after)
  {
    forall t | t in after.rows ensures after.rows[t].used <==> ExchangedIn(after.log, t) {
      LogAppend(s.log, Burned(f), t);
    }
  }

  lemma RetireUsedOnce(s: State, after: State, t: Token, drawn: Token, r: Row)
    requires UsedOnce(s) && t in s.rows && !s.rows[t].used && drawn !in s.rows && !r.used
    requires after.rows == s.rows[t := s.rows[t].(used := true)][drawn := r]
    requires after.log == s.log + [Exchanged(t, drawn, r.family)]
    ensures UsedOnce(after)
  {
    forall u | u in after.rows ensures after.rows[u].used <==> ExchangedIn(after.log, u) {
      LogAppend(s.log, Exchanged(t, drawn, r.family), u);
      assert ExchangedIn(s.log, u) ==> u in s.rows;
    }
    forall i | 0 <= i < |s.log| && s.log[i].Exchanged? ensures s.log[i].token != t {
      assert ExchangedIn(s.log, s.log[i].token);
    }
  }

  lemma NextUsedOnce(checkRevoked: bool, s: State, step: Step)
    requires UsedOnce(s)
    ensures UsedOnce(Next(checkRevoked, s, step))
  {
    var after := Next(checkRevoked, s, step);
    hide UsedOnce;
    if after.log == s.log {
      SameUseUsedOnce(s, after);
    } else if step.Burn? {
      BurnUsedOnce(s, after, At(s, step.caller).family);
    } else {
      RetireUsedOnce(s, after, At(s, step.caller).token, step.drawn, after.rows[step.drawn]);
    }
  }

  lemma SameUseOneUnused(s: State, after: State)
    requires OneUnused(s) && after.rows.Keys == s.rows.Keys
    requires forall t :: t in s.rows ==>
      after.rows[t].family == s.rows[t].family && after.rows[t].used == s.rows[t].used
    ensures OneUnused(after)
  {
    forall f, t ensures Unused(after, f, t) <==> Unused(s, f, t) {
    }
    forall t | t in after.rows ensures HasUnused(after, after.rows[t].family) {
      assert HasUnused(s, s.rows[t].family);
      var u :| Unused(s, s.rows[t].family, u);
      assert Unused(after, s.rows[t].family, u);
    }
  }

  lemma IssueOneUnused(s: State, t: Token, r: Row)
    requires OneUnused(s) && t !in s.rows && !r.used && forall u :: u in s.rows ==> s.rows[u].family != r.family
    ensures OneUnused(s.(rows := s.rows[t := r]))
  {
    var after := s.(rows := s.rows[t := r]);
    assert Unused(after, r.family, t);
    forall u | u in s.rows ensures HasUnused(after, s.rows[u].family) {
      assert HasUnused(s, s.rows[u].family);
      var w :| Unused(s, s.rows[u].family, w);
      assert Unused(after, s.rows[u].family, w);
    }
    forall f, u | Unused(after, f, u) && u != t ensures Unused(s, f, u) {
    }
  }

  /** The successor takes the place of the retired token. */
  lemma RetireOneUnused(s: State, after: State, t: Token, drawn: Token, r: Row)
    requires OneUnused(s) && t in s.rows && !s.rows[t].used && drawn !in s.rows
    requires r.family == s.rows[t].family && !r.used
    requires after.rows == s.rows[t := s.rows[t].(used := true)][drawn := r]
    ensures OneUnused(after)
  {
    assert Unused(s, r.family, t) && Unused(after, r.family, drawn);
    forall u | u in s.rows ensures HasUnused(after, s.rows[u].family) {
      if s.rows[u].family != r.family {
        assert HasUnused(s, s.rows[u].family);
        var w :| Unused(s, s.rows[u].family, w);
        assert Unused(after, s.rows[u].family, w);
      }
    }
    forall f, u | Unused(after, f, u) ensures u == drawn || (Unused(s, f, u) && u != t) {
    }
  }

  lemma NextOneUnused(checkRevoked: bool, s: State, step: Step)
    requires OneUnused(s)
    ensures OneUnused(Next(checkRevoked, s, step))
  {
    var after := Next(checkRevoked, s, step);
    if after.rows == s.rows {
      SameUseOneUnused(s, after);
    } else {
      match step
      case Issue(profile, family, drawn, now) => IssueOneUnused(s, drawn, after.rows[drawn]);
      case Retire(c, drawn) =>
        var t := At(s, c).token;
        RetireOneUnused(s, after, t, drawn, after.rows[drawn]);
      case Burn(c) => SameUseOneUnused(s, after);
    }
  }

  lemma {:induction false} RunUsedOnce(checkRevoked: bool, steps: seq<Step>)
    ensures UsedOnce(Run(checkRevoked, steps)) && OneUnused(Run(checkRevoked, steps))
    decreases |steps|
  {
    if steps != [] {
      RunUsedOnce(checkRevoked, steps[..|steps| - 1]);
      NextUsedOnce(checkRevoked, Run(checkRevoked, steps[..|steps| - 1]), steps[|steps| - 1]);
      NextOneUnused(checkRevoked, Run(checkRevoked, steps[..|steps| - 1]), steps[|steps| - 1]);
    }
  }

  /** Neither used nor revoked. */
  ghost predicate Live(s: State, t: Token) {
    t in s.rows && !s.rows[t].used && !s.rows[t].revoked
  }

  /** However the requests interleave: no token is exchanged twice, and a family
      never holds two live tokens. */
  lemma ExchangedAtMostOnce(checkRevoked: bool, steps: seq<Step>)
    ensures var s := Run(checkRevoked, steps);
      && (forall i, j :: 0 <= i < j < |s.log| && s.log[i].Exchanged? && s.log[j].Exchanged? ==>
            s.log[i].token != s.log[j].token)
      && (forall t, u :: Live(s, t) && Live(s, u) && s.rows[t].family == s.rows[u].family ==> t == u)
  {
    RunUsedOnce(checkRevoked, steps);
    var s := Run(checkRevoked, steps);
    forall t, u | Live(s, t) && Live(s, u) && s.rows[t].family == s.rows[u].family ensures t == u {
      assert Unused(s, s.rows[t].family, t) && Unused(s, s.rows[t].family, u);
    }
  }

  // ---- burned families stay dead ----

  ghost predicate BurnedIn(log: seq<Event>, f: Family) {
    exists i :: 0 <= i < |log| && log[i] == Burned(f)
  }

  /** No exchange follows a burn of its family. */
  ghost predicate DeadAfterBurn(log: seq<Event>) {
    forall i, j :: 0 <= i < j < |log| && log[i].Burned? && log[j].Exchanged? ==> log[i].family != log[j].family
  }

  /** A row is revoked exactly when its family was burned. */
  ghost predicate BurnedRevoked(s: State) {
    forall t :: t in s.rows ==> (s.rows[t].revoked <==> BurnedIn(s.log, s.rows[t].family))
  }

  /** A burned family has rows, so its name is never issued again. */
  ghost predicate FamiliesKnown(s: State) {
    && (forall i :: 0 <= i < |s.log| && s.log[i].Burned? ==> KnownFamily(s.rows, s.log[i].family))
    && forall c :: c in s.callers && s.callers[c].Burning? ==> KnownFamily(s.rows, s.callers[c].family)
  }

  ghost predicate KnownFamily(rows: map<Token, Row>, f: Family) {
    exists t :: t in rows && rows[t].family == f
  }

  ghost predicate BurnInv(s: State) {
    DeadAfterBurn(s.log) && BurnedRevoked(s) && FamiliesKnown(s)
  }

  lemma BurnedAppend(log: seq<Event>, e: Event, f: Family)
    ensures BurnedIn(log + [e], f) <==> BurnedIn(log, f) || e == Burned(f)
  {
    var after := log + [e];
    assert after[|log|] == e;
    if i :| 0 <= i < |log| && log[i] == Burned(f) {
      assert after[i] == Burned(f);
    }
  }

  lemma KnownStays(checkRevoked: bool, s: State, step: Step, f: Family)
    requires KnownFamily(s.rows, f)
    ensures KnownFamily(Next(checkRevoked, s, step).rows, f)
  {
    var t :| t in s.rows && s.rows[t].family == f;
    var after := Next(checkRevoked, s, step);
    assert t in after.rows && after.rows[t].family == f;
  }

  lemma BurnedIsKnown(s: State, f: Family)
    requires FamiliesKnown(s)
    ensures BurnedIn(s.log, f) ==> KnownFamily(s.rows, f)
  {
  }

  lemma LookKeepsBurnInv(s: State, step: Step)
    requires BurnInv(s) && (step.Look? || step.CheckProfile? || step.LogOut?)
    ensures BurnInv(Next(true, s, step))
  {
    var after := Next(true, s, step);
    assert after.rows == s.rows && after.log == s.log;
    forall c | c in after.callers && after.callers[c].Burning? ensures KnownFamily(s.rows, after.callers[c].family) {
    }
  }

  lemma IssueKeepsBurnInv(s: State, step: Step)
    requires BurnInv(s) && step.Issue?
    ensures BurnInv(Next(true, s, step))
  {
    var after := Next(true, s, step);
    if after != s {
      BurnedIsKnown(s, step.family);
      forall f | KnownFamily(s.rows, f) ensures KnownFamily(after.rows, f) {
        KnownStays(true, s, step, f);
      }
    }
  }

  lemma RetireKeepsBurnInv(s: State, step: Step)
    requires BurnInv(s) && step.Retire?
    ensures BurnInv(Next(true, s, step))
  {
    var after := Next(true, s, step);
    forall f | KnownFamily(s.rows, f) ensures KnownFamily(after.rows, f) {
      KnownStays(true, s, step, f);
    }
    if after.log == s.log {
      forall t | t in s.rows ensures KnownFamily(after.rows, s.rows[t].family) {
        assert after.rows[t] == s.rows[t];
      }
    } else {
      var e := after.log[|s.log|];
      assert after.log == s.log + [e] && !s.rows[e.token].revoked;
      forall f ensures BurnedIn(after.log, f) <==> BurnedIn(s.log, f) {
        BurnedAppend(s.log, e, f);
      }
      assert !BurnedIn(s.log, e.family);
    }
  }

  lemma BurnKeepsBurnInv(s: State, step: Step)
    requires BurnInv(s) && step.Burn?
    ensures BurnInv(Next(true, s, step))
  {
    var after := Next(true, s, step);
    forall f | KnownFamily(s.rows, f) ensures KnownFamily(after.rows, f) {
      KnownStays(true, s, step, f);
    }
    if after.log != s.log {
      var e := after.log[|s.log|];
      assert after.log == s.log + [e];
      forall f ensures BurnedIn(after.log, f) <==> BurnedIn(s.log, f) || e == Burned(f) {
        BurnedAppend(s.log, e, f);
      }
    }
  }

  lemma {:induction false} RunBurnInv(steps: seq<Step>)
    ensures BurnInv(Run(true, steps))
    decreases |steps|
  {
    if steps != [] {
      var s, step := Run(true, steps[..|steps| - 1]), steps[|steps| - 1];
      RunBurnInv(steps[..|steps| - 1]);
      match step
      case Issue(_, _, _, _) => IssueKeepsBurnInv(s, step);
      case Retire(_, _) => RetireKeepsBurnInv(s, step);
      case Burn(_) => BurnKeepsBurnInv(s, step);
      case _ => LookKeepsBurnInv(s, step);
    }
  }

  /** Once a family is burned, by a replay, a lost race, a lost role or a logout,
      no exchange of any of its tokens succeeds.  A token is revoked only by a burn
      of its own family, so the other logins keep working. */
  lemma BurnedFamilyStaysDead(steps: seq<Step>)
    ensures DeadAfterBurn(Run(true, steps).log)
    ensures var s := Run(true, steps);
      forall t :: t in s.rows ==> (s.rows[t].revoked <==> BurnedIn(s.log, s.rows[t].family))
  {
    RunBurnInv(steps);
  }

  // ---- the check that makes it so ----

  /** A logout that falls between another caller's look and its retire step. */
  function LogoutRace(): seq<Step> {
    [Issue("admin", "f", "a", 0), Look(0, "a", 1), CheckProfile(0, true), LogOut(1, "a"), Burn(1), Retire(0, "b")]
  }

  lemma RunStep(checkRevoked: bool, steps: seq<Step>, step: Step)
    ensures Run(checkRevoked, steps + [step]) == Next(checkRevoked, Run(checkRevoked, steps), step)
  {
    assert (steps + [step])[..|steps|] == steps;
  }

  lemma RaceUpToTheLook()
    ensures Run(false, LogoutRace()[..3])
      == State(map["a" := Row("admin", "f", REFRESH_TTL, false, false)], map[0 := Allowed("a", 1)], [])
  {
    var q := LogoutRace();
    RunStep(false, [], q[0]);
    RunStep(false, q[..1], q[1]);
    RunStep(false, q[..2], q[2]);
    assert [] + [q[0]] == q[..1] && q[..1] + [q[1]] == q[..2] && q[..2] + [q[2]] == q[..3];
    assert Run(false, []) == START;
    assert Run(false, q[..1]).rows == map["a" := Row("admin", "f", REFRESH_TTL, false, false)];
  }

  lemma RaceUpToTheLogout()
    ensures Run(false, LogoutRace()[..4])
      == State(map["a" := Row("admin", "f", REFRESH_TTL, false, false)],
               map[0 := Allowed("a", 1), 1 := Burning("f")], [])
  {
    var q := LogoutRace();
    RaceUpToTheLook();
    RunStep(false, q[..3], q[3]);
    assert q[..3] + [q[3]] == q[..4];
  }

  lemma RaceUpToTheBurn()
    ensures Run(false, LogoutRace()[..5])
      == State(map["a" := Row("admin", "f", REFRESH_TTL, false, true)],
               map[0 := Allowed("a", 1), 1 := Idle], [Burned("f")])
  {
    var q := LogoutRace();
    RaceUpToTheLogout();
    RunStep(false, q[..4], q[4]);
    assert q[..4] + [q[4]] == q[..5];
  }

  /** Asking only for an unused row would let the race exchange a token of a
      burned family. */
  lemma UsedCheckAloneFails()
    ensures !DeadAfterBurn(Run(false, LogoutRace()).log)
    ensures Live(Run(false, LogoutRace()), "b")
  {
    assert "a" != "b" by { assert "a"[0] != "b"[0]; }
    var q := LogoutRace();
    RaceUpToTheBurn();
    RunStep(false, q[..5], q[5]);
    assert q[..5] + [q[5]] == q;
    var log := Run(false, q).log;
    assert log[0] == Burned("f") && log[1] == Exchanged("a", "b", "f");
  }

  // ---- one exchange on its own ----

  /** The four transactions of one exchange with nothing in between. */
  function ExchangeAlone(checkRevoked: bool, s: State, c: Caller, token: Token, now: int,
                         eligible: bool, drawn: Token): State
  {
    var looked := Next(checkRevoked, s, Look(c, token, now));
    var checked := Next(checkRevoked, looked, CheckProfile(c, eligible));
    Next(checkRevoked, Next(checkRevoked, checked, Retire(c, drawn)), Burn(c))
  }

  /** Without interleaving the extra check changes nothing: the look has made it already. */
  lemma AloneNeedsNoCheck(s: State, c: Caller, token: Token, now: int, eligible: bool, drawn: Token)
    ensures ExchangeAlone(false, s, c, token, now, eligible, drawn)
      == ExchangeAlone(true, s, c, token, now, eligible, drawn)
  {
  }

  /** A login with a new token and family adds one row and changes no other; whoever
      looks at the token later finds it good exactly for ninety days. */
  lemma IssueExact(s: State, profile: string, family: Family, drawn: Token, now: int, c: Caller, later: int)
    requires drawn !in s.rows && forall t :: t in s.rows ==> s.rows[t].family != family
    ensures var after := Next(true, s, Issue(profile, family, drawn, now));
      && after.rows == s.rows[drawn := Row(profile, family, now + 7_776_000, false, false)]
      && after.callers == s.callers && after.log == s.log
      && (At(Next(true, after, Look(c, drawn, later)), c) == Checking(drawn, later) <==> later < now + 7_776_000)
  {
  }

  ghost predicate Exchangeable(s: State, token: Token, now: int, eligible: bool) {
    && token in s.rows && !s.rows[token].used && !s.rows[token].revoked
    && now < s.rows[token].expiresAt && eligible
  }

  /** When an exchange succeeds, what it writes, and that a replay, or a profile
      that may no longer refresh, burns the family and touches no other. */
  lemma ExchangeExact(s: State, c: Caller, token: Token, now: int, eligible: bool, drawn: Token)
    requires drawn !in s.rows
    ensures var after := ExchangeAlone(true, s, c, token, now, eligible, drawn);
      && (Exchangeable(s, token, now, eligible) <==> drawn in after.rows)
      && (Exchangeable(s, token, now, eligible) ==> after.rows == s.rows[token := s.rows[token].(used := true)]
            [drawn := Row(s.rows[token].profile, s.rows[token].family, now + REFRESH_TTL, false, false)])
      && (after.rows == s.rows || Exchangeable(s, token, now, eligible)
          || (token in s.rows && after.rows == RevokeFamily(s.rows, s.rows[token].family)))
      && (token in s.rows && !s.rows[token].revoked
          && (s.rows[token].used || (now < s.rows[token].expiresAt && !eligible))
          ==> after.rows == RevokeFamily(s.rows, s.rows[token].family))
  {
  }

  /** How an exchange on its own ends. */
  datatype Outcome = Rejected | Burns | Rotates

  function OutcomeOf(rows: map<Token, Row>, token: Token, now: int, eligible: bool): Outcome {
    if token !in rows || rows[token].revoked then Rejected
    else if rows[token].used then Burns
    else if rows[token].expiresAt <= now then Rejected
    else if eligible then Rotates else Burns
  }

  lemma AloneByOutcome(s: State, c: Caller, token: Token, now: int, eligible: bool, drawn: Token)
    ensures var after := ExchangeAlone(true, s, c, token, now, eligible, drawn);
      match OutcomeOf(s.rows, token, now, eligible)
      case Rejected => after.rows == s.rows && after.log == s.log
      case Burns =>
        after.rows == RevokeFamily(s.rows, s.rows[token].family) && after.log == s.log + [Burned(s.rows[token].family)]
      case Rotates =>
        if drawn in s.rows then after.rows == s.rows && after.log == s.log
        else
          var r := s.rows[token];
          && after.rows == s.rows[token := r.(used := true)]
                             [drawn := Row(r.profile, r.family, now + REFRESH_TTL, false, false)]
          && after.log == s.log + [Exchanged(token, drawn, r.family)]
  {
    hide RevokeFamily;
  }

  lemma RevokeCommutes(rows: map<Token, Row>, f: Family, g: Family)
    ensures RevokeFamily(RevokeFamily(rows, f), g) == RevokeFamily(RevokeFamily(rows, g), f)
  {
  }

  lemma RevokeOther(rows: map<Token, Row>, f: Family, t: Token, drawn: Token, r: Row)
    requires t in rows && rows[t].family != f && r.family != f
    ensures RevokeFamily(rows, f)[t] == rows[t]
    ensures RevokeFamily(rows, f)[t := rows[t].(used := true)][drawn := r]
      == RevokeFamily(rows[t := rows[t].(used := true)][drawn := r], f)
  {
  }

  /** A burn stops every later exchange of its own family and disturbs no other
      login: for their tokens burning first and exchanging then comes to the same as
      exchanging first. */
  lemma BurnHitsOneFamily(s: State, f: Family, c: Caller, token: Token, now: int, eligible: bool, drawn: Token)
    ensures var burned := s.(rows := RevokeFamily(s.rows, f));
      var (late, early) := (ExchangeAlone(true, burned, c, token, now, eligible, drawn),
                            ExchangeAlone(true, s, c, token, now, eligible, drawn));
      if token in s.rows && s.rows[token].family == f then late.rows == burned.rows && late.log == s.log
      else late.rows == RevokeFamily(early.rows, f) && late.log == early.log
  {
    var burned := s.(rows := RevokeFamily(s.rows, f));
    AloneByOutcome(s, c, token, now, eligible, drawn);
    AloneByOutcome(burned, c, token, now, eligible, drawn);
    if token in s.rows && s.rows[token].family != f {
      var r := s.rows[token];
      RevokeCommutes(s.rows, f, r.family);
      RevokeOther(s.rows, f, token, drawn, Row(r.profile, r.family, now + REFRESH_TTL, false, false));
    }
    assert RevokeFamily(s.rows, f).Keys == s.rows.Keys;
    assert OutcomeOf(burned.rows, token, now, eligible)
      == if token in s.rows && s.rows[token].family == f then Rejected else OutcomeOf(s.rows, token, now, eligible);
    hide RevokeFamily, ExchangeAlone, OutcomeOf;
  }

  /** The rows after an exchange that found its token live got to its retire step. */
  function AfterFinish(rows: map<Token, Row>, token: Token, now: int, drawn: Token): map<Token, Row>
    requires token in rows
  {
    var r := rows[token];
    if !CanRetire(true, r) then RevokeFamily(rows, r.family)
    else if drawn in rows then rows
    else rows[token := r.(used := true)][drawn := Row(r.profile, r.family, now + REFRESH_TTL, false, false)]
  }

  /** The token table, updated in place by the requests one at a time. */
  class TokenTable {
    var rows: map<Token, Row>

    constructor ()
      ensures rows == map[]
    {
      rows := map[];
    }

    method Revoke(family: Family)
      modifies this
      ensures rows == RevokeFamily(old(rows), family)
    {
      rows := map t | t in rows :: if rows[t].family == family then rows[t].(revoked := true) else rows[t];
    }

    /** True if this call retired the row. */
    method MarkUsed(token: Token) returns (won: bool)
      requires token in rows
      modifies this
      ensures won <==> !old(rows)[token].used && !old(rows)[token].revoked
      ensures rows == if won then old(rows)[token := old(rows)[token].(used := true)] else old(rows)
    {
      var r := rows[token];
      won := !r.used && !r.revoked;
      if won { rows := rows[token := r.(used := true)]; }
    }

    /** The retire step of an exchange that found its row live some time ago:
        mint the successor, or burn the family when the race is lost. */
    method Finish(token: Token, now: int, drawn: Token) returns (r: Option<Token>)
      requires token in rows
      modifies this
      ensures rows == AfterFinish(old(rows), token, now, drawn)
      ensures r == if CanRetire(true, old(rows)[token]) && drawn !in old(rows) then Some(drawn) else None
    {
      var row, saved := rows[token], rows;
      var won := MarkUsed(token);
      if !won {
        Revoke(row.family);
        return None;
      }
      if drawn in rows {
        rows := saved;
        return None;
      }
      rows := rows[drawn := Row(row.profile, row.family, now + REFRESH_TTL, false, false)];
      return Some(drawn);
    }

    method Exchange(token: Token, now: int, eligible: bool, drawn: Token) returns (r: Option<Token>)
      modifies this
      ensures rows == ExchangeAlone(true, State(old(rows), map[], []), 0, token, now, eligible, drawn).rows
      ensures r == if Exchangeable(State(old(rows), map[], []), token, now, eligible) && drawn !in old(rows)
                   then Some(drawn) else None
    {
      if token !in rows { return None; }
      var row := rows[token];
      if row.revoked { return None; }
      if row.used {
        Revoke(row.family);
        return None;
      }
      if row.expiresAt <= now { return None; }
      if !eligible {
        Revoke(row.family);
        return None;
      }
      r := Finish(token, now, drawn);
    }
  }

  /** `Finish` is the retire step of the interleaved system, and the burn that
      follows it when the race is lost. */
  lemma FinishIsRetire(s: State, c: Caller, token: Token, now: int, drawn: Token)
    requires token in s.rows && At(s, c) == Allowed(token, now)
    ensures Next(true, Next(true, s, Retire(c, drawn)), Burn(c)).rows == AfterFinish(s.rows, token, now, drawn)
  {
  }
}

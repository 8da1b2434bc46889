/** A burn at the level of database statements.  `DaemonAuth` takes it as one step.
    Here it is the update it is, under READ COMMITTED: it lists the family's rows
    that are committed when it starts, waits for the locks other transactions hold
    on them, and revokes what it listed.  A successor that is minted but not yet
    committed when the list is made is not on it. */
module DaemonSnapshots {
  import D = DaemonAuth

  type Token = D.Token
  type Family = D.Family
  type Row = D.Row
  type Caller = D.Caller

  /** An open exchange: the token's row is marked and locked, the successor not yet visible. */
  datatype Exchange = Exchange(token: Token, drawn: Token, now: int)

  /** An update in progress; `minted` are the family's rows committed since it listed. */
  datatype Burning = Burning(family: Family, listed: set<Token>, minted: set<Token>)

  datatype Step =
    | Issue(profile: string, family: Family, drawn: Token, now: int)
    | Mark(caller: Caller, token: Token, drawn: Token, now: int)
    | Commit(caller: Caller)
    | ListRows(caller: Caller, family: Family)
    | Revoke(caller: Caller)

  datatype State = State(rows: map<Token, Row>, open: map<Caller, Exchange>, burns: map<Caller, Burning>)

  const START := State(map[], map[], map[])

  predicate Locked(s: State, t: Token) {
    exists c :: c in s.open && s.open[c].token == t
  }

  /** No row on the caller's list is locked, so its update can go through. */
  predicate Ready(s: State, c: Caller) {
    c in s.burns && forall t :: t in s.burns[c].listed ==> !Locked(s, t)
  }

  function Added(burns: map<Caller, Burning>, f: Family, t: Token): map<Caller, Burning> {
    map c | c in burns :: if burns[c].family == f then burns[c].(minted := burns[c].minted + {t}) else burns[c]
  }

  function RevokeListed(rows: map<Token, Row>, listed: set<Token>): map<Token, Row> {
    map t | t in rows :: if t in listed then rows[t].(revoked := true) else rows[t]
  }

  /** A step that has to wait, or that fails, changes nothing. */
  function Next(s: State, step: Step): State {
    match step
    case Issue(profile, family, drawn, now) =>
      if drawn in s.rows || exists t :: t in s.rows && s.rows[t].family == family then s
      else
        s.(rows := s.rows[drawn := D.Row(profile, family, now + D.REFRESH_TTL, false, false)],
           burns := Added(s.burns, family, drawn))
    case Mark(c, token, drawn, now) =>
      if c in s.open || token !in s.rows || Locked(s, token) || !D.CanRetire(true, s.rows[token]) then s
      else s.(open := s.open[c := Exchange(token, drawn, now)])
    case Commit(c) => CommitStep(s, c)
    case ListRows(c, f) =>
      if c in s.burns then s
      else s.(burns := s.burns[c := Burning(f, set t | t in s.rows && s.rows[t].family == f && !s.rows[t].revoked, {})])
    case Revoke(c) =>
      if !Ready(s, c) then s
      else s.(rows := RevokeListed(s.rows, s.burns[c].listed), burns := s.burns - {c})
  }

  function CommitStep(s: State, c: Caller): State {
    if c !in s.open || s.open[c].token !in s.rows then s
    else
      var x := s.open[c];
      var r := s.rows[x.token];
      if x.drawn in s.rows then s.(open := s.open - {c})
      else
        State(s.rows[x.token := r.(used := true)]
                [x.drawn := D.Row(r.profile, r.family, x.now + D.REFRESH_TTL, false, false)],
              s.open - {c}, Added(s.burns, r.family, x.drawn))
  }

  function RunFrom(s: State, steps: seq<Step>): State {
    if steps == [] then s else Next(RunFrom(s, steps[..|steps| - 1]), steps[|steps| - 1])
  }

  // ---- what every interleaving keeps ----

  ghost predicate InFamily(rows: map<Token, Row>, f: Family, t: Token) {
    t in rows && rows[t].family == f
  }

  /** The rows of open exchanges are locked, so they stay as they were marked. */
  ghost predicate OpenSound(s: State) {
    && (forall c :: c in s.open ==> s.open[c].token in s.rows && D.CanRetire(true, s.rows[s.open[c].token]))
    && forall c, d :: c in s.open && d in s.open && s.open[c].token == s.open[d].token ==> c == d
  }

  /** A row of the family is on the list, or revoked, or was committed since. */
  ghost predicate BurnSound(rows: map<Token, Row>, b: Burning) {
    && (forall t :: t in b.listed + b.minted ==> InFamily(rows, b.family, t))
    && b.listed !! b.minted
    && forall t :: InFamily(rows, b.family, t) ==> t in b.listed || t in b.minted || rows[t].revoked
  }

  ghost predicate Inv(s: State) {
    OpenSound(s) && forall c :: c in s.burns ==> BurnSound(s.rows, s.burns[c])
  }

  /** Rows keep their family, and stay revoked; b grows by t when t is new in its family. */
  lemma GrownBurnSound(rows: map<Token, Row>, after: map<Token, Row>, b: Burning, f: Family, t: Token)
    requires BurnSound(rows, b) && t !in rows && after.Keys == rows.Keys + {t} && after[t].family == f
    requires forall u :: u in rows ==> after[u].family == rows[u].family && after[u].revoked == rows[u].revoked
    ensures BurnSound(after, if b.family == f then b.(minted := b.minted + {t}) else b)
  {
    forall u | u in rows ensures InFamily(after, b.family, u) <==> InFamily(rows, b.family, u) {
    }
  }

  lemma RevokedBurnSound(rows: map<Token, Row>, listed: set<Token>, b: Burning)
    requires BurnSound(rows, b)
    ensures BurnSound(RevokeListed(rows, listed), b)
  {
    var after := RevokeListed(rows, listed);
    forall u ensures InFamily(after, b.family, u) <==> InFamily(rows, b.family, u) {
    }
  }

  lemma CommitKeepsOpen(s: State, c: Caller)
    requires OpenSound(s)
    ensures OpenSound(CommitStep(s, c))
  {
  }

  lemma CommitKeepsInv(s: State, c: Caller)
    requires Inv(s)
    ensures Inv(CommitStep(s, c))
  {
    var after := CommitStep(s, c);
    CommitKeepsOpen(s, c);
    hide OpenSound;
    if after.rows != s.rows {
      var x := s.open[c];
      var f := s.rows[x.token].family;
      assert after.burns == Added(s.burns, f, x.drawn) && x.drawn !in s.rows;
      hide BurnSound, CommitStep;
      forall d | d in after.burns ensures BurnSound(after.rows, after.burns[d]) {
        GrownBurnSound(s.rows, after.rows, s.burns[d], f, x.drawn);
      }
    }
  }

  lemma RevokeKeepsInv(s: State, c: Caller)
    requires Inv(s) && Ready(s, c)
    ensures Inv(Next(s, Revoke(c)))
  {
    var after := Next(s, Revoke(c));
    forall d | d in after.open ensures after.open[d].token !in s.burns[c].listed {
      assert Locked(s, s.open[d].token);
    }
    hide BurnSound;
    forall d | d in after.burns ensures BurnSound(after.rows, after.burns[d]) {
      RevokedBurnSound(s.rows, s.burns[c].listed, s.burns[d]);
    }
  }

  lemma IssueKeepsInv(s: State, step: Step)
    requires Inv(s) && step.Issue?
    ensures Inv(Next(s, step))
  {
    hide BurnSound;
    var after := Next(s, step);
    if after.rows != s.rows {
      forall d | d in after.burns ensures BurnSound(after.rows, after.burns[d]) {
        GrownBurnSound(s.rows, after.rows, s.burns[d], step.family, step.drawn);
      }
    }
  }

  lemma ListKeepsInv(s: State, step: Step)
    requires Inv(s) && step.ListRows?
    ensures Inv(Next(s, step))
  {
    var after := Next(s, step);
    if after != s {
      assert BurnSound(s.rows, after.burns[step.caller]);
      hide BurnSound;
    }
  }

  lemma NextKeepsInv(s: State, step: Step)
    requires Inv(s)
    ensures Inv(Next(s, step))
  {
    match step
    case Issue(_, _, _, _) => IssueKeepsInv(s, step);
    case ListRows(_, _) => ListKeepsInv(s, step);
    case Commit(c) => CommitKeepsInv(s, c);
    case Revoke(c) => if Ready(s, c) { RevokeKeepsInv(s, c); }
    case Mark(c, token, drawn, now) =>
      hide BurnSound;
      forall d | d in s.open ensures Locked(s, s.open[d].token) {
      }
  }

  lemma {:induction false} RunKeepsInv(s: State, steps: seq<Step>)
    requires Inv(s)
    ensures Inv(RunFrom(s, steps))
    decreases |steps|
  {
    if steps != [] {
      RunKeepsInv(s, steps[..|steps| - 1]);
      NextKeepsInv(RunFrom(s, steps[..|steps| - 1]), steps[|steps| - 1]);
    }
  }

  // ---- when a burn burns ----

  ghost predicate Dead(rows: map<Token, Row>, f: Family) {
    forall t :: InFamily(rows, f, t) ==> rows[t].revoked
  }

  /** In every history: when a burn goes through, its family is dead exactly when
      each successor committed since the burn listed its rows has been revoked by
      another burn.  With none committed in between it always is. */
  lemma BurnExact(steps: seq<Step>, c: Caller)
    requires Ready(RunFrom(START, steps), c)
    ensures var s := RunFrom(START, steps);
      Dead(Next(s, Revoke(c)).rows, s.burns[c].family) <==>
        forall t :: t in s.burns[c].minted ==> t in s.rows && s.rows[t].revoked
  {
    RunKeepsInv(START, steps);
    var s := RunFrom(START, steps);
    var b, after := s.burns[c], Next(s, Revoke(c)).rows;
    assert BurnSound(s.rows, b);
    forall t | t in b.minted ensures InFamily(after, b.family, t) && after[t] == s.rows[t] {
      assert t in b.listed + b.minted;
    }
    forall t | InFamily(after, b.family, t) ensures InFamily(s.rows, b.family, t) {
    }
  }

  lemma DeadStep(s: State, step: Step, f: Family)
    requires Inv(s) && Dead(s.rows, f) && exists t :: InFamily(s.rows, f, t)
    ensures Dead(Next(s, step).rows, f)
    ensures forall t :: InFamily(Next(s, step).rows, f, t) <==> InFamily(s.rows, f, t)
  {
    var after := Next(s, step);
    if step.Commit? && step.caller in s.open {
      var t := s.open[step.caller].token;
      assert D.CanRetire(true, s.rows[t]) && !InFamily(s.rows, f, t);
    }
  }

  /** A dead family stays dead: whatever happens next, no open exchange of it
      commits and no token is ever added to it. */
  lemma {:induction false} DeadStaysDead(s: State, steps: seq<Step>, f: Family)
    requires Inv(s) && Dead(s.rows, f) && exists t :: InFamily(s.rows, f, t)
    ensures Dead(RunFrom(s, steps).rows, f)
    ensures forall t :: InFamily(RunFrom(s, steps).rows, f, t) <==> InFamily(s.rows, f, t)
    decreases |steps|
  {
    if steps != [] {
      var first := steps[..|steps| - 1];
      DeadStaysDead(s, first, f);
      RunKeepsInv(s, first);
      DeadStep(RunFrom(s, first), steps[|steps| - 1], f);
    }
  }

  // ---- and when it does not ----

  /** A logout lists the family's rows while an exchange is open, and revokes them
      after the exchange has committed. */
  function LogoutDuringExchange(): seq<Step> {
    [Issue("admin", "f", "a", 0), Mark(0, "a", "b", 1), ListRows(1, "f"), Commit(0), Revoke(1)]
  }

  lemma RunStep(s: State, steps: seq<Step>, step: Step)
    ensures RunFrom(s, steps + [step]) == Next(RunFrom(s, steps), step)
  {
    assert (steps + [step])[..|steps|] == steps;
  }

  lemma UpToTheList()
    ensures var row := D.Row("admin", "f", D.REFRESH_TTL, false, false);
      RunFrom(START, LogoutDuringExchange()[..3])
      == State(map["a" := row], map[0 := Exchange("a", "b", 1)], map[1 := Burning("f", {"a"}, {})])
  {
    var q := LogoutDuringExchange();
    var row := D.Row("admin", "f", D.REFRESH_TTL, false, false);
    RunStep(START, [], q[0]);
    RunStep(START, q[..1], q[1]);
    RunStep(START, q[..2], q[2]);
    assert [] + [q[0]] == q[..1] && q[..1] + [q[1]] == q[..2] && q[..2] + [q[2]] == q[..3];
    assert RunFrom(START, []) == START;
    assert RunFrom(START, q[..1]).rows == map["a" := row];
    assert RunFrom(START, q[..2]) == State(map["a" := row], map[0 := Exchange("a", "b", 1)], map[]);
    assert RunFrom(START, q[..3]).burns[1].listed == {"a"};
  }

  lemma UpToTheCommit()
    ensures var row := D.Row("admin", "f", D.REFRESH_TTL, false, false);
      RunFrom(START, LogoutDuringExchange()[..4])
      == State(map["a" := row.(used := true), "b" := row.(expiresAt := 1 + D.REFRESH_TTL)], map[],
               map[1 := Burning("f", {"a"}, {"b"})])
  {
    assert "a" != "b" by { assert "a"[0] != "b"[0]; }
    var q := LogoutDuringExchange();
    UpToTheList();
    RunStep(START, q[..3], q[3]);
    assert q[..3] + [q[3]] == q[..4];
    var s, row := RunFrom(START, q[..3]), D.Row("admin", "f", D.REFRESH_TTL, false, false);
    assert q[3] == Commit(0) && s.open[0] == Exchange("a", "b", 1);
    assert s.open - {0} == map[];
    assert Added(s.burns, "f", "b")[1].minted == {"b"};
    assert Added(s.burns, "f", "b") == map[1 := Burning("f", {"a"}, {"b"})];
    assert CommitStep(s, 0).rows == map["a" := row.(used := true), "b" := row.(expiresAt := 1 + D.REFRESH_TTL)];
  }

  /** The logout goes through and its family is not dead: the successor is live. */
  lemma SuccessorSurvivesLogout()
    ensures var s := RunFrom(START, LogoutDuringExchange());
      && s.burns == map[] && "a" in s.rows && s.rows["a"].revoked
      && "b" in s.rows && s.rows["b"].family == "f" && D.CanRetire(true, s.rows["b"])
  {
    assert "a" != "b" by { assert "a"[0] != "b"[0]; }
    var q := LogoutDuringExchange();
    UpToTheCommit();
    RunStep(START, q[..4], q[4]);
    assert q[..4] + [q[4]] == q;
    var s := RunFrom(START, q[..4]);
    assert Ready(s, 1) && s.burns - {1} == map[];
  }
}

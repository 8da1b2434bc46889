/** The browser login with its requests interleaved.  The handlers run on a thread
    pool and share two dictionaries and the session objects in them without a lock.
    Each step is one access to something shared.  Whoever has found a session object
    keeps it, also after it has left the dictionary. */
module LoginRaces {
  import opened Wrappers
  import D = DeviceLogin
  import Text

  type Code = D.Code
  type Token = D.Token
  type Caller = nat

  /** Where a poll that has found session d stands. */
  datatype Poll =
    | Found(d: Code)
    | SawApproved(d: Code)
    | ReadToken(d: Code, token: Option<Token>)
    | ReadBoth(d: Code, token: Option<Token>, refresh: Option<Token>)
    | Unlisted(d: Code, token: Option<Token>, refresh: Option<Token>) // the user code is popped

  /** Where an approval by user code u stands. */
  datatype Approval =
    | Looked(u: Code, d: Code)
    | Holding(u: Code, d: Code)
    | StatusSet(u: Code, d: Code)
    | TokenSet(u: Code, d: Code)

  /** `FindSession` is the look-up of a poll and `LookUpCode` that of an approval;
      `PollOn` and `ApproveOn` take such a request one access further.  `DropSession`
      and `DropCode` are the two pops of the collection of expired sessions. */
  datatype Step =
    | Start(deviceCode: Code, userCode: Code, now: real)
    | DropSession(d: Code, now: real)
    | DropCode(u: Code)
    | FindSession(caller: Caller, d: Code)
    | PollOn(caller: Caller)
    | LookUpCode(caller: Caller, entered: string)
    | ApproveOn(caller: Caller, drawn: Token)

  datatype Event =
    | Handed(d: Code, token: Option<Token>, refresh: Option<Token>)
    | GaveToken(u: Code, d: Code, given: Token)
    | GaveRefresh(u: Code, d: Code, given: Token)

  /** `cells` are all session objects ever made, `live` the keys of the dictionary. */
  datatype State = State(cells: map<Code, D.Session>, live: set<Code>, byUserCode: map<Code, Code>, dropping: set<Code>,
                         polls: map<Caller, Poll>, approvals: map<Caller, Approval>, log: seq<Event>)

  const START := State(map[], {}, map[], {}, map[], map[], [])

  // ---- the steps ----

  function PollStep(s: State, c: Caller, p: Poll): State
    requires p.d in s.cells
  {
    var cell := s.cells[p.d];
    match p
    case Found(d) =>
      s.(polls := if cell.approved then s.polls[c := SawApproved(d)] else s.polls - {c})
    case SawApproved(d) => s.(polls := s.polls[c := ReadToken(d, cell.token)])
    case ReadToken(d, token) => s.(polls := s.polls[c := ReadBoth(d, token, cell.refresh)])
    case ReadBoth(d, token, refresh) =>
      s.(byUserCode := s.byUserCode - {cell.userCode}, polls := s.polls[c := Unlisted(d, token, refresh)])
    case Unlisted(d, token, refresh) =>
      s.(live := s.live - {d}, polls := s.polls - {c}, log := s.log + [Handed(d, token, refresh)])
  }

  function ApproveStep(s: State, c: Caller, a: Approval, drawn: Token): State
    requires a.d in s.cells
  {
    var cell := s.cells[a.d];
    match a
    case Looked(u, d) => s.(approvals := if d in s.live then s.approvals[c := Holding(u, d)] else s.approvals - {c})
    case Holding(u, d) =>
      s.(cells := s.cells[d := cell.(approved := true)], approvals := s.approvals[c := StatusSet(u, d)])
    case StatusSet(u, d) =>
      s.(cells := s.cells[d := cell.(token := Some(drawn))], approvals := s.approvals[c := TokenSet(u, d)],
         log := s.log + [GaveToken(u, d, drawn)])
    case TokenSet(u, d) =>
      s.(cells := s.cells[d := cell.(refresh := Some(drawn))], approvals := s.approvals - {c},
         log := s.log + [GaveRefresh(u, d, drawn)])
  }

  /** A drawn code was never used before; a step that is not due changes nothing. */
  function Next(s: State, step: Step): State {
    match step
    case Start(d, u, now) =>
      if d in s.cells || exists e :: e in s.cells && s.cells[e].userCode == u then s
      else s.(cells := s.cells[d := D.NewSession(u, now)], live := s.live + {d}, byUserCode := s.byUserCode[u := d])
    case DropSession(d, now) =>
      if d !in s.live || d !in s.cells || s.cells[d].exp >= now then s
      else s.(live := s.live - {d}, dropping := s.dropping + {s.cells[d].userCode})
    case DropCode(u) =>
      if u !in s.dropping then s else s.(byUserCode := s.byUserCode - {u}, dropping := s.dropping - {u})
    case FindSession(c, d) =>
      if c in s.polls || d !in s.live then s else s.(polls := s.polls[c := Found(d)])
    case PollOn(c) =>
      if c !in s.polls || s.polls[c].d !in s.cells then s else PollStep(s, c, s.polls[c])
    case LookUpCode(c, entered) =>
      var u := Text.Strip(entered);
      if c in s.approvals || u !in s.byUserCode then s
      else s.(approvals := s.approvals[c := Looked(u, s.byUserCode[u])])
    case ApproveOn(c, drawn) =>
      if c !in s.approvals || s.approvals[c].d !in s.cells then s else ApproveStep(s, c, s.approvals[c], drawn)
  }

  function RunFrom(s: State, steps: seq<Step>): State {
    if steps == [] then s else Next(RunFrom(s, steps[..|steps| - 1]), steps[|steps| - 1])
  }

  function Run(steps: seq<Step>): State { RunFrom(START, steps) }

  // ---- what every interleaving keeps ----

  ghost predicate Inside(s: State, c: Caller, d: Code) {
    c in s.polls && s.polls[c].d == d
  }

  ghost predicate Busy(s: State, d: Code) {
    exists c :: Inside(s, c, d)
  }

  ghost predicate HandedAt(log: seq<Event>, d: Code, i: nat) {
    i < |log| && log[i].Handed? && log[i].d == d
  }

  ghost predicate HandedIn(log: seq<Event>, d: Code) {
    exists i: nat :: HandedAt(log, d, i)
  }

  ghost predicate GivenToken(log: seq<Event>, d: Code) {
    exists u, t :: GaveToken(u, d, t) in log
  }

  ghost predicate GivenRefresh(log: seq<Event>, d: Code) {
    exists u, t :: GaveRefresh(u, d, t) in log
  }

  /** What a session object holds was given to it by approvals with its user code. */
  ghost predicate CellSound(log: seq<Event>, d: Code, cell: D.Session) {
    && (cell.token.Some? ==> GaveToken(cell.userCode, d, cell.token.value) in log)
    && (cell.refresh.Some? ==> GaveRefresh(cell.userCode, d, cell.refresh.value) in log)
    && (GivenToken(log, d) ==> cell.token.Some?)
    && (GivenRefresh(log, d) ==> cell.refresh.Some?)
    && (cell.refresh.Some? ==> cell.token.Some?) && (cell.token.Some? ==> cell.approved)
  }

  ghost predicate PairSound(log: seq<Event>, u: Code, d: Code, token: Option<Token>, refresh: Option<Token>) {
    && (token.Some? ==> GaveToken(u, d, token.value) in log)
    && (refresh.Some? ==> GaveRefresh(u, d, refresh.value) in log)
  }

  ghost predicate PollSound(s: State, p: Poll) {
    && p.d in s.cells && (!p.Found? ==> s.cells[p.d].approved)
    && PairSound(s.log, s.cells[p.d].userCode, p.d, TokenOf(p), RefreshOf(p))
  }

  function TokenOf(p: Poll): Option<Token> {
    if p.Found? || p.SawApproved? then None else p.token
  }

  function RefreshOf(p: Poll): Option<Token> {
    if p.ReadBoth? || p.Unlisted? then p.refresh else None
  }

  ghost predicate ApprovalSound(s: State, a: Approval) {
    && a.d in s.cells && s.cells[a.d].userCode == a.u
    && (a.StatusSet? || a.TokenSet? ==> s.cells[a.d].approved)
    && (a.TokenSet? ==> s.cells[a.d].token.Some?)
  }

  ghost predicate EventSound(s: State, e: Event) {
    e.Handed? ==>
      && e.d in s.cells && e.d !in s.live && s.cells[e.d].approved
      && PairSound(s.log, s.cells[e.d].userCode, e.d, e.token, e.refresh)
  }

  ghost predicate CodesSound(s: State) {
    && s.live <= s.cells.Keys
    && (forall u :: u in s.byUserCode ==> s.byUserCode[u] in s.cells && s.cells[s.byUserCode[u]].userCode == u)
    && forall d, e :: d in s.cells && e in s.cells && s.cells[d].userCode == s.cells[e].userCode ==> d == e
  }

  ghost predicate Inv(s: State) {
    && CodesSound(s)
    && (forall d :: d in s.cells ==> CellSound(s.log, d, s.cells[d]))
    && (forall e :: e in s.log && !e.Handed? ==> e.d in s.cells)
    && (forall c :: c in s.polls ==> PollSound(s, s.polls[c]))
    && (forall c :: c in s.approvals ==> ApprovalSound(s, s.approvals[c]))
    && forall e :: e in s.log ==> EventSound(s, e)
  }

  /** Objects are never forgotten or un-approved, the log only grows, and a session
      that has left the dictionary stays out. */
  ghost predicate Later(s: State, after: State) {
    && (forall d :: d in s.cells ==> d in after.cells && CellLater(s.cells[d], after.cells[d]))
    && (forall e :: e in s.log ==> e in after.log)
    && forall d :: d in s.cells && d in after.live ==> d in s.live
  }

  ghost predicate CellLater(cell: D.Session, after: D.Session) {
    && after.userCode == cell.userCode && (cell.approved ==> after.approved)
    && (cell.token.Some? ==> after.token.Some?) && (cell.refresh.Some? ==> after.refresh.Some?)
  }

  lemma PollStepLater(s: State, c: Caller, p: Poll)
    requires p.d in s.cells
    ensures Later(s, PollStep(s, c, p))
  {
  }

  lemma ApproveStepLater(s: State, c: Caller, a: Approval, drawn: Token)
    requires a.d in s.cells
    ensures Later(s, ApproveStep(s, c, a, drawn))
  {
  }

  lemma NextLater(s: State, step: Step)
    ensures Later(s, Next(s, step))
  {
    if step.PollOn? && step.caller in s.polls && s.polls[step.caller].d in s.cells {
      hide PollStep, Later;
      PollStepLater(s, step.caller, s.polls[step.caller]);
    } else if step.ApproveOn? && step.caller in s.approvals && s.approvals[step.caller].d in s.cells {
      hide ApproveStep, Later;
      ApproveStepLater(s, step.caller, s.approvals[step.caller], step.drawn);
    } else {
      hide PollStep, ApproveStep, Text.Strip;
    }
  }

  lemma PairLater(s: State, after: State, u: Code, d: Code, token: Option<Token>, refresh: Option<Token>)
    requires Later(s, after) && PairSound(s.log, u, d, token, refresh)
    ensures PairSound(after.log, u, d, token, refresh)
  {
  }

  lemma PollLater(s: State, after: State, p: Poll)
    requires Later(s, after) && PollSound(s, p)
    ensures PollSound(after, p)
  {
    PairLater(s, after, s.cells[p.d].userCode, p.d, TokenOf(p), RefreshOf(p));
  }

  lemma ApprovalLater(s: State, after: State, a: Approval)
    requires Later(s, after) && ApprovalSound(s, a)
    ensures ApprovalSound(after, a)
  {
  }

  lemma EventLater(s: State, after: State, e: Event)
    requires Later(s, after) && EventSound(s, e)
    ensures EventSound(after, e)
  {
    if e.Handed? {
      PairLater(s, after, s.cells[e.d].userCode, e.d, e.token, e.refresh);
    }
  }

  lemma CellStays(log: seq<Event>, e: Event, d: Code, cell: D.Session)
    requires CellSound(log, d, cell) && (e.Handed? || e.d != d)
    ensures CellSound(log + [e], d, cell)
  {
  }

  lemma PollStepSound(s: State, c: Caller)
    requires Inv(s) && c in s.polls
    ensures var after := PollStep(s, c, s.polls[c]);
      && (c in after.polls ==> PollSound(after, after.polls[c]))
      && (forall e :: e in after.log && e !in s.log ==> EventSound(after, e))
  {
    var p := s.polls[c];
    assert PollSound(s, p) && CellSound(s.log, p.d, s.cells[p.d]);
    var after := PollStep(s, c, p);
    if p.Unlisted? {
      assert after.log == s.log + [Handed(p.d, p.token, p.refresh)];
      PairLater(s, after, s.cells[p.d].userCode, p.d, p.token, p.refresh);
    }
  }

  /** What is untouched by a step stays sound. */
  lemma OthersSound(s: State, after: State)
    requires Inv(s) && Later(s, after)
    ensures forall c :: c in s.polls ==> PollSound(after, s.polls[c])
    ensures forall c :: c in s.approvals ==> ApprovalSound(after, s.approvals[c])
    ensures forall e :: e in s.log ==> EventSound(after, e)
  {
    forall c | c in s.polls ensures PollSound(after, s.polls[c]) { PollLater(s, after, s.polls[c]); }
    forall c | c in s.approvals ensures ApprovalSound(after, s.approvals[c]) {
      ApprovalLater(s, after, s.approvals[c]);
    }
    forall e | e in s.log ensures EventSound(after, e) { EventLater(s, after, e); }
  }

  /** What a poll leaves alone. */
  lemma PollShape(s: State, c: Caller, p: Poll)
    requires p.d in s.cells
    ensures var after := PollStep(s, c, p);
      && after.cells == s.cells && after.approvals == s.approvals && after.live <= s.live
      && (forall u :: u in after.byUserCode ==> u in s.byUserCode && after.byUserCode[u] == s.byUserCode[u])
      && (forall o :: o != c ==>
            (o in after.polls <==> o in s.polls) && (o in s.polls ==> after.polls[o] == s.polls[o]))
      && (c in after.polls <==> !p.Unlisted? && (p.Found? ==> s.cells[p.d].approved))
      && (c in after.polls ==> after.polls[c].d == p.d && !after.polls[c].Found?)
      && after.log == (if p.Unlisted? then s.log + [Handed(p.d, p.token, p.refresh)] else s.log)
  {
  }

  lemma SameCodesSound(s: State, after: State)
    requires CodesSound(s) && after.live <= s.live && after.cells.Keys == s.cells.Keys
    requires forall d :: d in s.cells ==> after.cells[d].userCode == s.cells[d].userCode
    requires forall u :: u in after.byUserCode ==> u in s.byUserCode && after.byUserCode[u] == s.byUserCode[u]
    ensures CodesSound(after)
  {
  }

  lemma CellsStay(s: State, log: seq<Event>, e: Event)
    requires forall d :: d in s.cells ==> CellSound(s.log, d, s.cells[d])
    requires e.Handed? && log == s.log + [e]
    ensures forall d :: d in s.cells ==> CellSound(log, d, s.cells[d])
  {
    forall d | d in s.cells ensures CellSound(log, d, s.cells[d]) { CellStays(s.log, e, d, s.cells[d]); }
  }

  lemma PollKeepsInv(s: State, c: Caller)
    requires Inv(s) && c in s.polls && s.polls[c].d in s.cells
    ensures Inv(PollStep(s, c, s.polls[c]))
  {
    hide PollStep, PollSound, ApprovalSound, EventSound, CodesSound, CellSound, Later;
    var p := s.polls[c];
    var after := PollStep(s, c, p);
    PollStepLater(s, c, p);
    OthersSound(s, after);
    PollStepSound(s, c);
    PollShape(s, c, p);
    SameCodesSound(s, after);
    if p.Unlisted? {
      CellsStay(s, after.log, Handed(p.d, p.token, p.refresh));
      assert forall e :: e in after.log && !e.Handed? ==> e in s.log;
    }
  }

  lemma ApproveStepSound(s: State, c: Caller, drawn: Token)
    requires Inv(s) && c in s.approvals
    ensures var after := ApproveStep(s, c, s.approvals[c], drawn);
      && (c in after.approvals ==> ApprovalSound(after, after.approvals[c]))
      && CellSound(after.log, s.approvals[c].d, after.cells[s.approvals[c].d])
  {
    var a := s.approvals[c];
    assert ApprovalSound(s, a) && CellSound(s.log, a.d, s.cells[a.d]);
  }

  /** What an approval leaves alone. */
  lemma ApproveShape(s: State, c: Caller, a: Approval, drawn: Token)
    requires a.d in s.cells
    ensures var after := ApproveStep(s, c, a, drawn);
      && after.cells.Keys == s.cells.Keys && after.cells[a.d].userCode == s.cells[a.d].userCode
      && (forall d :: d in s.cells && d != a.d ==> after.cells[d] == s.cells[d])
      && after.polls == s.polls && after.live == s.live && after.byUserCode == s.byUserCode
      && (forall o :: o in after.approvals && o != c ==> o in s.approvals && after.approvals[o] == s.approvals[o])
      && (after.log == s.log || exists e :: after.log == s.log + [e] && !e.Handed? && e.d == a.d)
  {
    var after := ApproveStep(s, c, a, drawn);
    assert after.log == s.log || after.log == s.log + [GaveToken(a.u, a.d, drawn)]
      || after.log == s.log + [GaveRefresh(a.u, a.d, drawn)];
  }

  lemma OtherCellsStay(s: State, after: State, d: Code)
    requires after.log == s.log || exists e :: after.log == s.log + [e] && !e.Handed? && e.d == d
    requires after.cells.Keys == s.cells.Keys && forall o :: o in s.cells && o != d ==> after.cells[o] == s.cells[o]
    requires forall o :: o in s.cells ==> CellSound(s.log, o, s.cells[o])
    ensures forall o :: o in s.cells && o != d ==> CellSound(after.log, o, after.cells[o])
  {
    if after.log != s.log {
      var e :| after.log == s.log + [e] && !e.Handed? && e.d == d;
      forall o | o in s.cells && o != d ensures CellSound(after.log, o, after.cells[o]) {
        CellStays(s.log, e, o, s.cells[o]);
      }
    }
  }

  lemma ApproveKeepsInv(s: State, c: Caller, drawn: Token)
    requires Inv(s) && c in s.approvals && s.approvals[c].d in s.cells
    ensures Inv(ApproveStep(s, c, s.approvals[c], drawn))
  {
    hide ApproveStep, PollSound, ApprovalSound, EventSound, CellSound, CodesSound, Later;
    var a := s.approvals[c];
    var after := ApproveStep(s, c, a, drawn);
    ApproveStepLater(s, c, a, drawn);
    OthersSound(s, after);
    ApproveStepSound(s, c, drawn);
    ApproveShape(s, c, a, drawn);
    OtherCellsStay(s, after, a.d);
    SameCodesSound(s, after);
    forall e | e in after.log && e !in s.log ensures EventSound(after, e) && e.d in s.cells {
      NewEventSound(s, after, a.d, e);
    }
  }

  lemma NewEventSound(s: State, after: State, d: Code, e: Event)
    requires after.log == s.log || exists o :: after.log == s.log + [o] && !o.Handed? && o.d == d
    requires e in after.log && e !in s.log
    ensures EventSound(after, e) && !e.Handed? && e.d == d
  {
  }

  lemma StartKeepsInv(s: State, step: Step)
    requires Inv(s) && step.Start?
    ensures Inv(Next(s, step))
  {
    var after := Next(s, step);
    NextLater(s, step);
    OthersSound(s, after);
    if after != s {
      assert CodesSound(after);
      assert CellSound(after.log, step.deviceCode, after.cells[step.deviceCode]) by {
        assert !GivenToken(s.log, step.deviceCode) && !GivenRefresh(s.log, step.deviceCode);
      }
      hide CellSound, PollSound, ApprovalSound, EventSound, CodesSound;
    }
  }

  lemma FindKeepsInv(s: State, c: Caller, d: Code)
    requires Inv(s) && d in s.live
    ensures Inv(s.(polls := s.polls[c := Found(d)]))
  {
    var after := s.(polls := s.polls[c := Found(d)]);
    assert PollSound(after, Found(d)) && Later(s, after);
    OthersSound(s, after);
    SameCodesSound(s, after);
    hide PollSound, ApprovalSound, EventSound, CodesSound, CellSound, Later;
  }

  lemma LookUpKeepsInv(s: State, c: Caller, u: Code)
    requires Inv(s) && u in s.byUserCode
    ensures Inv(s.(approvals := s.approvals[c := Looked(u, s.byUserCode[u])]))
  {
    var after := s.(approvals := s.approvals[c := Looked(u, s.byUserCode[u])]);
    assert ApprovalSound(after, Looked(u, s.byUserCode[u])) && Later(s, after);
    OthersSound(s, after);
    SameCodesSound(s, after);
    hide PollSound, ApprovalSound, EventSound, CodesSound, CellSound, Later;
  }

  lemma DropKeepsInv(s: State, live: set<Code>, codes: map<Code, Code>, dropping: set<Code>)
    requires Inv(s) && live <= s.live
    requires forall u :: u in codes ==> u in s.byUserCode && codes[u] == s.byUserCode[u]
    ensures Inv(s.(live := live, byUserCode := codes, dropping := dropping))
  {
    var after := s.(live := live, byUserCode := codes, dropping := dropping);
    assert Later(s, after);
    OthersSound(s, after);
    SameCodesSound(s, after);
    hide PollSound, ApprovalSound, EventSound, CodesSound, CellSound, Later;
  }

  lemma NextKeepsInv(s: State, step: Step)
    requires Inv(s)
    ensures Inv(Next(s, step))
  {
    hide Inv, PollStep, ApproveStep, Text.Strip;
    match step
    case PollOn(c) => if c in s.polls && s.polls[c].d in s.cells { PollKeepsInv(s, c); }
    case ApproveOn(c, drawn) => if c in s.approvals && s.approvals[c].d in s.cells { ApproveKeepsInv(s, c, drawn); }
    case Start(_, _, _) => StartKeepsInv(s, step);
    case FindSession(c, d) => if c !in s.polls && d in s.live { FindKeepsInv(s, c, d); }
    case LookUpCode(c, entered) =>
      var u := Text.Strip(entered);
      if c !in s.approvals && u in s.byUserCode { LookUpKeepsInv(s, c, u); }
    case DropSession(d, now) =>
      if d in s.live && d in s.cells && s.cells[d].exp < now {
        DropKeepsInv(s, s.live - {d}, s.byUserCode, s.dropping + {s.cells[d].userCode});
      }
    case DropCode(u) => if u in s.dropping { DropKeepsInv(s, s.live, s.byUserCode - {u}, s.dropping - {u}); }
  }

  lemma {:induction false} RunKeepsInv(steps: seq<Step>)
    ensures Inv(Run(steps))
    decreases |steps|
  {
    if steps != [] {
      RunKeepsInv(steps[..|steps| - 1]);
      NextKeepsInv(Run(steps[..|steps| - 1]), steps[|steps| - 1]);
    }
  }

  // ---- handed over once ----

  ghost predicate HandedTwice(log: seq<Event>, d: Code) {
    exists i: nat, j: nat :: i < j && HandedAt(log, d, i) && HandedAt(log, d, j)
  }

  /** A poll pops session d while another poll still holds it. */
  ghost predicate Crosses(s: State, step: Step, d: Code) {
    && step.PollOn? && Inside(s, step.caller, d) && s.polls[step.caller].Unlisted?
    && exists c :: c != step.caller && Inside(s, c, d)
  }

  /** The session has been, or is bound to be, handed over twice. */
  ghost predicate WillTwice(s: State, d: Code) {
    HandedTwice(s.log, d) || (HandedIn(s.log, d) && Busy(s, d))
  }

  lemma LogGrows(log: seq<Event>, e: Event, d: Code)
    ensures HandedIn(log + [e], d) <==> HandedIn(log, d) || (e.Handed? && e.d == d)
    ensures HandedTwice(log + [e], d) <==> HandedTwice(log, d) || (HandedIn(log, d) && e.Handed? && e.d == d)
  {
    var after := log + [e];
    assert forall i: nat :: i < |log| ==> (HandedAt(after, d, i) <==> HandedAt(log, d, i));
    assert HandedAt(after, d, |log|) <==> e.Handed? && e.d == d;
  }

  /** A poll comes in by finding the session and leaves, once it is approved, by handing it over. */
  lemma PollTwice(s: State, c: Caller, d: Code)
    requires Inv(s) && c in s.polls && s.polls[c].d in s.cells
    ensures WillTwice(PollStep(s, c, s.polls[c]), d) <==> WillTwice(s, d) || Crosses(s, PollOn(c), d)
  {
    var p := s.polls[c];
    var after := PollStep(s, c, p);
    assert HandedIn(s.log, d) ==> d in s.cells && s.cells[d].approved by { HandedApproved(s, d); }
    hide PollStep, Inv;
    PollShape(s, c, p);
    forall o | o != c ensures Inside(after, o, d) <==> Inside(s, o, d) {
    }
    if p.Unlisted? { LogGrows(s.log, Handed(p.d, p.token, p.refresh), d); }
    assert Inside(after, c, d) ==> Inside(s, c, d);
    assert HandedIn(s.log, d) && Inside(s, c, d) && !p.Unlisted? ==> Inside(after, c, d);
    hide HandedTwice, HandedIn;
  }

  lemma HandedApproved(s: State, d: Code)
    requires Inv(s)
    ensures HandedIn(s.log, d) ==> d in s.cells && d !in s.live && s.cells[d].approved
  {
    if i: nat :| HandedAt(s.log, d, i) {
      assert EventSound(s, s.log[i]);
    }
  }

  lemma FindTwice(s: State, c: Caller, d: Code, e: Code)
    requires Inv(s) && c !in s.polls && e in s.live
    ensures WillTwice(s.(polls := s.polls[c := Found(e)]), d) <==> WillTwice(s, d)
  {
    var after := s.(polls := s.polls[c := Found(e)]);
    HandedApproved(s, d);
    hide Inv, HandedTwice, HandedIn;
    forall o | o != c ensures Inside(after, o, d) <==> Inside(s, o, d) {
    }
    assert Inside(after, c, d) <==> e == d;
  }

  lemma NextTwice(s: State, step: Step, d: Code)
    requires Inv(s)
    ensures WillTwice(Next(s, step), d) <==> WillTwice(s, d) || Crosses(s, step, d)
  {
    assert forall c :: c in s.polls ==> PollSound(s, s.polls[c]);
    hide Inv, WillTwice, PollStep;
    if step.PollOn? {
      if step.caller in s.polls && s.polls[step.caller].d in s.cells { PollTwice(s, step.caller, d); }
    } else if step.FindSession? {
      if step.caller !in s.polls && step.d in s.live { FindTwice(s, step.caller, d, step.d); }
    } else {
      OthersTwice(s, step, d);
    }
  }

  lemma OthersTwice(s: State, step: Step, d: Code)
    requires !step.PollOn? && !step.FindSession?
    ensures WillTwice(Next(s, step), d) <==> WillTwice(s, d)
  {
    var after := Next(s, step);
    assert after.polls == s.polls;
    if after.log != s.log {
      var e := after.log[|s.log|];
      assert after.log == s.log + [e] && !e.Handed?;
      LogGrows(s.log, e, d);
    }
    forall c ensures Inside(after, c, d) <==> Inside(s, c, d) {
    }
  }

  // ---- handed over whole ----

  ghost predicate LacksIn(log: seq<Event>, d: Code) {
    exists e :: e in log && e.Handed? && e.d == d && (e.token.None? || e.refresh.None?)
  }

  /** The poll has read one of the tokens before it was there. */
  predicate PollLacks(p: Poll) {
    match p
    case Found(_) => false
    case SawApproved(_) => false
    case ReadToken(_, token) => token.None?
    case ReadBoth(_, token, refresh) => token.None? || refresh.None?
    case Unlisted(_, token, refresh) => token.None? || refresh.None?
  }

  /** Something incomplete has been, or is bound to be, handed over. */
  ghost predicate WillLack(s: State, d: Code) {
    LacksIn(s.log, d) || exists c :: Inside(s, c, d) && PollLacks(s.polls[c])
  }

  /** A poll reads one of the tokens before any approval has given it. */
  ghost predicate Early(s: State, step: Step, d: Code) {
    && step.PollOn? && Inside(s, step.caller, d)
    && ((s.polls[step.caller].SawApproved? && !GivenToken(s.log, d))
        || (s.polls[step.caller].ReadToken? && !GivenRefresh(s.log, d)))
  }

  lemma PollLack(s: State, c: Caller, d: Code)
    requires Inv(s) && c in s.polls && s.polls[c].d in s.cells
    ensures WillLack(PollStep(s, c, s.polls[c]), d) <==> WillLack(s, d) || Early(s, PollOn(c), d)
  {
    var p := s.polls[c];
    var after := PollStep(s, c, p);
    assert PollSound(s, p) && CellSound(s.log, p.d, s.cells[p.d]);
    PollShape(s, c, p);
    assert LacksIn(after.log, d) <==> LacksIn(s.log, d) || (p.d == d && p.Unlisted? && PollLacks(p)) by {
      if p.Unlisted? { assert Handed(p.d, p.token, p.refresh) in after.log; }
    }
    hide Inv, PollSound, CellSound;
    forall o | o != c ensures Inside(after, o, d) <==> Inside(s, o, d) {
    }
    assert forall o :: o != c && Inside(s, o, d) ==> after.polls[o] == s.polls[o];
    if Inside(s, c, d) && !p.Unlisted? {
      assert Inside(after, c, d) && PollLacks(after.polls[c]) <==> PollLacks(p) || Early(s, PollOn(c), d);
    }
  }

  /** What the other steps do to the polls and to what has been handed over. */
  lemma OthersShape(s: State, step: Step)
    requires !step.PollOn?
    ensures var after := Next(s, step);
      && (forall e: Event :: e.Handed? ==> (e in after.log <==> e in s.log))
      && (after.polls == s.polls || (step.FindSession? && step.caller !in s.polls && step.d in s.live
                                     && after.polls == s.polls[step.caller := Found(step.d)]))
  {
    hide Text.Strip;
  }

  lemma NextLack(s: State, step: Step, d: Code)
    requires Inv(s)
    ensures WillLack(Next(s, step), d) <==> WillLack(s, d) || Early(s, step, d)
  {
    var after := Next(s, step);
    if step.PollOn? {
      if step.caller in s.polls && s.polls[step.caller].d in s.cells { PollLack(s, step.caller, d); }
    } else {
      OthersShape(s, step);
      hide Inv, Next;
      forall c ensures Inside(after, c, d) && PollLacks(after.polls[c]) <==> Inside(s, c, d) && PollLacks(s.polls[c]) {
      }
    }
  }

  // ---- whole histories ----

  ghost predicate AnyCrossing(steps: seq<Step>, d: Code) {
    steps != [] && (AnyCrossing(steps[..|steps| - 1], d) || Crosses(Run(steps[..|steps| - 1]), steps[|steps| - 1], d))
  }

  ghost predicate AnyEarly(steps: seq<Step>, d: Code) {
    steps != [] && (AnyEarly(steps[..|steps| - 1], d) || Early(Run(steps[..|steps| - 1]), steps[|steps| - 1], d))
  }

  lemma {:induction false} RunTwiceAndLack(steps: seq<Step>, d: Code)
    ensures WillTwice(Run(steps), d) <==> AnyCrossing(steps, d)
    ensures WillLack(Run(steps), d) <==> AnyEarly(steps, d)
    decreases |steps|
  {
    if steps != [] {
      var first := steps[..|steps| - 1];
      RunTwiceAndLack(first, d);
      RunKeepsInv(first);
      NextTwice(Run(first), steps[|steps| - 1], d);
      NextLack(Run(first), steps[|steps| - 1], d);
    }
  }

  /** In every interleaving, once no poll of session d is under way: it was handed
      over twice exactly when some poll popped it while another poll held it; and
      something incomplete was handed over exactly when some poll read a token before
      an approval had given it. */
  lemma HandedOnceExact(steps: seq<Step>, d: Code)
    requires !Busy(Run(steps), d)
    ensures HandedTwice(Run(steps).log, d) <==> AnyCrossing(steps, d)
    ensures LacksIn(Run(steps).log, d) <==> AnyEarly(steps, d)
  {
    RunTwiceAndLack(steps, d);
  }

  /** Whatever is handed over was given to that very session by approvals with its
      user code, and the session is not in the dictionary any more. */
  lemma HandedWasApproved(steps: seq<Step>, e: Event)
    requires e in Run(steps).log && e.Handed?
    ensures var s := Run(steps);
      && e.d in s.cells && e.d !in s.live
      && PairSound(s.log, s.cells[e.d].userCode, e.d, e.token, e.refresh)
  {
    RunKeepsInv(steps);
    assert EventSound(Run(steps), e);
  }

  // ---- a discipline that suffices ----

  /** A poll finds the session while another poll of it is under way. */
  ghost predicate Overlaps(s: State, step: Step, d: Code) {
    step.FindSession? && step.d == d && step.caller !in s.polls && d in s.live && Busy(s, d)
  }

  /** A poll sees the session approved before some approval of it is finished. */
  ghost predicate SeenTooSoon(s: State, step: Step, d: Code) {
    && step.PollOn? && Inside(s, step.caller, d) && s.polls[step.caller].Found?
    && d in s.cells && s.cells[d].approved && !GivenRefresh(s.log, d)
  }

  ghost predicate Careful(steps: seq<Step>, d: Code) {
    steps == [] || (Careful(steps[..|steps| - 1], d)
      && !Overlaps(Run(steps[..|steps| - 1]), steps[|steps| - 1], d)
      && !SeenTooSoon(Run(steps[..|steps| - 1]), steps[|steps| - 1], d))
  }

  ghost predicate CarefulInv(s: State, d: Code) {
    && (forall c, o :: Inside(s, c, d) && Inside(s, o, d) ==> c == o)
    && forall c :: Inside(s, c, d) && !s.polls[c].Found? ==> GivenToken(s.log, d) && GivenRefresh(s.log, d)
  }

  lemma GivenLater(s: State, after: State, d: Code)
    requires Later(s, after) && GivenToken(s.log, d) && GivenRefresh(s.log, d)
    ensures GivenToken(after.log, d) && GivenRefresh(after.log, d)
  {
    var u, t :| GaveToken(u, d, t) in s.log;
    var v, r :| GaveRefresh(v, d, r) in s.log;
    assert GaveToken(u, d, t) in after.log && GaveRefresh(v, d, r) in after.log;
  }

  lemma RefreshImpliesToken(s: State, d: Code)
    requires Inv(s) && GivenRefresh(s.log, d)
    ensures GivenToken(s.log, d)
  {
    var u, t :| GaveRefresh(u, d, t) in s.log;
    assert CellSound(s.log, d, s.cells[d]);
  }

  lemma CarefulFind(s: State, after: State, c: Caller, d: Code, e: Code)
    requires CarefulInv(s, d) && c !in s.polls && (e == d ==> !Busy(s, d))
    requires after == s.(polls := s.polls[c := Found(e)])
    ensures CarefulInv(after, d)
  {
    forall o | o != c ensures Inside(after, o, d) <==> Inside(s, o, d) {
    }
  }

  lemma CarefulPolls(s: State, after: State, c: Caller, d: Code)
    requires CarefulInv(s, d)
    requires forall o :: Inside(after, o, d) ==> Inside(s, o, d) && (o != c ==> after.polls[o] == s.polls[o])
    requires GivenToken(s.log, d) && GivenRefresh(s.log, d) ==> GivenToken(after.log, d) && GivenRefresh(after.log, d)
    requires Inside(after, c, d) ==> GivenToken(after.log, d) && GivenRefresh(after.log, d)
    ensures CarefulInv(after, d)
  {
    hide GivenToken, GivenRefresh;
  }

  lemma CarefulPoll(s: State, c: Caller, d: Code)
    requires Inv(s) && CarefulInv(s, d) && c in s.polls && s.polls[c].d in s.cells
    requires !SeenTooSoon(s, PollOn(c), d)
    ensures CarefulInv(PollStep(s, c, s.polls[c]), d)
  {
    var p := s.polls[c];
    var after := PollStep(s, c, p);
    if GivenRefresh(s.log, d) { RefreshImpliesToken(s, d); }
    hide Inv, PollStep, GivenToken, GivenRefresh, Later;
    PollStepLater(s, c, p);
    if GivenRefresh(s.log, d) { GivenLater(s, after, d); }
    PollShape(s, c, p);
    assert Inside(after, c, d) ==> Inside(s, c, d) && GivenRefresh(s.log, d);
    hide CarefulInv;
    CarefulPolls(s, after, c, d);
  }

  lemma CarefulOther(s: State, step: Step, d: Code)
    requires CarefulInv(s, d) && !step.PollOn? && Next(s, step).polls == s.polls
    ensures CarefulInv(Next(s, step), d)
  {
    var after := Next(s, step);
    NextLater(s, step);
    if GivenToken(s.log, d) && GivenRefresh(s.log, d) { GivenLater(s, after, d); }
    hide Next, GivenToken, GivenRefresh;
    forall c ensures Inside(after, c, d) <==> Inside(s, c, d) {
    }
  }

  lemma CarefulStep(s: State, step: Step, d: Code)
    requires Inv(s) && CarefulInv(s, d) && !Overlaps(s, step, d) && !SeenTooSoon(s, step, d)
    ensures CarefulInv(Next(s, step), d)
  {
    if step.PollOn? {
      hide Inv, CarefulInv, PollStep;
      if step.caller in s.polls && s.polls[step.caller].d in s.cells { CarefulPoll(s, step.caller, d); }
    } else {
      OthersShape(s, step);
      if Next(s, step).polls == s.polls {
        CarefulOther(s, step, d);
      } else {
        CarefulFind(s, Next(s, step), step.caller, d, step.d);
      }
    }
  }

  lemma CarefulIsSafe(s: State, step: Step, d: Code)
    requires CarefulInv(s, d)
    ensures !Crosses(s, step, d) && !Early(s, step, d)
  {
    if step.PollOn? && Inside(s, step.caller, d) && !s.polls[step.caller].Found? {
      assert GivenToken(s.log, d) && GivenRefresh(s.log, d);
    }
  }

  /** While polls of a session never overlap and none sees it approved before an
      approval of it is finished, it is handed over at most once, and whole. */
  lemma {:induction false} CarefulRunsHandOverOnce(steps: seq<Step>, d: Code)
    requires Careful(steps, d)
    ensures CarefulInv(Run(steps), d) && !AnyCrossing(steps, d) && !AnyEarly(steps, d)
    ensures !HandedTwice(Run(steps).log, d) && !LacksIn(Run(steps).log, d)
    decreases |steps|
  {
    if steps != [] {
      var first := steps[..|steps| - 1];
      CarefulRunsHandOverOnce(first, d);
      RunKeepsInv(first);
      CarefulStep(Run(first), steps[|steps| - 1], d);
      CarefulIsSafe(Run(first), steps[|steps| - 1], d);
    }
    RunTwiceAndLack(steps, d);
  }

  // ---- the tables between requests ----

  function AsTables(s: State): D.Tables {
    D.Tables(map d | d in s.live && d in s.cells :: s.cells[d], s.byUserCode)
  }

  ghost predicate Listed(s: State, d: Code) {
    d in s.cells && s.cells[d].userCode in s.byUserCode && s.byUserCode[s.cells[d].userCode] == d
  }

  /** Poll c has popped the user code of session d and not yet the session. */
  ghost predicate Unlisting(s: State, c: Caller, d: Code) {
    Inside(s, c, d) && s.polls[c].Unlisted?
  }

  ghost predicate Delisted(s: State, d: Code) {
    d in s.cells && s.cells[d].userCode !in s.byUserCode
  }

  ghost predicate Dropped(s: State, u: Code) {
    exists d :: d in s.cells && d !in s.live && s.cells[d].userCode == u
  }

  /** A session and its user code are in the tables together, but for the moments
      between the two pops of a poll or of a collection. */
  ghost predicate TablesInv(s: State) {
    && (forall d :: d in s.live ==> Listed(s, d) || exists c :: Unlisting(s, c, d))
    && (forall u :: u in s.byUserCode ==> s.byUserCode[u] in s.live || u in s.dropping)
    && (forall c, d :: Unlisting(s, c, d) ==> Delisted(s, d))
    && forall u :: u in s.dropping ==> Dropped(s, u)
  }

  /** Same dictionaries, same polls between their pops. */
  lemma SameTables(s: State, after: State)
    requires TablesInv(s) && after.live == s.live && after.byUserCode == s.byUserCode && after.dropping == s.dropping
    requires forall d :: d in s.cells ==> d in after.cells && after.cells[d].userCode == s.cells[d].userCode
    requires forall c, d :: Unlisting(after, c, d) <==> Unlisting(s, c, d)
    ensures TablesInv(after)
  {
    forall d | d in s.live ensures Listed(after, d) || exists c :: Unlisting(after, c, d) {
      if !Listed(s, d) {
        var c :| Unlisting(s, c, d);
        assert Unlisting(after, c, d);
      }
    }
    forall u | u in s.dropping ensures Dropped(after, u) {
      assert Dropped(s, u);
    }
  }

  lemma SamePollsTables(s: State, after: State)
    requires TablesInv(s) && after.live == s.live && after.byUserCode == s.byUserCode && after.dropping == s.dropping
    requires forall d :: d in s.cells ==> d in after.cells && after.cells[d].userCode == s.cells[d].userCode
    requires after.polls == s.polls
    ensures TablesInv(after)
  {
    forall o, e ensures Unlisting(after, o, e) <==> Unlisting(s, o, e) {
    }
    SameTables(s, after);
  }

  lemma UnlistKeepsTables(s: State, c: Caller, p: Poll)
    requires CodesSound(s) && TablesInv(s) && p.ReadBoth? && p.d in s.cells && c in s.polls && s.polls[c] == p
    ensures TablesInv(PollStep(s, c, p))
  {
    var after := PollStep(s, c, p);
    assert Unlisting(after, c, p.d);
    forall o, d | o != c ensures Unlisting(after, o, d) <==> Unlisting(s, o, d) {
    }
    forall d | d in s.live && d != p.d ensures Listed(after, d) || exists o :: Unlisting(after, o, d) {
      if !Listed(s, d) {
        var o :| Unlisting(s, o, d);
        assert o != c && Unlisting(after, o, d);
      }
    }
    forall u | u in s.dropping ensures Dropped(after, u) {
      assert Dropped(s, u);
    }
  }

  lemma TakeKeepsTables(s: State, c: Caller, p: Poll)
    requires CodesSound(s) && TablesInv(s) && p.Unlisted? && p.d in s.cells && c in s.polls && s.polls[c] == p
    ensures TablesInv(PollStep(s, c, p))
  {
    var after := PollStep(s, c, p);
    assert Unlisting(s, c, p.d) && Delisted(s, p.d);
    forall o, d | o != c ensures Unlisting(after, o, d) <==> Unlisting(s, o, d) {
    }
    forall d | d in after.live ensures Listed(after, d) || exists o :: Unlisting(after, o, d) {
      if !Listed(s, d) {
        var o :| Unlisting(s, o, d);
        assert o != c && Unlisting(after, o, d);
      }
    }
    forall u | u in s.dropping ensures Dropped(after, u) {
      assert Dropped(s, u);
    }
  }

  lemma PollKeepsTables(s: State, c: Caller)
    requires Inv(s) && TablesInv(s) && c in s.polls && s.polls[c].d in s.cells
    ensures TablesInv(PollStep(s, c, s.polls[c]))
  {
    var p := s.polls[c];
    assert CodesSound(s);
    hide Inv, CodesSound, TablesInv;
    if p.ReadBoth? {
      UnlistKeepsTables(s, c, p);
    } else if p.Unlisted? {
      TakeKeepsTables(s, c, p);
    } else {
      SameTables(s, PollStep(s, c, p));
    }
  }

  lemma DropSessionKeepsTables(s: State, d: Code)
    requires CodesSound(s) && TablesInv(s) && d in s.live
    ensures TablesInv(s.(live := s.live - {d}, dropping := s.dropping + {s.cells[d].userCode}))
  {
    var u := s.cells[d].userCode;
    var after := s.(live := s.live - {d}, dropping := s.dropping + {u});
    forall c, e ensures Unlisting(after, c, e) <==> Unlisting(s, c, e) {
    }
    forall e | e in after.live ensures Listed(after, e) || exists c :: Unlisting(after, c, e) {
      if !Listed(s, e) {
        var c :| Unlisting(s, c, e);
        assert Unlisting(after, c, e);
      }
    }
    forall v | v in after.dropping ensures Dropped(after, v) {
      if v in s.dropping { assert Dropped(s, v); } else { assert d in s.cells && d !in after.live; }
    }
  }

  lemma DropCodeKeepsTables(s: State, u: Code)
    requires CodesSound(s) && TablesInv(s) && u in s.dropping
    ensures TablesInv(s.(byUserCode := s.byUserCode - {u}, dropping := s.dropping - {u}))
  {
    var after := s.(byUserCode := s.byUserCode - {u}, dropping := s.dropping - {u});
    assert Dropped(s, u);
    forall c, e ensures Unlisting(after, c, e) <==> Unlisting(s, c, e) {
    }
    forall e | e in after.live ensures Listed(after, e) || exists c :: Unlisting(after, c, e) {
      if Listed(s, e) {
        assert s.cells[e].userCode != u;
      } else {
        var c :| Unlisting(s, c, e);
        assert Unlisting(after, c, e);
      }
    }
    forall v | v in after.dropping ensures Dropped(after, v) {
      assert Dropped(s, v);
    }
  }

  lemma StartKeepsListed(s: State, after: State, d: Code, u: Code)
    requires CodesSound(s) && after.polls == s.polls && after.byUserCode == s.byUserCode[u := d]
    requires forall e :: e in s.cells ==> e in after.cells && after.cells[e] == s.cells[e] && s.cells[e].userCode != u
    requires forall e :: e in s.live ==> Listed(s, e) || exists c :: Unlisting(s, c, e)
    ensures forall e :: e in s.live ==> Listed(after, e) || exists c :: Unlisting(after, c, e)
  {
    forall e | e in s.live ensures Listed(after, e) || exists c :: Unlisting(after, c, e) {
      if !Listed(s, e) {
        var c :| Unlisting(s, c, e);
        assert Unlisting(after, c, e);
      }
    }
  }

  lemma StartKeepsTables(s: State, d: Code, u: Code, cell: D.Session)
    requires CodesSound(s) && TablesInv(s) && d !in s.cells && cell.userCode == u
    requires forall e :: e in s.cells ==> s.cells[e].userCode != u
    requires forall c :: c in s.polls ==> s.polls[c].d in s.cells
    ensures TablesInv(s.(cells := s.cells[d := cell], live := s.live + {d}, byUserCode := s.byUserCode[u := d]))
  {
    var after := s.(cells := s.cells[d := cell], live := s.live + {d}, byUserCode := s.byUserCode[u := d]);
    StartKeepsListed(s, after, d, u);
    assert Listed(after, d);
    forall c, e ensures Unlisting(after, c, e) <==> Unlisting(s, c, e) {
    }
    forall v | v in s.dropping ensures Dropped(after, v) {
      assert Dropped(s, v);
      var e :| e in s.cells && e !in s.live && s.cells[e].userCode == v;
      assert e in after.cells && e !in after.live && after.cells[e].userCode == v;
    }
    assert forall c, e :: Unlisting(after, c, e) ==> Delisted(s, e) && Delisted(after, e);
    hide CodesSound, Unlisting, Delisted, Listed, Dropped;
  }

  lemma FindKeepsTables(s: State, c: Caller, d: Code)
    requires TablesInv(s) && c !in s.polls
    ensures TablesInv(s.(polls := s.polls[c := Found(d)]))
  {
    var after := s.(polls := s.polls[c := Found(d)]);
    forall o, e ensures Unlisting(after, o, e) <==> Unlisting(s, o, e) {
    }
    hide TablesInv;
    SameTables(s, after);
  }

  lemma ApproveKeepsTables(s: State, c: Caller, drawn: Token)
    requires TablesInv(s) && c in s.approvals && s.approvals[c].d in s.cells
    ensures TablesInv(ApproveStep(s, c, s.approvals[c], drawn))
  {
    var after := ApproveStep(s, c, s.approvals[c], drawn);
    hide TablesInv;
    ApproveShape(s, c, s.approvals[c], drawn);
    SamePollsTables(s, after);
  }

  lemma NextKeepsTables(s: State, step: Step)
    requires Inv(s) && TablesInv(s)
    ensures TablesInv(Next(s, step))
  {
    assert CodesSound(s) && forall c :: c in s.polls ==> PollSound(s, s.polls[c]);
    hide Inv, CodesSound, TablesInv, PollStep, ApproveStep, Text.Strip;
    match step
    case PollOn(c) => if c in s.polls && s.polls[c].d in s.cells { PollKeepsTables(s, c); }
    case DropSession(d, now) =>
      if d in s.live && d in s.cells && s.cells[d].exp < now { DropSessionKeepsTables(s, d); }
    case DropCode(u) => if u in s.dropping { DropCodeKeepsTables(s, u); }
    case Start(d, u, now) =>
      if d !in s.cells && forall e :: e in s.cells ==> s.cells[e].userCode != u {
        StartKeepsTables(s, d, u, D.NewSession(u, now));
      }
    case FindSession(c, d) => if c !in s.polls && d in s.live { FindKeepsTables(s, c, d); }
    case LookUpCode(c, entered) =>
      var u := Text.Strip(entered);
      if c !in s.approvals && u in s.byUserCode {
        SamePollsTables(s, s.(approvals := s.approvals[c := Looked(u, s.byUserCode[u])]));
      }
    case ApproveOn(c, drawn) =>
      if c in s.approvals && s.approvals[c].d in s.cells { ApproveKeepsTables(s, c, drawn); }
  }

  lemma {:induction false} RunKeepsTables(steps: seq<Step>)
    ensures TablesInv(Run(steps))
    decreases |steps|
  {
    if steps != [] {
      RunKeepsTables(steps[..|steps| - 1]);
      RunKeepsInv(steps[..|steps| - 1]);
      NextKeepsTables(Run(steps[..|steps| - 1]), steps[|steps| - 1]);
    }
  }

  /** Whenever nobody is between two pops, the two tables are inverse to each other. */
  lemma QuietTablesInverse(steps: seq<Step>)
    requires Run(steps).dropping == {} && forall c :: c in Run(steps).polls ==> !Run(steps).polls[c].Unlisted?
    ensures D.InverseTables(AsTables(Run(steps)))
  {
    var s := Run(steps);
    RunKeepsTables(steps);
    RunKeepsInv(steps);
    assert CodesSound(s);
    forall d | d in s.live ensures Listed(s, d) {
      assert forall c :: !Unlisting(s, c, d);
    }
  }

  // ---- a request in one piece ----

  /** The state after n further accesses of a poll. */
  function Polled(s: State, c: Caller, n: nat): State {
    if n == 0 then s else Next(Polled(s, c, n - 1), PollOn(c))
  }

  lemma PollReads(s: State, c: Caller, d: Code)
    requires c in s.polls && s.polls[c] == Found(d) && d in s.cells && s.cells[d].approved
    ensures Polled(s, c, 3) == s.(polls := s.polls[c := ReadBoth(d, s.cells[d].token, s.cells[d].refresh)])
  {
    var cell := s.cells[d];
    assert Polled(s, c, 0) == s;
    assert Polled(s, c, 1) == s.(polls := s.polls[c := SawApproved(d)]);
    assert Polled(s, c, 2) == s.(polls := s.polls[c := ReadToken(d, cell.token)]);
  }

  lemma PollPops(s: State, c: Caller, d: Code, token: Option<Token>, refresh: Option<Token>)
    requires c in s.polls && s.polls[c] == ReadBoth(d, token, refresh) && d in s.cells
    ensures Next(Next(s, PollOn(c)), PollOn(c))
      == s.(byUserCode := s.byUserCode - {s.cells[d].userCode}, live := s.live - {d}, polls := s.polls - {c},
            log := s.log + [Handed(d, token, refresh)])
  {
    var unlisted := Next(s, PollOn(c));
    assert unlisted == s.(byUserCode := s.byUserCode - {s.cells[d].userCode},
                          polls := s.polls[c := Unlisted(d, token, refresh)]);
    assert unlisted.polls - {c} == s.polls - {c};
  }

  lemma PollToTheEnd(s: State, c: Caller, d: Code)
    requires c in s.polls && s.polls[c] == Found(d) && d in s.cells && s.cells[d].approved
    ensures Polled(s, c, 5) == s.(byUserCode := s.byUserCode - {s.cells[d].userCode}, live := s.live - {d},
                                  polls := s.polls - {c},
                                  log := s.log + [Handed(d, s.cells[d].token, s.cells[d].refresh)])
  {
    PollReads(s, c, d);
    var read := Polled(s, c, 3);
    PollPops(read, c, d, s.cells[d].token, s.cells[d].refresh);
    assert read.polls - {c} == s.polls - {c};
    assert Polled(s, c, 5) == Next(Next(read, PollOn(c)), PollOn(c));
    hide Next;
  }

  /** A poll of an approved session without interruption is the request served whole. */
  lemma PollInOnePiece(s: State, c: Caller, d: Code, now: real)
    requires c !in s.polls && d in s.live && d in s.cells && s.cells[d].approved
    requires D.Expired(AsTables(s), now) == {}
    ensures var after := Polled(Next(s, FindSession(c, d)), c, 5);
      D.Serve(AsTables(s), D.Poll(now, d)) == (AsTables(after), D.Granted(s.cells[d].token, s.cells[d].refresh))
  {
    var found := Next(s, FindSession(c, d));
    PollToTheEnd(found, c, d);
    var t, after := AsTables(s), Polled(found, c, 5);
    assert D.Gc(t, now) == t;
    assert AsTables(after).sessions == t.sessions - {d};
  }

  /** An approval that has found its session sets the status and both tokens. */
  lemma ApproveToTheEnd(s: State, c: Caller, u: Code, d: Code, token: Token, refresh: Token)
    requires c in s.approvals && s.approvals[c] == Holding(u, d) && d in s.cells
    ensures var after := Next(Next(Next(s, ApproveOn(c, "")), ApproveOn(c, token)), ApproveOn(c, refresh));
      && after.cells == s.cells[d := D.WithTokens(s.cells[d], token, refresh)]
      && after.live == s.live && after.byUserCode == s.byUserCode
  {
    var cell := s.cells[d];
    var s1 := Next(s, ApproveOn(c, ""));
    assert s1 == s.(cells := s.cells[d := cell.(approved := true)], approvals := s.approvals[c := StatusSet(u, d)]);
    var s2 := Next(s1, ApproveOn(c, token));
    assert s2.cells == s.cells[d := cell.(approved := true, token := Some(token))];
    assert s2.approvals == s.approvals[c := TokenSet(u, d)];
  }

  /** An approval without interruption is the request served whole. */
  lemma ApproveInOnePiece(s: State, c: Caller, entered: string, token: Token, refresh: Token, now: real)
    requires c !in s.approvals && s.live <= s.cells.Keys
    requires Text.Strip(entered) in s.byUserCode && s.byUserCode[Text.Strip(entered)] in s.live
    requires D.Expired(AsTables(s), now) == {}
    ensures var found := Next(Next(s, LookUpCode(c, entered)), ApproveOn(c, ""));
      var after := Next(Next(Next(found, ApproveOn(c, "")), ApproveOn(c, token)), ApproveOn(c, refresh));
      D.Serve(AsTables(s), D.Approve(now, entered, token, refresh)) == (AsTables(after), D.Approved)
  {
    var u := Text.Strip(entered);
    var d := s.byUserCode[u];
    var found := Next(Next(s, LookUpCode(c, entered)), ApproveOn(c, ""));
    assert found == s.(approvals := s.approvals[c := Holding(u, d)]);
    ApproveToTheEnd(found, c, u, d, token, refresh);
    var after := Next(Next(Next(found, ApproveOn(c, "")), ApproveOn(c, token)), ApproveOn(c, refresh));
    ServedApproval(s, after, entered, d, token, refresh, now);
    hide Next, D.Serve;
  }

  lemma ServedApproval(s: State, after: State, entered: string, d: Code, token: Token, refresh: Token, now: real)
    requires s.live <= s.cells.Keys && D.Expired(AsTables(s), now) == {}
    requires Text.Strip(entered) in s.byUserCode && s.byUserCode[Text.Strip(entered)] == d && d in s.live
    requires after.cells == s.cells[d := D.WithTokens(s.cells[d], token, refresh)]
    requires after.live == s.live && after.byUserCode == s.byUserCode
    ensures D.Serve(AsTables(s), D.Approve(now, entered, token, refresh)) == (AsTables(after), D.Approved)
  {
    assert D.Gc(AsTables(s), now) == AsTables(s);
    assert AsTables(after).sessions == AsTables(s).sessions[d := D.WithTokens(s.cells[d], token, refresh)];
  }

  // ---- histories that go wrong ----

  function PollSteps(c: Caller, n: nat): seq<Step> { seq(n, _ => PollOn(c)) }

  lemma RunThen(steps: seq<Step>, step: Step)
    ensures Run(steps + [step]) == Next(Run(steps), step)
  {
    assert (steps + [step])[..|steps|] == steps;
  }

  lemma {:induction false} RunPolls(steps: seq<Step>, c: Caller, n: nat)
    ensures Run(steps + PollSteps(c, n)) == Polled(Run(steps), c, n)
    decreases n
  {
    if n == 0 {
      assert steps + PollSteps(c, 0) == steps;
    } else {
      RunPolls(steps, c, n - 1);
      assert steps + PollSteps(c, n) == steps + PollSteps(c, n - 1) + [PollOn(c)];
      RunThen(steps + PollSteps(c, n - 1), PollOn(c));
    }
  }

  function Started(): State {
    START.(cells := map["d" := D.NewSession("u", 0.0)], live := {"d"}, byUserCode := map["u" := "d"])
  }

  lemma StartedFirst(steps: seq<Step>)
    requires steps == [Start("d", "u", 0.0)]
    ensures Run(steps) == Started()
  {
    RunThen([], steps[0]);
    assert [] + [steps[0]] == steps && Run([]) == START;
  }

  /** A new session whose approval has found it and not yet set anything. */
  lemma Opened() returns (steps: seq<Step>)
    ensures Run(steps) == Started().(approvals := map[0 := Holding("u", "d")])
  {
    Text.StripOfVisible("u");
    hide Text.Strip;
    steps := [Start("d", "u", 0.0)];
    StartedFirst(steps);
    RunThen(steps, LookUpCode(0, "u"));
    RunThen(steps + [LookUpCode(0, "u")], ApproveOn(0, ""));
    steps := steps + [LookUpCode(0, "u")] + [ApproveOn(0, "")];
    hide Run;
    assert Next(Started(), LookUpCode(0, "u")) == Started().(approvals := map[0 := Looked("u", "d")]);
  }

  /** A poll that finds the session now and runs to its end. */
  function PollNow(s: State, c: Caller, d: Code): State { Polled(Next(s, FindSession(c, d)), c, 5) }

  lemma RunPollNow(steps: seq<Step>, c: Caller, d: Code) returns (more: seq<Step>)
    ensures Run(more) == PollNow(Run(steps), c, d)
  {
    RunThen(steps, FindSession(c, d));
    RunPolls(steps + [FindSession(c, d)], c, 5);
    more := steps + [FindSession(c, d)] + PollSteps(c, 5);
  }

  lemma PollNowHands(s: State, c: Caller, d: Code)
    requires c !in s.polls && d in s.live && d in s.cells && s.cells[d].approved
    ensures var after := PollNow(s, c, d);
      && after.cells == s.cells && after.live == s.live - {d} && after.approvals == s.approvals
      && after.log == s.log + [Handed(d, s.cells[d].token, s.cells[d].refresh)]
  {
    PollToTheEnd(Next(s, FindSession(c, d)), c, d);
  }

  /** Wherever a session is approved, two polls that both find it hand it over twice. */
  lemma TwoPollsHandOverTwice(s: State, c: Caller, o: Caller, d: Code)
    requires c != o && c !in s.polls && o !in s.polls && d in s.live && d in s.cells && s.cells[d].approved
    ensures HandedTwice(Polled(Polled(Next(Next(s, FindSession(c, d)), FindSession(o, d)), c, 5), o, 5).log, d)
  {
    var both := Next(Next(s, FindSession(c, d)), FindSession(o, d));
    PollToTheEnd(both, c, d);
    var first := Polled(both, c, 5);
    PollToTheEnd(first, o, d);
    hide Polled, Next;
    LogGrows(both.log, first.log[|both.log|], d);
    LogGrows(first.log, Handed(d, first.cells[d].token, first.cells[d].refresh), d);
  }

  /** Some history hands the tokens of one session over twice. */
  lemma HandedOverTwice() returns (steps: seq<Step>)
    ensures HandedTwice(Run(steps).log, "d")
  {
    var before := Opened();
    RunThen(before, ApproveOn(0, ""));
    steps := before + [ApproveOn(0, "")];
    var s := Run(steps);
    TwoPollsHandOverTwice(s, 1, 2, "d");
    RunThen(steps, FindSession(1, "d"));
    RunThen(steps + [FindSession(1, "d")], FindSession(2, "d"));
    steps := steps + [FindSession(1, "d")] + [FindSession(2, "d")];
    RunPolls(steps, 1, 5);
    RunPolls(steps + PollSteps(1, 5), 2, 5);
    steps := steps + PollSteps(1, 5) + PollSteps(2, 5);
  }

  /** A poll between the status and the token hands over nothing and ends the session. */
  lemma NothingHandedOver() returns (steps: seq<Step>)
    ensures Handed("d", None, None) in Run(steps).log && "d" !in Run(steps).live
  {
    var before := Opened();
    RunThen(before, ApproveOn(0, ""));
    var s := Run(before + [ApproveOn(0, "")]);
    PollNowHands(s, 1, "d");
    steps := RunPollNow(before + [ApproveOn(0, "")], 1, "d");
    hide PollNow, Run;
    assert PollNow(s, 1, "d").log == s.log + [Handed("d", None, None)];
  }

  /** A poll while the refresh token is being made hands over the other one; the
      refresh token is made and nobody gets it. */
  lemma RefreshTokenLost() returns (steps: seq<Step>)
    ensures var s := Run(steps);
      && Handed("d", Some("t"), None) in s.log && GaveRefresh("u", "d", "r") in s.log
      && "d" !in s.live && s.approvals == map[]
  {
    var before := Opened();
    RunThen(before, ApproveOn(0, ""));
    var status := before + [ApproveOn(0, "")];
    RunThen(status, ApproveOn(0, "t"));
    var given := status + [ApproveOn(0, "t")];
    var s := Run(given);
    assert s.approvals == map[0 := TokenSet("u", "d")];
    assert s.cells["d"].token == Some("t") && s.cells["d"].refresh == None;
    PollNowHands(s, 1, "d");
    var polled := RunPollNow(given, 1, "d");
    hide PollNow, Run;
    var p := PollNow(s, 1, "d");
    RunThen(polled, ApproveOn(0, "r"));
    steps := polled + [ApproveOn(0, "r")];
    assert Handed("d", Some("t"), None) in p.log;
    assert Next(p, ApproveOn(0, "r")).log == p.log + [GaveRefresh("u", "d", "r")];
    assert map[0 := TokenSet("u", "d")] - {0} == map[];
  }
}

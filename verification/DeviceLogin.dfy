/** Browser login of a daemon (shaped like section 3 of RFC 8628): the daemon
    starts a session and polls it, an admin approves it by its user code.  Codes
    and tokens are drawn at random; a draw is assumed not to repeat an earlier one.
    Here each request is served as a whole; `LoginRaces` lets requests interleave. */
module DeviceLogin {
  import opened Wrappers
  import Text

  type Code = string
  type Token = string

  const CLI_TTL := 600.0

  datatype Session = Session(userCode: Code, approved: bool, token: Option<Token>, refresh: Option<Token>, exp: real)

  datatype Tables = Tables(sessions: map<Code, Session>, byUserCode: map<Code, Code>)

  datatype Request =
    | Start(now: real, deviceCode: Code, userCode: Code)
    | Poll(now: real, deviceCode: Code)
    | Approve(now: real, entered: string, token: Token, refresh: Token)

  datatype Reply =
    | Started | NotFound | Pending | Approved
    | Granted(token: Option<Token>, refresh: Option<Token>)

  // ---- the requests ----

  function Expired(t: Tables, now: real): set<Code> {
    set d | d in t.sessions && t.sessions[d].exp < now
  }

  /** Drops expired sessions together with their user codes. */
  function Gc(t: Tables, now: real): Tables {
    var gone := Expired(t, now);
    Tables(t.sessions - gone, t.byUserCode - set d | d in gone :: t.sessions[d].userCode)
  }

  function NewSession(u: Code, now: real): Session {
    Session(u, false, None, None, now + CLI_TTL)
  }

  function WithTokens(s: Session, token: Token, refresh: Token): Session {
    s.(approved := true, token := Some(token), refresh := Some(refresh))
  }

  function Serve(before: Tables, q: Request): (Tables, Reply) {
    var t := Gc(before, q.now);
    match q
    case Start(now, d, u) =>
      (Tables(t.sessions[d := NewSession(u, now)], t.byUserCode[u := d]), Started)
    case Poll(now, d) =>
      if d !in t.sessions then (t, NotFound)
      else
        var s := t.sessions[d];
        if s.approved then
          (Tables(t.sessions - {d}, t.byUserCode - {s.userCode}), Granted(s.token, s.refresh))
        else (t, Pending)
    case Approve(now, entered, token, refresh) =>
      var u := Text.Strip(entered);
      if u !in t.byUserCode || t.byUserCode[u] !in t.sessions then (t, NotFound)
      else
        var d := t.byUserCode[u];
        (t.(sessions := t.sessions[d := WithTokens(t.sessions[d], token, refresh)]), Approved)
  }

  /** The two module-level dictionaries. */
  class LoginTables {
    var sessions: map<Code, Session>
    var byUserCode: map<Code, Code>

    ghost function Now(): Tables
      reads this
    {
      Tables(sessions, byUserCode)
    }

    constructor ()
      ensures Now() == Tables(map[], map[])
    {
      sessions, byUserCode := map[], map[];
    }

    method Collect(now: real)
      modifies this
      ensures Now() == Gc(old(Now()), now)
    {
      ghost var before := Now();
      var expired := set d | d in sessions && sessions[d].exp < now;
      ghost var done: set<Code> := {};
      while expired != {}
        invariant expired !! done && expired + done == Expired(before, now)
        invariant sessions == before.sessions - done
        invariant byUserCode == before.byUserCode - set d | d in done :: before.sessions[d].userCode
        decreases expired
      {
        var d :| d in expired;
        var u := sessions[d].userCode;
        sessions := sessions - {d};
        byUserCode := byUserCode - {u};
        expired, done := expired - {d}, done + {d};
      }
    }

    method Begin(now: real, deviceCode: Code, userCode: Code)
      modifies this
      ensures Now() == Serve(old(Now()), Start(now, deviceCode, userCode)).0
    {
      Collect(now);
      sessions := sessions[deviceCode := Session(userCode, false, None, None, now + CLI_TTL)];
      byUserCode := byUserCode[userCode := deviceCode];
    }

    method PollSession(now: real, deviceCode: Code) returns (r: Reply)
      modifies this
      ensures (Now(), r) == Serve(old(Now()), Poll(now, deviceCode))
    {
      Collect(now);
      if deviceCode !in sessions { return NotFound; }
      var s := sessions[deviceCode];
      if s.approved {
        byUserCode := byUserCode - {s.userCode};
        sessions := sessions - {deviceCode};
        return Granted(s.token, s.refresh);
      }
      return Pending;
    }

    method ApproveSession(now: real, entered: string, token: Token, refresh: Token) returns (r: Reply)
      modifies this
      ensures (Now(), r) == Serve(old(Now()), Approve(now, entered, token, refresh))
    {
      Collect(now);
      var userCode := Text.Strip(entered);
      if userCode !in byUserCode || byUserCode[userCode] !in sessions { return NotFound; }
      var d := byUserCode[userCode];
      ghost var before := sessions;
      sessions := sessions[d := sessions[d].(approved := true)];
      sessions := sessions[d := sessions[d].(token := Some(token))];
      sessions := sessions[d := sessions[d].(refresh := Some(refresh))];
      assert sessions == before[d := WithTokens(before[d], token, refresh)];
      return Approved;
    }
  }

  // ---- histories ----

  function Run(qs: seq<Request>): Tables {
    if qs == [] then Tables(map[], map[]) else Serve(Run(qs[..|qs| - 1]), qs[|qs| - 1]).0
  }

  /** What request i was answered. */
  function ReplyAt(qs: seq<Request>, i: nat): Reply
    requires i < |qs|
  {
    Serve(Run(qs[..i]), qs[i]).1
  }

  /** No code is drawn twice. */
  ghost predicate FreshCodes(qs: seq<Request>) {
    forall i, j :: 0 <= i < j < |qs| && qs[i].Start? && qs[j].Start? ==>
      qs[i].deviceCode != qs[j].deviceCode && qs[i].userCode != qs[j].userCode
  }

  ghost predicate StartedBy(qs: seq<Request>, d: Code, u: Code) {
    exists i :: 0 <= i < |qs| && qs[i].Start? && qs[i].deviceCode == d && qs[i].userCode == u
  }

  /** Request i handed over a token of session d. */
  ghost predicate Grants(qs: seq<Request>, i: nat, d: Code) {
    i < |qs| && qs[i].Poll? && qs[i].deviceCode == d && ReplyAt(qs, i).Granted?
  }

  ghost predicate ApprovedBy(qs: seq<Request>, i: nat, u: Code, token: Token, refresh: Token) {
    && i < |qs| && qs[i].Approve? && Text.Strip(qs[i].entered) == u
    && qs[i].token == token && qs[i].refresh == refresh && ReplyAt(qs, i) == Approved
  }

  /** An admin approved user code u with this pair of tokens in some request. */
  ghost predicate ApprovedWith(qs: seq<Request>, u: Code, token: Token, refresh: Token) {
    exists i: nat :: ApprovedBy(qs, i, u, token, refresh)
  }

  // ---- what every history keeps ----

  /** The two tables are inverse to each other. */
  ghost predicate InverseTables(t: Tables) {
    && (forall d :: d in t.sessions ==>
          t.sessions[d].userCode in t.byUserCode && t.byUserCode[t.sessions[d].userCode] == d)
    && (forall u :: u in t.byUserCode ==> t.byUserCode[u] in t.sessions && t.sessions[t.byUserCode[u]].userCode == u)
  }

  /** An approved session holds both tokens, any other holds neither. */
  ghost predicate TokensSound(t: Tables) {
    forall d :: d in t.sessions ==>
      && (t.sessions[d].approved <==> t.sessions[d].token.Some?)
      && (t.sessions[d].approved <==> t.sessions[d].refresh.Some?)
  }

  lemma GcKeeps(t: Tables, now: real)
    requires InverseTables(t)
    ensures InverseTables(Gc(t, now))
    ensures forall d :: d in Gc(t, now).sessions <==> d in t.sessions && t.sessions[d].exp >= now
  {
  }

  lemma AddedInverse(t: Tables, d: Code, s: Session)
    requires InverseTables(t) && d !in t.sessions && s.userCode !in t.byUserCode
    ensures InverseTables(Tables(t.sessions[d := s], t.byUserCode[s.userCode := d]))
  {
  }

  lemma RemovedInverse(t: Tables, d: Code)
    requires InverseTables(t) && d in t.sessions
    ensures InverseTables(Tables(t.sessions - {d}, t.byUserCode - {t.sessions[d].userCode}))
  {
  }

  lemma ChangedInverse(t: Tables, d: Code, s: Session)
    requires InverseTables(t) && d in t.sessions && s.userCode == t.sessions[d].userCode
    ensures InverseTables(t.(sessions := t.sessions[d := s]))
  {
  }

  lemma ServeKeepsInverse(t: Tables, q: Request)
    requires InverseTables(t)
    requires q.Start? ==> q.deviceCode !in t.sessions && q.userCode !in t.byUserCode
    ensures InverseTables(Serve(t, q).0)
  {
    GcKeeps(t, q.now);
    var g := Gc(t, q.now);
    match q
    case Start(now, d, u) => AddedInverse(g, d, NewSession(u, now));
    case Poll(now, d) => if d in g.sessions { RemovedInverse(g, d); }
    case Approve(now, entered, token, refresh) =>
      var u := Text.Strip(entered);
      if u in g.byUserCode {
        var d := g.byUserCode[u];
        ChangedInverse(g, d, WithTokens(g.sessions[d], token, refresh));
      }
  }

  // ---- the three requests ----

  /** The session exists and has not expired. */
  predicate Open(t: Tables, d: Code, now: real) {
    d in t.sessions && now <= t.sessions[d].exp
  }

  /** Open sessions other than d are untouched, and there are no further ones. */
  ghost predicate OthersOpen(t: Tables, now: real, d: Code, after: Tables) {
    forall e :: e != d ==>
      (e in after.sessions <==> Open(t, e, now)) && (e in after.sessions ==> after.sessions[e] == t.sessions[e])
  }

  /** A start adds a session for ten minutes that is not approved. */
  lemma StartExact(t: Tables, now: real, d: Code, u: Code)
    ensures var (after, r) := Serve(t, Start(now, d, u));
      && r == Started && OthersOpen(t, now, d, after)
      && d in after.sessions && after.sessions[d] == Session(u, false, None, None, now + 600.0)
      && u in after.byUserCode && after.byUserCode[u] == d
  {
  }

  /** A poll is answered by the state of its session, which ends when it is handed over. */
  lemma PollExact(t: Tables, now: real, d: Code)
    ensures var (after, r) := Serve(t, Poll(now, d));
      && OthersOpen(t, now, d, after)
      && (!Open(t, d, now) ==> r == NotFound && d !in after.sessions)
      && (Open(t, d, now) && !t.sessions[d].approved ==>
            r == Pending && d in after.sessions && after.sessions[d] == t.sessions[d])
      && (Open(t, d, now) && t.sessions[d].approved ==>
            && r == Granted(t.sessions[d].token, t.sessions[d].refresh)
            && d !in after.sessions && t.sessions[d].userCode !in after.byUserCode)
  {
  }

  /** An approval finds the open session by its user code, entered with or without
      blanks around it, and gives the tokens to that session only. */
  lemma ApproveExact(t: Tables, now: real, entered: string, token: Token, refresh: Token)
    requires InverseTables(t)
    ensures var ((after, r), u) := (Serve(t, Approve(now, entered, token, refresh)), Text.Strip(entered));
      && (r == Approved <==> exists d :: Open(t, d, now) && t.sessions[d].userCode == u)
      && (r != Approved ==> r == NotFound && forall d :: OthersOpen(t, now, d, after))
      && forall d :: Open(t, d, now) && t.sessions[d].userCode == u ==>
           && OthersOpen(t, now, d, after) && d in after.sessions
           && after.sessions[d] == Session(u, true, Some(token), Some(refresh), t.sessions[d].exp)
  {
    GcKeeps(t, now);
    var g, u := Gc(t, now), Text.Strip(entered);
    forall d ensures d in g.sessions <==> Open(t, d, now) {
    }
    if u in g.byUserCode {
      assert Open(t, g.byUserCode[u], now) && t.sessions[g.byUserCode[u]].userCode == u;
    }
    forall d | Open(t, d, now) && t.sessions[d].userCode == u ensures u in g.byUserCode && g.byUserCode[u] == d {
      assert g.sessions[d].userCode == u;
    }
  }

  lemma ServeKeepsTokens(t: Tables, q: Request)
    requires TokensSound(t)
    ensures TokensSound(Serve(t, q).0)
  {
  }

  /** Every session was started, has not been granted yet, and its token comes from an approval. */
  ghost predicate SessionsExplained(qs: seq<Request>, t: Tables) {
    forall d :: d in t.sessions ==> SessionExplained(qs, d, t.sessions[d])
  }

  ghost predicate NeverGranted(qs: seq<Request>, d: Code) {
    forall i: nat :: !Grants(qs, i, d)
  }

  ghost predicate SessionExplained(qs: seq<Request>, d: Code, s: Session) {
    && StartedBy(qs, d, s.userCode)
    && NeverGranted(qs, d)
    && (s.token.Some? && s.refresh.Some? ==> ApprovedWith(qs, s.userCode, s.token.value, s.refresh.value))
  }

  ghost predicate HistoryInv(qs: seq<Request>) {
    && InverseTables(Run(qs)) && TokensSound(Run(qs)) && SessionsExplained(qs, Run(qs))
    && (forall d, i: nat, j: nat :: Grants(qs, i, d) && Grants(qs, j, d) ==> i == j)
    && (forall d, i: nat :: Grants(qs, i, d) ==> exists u :: StartedBy(qs, d, u))
  }

  lemma ReplyStays(qs: seq<Request>, i: nat)
    requires qs != [] && i < |qs| - 1
    ensures ReplyAt(qs, i) == ReplyAt(qs[..|qs| - 1], i)
  {
    assert qs[..|qs| - 1][..i] == qs[..i];
  }

  lemma GrantsStay(qs: seq<Request>, i: nat, d: Code)
    requires qs != []
    ensures Grants(qs, i, d) <==> Grants(qs[..|qs| - 1], i, d) || (i == |qs| - 1 && Grants(qs, i, d))
  {
    if i < |qs| - 1 {
      ReplyStays(qs, i);
    }
  }

  lemma StartedStays(qs: seq<Request>, d: Code, u: Code)
    requires qs != [] && StartedBy(qs[..|qs| - 1], d, u)
    ensures StartedBy(qs, d, u)
  {
    var i :| 0 <= i < |qs| - 1 && qs[..|qs| - 1][i].Start? && qs[i].deviceCode == d && qs[i].userCode == u;
    assert qs[i] == qs[..|qs| - 1][i];
  }

  lemma ApprovedStays(qs: seq<Request>, u: Code, token: Token, refresh: Token)
    requires qs != [] && ApprovedWith(qs[..|qs| - 1], u, token, refresh)
    ensures ApprovedWith(qs, u, token, refresh)
  {
    var first := qs[..|qs| - 1];
    var i: nat :| ApprovedBy(first, i, u, token, refresh);
    ReplyStays(qs, i);
    assert ApprovedBy(qs, i, u, token, refresh);
  }

  lemma ExplainedStays(qs: seq<Request>, d: Code, s: Session)
    requires qs != [] && SessionExplained(qs[..|qs| - 1], d, s) && !Grants(qs, |qs| - 1, d)
    ensures SessionExplained(qs, d, s)
  {
    StartedStays(qs, d, s.userCode);
    forall i: nat ensures !Grants(qs, i, d) {
      GrantsStay(qs, i, d);
    }
    if s.token.Some? && s.refresh.Some? {
      ApprovedStays(qs, s.userCode, s.token.value, s.refresh.value);
    }
  }

  /** A freshly drawn device or user code belongs to no session, past or present. */
  lemma DrawnCodesUnused(qs: seq<Request>)
    requires qs != [] && FreshCodes(qs) && HistoryInv(qs[..|qs| - 1]) && qs[|qs| - 1].Start?
    ensures var q, t := qs[|qs| - 1], Run(qs[..|qs| - 1]);
      && q.deviceCode !in t.sessions && q.userCode !in t.byUserCode
      && NeverGranted(qs[..|qs| - 1], q.deviceCode)
  {
    var first, q := qs[..|qs| - 1], qs[|qs| - 1];
    var t := Run(first);
    forall d, u | StartedBy(first, d, u) ensures d != q.deviceCode && u != q.userCode {
      var i :| 0 <= i < |first| && first[i].Start? && first[i].deviceCode == d && first[i].userCode == u;
      assert qs[i] == first[i];
    }
    forall d | d in t.sessions ensures StartedBy(first, d, t.sessions[d].userCode) {
      assert SessionExplained(first, d, t.sessions[d]);
    }
  }

  lemma StartExplained(qs: seq<Request>)
    requires qs != [] && FreshCodes(qs) && HistoryInv(qs[..|qs| - 1]) && qs[|qs| - 1].Start?
    ensures SessionsExplained(qs, Run(qs))
  {
    var first, q := qs[..|qs| - 1], qs[|qs| - 1];
    DrawnCodesUnused(qs);
    GcKeeps(Run(first), q.now);
    forall d | d in Run(qs).sessions ensures SessionExplained(qs, d, Run(qs).sessions[d]) {
      if d == q.deviceCode {
        assert StartedBy(qs, d, q.userCode);
        forall i: nat ensures !Grants(qs, i, d) {
          GrantsStay(qs, i, d);
        }
      } else {
        assert SessionExplained(first, d, Run(first).sessions[d]);
        ExplainedStays(qs, d, Run(first).sessions[d]);
      }
    }
  }

  lemma PollExplained(qs: seq<Request>)
    requires qs != [] && HistoryInv(qs[..|qs| - 1]) && qs[|qs| - 1].Poll?
    ensures SessionsExplained(qs, Run(qs))
  {
    var first, q := qs[..|qs| - 1], qs[|qs| - 1];
    forall d | d in Run(qs).sessions ensures SessionExplained(qs, d, Run(qs).sessions[d]) {
      PollKeeps(Run(first), q, d);
      assert SessionExplained(first, d, Run(first).sessions[d]);
      ExplainedStays(qs, d, Run(first).sessions[d]);
    }
  }

  lemma PollKeeps(t: Tables, q: Request, d: Code)
    requires q.Poll? && d in Serve(t, q).0.sessions
    ensures d in t.sessions && Serve(t, q).0.sessions[d] == t.sessions[d]
    ensures Serve(t, q).1.Granted? ==> q.deviceCode != d
  {
  }

  /** An approval changes at most the token of the session with that user code. */
  lemma ApproveKeeps(t: Tables, q: Request, d: Code)
    requires q.Approve? && InverseTables(t) && d in Serve(t, q).0.sessions
    ensures d in t.sessions && Serve(t, q).0.sessions[d].userCode == t.sessions[d].userCode
    ensures Serve(t, q).0.sessions[d] == t.sessions[d]
      || (t.sessions[d].userCode == Text.Strip(q.entered) && Serve(t, q).1 == Approved
          && Serve(t, q).0.sessions[d] == WithTokens(t.sessions[d], q.token, q.refresh))
  {
    GcKeeps(t, q.now);
  }

  lemma ApproveExplainsOne(first: seq<Request>, q: Request, d: Code)
    requires HistoryInv(first) && q.Approve? && d in Serve(Run(first), q).0.sessions
    ensures SessionExplained(first + [q], d, Serve(Run(first), q).0.sessions[d])
  {
    var qs, after := first + [q], Serve(Run(first), q).0;
    assert qs[..|qs| - 1] == first;
    ApproveKeeps(Run(first), q, d);
    assert SessionExplained(first, d, Run(first).sessions[d]);
    hide HistoryInv;
    ExplainedStays(qs, d, Run(first).sessions[d]);
    if after.sessions[d] != Run(first).sessions[d] {
      assert ApprovedBy(qs, |first|, Text.Strip(q.entered), q.token, q.refresh);
    }
  }

  lemma ApproveExplained(qs: seq<Request>)
    requires qs != [] && HistoryInv(qs[..|qs| - 1]) && qs[|qs| - 1].Approve?
    ensures SessionsExplained(qs, Run(qs))
  {
    var first, q := qs[..|qs| - 1], qs[|qs| - 1];
    assert qs == first + [q] && Run(qs) == Serve(Run(first), q).0;
    hide HistoryInv, SessionExplained, Run, Serve;
    forall d | d in Run(qs).sessions ensures SessionExplained(qs, d, Run(qs).sessions[d]) {
      ApproveExplainsOne(first, q, d);
    }
  }

  lemma GrantsSound(qs: seq<Request>)
    requires qs != [] && HistoryInv(qs[..|qs| - 1])
    ensures forall d, i: nat, j: nat :: Grants(qs, i, d) && Grants(qs, j, d) ==> i == j
    ensures forall d, i: nat :: Grants(qs, i, d) ==> exists u :: StartedBy(qs, d, u)
  {
    var first, k := qs[..|qs| - 1], |qs| - 1;
    forall d, i: nat | Grants(qs, i, d)
      ensures Grants(first, i, d) || (i == k && forall j: nat :: !Grants(first, j, d))
      ensures exists u :: StartedBy(qs, d, u)
    {
      GrantsStay(qs, i, d);
      if i == k {
        assert SessionExplained(first, d, Run(first).sessions[d]);
        StartedStays(qs, d, Run(first).sessions[d].userCode);
      } else {
        var u :| StartedBy(first, d, u);
        StartedStays(qs, d, u);
      }
    }
  }

  lemma {:induction false} HistoryHolds(qs: seq<Request>)
    requires FreshCodes(qs)
    ensures HistoryInv(qs)
    decreases |qs|
  {
    if qs != [] {
      var first, q := qs[..|qs| - 1], qs[|qs| - 1];
      HistoryHolds(first);
      if q.Start? { DrawnCodesUnused(qs); }
      ServeKeepsInverse(Run(first), q);
      ServeKeepsTokens(Run(first), q);
      match q {
        case Start(_, _, _) => StartExplained(qs);
        case Poll(_, _) => PollExplained(qs);
        case Approve(_, _, _, _) => ApproveExplained(qs);
      }
      GrantsSound(qs);
    }
  }

  /** In every history of requests served one at a time, with fresh codes, the two
      tables are inverse to each other, and exactly the approved sessions hold their
      tokens. */
  lemma TablesStayInverse(qs: seq<Request>)
    requires FreshCodes(qs)
    ensures InverseTables(Run(qs)) && TokensSound(Run(qs))
  {
    HistoryHolds(qs);
  }

  /** A session hands something over at most once, before it expires; and what it
      hands over is the pair of tokens an admin approved that very session with. */
  lemma TokenHandedOverOnce(qs: seq<Request>, d: Code, i: nat, j: nat)
    requires FreshCodes(qs) && Grants(qs, i, d)
    ensures Grants(qs, j, d) ==> i == j
    ensures exists u, token, refresh ::
      && ReplyAt(qs, i) == Granted(Some(token), Some(refresh))
      && StartedBy(qs[..i], d, u) && ApprovedWith(qs[..i], u, token, refresh)
    ensures Run(qs[..i]).sessions[d].exp >= qs[i].now
  {
    HistoryHolds(qs);
    assert FreshCodes(qs[..i]);
    HistoryHolds(qs[..i]);
    GcKeeps(Run(qs[..i]), qs[i].now);
    var s := Run(qs[..i]).sessions[d];
    assert SessionExplained(qs[..i], d, s);
    assert ApprovedWith(qs[..i], s.userCode, s.token.value, s.refresh.value);
  }
}

/** The backend's mirror of the turns each daemon last reported as live. */
module LiveInflight {
  const MAX_AGE := 30.0

  /** One reported turn; an empty scope is skipped. */
  datatype Turn = Turn(scope: string, traceId: string, runId: string)

  datatype Entry = Entry(traceId: string, runId: string, daemon: string, reportedAt: real)

  datatype Report = Report(daemon: string, turns: seq<Turn>, at: real)

  // ---- one heartbeat ----

  function Store(m: map<string, Entry>, r: Report, n: nat): map<string, Entry>
    requires n <= |r.turns|
  {
    if n == 0 then m
    else
      var before, t := Store(m, r, n - 1), r.turns[n - 1];
      if t.scope == "" then before else before[t.scope := Entry(t.traceId, t.runId, r.daemon, r.at)]
  }

  function WithoutDaemon(m: map<string, Entry>, daemon: string): map<string, Entry> {
    map k | k in m && m[k].daemon != daemon :: m[k]
  }

  function After(m: map<string, Entry>, r: Report): map<string, Entry> {
    Store(WithoutDaemon(m, r.daemon), r, |r.turns|)
  }

  class Mirror {
    var byScope: map<string, Entry>

    constructor ()
      ensures byScope == map[]
    {
      byScope := map[];
    }

    /** Replaces the daemon's contribution by its report. */
    method SetForDaemon(r: Report)
      modifies this
      ensures byScope == After(old(byScope), r)
    {
      var stale := set k | k in byScope && byScope[k].daemon == r.daemon;
      byScope := byScope - stale;
      assert byScope == WithoutDaemon(old(byScope), r.daemon);
      for i := 0 to |r.turns|
        invariant byScope == Store(WithoutDaemon(old(byScope), r.daemon), r, i)
      {
        var t := r.turns[i];
        if t.scope != "" {
          byScope := byScope[t.scope := Entry(t.traceId, t.runId, r.daemon, r.at)];
        }
      }
    }

    method LookupTrace(scope: string, now: real) returns (trace: string)
      ensures trace == Lookup(byScope, scope, now)
    {
      if scope == "" { return ""; }
      if scope !in byScope || now - byScope[scope].reportedAt > MAX_AGE { return ""; }
      return byScope[scope].traceId;
    }
  }

  function Lookup(m: map<string, Entry>, scope: string, now: real): string {
    if scope == "" || scope !in m || now - m[scope].reportedAt > MAX_AGE then "" else m[scope].traceId
  }

  function Run(reports: seq<Report>): map<string, Entry> {
    if reports == [] then map[] else After(Run(reports[..|reports| - 1]), reports[|reports| - 1])
  }

  // ---- the mirror against the history of reports ----

  ghost predicate Mentions(r: Report, scope: string) {
    scope != "" && exists t :: t in r.turns && t.scope == scope
  }

  /** Turn k is the last of the report with this scope. */
  ghost predicate LastTurn(r: Report, scope: string, k: nat) {
    k < |r.turns| && r.turns[k].scope == scope && forall j :: k < j < |r.turns| ==> r.turns[j].scope != scope
  }

  /** Report i is the last that mentions the scope, and its daemon's latest. */
  ghost predicate Current(reports: seq<Report>, scope: string, i: nat) {
    && i < |reports| && Mentions(reports[i], scope)
    && forall j :: i < j < |reports| ==> !Mentions(reports[j], scope) && reports[j].daemon != reports[i].daemon
  }

  ghost predicate EntryOf(r: Report, scope: string, e: Entry) {
    exists k: nat :: LastTurn(r, scope, k) && e == Entry(r.turns[k].traceId, r.turns[k].runId, r.daemon, r.at)
  }

  lemma TurnOf(r: Report, scope: string, e: Entry) returns (k: nat)
    requires EntryOf(r, scope, e)
    ensures LastTurn(r, scope, k) && e == Entry(r.turns[k].traceId, r.turns[k].runId, r.daemon, r.at)
  {
    k :| LastTurn(r, scope, k) && e == Entry(r.turns[k].traceId, r.turns[k].runId, r.daemon, r.at);
  }

  /** The report up to its n-th turn. */
  function Seen(r: Report, n: nat): Report
    requires n <= |r.turns|
  {
    r.(turns := r.turns[..n])
  }

  lemma SeenStep(r: Report, n: nat, scope: string)
    requires n < |r.turns|
    ensures Mentions(Seen(r, n + 1), scope) <==>
      Mentions(Seen(r, n), scope) || (scope != "" && r.turns[n].scope == scope)
  {
    var t := r.turns[n];
    assert r.turns[..n + 1] == r.turns[..n] + [t];
    assert t in Seen(r, n + 1).turns;
  }

  lemma EntryStays(r: Report, n: nat, scope: string, e: Entry)
    requires n < |r.turns| && r.turns[n].scope != scope && EntryOf(Seen(r, n), scope, e)
    ensures EntryOf(Seen(r, n + 1), scope, e)
  {
    var before, seen := Seen(r, n), Seen(r, n + 1);
    var k := TurnOf(before, scope, e);
    assert LastTurn(seen, scope, k);
  }

  lemma {:induction false} StoreMeaning(m: map<string, Entry>, r: Report, n: nat, scope: string)
    requires n <= |r.turns|
    ensures var after := Store(m, r, n);
      if Mentions(Seen(r, n), scope) then scope in after && EntryOf(Seen(r, n), scope, after[scope])
      else (scope in after <==> scope in m) && (scope in m ==> after[scope] == m[scope])
    decreases n
  {
    if n > 0 {
      var t := r.turns[n - 1];
      StoreMeaning(m, r, n - 1, scope);
      SeenStep(r, n - 1, scope);
      if t.scope == scope && scope != "" {
        assert LastTurn(Seen(r, n), scope, n - 1);
      } else if Mentions(Seen(r, n - 1), scope) {
        EntryStays(r, n - 1, scope, Store(m, r, n - 1)[scope]);
      }
    }
  }

  lemma CurrentStep(reports: seq<Report>, r: Report, scope: string, i: nat)
    ensures Current(reports + [r], scope, i) <==>
      if i == |reports| then Mentions(r, scope)
      else Current(reports, scope, i) && !Mentions(r, scope) && r.daemon != reports[i].daemon
  {
    var all := reports + [r];
    assert forall j :: 0 <= j < |reports| ==> all[j] == reports[j];
    assert all[|reports|] == r;
  }

  lemma CurrentUnique(reports: seq<Report>, scope: string, i: nat, j: nat)
    requires Current(reports, scope, i) && Current(reports, scope, j)
    ensures i == j
  {
  }

  /** After any history of heartbeats a scope is present exactly when the last
      report that mentioned it, by whichever daemon, still is that daemon's latest
      report; the entry is that report's last turn for the scope. */
  lemma {:induction false} MirrorExact(reports: seq<Report>, scope: string)
    ensures scope in Run(reports) <==> exists i: nat :: Current(reports, scope, i)
    ensures forall i: nat :: Current(reports, scope, i) ==>
      scope in Run(reports) && EntryOf(reports[i], scope, Run(reports)[scope])
    decreases |reports|
  {
    if reports != [] {
      var n := |reports| - 1;
      var first, r := reports[..n], reports[n];
      assert reports == first + [r];
      MirrorExact(first, scope);
      StoreMeaning(WithoutDaemon(Run(first), r.daemon), r, |r.turns|, scope);
      assert Seen(r, |r.turns|) == r;
      forall i: nat ensures Current(reports, scope, i) <==>
        if i == n then Mentions(r, scope)
        else Current(first, scope, i) && !Mentions(r, scope) && r.daemon != first[i].daemon
      {
        CurrentStep(first, r, scope, i);
      }
      if Mentions(r, scope) {
        assert Current(reports, scope, n);
      } else if scope in Run(first) {
        var i: nat :| Current(first, scope, i);
        assert Run(first)[scope].daemon == first[i].daemon;
        forall j: nat | Current(first, scope, j) ensures i == j {
          CurrentUnique(first, scope, i, j);
        }
      }
    }
  }

  /** Turn k of report i is the current turn of the scope, recent and with a trace id. */
  ghost predicate LiveTurn(reports: seq<Report>, scope: string, now: real, i: nat, k: nat) {
    && Current(reports, scope, i) && LastTurn(reports[i], scope, k)
    && now - reports[i].at <= MAX_AGE && reports[i].turns[k].traceId != ""
  }

  /** A scope is live exactly when such a turn exists; a current turn that was
      reported without a trace id does not count. */
  lemma LiveExact(reports: seq<Report>, scope: string, now: real)
    ensures Lookup(Run(reports), scope, now) != "" <==> exists i: nat, k: nat :: LiveTurn(reports, scope, now, i, k)
  {
    MirrorExact(reports, scope);
    if i: nat, k: nat :| LiveTurn(reports, scope, now, i, k) {
      var e := Run(reports)[scope];
      var k' := TurnOf(reports[i], scope, e);
      assert k == k';
    }
    if Lookup(Run(reports), scope, now) != "" {
      var i: nat :| Current(reports, scope, i);
      var k := TurnOf(reports[i], scope, Run(reports)[scope]);
      assert LiveTurn(reports, scope, now, i, k);
    }
  }

  /** The answer for a live scope is the trace id of that very turn. */
  lemma LookupExact(reports: seq<Report>, scope: string, now: real, i: nat, k: nat)
    requires LiveTurn(reports, scope, now, i, k)
    ensures Lookup(Run(reports), scope, now) == reports[i].turns[k].traceId
  {
    MirrorExact(reports, scope);
    var k' := TurnOf(reports[i], scope, Run(reports)[scope]);
    assert k == k';
  }

  // ---- against the documented rule ----

  predicate Live(reports: seq<Report>, scope: string, now: real) {
    Lookup(Run(reports), scope, now) != ""
  }

  ghost predicate Latest(reports: seq<Report>, i: nat) {
    i < |reports| && forall j :: i < j < |reports| ==> reports[j].daemon != reports[i].daemon
  }

  /** The rule as documented: some daemon's latest report is recent and mentions the scope. */
  ghost predicate Reported(reports: seq<Report>, scope: string, now: real) {
    exists i: nat :: Latest(reports, i) && Mentions(reports[i], scope) && now - reports[i].at <= MAX_AGE
  }

  ghost predicate LastMention(reports: seq<Report>, scope: string, m: nat) {
    && m < |reports| && Mentions(reports[m], scope)
    && forall j :: m < j < |reports| ==> !Mentions(reports[j], scope)
  }

  /** Whoever mentioned the scope last has reported again since. */
  ghost predicate Superseded(reports: seq<Report>, scope: string) {
    exists m: nat :: LastMention(reports, scope, m) && !Latest(reports, m)
  }

  /** The last mention of the scope gave no trace id. */
  ghost predicate Untraced(reports: seq<Report>, scope: string) {
    exists m: nat, k: nat ::
      LastMention(reports, scope, m) && LastTurn(reports[m], scope, k) && reports[m].turns[k].traceId == ""
  }

  /** The last mention of the scope is old by its own time. */
  ghost predicate Aged(reports: seq<Report>, scope: string, now: real) {
    exists m: nat :: LastMention(reports, scope, m) && now - reports[m].at > MAX_AGE
  }

  predicate InOrder(reports: seq<Report>) {
    forall i, j :: 0 <= i < j < |reports| ==> reports[i].at <= reports[j].at
  }

  lemma {:induction false} LastMentionFrom(reports: seq<Report>, scope: string, i: nat) returns (m: nat)
    requires i < |reports| && Mentions(reports[i], scope)
    ensures i <= m && LastMention(reports, scope, m)
    decreases |reports| - i
  {
    if j :| i < j < |reports| && Mentions(reports[j], scope) {
      m := LastMentionFrom(reports, scope, j);
    } else {
      m := i;
    }
  }

  lemma {:induction false} LastTurnOf(r: Report, scope: string, i: nat) returns (k: nat)
    requires i < |r.turns| && r.turns[i].scope == scope
    ensures LastTurn(r, scope, k)
    decreases |r.turns| - i
  {
    if j :| i < j < |r.turns| && r.turns[j].scope == scope {
      k := LastTurnOf(r, scope, j);
    } else {
      k := i;
    }
  }

  lemma LiveIsReported(reports: seq<Report>, scope: string, now: real)
    requires Live(reports, scope, now)
    ensures Reported(reports, scope, now)
    ensures !Superseded(reports, scope) && !Untraced(reports, scope) && !Aged(reports, scope, now)
  {
    LiveExact(reports, scope, now);
    var i: nat, k: nat :| LiveTurn(reports, scope, now, i, k);
    assert Latest(reports, i) && LastMention(reports, scope, i);
    forall m: nat | LastMention(reports, scope, m) ensures m == i {
    }
  }

  /** A standing, traced and recent last mention makes the scope live. */
  lemma StandingMentionIsLive(reports: seq<Report>, scope: string, now: real, m: nat)
    requires LastMention(reports, scope, m)
    requires !Superseded(reports, scope) && !Untraced(reports, scope) && !Aged(reports, scope, now)
    ensures Live(reports, scope, now)
  {
    var t :| t in reports[m].turns && t.scope == scope;
    var n :| 0 <= n < |reports[m].turns| && reports[m].turns[n] == t;
    var k := LastTurnOf(reports[m], scope, n);
    assert LiveTurn(reports, scope, now, m, k);
    LiveExact(reports, scope, now);
  }

  /** Some report is the last to mention a reported scope; in clock order it is recent. */
  lemma ReportedMention(reports: seq<Report>, scope: string, now: real) returns (m: nat)
    requires Reported(reports, scope, now)
    ensures LastMention(reports, scope, m) && (InOrder(reports) ==> now - reports[m].at <= MAX_AGE)
  {
    var i: nat :| Latest(reports, i) && Mentions(reports[i], scope) && now - reports[i].at <= MAX_AGE;
    m := LastMentionFrom(reports, scope, i);
  }

  lemma NotAged(reports: seq<Report>, scope: string, now: real, m: nat)
    requires LastMention(reports, scope, m) && now - reports[m].at <= MAX_AGE
    ensures !Aged(reports, scope, now)
  {
    forall i: nat | LastMention(reports, scope, i) ensures i == m {
    }
  }

  /** A live scope is a reported one.  A reported scope is live exactly when its last
      mention, by whichever daemon, still stands, carries a trace id and is recent;
      while reports come in the order of the clock, recency is no extra condition. */
  lemma LivePromise(reports: seq<Report>, scope: string, now: real)
    ensures Live(reports, scope, now) ==> Reported(reports, scope, now)
    ensures Reported(reports, scope, now) ==>
      (Live(reports, scope, now) <==>
        !Superseded(reports, scope) && !Untraced(reports, scope) && !Aged(reports, scope, now))
    ensures InOrder(reports) && Reported(reports, scope, now) ==> !Aged(reports, scope, now)
  {
    if Live(reports, scope, now) {
      LiveIsReported(reports, scope, now);
    } else if Reported(reports, scope, now) {
      var m := ReportedMention(reports, scope, now);
      if !Superseded(reports, scope) && !Untraced(reports, scope) && !Aged(reports, scope, now) {
        StandingMentionIsLive(reports, scope, now, m);
      }
      if InOrder(reports) {
        NotAged(reports, scope, now, m);
      }
    }
  }

  /** A daemon reports a traced turn; another mentions the scope once and then drops
      it.  The first daemon's latest report stands, and the scope is not live. */
  lemma SupersededHistory(scope: string, trace: string)
    requires scope != "" && trace != ""
    ensures var reports := [Report("A", [Turn(scope, trace, "")], 0.0), Report("B", [Turn(scope, trace, "")], 1.0),
                            Report("B", [], 2.0)];
      Reported(reports, scope, 3.0) && !Live(reports, scope, 3.0)
  {
    var reports := [Report("A", [Turn(scope, trace, "")], 0.0), Report("B", [Turn(scope, trace, "")], 1.0),
                    Report("B", [], 2.0)];
    assert reports[0].turns[0] in reports[0].turns && Latest(reports, 0);
    assert reports[1].turns[0] in reports[1].turns && LastMention(reports, scope, 1);
    assert reports[2].daemon == reports[1].daemon;
    LivePromise(reports, scope, 3.0);
  }

  /** A turn reported without a trace id is not live either. */
  lemma UntracedHistory(scope: string)
    requires scope != ""
    ensures var reports := [Report("A", [Turn(scope, "", "")], 0.0)];
      Reported(reports, scope, 0.0) && !Live(reports, scope, 0.0)
  {
    var reports := [Report("A", [Turn(scope, "", "")], 0.0)];
    assert reports[0].turns[0] in reports[0].turns && Latest(reports, 0);
    assert LastMention(reports, scope, 0) && LastTurn(reports[0], scope, 0);
    LivePromise(reports, scope, 0.0);
  }
}

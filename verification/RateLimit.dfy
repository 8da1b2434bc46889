/** The per-address sliding window in front of the client log endpoint. */
module RateLimit {
  const RATE_PER_MIN := 30
  const WINDOW := 60.0
  const MAX_KEYS := 10_000

  type Hits = map<string, seq<real>>

  // ---- one call ----

  /** Drops expired times from the front only. */
  function DropOld(q: seq<real>, now: real): seq<real> {
    if q != [] && now - q[0] > WINDOW then DropOld(q[1..], now) else q
  }

  function Queue(hits: Hits, ip: string): seq<real> {
    if ip in hits then hits[ip] else []
  }

  function DropIdle(hits: Hits): Hits {
    map k | k in hits && hits[k] != [] :: hits[k]
  }

  /** The table after a call and whether the call is let through. */
  function Call(hits: Hits, ip: string, now: real): (Hits, bool) {
    var q := DropOld(Queue(hits, ip), now);
    if |q| >= RATE_PER_MIN then (hits[ip := q], false)
    else
      var added := hits[ip := q + [now]];
      (if |added| > MAX_KEYS then DropIdle(added) else added, true)
  }

  class Limiter {
    var hits: Hits

    constructor ()
      ensures hits == map[]
    {
      hits := map[];
    }

    method EvictIdle()
      modifies this
      ensures hits == DropIdle(old(hits))
    {
      var idle := set k | k in hits && hits[k] == [];
      ghost var before, all := hits, idle;
      while idle != {}
        invariant idle <= all
        invariant hits == map k | k in before && (k !in all || k in idle) :: before[k]
        decreases idle
      {
        var k :| k in idle;
        hits := hits - {k};
        idle := idle - {k};
      }
    }

    method RateOk(ip: string, now: real) returns (ok: bool)
      modifies this
      ensures (hits, ok) == Call(old(hits), ip, now)
    {
      var q := if ip in hits then hits[ip] else [];
      while q != [] && now - q[0] > WINDOW
        invariant DropOld(q, now) == DropOld(Queue(old(hits), ip), now)
      {
        q := q[1..];
      }
      hits := hits[ip := q];
      if |q| >= RATE_PER_MIN {
        return false;
      }
      hits := hits[ip := q + [now]];
      assert hits == old(hits)[ip := q + [now]];
      if |hits| > MAX_KEYS {
        EvictIdle();
      }
      return true;
    }
  }

  // ---- the rule, without queues ----

  datatype Hit = Hit(ip: string, now: real)

  /** Times that are at most a minute old, the bound included. */
  function Recent(times: seq<real>, now: real): seq<real> {
    if times == [] then []
    else Recent(times[..|times| - 1], now) + (if now - times[|times| - 1] <= WINDOW then [times[|times| - 1]] else [])
  }

  /** The times of the calls from `ip` let through among `calls`: a call is let
      through when fewer than 30 such calls lie in the minute before it. */
  function Admitted(calls: seq<Hit>, ip: string): seq<real>
    decreases |calls|, 0
  {
    if calls == [] then []
    else
      var before, last := calls[..|calls| - 1], calls[|calls| - 1];
      Admitted(before, ip) + (if last.ip == ip && Admits(before, last) then [last.now] else [])
  }

  predicate Admits(calls: seq<Hit>, call: Hit)
    decreases |calls|, 1
  {
    |Recent(Admitted(calls, call.ip), call.now)| < RATE_PER_MIN
  }

  /** Calls arrive in the order of the clock. */
  predicate InOrder(calls: seq<Hit>) {
    forall i, j :: 0 <= i < j < |calls| ==> calls[i].now <= calls[j].now
  }

  function Run(calls: seq<Hit>): Hits {
    if calls == [] then map[] else Call(Run(calls[..|calls| - 1]), calls[|calls| - 1].ip, calls[|calls| - 1].now).0
  }

  // ---- the queues hold what the rule needs ----

  ghost predicate Sorted(s: seq<real>) {
    forall i, j :: 0 <= i < j < |s| ==> s[i] <= s[j]
  }

  /** The queue is the admitted times without some that are already too old. */
  ghost predicate Holds(admitted: seq<real>, queue: seq<real>, now: real) {
    exists d: nat :: HoldsAfter(admitted, queue, now, d)
  }

  ghost predicate TooOld(times: seq<real>, d: nat, now: real) {
    d <= |times| && forall i :: 0 <= i < d ==> now - times[i] > WINDOW
  }

  ghost predicate HoldsAfter(admitted: seq<real>, queue: seq<real>, now: real, d: nat) {
    TooOld(admitted, d, now) && admitted[d..] == queue
  }

  lemma {:induction false} RecentSorted(s: seq<real>, now: real)
    requires Sorted(s)
    ensures Recent(s, now) == DropOld(s, now)
    decreases |s|
  {
    if s != [] {
      var k := |s| - 1;
      RecentSorted(s[..k], now);
      DropOldAppend(s[..k], s[k], now);
      assert s == s[..k] + [s[k]];
    }
  }

  lemma {:induction false} DropOldAppend(s: seq<real>, t: real, now: real)
    requires Sorted(s + [t])
    ensures DropOld(s + [t], now) == DropOld(s, now) + (if now - t <= WINDOW then [t] else [])
    decreases |s|
  {
    var all := s + [t];
    if s != [] {
      assert all[0] == s[0] && all[|s|] == t && all[0] <= all[|s|];
      if now - s[0] > WINDOW {
        assert all[1..] == s[1..] + [t];
        DropOldAppend(s[1..], t, now);
      }
    }
  }

  lemma {:induction false} DropOldAgain(s: seq<real>, d: nat, now: real)
    requires TooOld(s, d, now)
    ensures DropOld(s, now) == DropOld(s[d..], now)
    decreases d
  {
    if d > 0 {
      DropOldAgain(s[1..], d - 1, now);
      assert s[1..][d - 1..] == s[d..];
    }
  }

  /** DropOld removes a prefix, all of it too old. */
  lemma {:induction false} DropOldPrefix(s: seq<real>, now: real) returns (d: nat)
    ensures TooOld(s, d, now) && s[d..] == DropOld(s, now)
    decreases |s|
  {
    if s != [] && now - s[0] > WINDOW {
      var e := DropOldPrefix(s[1..], now);
      d := e + 1;
      assert s[1..][e..] == s[d..];
      forall i | 0 <= i < d ensures now - s[i] > WINDOW {
        assert i > 0 ==> s[i] == s[1..][i - 1];
      }
    } else {
      d := 0;
    }
  }

  ghost function LastTime(calls: seq<Hit>): real {
    if calls == [] then 0.0 else calls[|calls| - 1].now
  }

  ghost function Addresses(calls: seq<Hit>): set<string> {
    set i | 0 <= i < |calls| :: calls[i].ip
  }

  ghost predicate HoldsFor(calls: seq<Hit>, hits: Hits, ip: string) {
    Holds(Admitted(calls, ip), Queue(hits, ip), LastTime(calls))
  }

  /** The state after the calls: one non-empty queue per address ever seen. */
  ghost predicate Faithful(calls: seq<Hit>, hits: Hits) {
    && hits.Keys == Addresses(calls)
    && (forall ip :: ip in hits ==> hits[ip] != [])
    && forall ip :: HoldsFor(calls, hits, ip)
  }

  lemma {:induction false} AdmittedSorted(calls: seq<Hit>, ip: string)
    requires InOrder(calls)
    ensures Sorted(Admitted(calls, ip))
    ensures forall t :: t in Admitted(calls, ip) ==> t <= LastTime(calls)
    decreases |calls|
  {
    if calls != [] {
      var before, last := calls[..|calls| - 1], calls[|calls| - 1];
      assert calls == before + [last];
      TimePasses(before, last, ip);
      AdmittedSorted(before, ip);
      SortedAppend(Admitted(before, ip), last.now);
    }
  }

  lemma SortedAppend(s: seq<real>, t: real)
    requires Sorted(s) && forall u :: u in s ==> u <= t
    ensures Sorted(s + [t])
  {
    forall i | 0 <= i < |s| ensures s[i] <= t {
      assert s[i] in s;
    }
  }

  /** What the queue of the calling address comes to equals the minute before the call. */
  lemma QueueIsRecent(before: seq<Hit>, hits: Hits, call: Hit)
    requires InOrder(before + [call]) && Faithful(before, hits)
    ensures DropOld(Queue(hits, call.ip), call.now) == Recent(Admitted(before, call.ip), call.now)
  {
    var all := before + [call];
    assert InOrder(before) by { assert forall i :: 0 <= i < |before| ==> all[i] == before[i]; }
    assert HoldsFor(before, hits, call.ip);
    var A := Admitted(before, call.ip);
    var d: nat :| HoldsAfter(A, Queue(hits, call.ip), LastTime(before), d);
    assert before != [] ==> all[|before| - 1] == before[|before| - 1] && all[|before|] == call;
    assert before == [] ==> A == [];
    DropOldAgain(A, d, call.now);
    AdmittedSorted(before, call.ip);
    RecentSorted(A, call.now);
  }

  lemma AdmittedStep(before: seq<Hit>, call: Hit, ip: string)
    ensures Admitted(before + [call], ip)
      == Admitted(before, ip) + (if call.ip == ip && Admits(before, call) then [call.now] else [])
  {
    assert (before + [call])[..|before|] == before;
  }

  lemma HoldsLater(admitted: seq<real>, queue: seq<real>, now: real, later: real)
    requires Holds(admitted, queue, now) && (now <= later || admitted == [])
    ensures Holds(admitted, queue, later)
  {
    var d: nat :| HoldsAfter(admitted, queue, now, d);
    assert HoldsAfter(admitted, queue, later, d);
  }

  lemma HoldsSuffix(admitted: seq<real>, queue: seq<real>, now: real, e: nat)
    requires Holds(admitted, queue, now) && TooOld(queue, e, now)
    ensures Holds(admitted, queue[e..], now)
  {
    var d: nat :| HoldsAfter(admitted, queue, now, d);
    forall i | 0 <= i < d + e ensures now - admitted[i] > WINDOW {
      assert i >= d ==> admitted[i] == queue[i - d];
    }
    assert admitted[d + e..] == queue[e..];
    assert HoldsAfter(admitted, queue[e..], now, d + e);
  }

  lemma HoldsAppended(admitted: seq<real>, queue: seq<real>, now: real)
    requires Holds(admitted, queue, now)
    ensures Holds(admitted + [now], queue + [now], now)
  {
    var d: nat :| HoldsAfter(admitted, queue, now, d);
    assert (admitted + [now])[d..] == queue + [now];
    assert HoldsAfter(admitted + [now], queue + [now], now, d);
  }

  lemma TimePasses(before: seq<Hit>, call: Hit, ip: string)
    requires InOrder(before + [call])
    ensures InOrder(before) && (LastTime(before) <= call.now || Admitted(before, ip) == [])
  {
    var all := before + [call];
    assert forall i :: 0 <= i < |before| ==> all[i] == before[i];
    if before != [] {
      assert all[|before| - 1] == before[|before| - 1] && all[|before|] == call;
    }
  }

  /** A queue goes on holding what the rule needs when a call at `now` drops its old
      times and, if it is let through, adds its own. */
  lemma HoldsAfterCall(admitted: seq<real>, queue: seq<real>, last: real, now: real, added: seq<real>)
    requires Holds(admitted, queue, last) && (last <= now || admitted == [])
    requires added == [] || added == [now]
    ensures Holds(admitted, queue, now) && Holds(admitted + added, DropOld(queue, now) + added, now)
  {
    HoldsLater(admitted, queue, last, now);
    var e := DropOldPrefix(queue, now);
    HoldsSuffix(admitted, queue, now, e);
    if added == [] {
      assert admitted + added == admitted && DropOld(queue, now) + added == DropOld(queue, now);
    } else {
      HoldsAppended(admitted, DropOld(queue, now), now);
    }
  }

  lemma LastOfAppended(before: seq<Hit>, call: Hit)
    ensures LastTime(before + [call]) == call.now
  {
  }

  lemma QueueStep(before: seq<Hit>, hits: Hits, call: Hit, ip: string)
    requires InOrder(before + [call]) && HoldsFor(before, hits, ip)
    ensures var q := DropOld(Queue(hits, call.ip), call.now);
      var after := hits[call.ip := if Admits(before, call) then q + [call.now] else q];
      HoldsFor(before + [call], after, ip)
  {
    var A, q := Admitted(before, ip), Queue(hits, ip);
    var added := if ip == call.ip && Admits(before, call) then [call.now] else [];
    TimePasses(before, call, ip);
    HoldsAfterCall(A, q, LastTime(before), call.now, added);
    AdmittedStep(before, call, ip);
    LastOfAppended(before, call);
    assert added == [] ==> A + added == A && DropOld(q, call.now) + added == DropOld(q, call.now);
  }

  lemma NothingIdle(hits: Hits)
    requires forall ip :: ip in hits ==> hits[ip] != []
    ensures DropIdle(hits) == hits
  {
  }

  lemma AddressesStep(before: seq<Hit>, call: Hit)
    ensures Addresses(before + [call]) == Addresses(before) + {call.ip}
  {
    var all := before + [call];
    forall ip | ip in Addresses(before) ensures ip in Addresses(all) {
      var i :| 0 <= i < |before| && before[i].ip == ip;
      assert all[i].ip == ip;
    }
    assert all[|before|].ip == call.ip;
  }

  lemma CallDecides(before: seq<Hit>, hits: Hits, call: Hit)
    requires InOrder(before + [call]) && Faithful(before, hits)
    ensures Call(hits, call.ip, call.now).1 <==> Admits(before, call)
  {
    QueueIsRecent(before, hits, call);
  }

  /** The table after a call, on which the eviction pass finds nothing to drop. */
  lemma CallTable(before: seq<Hit>, hits: Hits, call: Hit)
    requires InOrder(before + [call]) && Faithful(before, hits)
    ensures var q := DropOld(Queue(hits, call.ip), call.now);
      && Call(hits, call.ip, call.now).0 == hits[call.ip := if Admits(before, call) then q + [call.now] else q]
      && forall ip :: ip in Call(hits, call.ip, call.now).0 ==> Call(hits, call.ip, call.now).0[ip] != []
  {
    CallDecides(before, hits, call);
    NothingIdle(hits[call.ip := DropOld(Queue(hits, call.ip), call.now) + [call.now]]);
  }

  lemma CallKeepsFaithful(before: seq<Hit>, hits: Hits, call: Hit)
    requires InOrder(before + [call]) && Faithful(before, hits)
    ensures Faithful(before + [call], Call(hits, call.ip, call.now).0)
  {
    CallTable(before, hits, call);
    AddressesStep(before, call);
    forall ip ensures HoldsFor(before + [call], Call(hits, call.ip, call.now).0, ip) {
      QueueStep(before, hits, call, ip);
    }
  }

  lemma {:induction false} RunFaithful(calls: seq<Hit>)
    requires InOrder(calls)
    ensures Faithful(calls, Run(calls))
    decreases |calls|
  {
    if calls == [] {
      forall ip ensures HoldsFor(calls, Run(calls), ip) {
        assert HoldsAfter(Admitted(calls, ip), [], 0.0, 0);
      }
    } else {
      var before, last := calls[..|calls| - 1], calls[|calls| - 1];
      assert calls == before + [last];
      TimePasses(before, last, "");
      RunFaithful(before);
      CallKeepsFaithful(before, Run(before), last);
    }
  }

  lemma InOrderPrefix(calls: seq<Hit>, n: nat)
    requires InOrder(calls) && n <= |calls|
    ensures InOrder(calls[..n])
  {
  }

  ghost predicate DecidedByRule(calls: seq<Hit>, i: nat)
    requires i < |calls|
  {
    Call(Run(calls[..i]), calls[i].ip, calls[i].now).1 <==> Admits(calls[..i], calls[i])
  }

  lemma CallAtDecided(calls: seq<Hit>, i: nat)
    requires InOrder(calls) && i < |calls|
    ensures DecidedByRule(calls, i)
  {
    var before := calls[..i];
    InOrderPrefix(calls, i);
    InOrderPrefix(calls, i + 1);
    assert before + [calls[i]] == calls[..i + 1];
    RunFaithful(before);
    CallDecides(before, Run(before), calls[i]);
  }

  /** Over any sequence of calls in clock order, call i is let through exactly
      when fewer than 30 admitted calls of its address lie in the 60 seconds up to
      it.  Every address ever seen keeps a non-empty queue, so the eviction pass
      never removes one and the table grows with the number of addresses. */
  lemma LimiterExact(calls: seq<Hit>)
    requires InOrder(calls)
    ensures forall i: nat :: i < |calls| ==> DecidedByRule(calls, i)
    ensures Faithful(calls, Run(calls)) && DropIdle(Run(calls)) == Run(calls)
  {
    forall i: nat | i < |calls| ensures DecidedByRule(calls, i) {
      CallAtDecided(calls, i);
    }
    RunFaithful(calls);
    NothingIdle(Run(calls));
  }

  // ---- the promise ----

  function InWindow(times: seq<real>, start: real): seq<real> {
    if times == [] then []
    else
      var t := times[|times| - 1];
      InWindow(times[..|times| - 1], start) + (if start <= t <= start + WINDOW then [t] else [])
  }

  lemma {:induction false} WindowWithinMinute(times: seq<real>, start: real, now: real)
    requires now <= start + WINDOW
    ensures |InWindow(times, start)| <= |Recent(times, now)|
    decreases |times|
  {
    if times != [] {
      WindowWithinMinute(times[..|times| - 1], start, now);
    }
  }

  /** No closed minute holds more than 30 admitted calls of one address. */
  lemma {:induction false} AtMostThirtyAMinute(calls: seq<Hit>, ip: string, start: real)
    ensures |InWindow(Admitted(calls, ip), start)| <= RATE_PER_MIN
    decreases |calls|
  {
    if calls != [] {
      var before, last := calls[..|calls| - 1], calls[|calls| - 1];
      AtMostThirtyAMinute(before, ip, start);
      var A := Admitted(before, ip);
      if last.ip == ip && Admits(before, last) {
        assert Admitted(calls, ip) == A + [last.now] && (A + [last.now])[..|A|] == A;
        if start <= last.now <= start + WINDOW {
          WindowWithinMinute(A, start, last.now);
        }
      } else {
        assert Admitted(calls, ip) == A;
      }
    }
  }
}

/**
 The limiter's answers against what the requests of a run counted. An observer keeps its own count of the upserts of
 each counter since the counter's window opened; every answer of every run of overlapping requests is what the
 observer's counts say.
 */
module LimiterVerdicts {
  import opened Wrappers
  import opened RateLimiter
  import opened LimiterRuns
  import opened LimiterTraffic

  /** A request as the observer saw it: what it asked, its time, and its own counts in its two windows. */
  datatype Seen = Seen(action: Action, ip: string, identity: string, now: int, ofIp: Option<nat>, ofIdentity: Option<nat>)

  /** `counts` are the upserts of each counter in its latest window. */
  datatype Observer = Observer(seen: map<nat, Seen>, counts: map<Key, nat>)

  /** One more upsert: the first of a window that opens, or the next of the running one. */
  function Counted(o: Observer, rows: Counters, key: Key, now: int): nat {
    if Opens(rows, key, now) || key !in o.counts then 1 else o.counts[key] + 1
  }

  function Observe(o: Observer, t: Traffic, step: Step): Observer
    requires Enabled(t, step)
  {
    match step
    case Begin(r, action, ip, identity) => o.(seen := o.seen[r := Seen(action, ip, identity, t.clock, None, None)])
    case CountIp(r) =>
      var key := t.requests[r].IpKey();
      var n := Counted(o, t.rows, key, t.requests[r].now);
      Observer(if r in o.seen then o.seen[r := o.seen[r].(ofIp := Some(n))] else o.seen, o.counts[key := n])
    case CountIdentity(r) =>
      var key := t.requests[r].IdentityKey();
      var n := Counted(o, t.rows, key, t.requests[r].now);
      Observer(if r in o.seen then o.seen[r := o.seen[r].(ofIdentity := Some(n))] else o.seen, o.counts[key := n])
    case _ => o
  }

  ghost function ObserveAll(o: Observer, t: Traffic, steps: seq<Step>): Observer
    requires Possible(t, steps)
    decreases |steps|
  {
    if steps == [] then o else ObserveAll(Observe(o, t, steps[0]), Apply(t, steps[0]), steps[1..])
  }

  /** The request's own count in a window exceeds the limit: 30 or 20 for an address, 8 or 5 for an identity. */
  predicate OverLimit(q: Seen) {
    || (q.ofIp.Some? && q.ofIp.value > if q.action.Login? then 30 else 20)
    || (q.ofIdentity.Some? && q.ofIdentity.value > if q.action.Login? then 8 else 5)
  }

  /** The observer's counts are the stored ones. */
  predicate CountsMatch(o: Observer, rows: Counters) {
    forall key | key in rows :: key in o.counts && rows[key].attempts == o.counts[key]
  }

  predicate SeenMatches(q: Seen, request: Request) {
    && q.action == request.action && q.ip == request.ip && q.identity == request.identity && q.now == request.now
    && (request.stage.Started? ==> q.ofIp.None? && q.ofIdentity.None?)
    && (request.stage.Passed? ==> q.ofIp.Some? && q.ofIdentity.None? && !OverLimit(q))
    && (request.stage.Ending? ==> q.ofIp.Some? && (request.stage.throttled <==> OverLimit(q)))
  }

  predicate Matches(o: Observer, t: Traffic) {
    && CountsMatch(o, t.rows)
    && (forall r | r in t.requests :: r in o.seen && SeenMatches(o.seen[r], t.requests[r]))
    && (forall r | r in t.answers :: r !in t.requests && r in o.seen && o.seen[r].ofIp.Some? && (t.answers[r] <==> OverLimit(o.seen[r])))
  }

  lemma BumpMatches(o: Observer, rows: Counters, key: Key, now: int)
    requires CountsMatch(o, rows)
    ensures Bump(rows, key, now)[key].attempts == Counted(o, rows, key, now)
    ensures CountsMatch(o.(counts := o.counts[key := Counted(o, rows, key, now)]), Bump(rows, key, now))
  {
  }

  /** The step is the request's own. */
  predicate ActsFor(step: Step, r: nat) {
    !step.Tick? && !step.ClearLogin? && step.r == r
  }

  /** Requests other than the acting one are as they were. */
  lemma OthersMatch(o: Observer, t: Traffic, step: Step, r: nat)
    requires Matches(o, t) && Enabled(t, step) && r in Apply(t, step).requests && !ActsFor(step, r)
    ensures r in Observe(o, t, step).seen && SeenMatches(Observe(o, t, step).seen[r], Apply(t, step).requests[r])
  {
    hide Counted, Bump, Purge, CountsMatch, SeenMatches, OverLimit;
  }

  lemma ActorMatches(o: Observer, t: Traffic, step: Step, r: nat)
    requires Matches(o, t) && Enabled(t, step) && r in Apply(t, step).requests && ActsFor(step, r)
    ensures r in Observe(o, t, step).seen && SeenMatches(Observe(o, t, step).seen[r], Apply(t, step).requests[r])
  {
    if step.CountIp? {
      BumpMatches(o, t.rows, t.requests[r].IpKey(), t.requests[r].now);
    } else if step.CountIdentity? {
      BumpMatches(o, t.rows, t.requests[r].IdentityKey(), t.requests[r].now);
    }
    hide Bump, Counted, CountsMatch;
  }

  lemma CountsStay(o: Observer, t: Traffic, step: Step)
    requires Matches(o, t) && Enabled(t, step)
    ensures CountsMatch(Observe(o, t, step), Apply(t, step).rows)
  {
    if step.CountIp? {
      BumpMatches(o, t.rows, t.requests[step.r].IpKey(), t.requests[step.r].now);
      hide Bump, Counted;
    } else if step.CountIdentity? {
      BumpMatches(o, t.rows, t.requests[step.r].IdentityKey(), t.requests[step.r].now);
      hide Bump, Counted;
    }
    hide SeenMatches, OverLimit;
  }

  lemma AnswersMatch(o: Observer, t: Traffic, step: Step, r: nat)
    requires Matches(o, t) && Enabled(t, step) && r in Apply(t, step).answers
    ensures
      var o', t' := Observe(o, t, step), Apply(t, step);
      r !in t'.requests && r in o'.seen && o'.seen[r].ofIp.Some? && (t'.answers[r] <==> OverLimit(o'.seen[r]))
  {
    hide Counted, Bump, Purge, CountsMatch, OverLimit;
    if step == Finish(r) {
      assert SeenMatches(o.seen[r], t.requests[r]);
    }
  }

  lemma StepKeepsMatch(o: Observer, t: Traffic, step: Step)
    requires Matches(o, t) && Enabled(t, step)
    ensures Matches(Observe(o, t, step), Apply(t, step))
  {
    var o', t' := Observe(o, t, step), Apply(t, step);
    CountsStay(o, t, step);
    forall r | r in t'.requests
      ensures r in o'.seen && SeenMatches(o'.seen[r], t'.requests[r])
    {
      if ActsFor(step, r) {
        ActorMatches(o, t, step, r);
      } else {
        OthersMatch(o, t, step, r);
      }
    }
    forall r | r in t'.answers
      ensures r !in t'.requests && r in o'.seen && o'.seen[r].ofIp.Some? && (t'.answers[r] <==> OverLimit(o'.seen[r]))
    {
      AnswersMatch(o, t, step, r);
    }
  }

  lemma {:induction false} RunKeepsMatch(o: Observer, t: Traffic, steps: seq<Step>)
    requires Matches(o, t) && Possible(t, steps)
    ensures Matches(ObserveAll(o, t, steps), RunAll(t, steps))
    decreases |steps|
  {
    if steps != [] {
      StepKeepsMatch(o, t, steps[0]);
      hide Matches, Observe, Apply, Enabled;
      RunKeepsMatch(Observe(o, t, steps[0]), Apply(t, steps[0]), steps[1..]);
    }
  }

  /**
   In every run of overlapping requests from empty counters, a finished request is answered throttled if and only if its
   own upsert was more than the 30th login or 20th reset in its address window, or more than the 8th login or 5th reset
   in its identity window.
   */
  lemma AnswersFollowTheCounts(t: Traffic, steps: seq<Step>, r: nat)
    requires Idle(t) && t.rows == map[] && Possible(t, steps) && r in RunAll(t, steps).answers
    ensures
      var seen := ObserveAll(Observer(map[], map[]), t, steps).seen;
      && r in seen && seen[r].ofIp.Some?
      && (RunAll(t, steps).answers[r] <==> OverLimit(seen[r]))
  {
    RunKeepsMatch(Observer(map[], map[]), t, steps);
  }

  /******* How many requests of one identity get through *******/

  /** A request of the identity that began in the minute. */
  predicate InMinuteOf(request: Request, action: Action, identity: string, from: int) {
    request.action == action && request.identity == identity && from <= request.now < from + 60_000
  }

  /** The step answers such a request, and lets it through. */
  predicate LetsThrough(t: Traffic, step: Step, action: Action, identity: string, from: int)
    requires Enabled(t, step)
  {
    && step.Finish? && InMinuteOf(t.requests[step.r], action, identity, from)
    && step.r in Apply(t, step).answers && !Apply(t, step).answers[step.r]
  }

  ghost function LetThrough(t: Traffic, steps: seq<Step>, action: Action, identity: string, from: int): nat
    requires Possible(t, steps)
    decreases |steps|
  {
    if steps == [] then 0
    else (if LetsThrough(t, steps[0], action, identity, from) then 1 else 0)
         + LetThrough(Apply(t, steps[0]), steps[1..], action, identity, from)
  }

  /** The request has been counted within the limit and still waits for its answer. */
  predicate IsWaiting(t: Traffic, r: nat, action: Action, identity: string, from: int) {
    r in t.requests && t.requests[r].stage == Ending(false) && InMinuteOf(t.requests[r], action, identity, from)
  }

  function Waiting(t: Traffic, action: Action, identity: string, from: int): set<nat> {
    set r | r in t.requests && IsWaiting(t, r, action, identity, from)
  }

  /** A step's upsert of the identity's counter, if it was stamped in the minute and answered within the limit. */
  function AdmitsBy(t: Traffic, step: Step, key: Key, limit: nat, from: int): nat
    requires Enabled(t, step)
  {
    var run := StatementOf(t, step);
    if run == [] then 0 else Admits(t.rows, run[0], key, limit, from)
  }

  lemma OthersWaitOn(t: Traffic, step: Step, r: nat, action: Action, identity: string, from: int)
    requires Enabled(t, step) && !ActsFor(step, r)
    ensures IsWaiting(Apply(t, step), r, action, identity, from) <==> IsWaiting(t, r, action, identity, from)
  {
    hide InMinuteOf, Bump, Purge;
  }

  /** Only a count within the limit makes its request wait for a favourable answer; an answer ends the wait. */
  lemma ActorWaits(t: Traffic, step: Step, r: nat, action: Action, identity: string, from: int)
    requires Enabled(t, step) && ActsFor(step, r)
    ensures
      var limit := if action.Login? then 8 else 5;
      (if LetsThrough(t, step, action, identity, from) then 1 else 0)
      + (if IsWaiting(Apply(t, step), r, action, identity, from) then 1 else 0)
      <= (if IsWaiting(t, r, action, identity, from) then 1 else 0)
         + AdmitsBy(t, step, Key(action, Identity, identity), limit, from)
  {
    hide Purge;
  }

  lemma OneElement(small: set<nat>, big: set<nat>, r: nat)
    requires forall q | q != r :: q in small <==> q in big
    ensures |small| + (if r in big then 1 else 0) == |big| + if r in small then 1 else 0
  {
    WithoutOne(small, r);
    WithoutOne(big, r);
    assert small - {r} == big - {r};
  }

  lemma WithoutOne(s: set<nat>, r: nat)
    ensures |s| == |s - {r}| + if r in s then 1 else 0
  {
    if r in s {
      assert s == (s - {r}) + {r};
    } else {
      assert s - {r} == s;
    }
  }

  lemma WaitingGrows(t: Traffic, step: Step, action: Action, identity: string, from: int)
    requires Enabled(t, step)
    ensures
      var limit := if action.Login? then 8 else 5;
      (if LetsThrough(t, step, action, identity, from) then 1 else 0) + |Waiting(Apply(t, step), action, identity, from)|
      <= |Waiting(t, action, identity, from)| + AdmitsBy(t, step, Key(action, Identity, identity), limit, from)
  {
    var waiting, waiting' := Waiting(t, action, identity, from), Waiting(Apply(t, step), action, identity, from);
    assert step.Tick? || step.ClearLogin? ==> !LetsThrough(t, step, action, identity, from);
    hide Apply, Enabled, LetsThrough, AdmitsBy, IsWaiting;
    forall r | !ActsFor(step, r)
      ensures r in waiting' <==> r in waiting
    {
      OthersWaitOn(t, step, r, action, identity, from);
      WaitingMembers(t, r, action, identity, from);
      WaitingMembers(Apply(t, step), r, action, identity, from);
    }
    if step.Tick? || step.ClearLogin? {
      assert waiting' == waiting;
    } else {
      ActorWaits(t, step, step.r, action, identity, from);
      OneElement(waiting', waiting, step.r);
      WaitingMembers(t, step.r, action, identity, from);
      WaitingMembers(Apply(t, step), step.r, action, identity, from);
    }
  }

  lemma WaitingMembers(t: Traffic, r: nat, action: Action, identity: string, from: int)
    ensures r in Waiting(t, action, identity, from) <==> IsWaiting(t, r, action, identity, from)
  {
  }

  lemma {:induction false} AdmittedConcat(rows: Counters, first: Run, second: Run, key: Key, limit: nat, from: int)
    ensures Admitted(rows, first + second, key, limit, from)
         == Admitted(rows, first, key, limit, from) + Admitted(After(rows, first), second, key, limit, from)
  {
    if second == [] {
      assert first + second == first;
    } else {
      var front, st := second[..|second| - 1], second[|second| - 1];
      AdmittedConcat(rows, first, front, key, limit, from);
      AfterConcat(rows, first, front);
      assert first + second == (first + front) + [st] && second == front + [st];
      WindowsSnoc(rows, first + front, st, key, limit, from);
      WindowsSnoc(After(rows, first), front, st, key, limit, from);
      hide Admitted, After, Admits, CurrentHit, WindowsHit;
    }
  }

  lemma StepAdmits(t: Traffic, step: Step, key: Key, limit: nat, from: int)
    requires Enabled(t, step)
    ensures Admitted(t.rows, StatementOf(t, step), key, limit, from) == AdmitsBy(t, step, key, limit, from)
  {
    var run := StatementOf(t, step);
    assert |run| <= 1;
    hide StatementOf, Admits, Enabled;
    if run != [] {
      OneAdmits(t.rows, run[0], key, limit, from);
      assert run == [run[0]];
    }
  }

  lemma OneAdmits(rows: Counters, st: Statement, key: Key, limit: nat, from: int)
    ensures Admitted(rows, [st], key, limit, from) == Admits(rows, st, key, limit, from)
  {
    WindowsSnoc(rows, [], st, key, limit, from);
    assert [] + [st] == [st];
    hide Admits, CurrentHit, WindowsHit;
  }

  lemma {:induction false} LetThroughIsAdmitted(t: Traffic, steps: seq<Step>, action: Action, identity: string, from: int)
    requires Possible(t, steps)
    ensures
      var limit := if action.Login? then 8 else 5;
      LetThrough(t, steps, action, identity, from)
      <= |Waiting(t, action, identity, from)| + Admitted(t.rows, Statements(t, steps), Key(action, Identity, identity), limit, from)
    decreases |steps|
  {
    if steps != [] {
      var t', rest, key := Apply(t, steps[0]), steps[1..], Key(action, Identity, identity);
      var limit := if action.Login? then 8 else 5;
      hide Enabled, Apply, LetsThrough, Waiting, Admitted, After, StatementOf, AdmitsBy;
      WaitingGrows(t, steps[0], action, identity, from);
      StepAdmits(t, steps[0], key, limit, from);
      StepRunsItsStatement(t, steps[0]);
      AdmittedConcat(t.rows, StatementOf(t, steps[0]), Statements(t', rest), key, limit, from);
      LetThroughIsAdmitted(t', rest, action, identity, from);
    }
  }

  /**
   However requests overlap, if counters are written at most `lag` after their requests began, at most `n * 8` logins
   and `n * 5` password resets of one identity that began within one minute are let through, as soon as `n - 1` windows
   less the lag cover a minute and the lag.
   */
  lemma LetThroughIsBounded(t: Traffic, steps: seq<Step>, action: Action, identity: string, from: int, lag: nat, n: nat)
    requires Inv(t) && t.requests == map[] && Possible(t, steps)
    requires AllOnTime(t, steps, lag) && NeverClears(steps, Key(action, Identity, identity))
    requires lag < 60_000 && n > 0 && (n - 1) * (60_000 - lag) >= 60_000 + lag - 1
    ensures LetThrough(t, steps, action, identity, from) <= n * if action.Login? then 8 else 5
  {
    hide Inv, Possible, AllOnTime, NeverClears, Admitted, Statements, LetThrough;
    var limit := if action.Login? then 8 else 5;
    assert Waiting(t, action, identity, from) == {};
    LetThroughIsAdmitted(t, steps, action, identity, from);
    TrafficIsBounded(t, steps, Key(action, Identity, identity), limit, from, lag, n);
  }

  /******* The method's verdict *******/

  /** The count that one more upsert gets, in terms of the stored row. */
  function NextCount(rows: Counters, key: Key, now: int): nat {
    if key in rows && now < rows[key].windowEndsAt then rows[key].attempts + 1 else 1
  }

  /** A request that runs alone is throttled exactly from the 31st login or 21st reset of its address, or the 9th or 6th of its identity. */
  lemma ThrottleOutcome(rows: Counters, action: Action, ip: string, identity: string, now: int)
    ensures
      var (verdict, _) := Throttle(rows, action, ip, identity, now);
      verdict
      <==> || NextCount(rows, Key(action, Ip, ip), now) > (if action.Login? then 30 else 20)
           || NextCount(rows, Key(action, Identity, identity), now) > (if action.Login? then 8 else 5)
  {
  }
}

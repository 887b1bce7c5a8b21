/**
 Requests to the limiter as processes that overlap: each takes the time when it begins, and its
 statements run later, with those of any other requests in between; it can die at any point.
 */
module LimiterTraffic {
  import opened RateLimiter
  import opened LimiterRuns

  /** `Passed` names the window of the address counter that let the request through, and its count there. */
  datatype Stage = Started | Passed(window: nat, attempt: nat) | Ending(throttled: bool)

  datatype Request = Request(action: Action, ip: string, identity: string, now: int, stage: Stage) {
    function IpKey(): Key {
      Key(action, Ip, ip)
    }

    function IdentityKey(): Key {
      Key(action, Identity, identity)
    }
  }

  datatype Grant = Grant(ipKey: Key, window: nat, attempt: nat)

  /** The counters and the requests under way, with three history values: windows opened, identity writes, and answers. */
  datatype Traffic = Traffic(
    rows: Counters, clock: int, requests: map<nat, Request>,
    windows: map<Key, nat>, written: set<Grant>, answers: map<nat, bool>)

  datatype Step =
    | Tick(time: int)
    | Begin(r: nat, action: Action, ip: string, identity: string)
    | CountIp(r: nat)
    | CountIdentity(r: nat)
    | Finish(r: nat)
    | Die(r: nat)
    | ClearLogin(ip: string, identity: string)

  predicate Enabled(t: Traffic, step: Step) {
    match step
    case Tick(time) => t.clock <= time
    case Begin(r, _, _, _) => r !in t.requests && r !in t.answers
    case CountIp(r) => r in t.requests && t.requests[r].stage.Started?
    case CountIdentity(r) => r in t.requests && t.requests[r].stage.Passed?
    case Finish(r) => r in t.requests && t.requests[r].stage.Ending?
    case Die(r) => r in t.requests
    case ClearLogin(_, _) => true
  }

  /** How many windows of the counter have been opened. */
  function Window(t: Traffic, key: Key): nat {
    if key in t.windows then t.windows[key] else 0
  }

  function LoginKeys(ip: string, identity: string): set<Key> {
    {Key(Login, Ip, ip), Key(Login, Identity, identity)}
  }

  function Advance(t: Traffic, r: nat, stage: Stage): Traffic
    requires r in t.requests
  {
    t.(requests := t.requests[r := t.requests[r].(stage := stage)])
  }

  function Apply(t: Traffic, step: Step): Traffic
    requires Enabled(t, step)
  {
    match step
    case Tick(time) => t.(clock := time)
    case Begin(r, action, ip, identity) =>
      t.(requests := t.requests[r := Request(action, ip, identity, t.clock, Started)])
    case CountIp(r) =>
      var q := t.requests[r];
      var key := q.IpKey();
      var rows := Bump(t.rows, key, q.now);
      var window := if Opens(t.rows, key, q.now) then Window(t, key) + 1 else Window(t, key);
      Advance(t.(rows := rows, windows := t.windows[key := window]), r,
              if rows[key].attempts > IpLimit(q.action) then Ending(true) else Passed(window, rows[key].attempts))
    case CountIdentity(r) =>
      var q := t.requests[r];
      var rows := Bump(t.rows, q.IdentityKey(), q.now);
      Advance(t.(rows := rows, written := t.written + {Grant(q.IpKey(), q.stage.window, q.stage.attempt)}), r,
              Ending(rows[q.IdentityKey()].attempts > IdentityLimit(q.action)))
    case Finish(r) =>
      var q := t.requests[r];
      t.(rows := Purge(t.rows, q.now), requests := t.requests - {r}, answers := t.answers[r := q.stage.throttled])
    case Die(r) => t.(requests := t.requests - {r})
    case ClearLogin(ip, identity) => t.(rows := t.rows - LoginKeys(ip, identity))
  }

  ghost predicate Possible(t: Traffic, steps: seq<Step>)
    decreases |steps|
  {
    steps == [] || (Enabled(t, steps[0]) && Possible(Apply(t, steps[0]), steps[1..]))
  }

  ghost function RunAll(t: Traffic, steps: seq<Step>): Traffic
    requires Possible(t, steps)
    decreases |steps|
  {
    if steps == [] then t else RunAll(Apply(t, steps[0]), steps[1..])
  }

  /******* One address, one window: at most the limit of identity writes *******/

  function GrantOf(q: Request): Grant
    requires q.stage.Passed?
  {
    Grant(q.IpKey(), q.stage.window, q.stage.attempt)
  }

  /** The grant is within the limit and not ahead of its counter. */
  predicate Issued(t: Traffic, g: Grant) {
    && g.ipKey.subject.Ip?
    && 1 <= g.attempt <= IpLimit(g.ipKey.action)
    && g.window <= Window(t, g.ipKey)
    && (g.window == Window(t, g.ipKey) && g.ipKey in t.rows ==> g.attempt <= t.rows[g.ipKey].attempts)
  }

  predicate IsPassed(t: Traffic, r: nat) {
    r in t.requests && t.requests[r].stage.Passed?
  }

  ghost predicate Inv(t: Traffic) {
    && (forall r | r in t.requests :: t.requests[r].now <= t.clock)
    && (forall g | g in t.written :: Issued(t, g))
    && (forall r | IsPassed(t, r) :: Issued(t, GrantOf(t.requests[r])) && GrantOf(t.requests[r]) !in t.written)
    && (forall q, r | IsPassed(t, q) && IsPassed(t, r) && q != r :: GrantOf(t.requests[q]) != GrantOf(t.requests[r]))
  }

  /** No step takes a grant back: windows and counts only move on. */
  lemma IssuedStays(t: Traffic, step: Step, g: Grant)
    requires Enabled(t, step) && Issued(t, g)
    ensures Issued(Apply(t, step), g)
  {
  }

  /** The count of an address is a new grant: its window is new, or its count in the current window is. */
  lemma CountIsNew(t: Traffic, r: nat, g: Grant)
    requires Enabled(t, CountIp(r)) && Issued(t, g) && IsPassed(Apply(t, CountIp(r)), r)
    ensures GrantOf(Apply(t, CountIp(r)).requests[r]) != g
    ensures Issued(Apply(t, CountIp(r)), GrantOf(Apply(t, CountIp(r)).requests[r]))
  {
  }

  /** Every request but the acting one is as it was. */
  lemma OthersStay(t: Traffic, step: Step, r: nat)
    requires Enabled(t, step) && IsPassed(Apply(t, step), r)
    ensures step == CountIp(r) || (IsPassed(t, r) && Apply(t, step).requests[r] == t.requests[r] && step != CountIdentity(r))
  {
  }

  lemma StepKeepsInv(t: Traffic, step: Step)
    requires Inv(t) && Enabled(t, step)
    ensures Inv(Apply(t, step))
  {
    var t' := Apply(t, step);
    assert forall r | r in t'.requests :: t'.requests[r].now <= t'.clock;
    forall g | g in t'.written
      ensures Issued(t', g)
    {
      var earlier := if g in t.written then g else GrantOf(t.requests[step.r]);
      IssuedStays(t, step, earlier);
    }
    forall r | IsPassed(t', r)
      ensures Issued(t', GrantOf(t'.requests[r])) && GrantOf(t'.requests[r]) !in t'.written
    {
      PassedStaysFresh(t, step, r);
    }
    forall q, r | IsPassed(t', q) && IsPassed(t', r) && q != r
      ensures GrantOf(t'.requests[q]) != GrantOf(t'.requests[r])
    {
      OthersStay(t, step, q);
      OthersStay(t, step, r);
      if step == CountIp(q) {
        CountIsNew(t, q, GrantOf(t.requests[r]));
      } else if step == CountIp(r) {
        CountIsNew(t, r, GrantOf(t.requests[q]));
      }
    }
  }

  lemma PassedStaysFresh(t: Traffic, step: Step, r: nat)
    requires Inv(t) && Enabled(t, step) && IsPassed(Apply(t, step), r)
    ensures var g := GrantOf(Apply(t, step).requests[r]); Issued(Apply(t, step), g) && g !in Apply(t, step).written
  {
    OthersStay(t, step, r);
    if step == CountIp(r) {
      assert Apply(t, step).written == t.written;
      forall g | g in t.written
        ensures g != GrantOf(Apply(t, step).requests[r])
      {
        CountIsNew(t, r, g);
      }
      assert Issued(Apply(t, step), GrantOf(Apply(t, step).requests[r]));
    } else {
      IssuedStays(t, step, GrantOf(t.requests[r]));
    }
  }

  lemma {:induction false} RunKeepsInv(t: Traffic, steps: seq<Step>)
    requires Inv(t) && Possible(t, steps)
    ensures Inv(RunAll(t, steps))
    decreases |steps|
  {
    hide Inv, Enabled, Apply;
    if steps != [] {
      StepKeepsInv(t, steps[0]);
      RunKeepsInv(Apply(t, steps[0]), steps[1..]);
    }
  }

  /** The step writes an identity counter for a request that the address counter let through in that window. */
  predicate WritesFor(t: Traffic, step: Step, ipKey: Key, window: nat) {
    step.CountIdentity? && IsPassed(t, step.r)
    && t.requests[step.r].IpKey() == ipKey && t.requests[step.r].stage.window == window
  }

  ghost function IdentityWrites(t: Traffic, steps: seq<Step>, ipKey: Key, window: nat): nat
    requires Possible(t, steps)
    decreases |steps|
  {
    if steps == [] then 0
    else (if WritesFor(t, steps[0], ipKey, window) then 1 else 0) + IdentityWrites(Apply(t, steps[0]), steps[1..], ipKey, window)
  }

  function GrantsIn(written: set<Grant>, ipKey: Key, window: nat): set<Grant> {
    set g | g in written && g.ipKey == ipKey && g.window == window
  }

  lemma StepAddsGrant(t: Traffic, step: Step, ipKey: Key, window: nat)
    requires Inv(t) && Enabled(t, step)
    ensures |GrantsIn(Apply(t, step).written, ipKey, window)|
         == |GrantsIn(t.written, ipKey, window)| + if WritesFor(t, step, ipKey, window) then 1 else 0
  {
    if step.CountIdentity? {
      var g := GrantOf(t.requests[step.r]);
      assert g !in t.written;
      if WritesFor(t, step, ipKey, window) {
        assert GrantsIn(t.written + {g}, ipKey, window) == GrantsIn(t.written, ipKey, window) + {g};
      } else {
        assert GrantsIn(t.written + {g}, ipKey, window) == GrantsIn(t.written, ipKey, window);
      }
    }
  }

  lemma {:induction false} WritesAreGrants(t: Traffic, steps: seq<Step>, ipKey: Key, window: nat)
    requires Inv(t) && Possible(t, steps)
    ensures |GrantsIn(t.written, ipKey, window)| + IdentityWrites(t, steps, ipKey, window)
         == |GrantsIn(RunAll(t, steps).written, ipKey, window)|
    decreases |steps|
  {
    if steps != [] {
      hide Inv, Apply, Enabled, GrantsIn, WritesFor;
      StepKeepsInv(t, steps[0]);
      StepAddsGrant(t, steps[0], ipKey, window);
      WritesAreGrants(Apply(t, steps[0]), steps[1..], ipKey, window);
    }
  }

  /** The grants of one window with counts up to a limit. */
  function Numbered(ipKey: Key, window: nat, limit: nat): set<Grant> {
    set a: nat | 1 <= a <= limit :: Grant(ipKey, window, a)
  }

  lemma {:induction false} NumberedSize(ipKey: Key, window: nat, limit: nat)
    ensures |Numbered(ipKey, window, limit)| == limit
  {
    if limit == 0 {
      assert Numbered(ipKey, window, 0) == {};
    } else {
      NumberedSize(ipKey, window, limit - 1);
      assert Numbered(ipKey, window, limit) == Numbered(ipKey, window, limit - 1) + {Grant(ipKey, window, limit)};
    }
  }

  lemma SubsetSize(small: set<Grant>, big: set<Grant>)
    requires small <= big
    ensures |small| <= |big|
  {
    assert big == small + (big - small);
  }

  predicate Idle(t: Traffic) {
    t.requests == map[] && t.windows == map[] && t.written == {} && t.answers == map[]
  }

  /**
   In each window of an address counter, the requests from that address write at most `IpLimit`
   identity counters, however any number of requests overlap, however late their statements run,
   and whatever is purged or cleared in between.
   */
  lemma OneAddressIsBounded(t: Traffic, steps: seq<Step>, ipKey: Key, window: nat)
    requires Idle(t) && Possible(t, steps)
    ensures IdentityWrites(t, steps, ipKey, window) <= IpLimit(ipKey.action)
  {
    RunKeepsInv(t, steps);
    WritesAreGrants(t, steps, ipKey, window);
    var grants := GrantsIn(RunAll(t, steps).written, ipKey, window);
    assert forall g | g in grants :: Issued(RunAll(t, steps), g);
    NumberedSize(ipKey, window, IpLimit(ipKey.action));
    SubsetSize(grants, Numbered(ipKey, window, IpLimit(ipKey.action)));
  }

  /******* Overlapping requests as a run of statements *******/

  /** The statement that a step sends, if it sends one. */
  function StatementOf(t: Traffic, step: Step): Run
    requires Enabled(t, step)
  {
    match step
    case CountIp(r) => [Upsert(t.requests[r].IpKey(), t.requests[r].now)]
    case CountIdentity(r) => [Upsert(t.requests[r].IdentityKey(), t.requests[r].now)]
    case Finish(r) => [DeleteExpired(t.requests[r].now)]
    case ClearLogin(ip, identity) => [Clear(LoginKeys(ip, identity))]
    case _ => []
  }

  ghost function Statements(t: Traffic, steps: seq<Step>): Run
    requires Possible(t, steps)
    decreases |steps|
  {
    if steps == [] then [] else StatementOf(t, steps[0]) + Statements(Apply(t, steps[0]), steps[1..])
  }

  /** The times at which they run. */
  ghost function Times(t: Traffic, steps: seq<Step>): seq<int>
    requires Possible(t, steps)
    decreases |steps|
  {
    if steps == [] then []
    else seq(|StatementOf(t, steps[0])|, _ => t.clock) + Times(Apply(t, steps[0]), steps[1..])
  }

  lemma {:induction false} AfterConcat(rows: Counters, first: Run, second: Run)
    ensures After(rows, first + second) == After(After(rows, first), second)
  {
    if second == [] {
      assert first + second == first;
    } else {
      var front, st := second[..|second| - 1], second[|second| - 1];
      AfterConcat(rows, first, front);
      assert first + second == (first + front) + [st] && second == front + [st];
      AfterSnoc(rows, first + front, st);
      AfterSnoc(After(rows, first), front, st);
    }
  }

  lemma StepRunsItsStatement(t: Traffic, step: Step)
    requires Enabled(t, step)
    ensures Apply(t, step).rows == After(t.rows, StatementOf(t, step))
  {
    if StatementOf(t, step) != [] {
      var st := StatementOf(t, step)[0];
      AfterSnoc(t.rows, [], st);
      assert [] + [st] == [st];
    }
  }

  /** Overlapping requests leave what their statements leave, in the order in which these run. */
  lemma {:induction false} TrafficRunsItsStatements(t: Traffic, steps: seq<Step>)
    requires Possible(t, steps)
    ensures RunAll(t, steps).rows == After(t.rows, Statements(t, steps))
    decreases |steps|
  {
    if steps != [] {
      StepRunsItsStatement(t, steps[0]);
      hide Apply, Enabled, StatementOf, After;
      TrafficRunsItsStatements(Apply(t, steps[0]), steps[1..]);
      AfterConcat(t.rows, StatementOf(t, steps[0]), Statements(Apply(t, steps[0]), steps[1..]));
    } else {
      assert After(t.rows, []) == t.rows;
    }
  }

  /** A counter is written at most `lag` after its request took the time. */
  predicate OnTime(t: Traffic, step: Step, lag: nat) {
    (step.CountIp? || step.CountIdentity?) && step.r in t.requests ==> t.clock <= t.requests[step.r].now + lag
  }

  ghost predicate AllOnTime(t: Traffic, steps: seq<Step>, lag: nat)
    requires Possible(t, steps)
    decreases |steps|
  {
    steps == [] || (OnTime(t, steps[0], lag) && AllOnTime(Apply(t, steps[0]), steps[1..], lag))
  }

  predicate NeverClears(steps: seq<Step>, key: Key) {
    forall i | 0 <= i < |steps| :: steps[i].ClearLogin? ==> key !in LoginKeys(steps[i].ip, steps[i].identity)
  }

  /** The clock of the requests is the clock under which their statements are prompt. */
  lemma {:induction false} TrafficIsPrompt(t: Traffic, steps: seq<Step>, lag: nat, key: Key)
    requires Inv(t) && Possible(t, steps) && AllOnTime(t, steps, lag) && NeverClears(steps, key)
    ensures Prompt(Statements(t, steps), Times(t, steps), lag) && NeverCleared(Statements(t, steps), key)
    ensures forall i | 0 <= i < |Times(t, steps)| :: t.clock <= Times(t, steps)[i]
    decreases |steps|
  {
    if steps != [] {
      var t', rest := Apply(t, steps[0]), steps[1..];
      StepKeepsInv(t, steps[0]);
      assert NeverClears(rest, key);
      TrafficIsPrompt(t', rest, lag, key);
      StatementIsPrompt(t, steps[0], lag, key);
      assert t.clock <= t'.clock;
      hide Apply, Enabled, Inv, OnTime, StatementOf, Prompt, PromptAt, NeverCleared, AllOnTime, NeverClears;
      if StatementOf(t, steps[0]) != [] {
        PromptCons(StatementOf(t, steps[0])[0], t.clock, Statements(t', rest), Times(t', rest), lag, key);
        assert StatementOf(t, steps[0]) == [StatementOf(t, steps[0])[0]];
        assert seq(1, _ => t.clock) == [t.clock];
      } else {
        assert Statements(t, steps) == Statements(t', rest) && Times(t, steps) == Times(t', rest);
      }
    }
  }

  lemma StatementIsPrompt(t: Traffic, step: Step, lag: nat, key: Key)
    requires Inv(t) && Enabled(t, step) && OnTime(t, step, lag)
    requires step.ClearLogin? ==> key !in LoginKeys(step.ip, step.identity)
    ensures |StatementOf(t, step)| <= 1
    ensures forall st | st in StatementOf(t, step) :: PromptAt(st, t.clock, lag) && (st.Clear? ==> key !in st.keys)
  {
  }

  lemma PromptCons(st: Statement, clock: int, run: Run, at: seq<int>, lag: nat, key: Key)
    requires PromptAt(st, clock, lag) && Prompt(run, at, lag) && forall i | 0 <= i < |at| :: clock <= at[i]
    requires NeverCleared(run, key) && (st.Clear? ==> key !in st.keys)
    ensures Prompt([st] + run, [clock] + at, lag) && NeverCleared([st] + run, key)
  {
    hide PromptAt;
  }

  /**
   In every run of overlapping requests in which counters are written at most `lag` after the request
   began, a minute of beginnings admits at most `n` times a counter's limit, with `n` as in
   `LagBoundsTheMinute`.
   */
  lemma TrafficIsBounded(t: Traffic, steps: seq<Step>, key: Key, limit: nat, from: int, lag: nat, n: nat)
    requires Inv(t) && Possible(t, steps) && AllOnTime(t, steps, lag) && NeverClears(steps, key)
    requires lag < WINDOW && n > 0 && (n - 1) * (WINDOW - lag) >= WINDOW + lag - 1
    ensures Admitted(t.rows, Statements(t, steps), key, limit, from) <= n * limit
  {
    TrafficIsPrompt(t, steps, lag, key);
    LagBoundsTheMinute(t.rows, Statements(t, steps), Times(t, steps), key, limit, from, lag, n);
  }

  /******* The method is a request that runs alone *******/

  lemma RunCons(t: Traffic, step: Step, rest: seq<Step>)
    requires Enabled(t, step) && Possible(Apply(t, step), rest)
    ensures Possible(t, [step] + rest) && RunAll(t, [step] + rest) == RunAll(Apply(t, step), rest)
  {
    assert ([step] + rest)[1..] == rest;
  }

  /** A request with nothing between its statements gives the method's verdict and leaves the method's counters. */
  lemma SoloRequestIsARun(t: Traffic, r: nat, action: Action, ip: string, identity: string) returns (steps: seq<Step>)
    requires r !in t.requests && r !in t.answers
    ensures Possible(t, steps)
    ensures
      var t' := RunAll(t, steps);
      r in t'.answers && (t'.answers[r], t'.rows) == Throttle(t.rows, action, ip, identity, t.clock)
  {
    var begin, count, finish := Begin(r, action, ip, identity), CountIp(r), Finish(r);
    var t1 := Apply(t, begin);
    var t2 := Apply(t1, count);
    var rest := [finish] + [];
    if t2.requests[r].stage.Ending? {
      RunCons(t2, finish, []);
    } else {
      var t3 := Apply(t2, CountIdentity(r));
      RunCons(t3, finish, []);
      rest := [CountIdentity(r)] + rest;
      RunCons(t2, CountIdentity(r), [finish] + []);
    }
    RunCons(t1, count, rest);
    RunCons(t, begin, [count] + rest);
    steps := [begin] + ([count] + rest);
  }
}

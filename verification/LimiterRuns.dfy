/**
 What the limiter promises over a whole run of statements, in the order in which the database
 executes them.

 A request takes the time once, when it begins, and binds it into its upserts and its purge. So the
 stamps of a run need not go up: a request that began early may write late, after the purge of a
 request that began later. Nothing below assumes ordered stamps.
 */
module LimiterRuns {
  import opened RateLimiter

  datatype Statement =
    | Upsert(key: Key, now: int)
    | DeleteExpired(now: int)
    | Clear(keys: set<Key>)

  type Run = seq<Statement>

  function Execute(rows: Counters, st: Statement): Counters {
    match st
    case Upsert(key, now) => Bump(rows, key, now)
    case DeleteExpired(now) => Purge(rows, now)
    case Clear(keys) => rows - keys
  }

  /** The counters that a run leaves. */
  function After(rows: Counters, run: Run): Counters {
    if run == [] then rows else Execute(After(rows, run[..|run| - 1]), run[|run| - 1])
  }

  /** The attempts that each upsert returned; other statements return nothing. */
  function Answers(rows: Counters, run: Run): seq<nat> {
    if run == [] then []
    else
      var st := run[|run| - 1];
      Answers(rows, run[..|run| - 1]) + if st.Upsert? then [After(rows, run)[st.key].attempts] else []
  }

  /** The same run on counters that are never deleted because their window ended. */
  function WithoutPurges(run: Run): Run {
    if run == [] then []
    else WithoutPurges(run[..|run| - 1]) + if run[|run| - 1].DeleteExpired? then [] else [run[|run| - 1]]
  }

  /** The counters of the run without purges. */
  function Kept(rows: Counters, run: Run): Counters {
    After(rows, WithoutPurges(run))
  }

  lemma AfterSnoc(rows: Counters, run: Run, st: Statement)
    ensures After(rows, run + [st]) == Execute(After(rows, run), st)
  {
    assert (run + [st])[..|run + [st]| - 1] == run;
  }

  lemma KeptSnoc(rows: Counters, run: Run, st: Statement)
    ensures Kept(rows, run + [st]) == if st.DeleteExpired? then Kept(rows, run) else Execute(Kept(rows, run), st)
  {
    assert (run + [st])[..|run + [st]| - 1] == run;
    if st.DeleteExpired? {
      assert WithoutPurges(run) + [] == WithoutPurges(run);
    } else {
      AfterSnoc(rows, WithoutPurges(run), st);
    }
  }

  /******* When a purge is visible *******/

  predicate Touches(st: Statement, key: Key) {
    (st.Upsert? && st.key == key) || (st.Clear? && key in st.keys)
  }

  predicate Untouched(run: Run, from: nat, key: Key)
    requires from <= |run|
  {
    forall i | from <= i < |run| :: !Touches(run[i], key)
  }

  /** A purge at `i` reached the end of the key's window, and nothing has touched the key since. */
  predicate PurgedAt(rows: Counters, run: Run, key: Key, i: nat)
    requires i < |run|
  {
    var kept := Kept(rows, run);
    key in kept && run[i].DeleteExpired? && kept[key].windowEndsAt <= run[i].now && Untouched(run, i + 1, key)
  }

  /** The upsert is stamped inside the window that a purge before it has reached the end of. */
  predicate LateUpsert(rows: Counters, run: Run, st: Statement) {
    st.Upsert? && st.key in Kept(rows, run) && st.now < Kept(rows, run)[st.key].windowEndsAt
    && exists i | 0 <= i < |run| :: PurgedAt(rows, run, st.key, i)
  }

  /** No purge whose time reaches a window's end runs before an upsert of that key stamped inside that window. */
  predicate NoLateUpsert(rows: Counters, run: Run) {
    forall j | 0 <= j < |run| :: !LateUpsert(rows, run[..j], run[j])
  }

  predicate NoLateUpsertOf(rows: Counters, run: Run, key: Key) {
    forall j | 0 <= j < |run| :: run[j].Upsert? && run[j].key == key ==> !LateUpsert(rows, run[..j], run[j])
  }

  /** Without late upserts the purges only remove rows whose kept form has ended at a purge's time. */
  predicate OnlyPurged(rows: Counters, run: Run, key: Key) {
    var now, kept := After(rows, run), Kept(rows, run);
    && (key in now ==> key in kept && kept[key] == now[key])
    && (key in kept ==> (key !in now <==> exists i | 0 <= i < |run| :: PurgedAt(rows, run, key, i)))
  }

  lemma NoLateUpsertSnoc(rows: Counters, run: Run, st: Statement)
    ensures NoLateUpsert(rows, run + [st]) <==> NoLateUpsert(rows, run) && !LateUpsert(rows, run, st)
  {
    var all := run + [st];
    assert all[..|run|] == run && all[|run|] == st;
    assert forall j | 0 <= j < |run| :: all[..j] == run[..j] && all[j] == run[j];
  }

  lemma NoLateUpsertOfSnoc(rows: Counters, run: Run, st: Statement, key: Key)
    ensures NoLateUpsertOf(rows, run + [st], key)
      <==> NoLateUpsertOf(rows, run, key) && (st.Upsert? && st.key == key ==> !LateUpsert(rows, run, st))
  {
    var all := run + [st];
    assert all[..|run|] == run && all[|run|] == st;
    assert forall j | 0 <= j < |run| :: all[..j] == run[..j] && all[j] == run[j];
  }

  lemma PurgedSnoc(rows: Counters, run: Run, st: Statement, key: Key, i: nat)
    requires i <= |run|
    ensures
      PurgedAt(rows, run + [st], key, i)
      <==> if i < |run| then !Touches(st, key) && PurgedAt(rows, run, key, i)
           else key in Kept(rows, run) && st.DeleteExpired? && Kept(rows, run)[key].windowEndsAt <= st.now
  {
    var all := run + [st];
    KeptSnoc(rows, run, st);
    hide Kept;
    assert all[|run|] == st && forall j | 0 <= j < |run| :: all[j] == run[j];
    if i < |run| {
      assert Untouched(all, i + 1, key) <==> Untouched(run, i + 1, key) && !Touches(st, key);
    }
  }

  /** The stored row and the kept row of one key after one more statement. */
  lemma OnlyPurgedSnoc(rows: Counters, run: Run, st: Statement, key: Key)
    requires OnlyPurged(rows, run, key) && (st.Upsert? && st.key == key ==> !LateUpsert(rows, run, st))
    ensures OnlyPurged(rows, run + [st], key)
  {
    var all := run + [st];
    forall i: nat | i <= |run|
      ensures PurgedAt(rows, all, key, i)
              <==> if i < |run| then !Touches(st, key) && PurgedAt(rows, run, key, i)
                   else key in Kept(rows, run) && st.DeleteExpired? && Kept(rows, run)[key].windowEndsAt <= st.now
    {
      PurgedSnoc(rows, run, st, key, i);
    }
    AfterSnoc(rows, run, st);
    KeptSnoc(rows, run, st);
    hide After, Kept, PurgedAt;
    if Touches(st, key) {
      assert forall i | 0 <= i < |all| :: !PurgedAt(rows, all, key, i);
    } else {
      assert (exists i | 0 <= i < |run| :: PurgedAt(rows, run, key, i)) ==> exists i | 0 <= i < |all| :: PurgedAt(rows, all, key, i);
      if st.DeleteExpired? && key in Kept(rows, run) && Kept(rows, run)[key].windowEndsAt <= st.now {
        assert PurgedAt(rows, all, key, |run|);
      }
    }
  }

  lemma {:induction false} PurgesOnlyRemove(rows: Counters, run: Run, key: Key)
    requires NoLateUpsertOf(rows, run, key)
    ensures OnlyPurged(rows, run, key)
  {
    if run != [] {
      var front, st := run[..|run| - 1], run[|run| - 1];
      assert run == front + [st];
      NoLateUpsertOfSnoc(rows, front, st, key);
      PurgesOnlyRemove(rows, front, key);
      OnlyPurgedSnoc(rows, front, st, key);
    }
  }

  /** Rows come from upserts, which count from one. */
  predicate Counted(rows: Counters) {
    forall key | key in rows :: rows[key].attempts >= 1
  }

  lemma {:induction false} StaysCounted(rows: Counters, run: Run)
    requires Counted(rows)
    ensures Counted(After(rows, run))
  {
    if run != [] {
      StaysCounted(rows, run[..|run| - 1]);
    }
  }

  /** The answer of one more upsert shows the purges exactly when it is late. */
  lemma LateAnswerDiffers(rows: Counters, run: Run, st: Statement)
    requires Counted(rows) && st.Upsert? && OnlyPurged(rows, run, st.key)
    ensures Execute(After(rows, run), st)[st.key] == Execute(Kept(rows, run), st)[st.key] <==> !LateUpsert(rows, run, st)
    ensures Execute(After(rows, run), st)[st.key].attempts == Execute(Kept(rows, run), st)[st.key].attempts <==> !LateUpsert(rows, run, st)
  {
    StaysCounted(rows, WithoutPurges(run));
    hide After, PurgedAt;
  }

  /** Whether the answers agree with one more statement: they did before, and the statement is not a late upsert. */
  lemma AgreeSnoc(rows: Counters, run: Run, st: Statement)
    requires Counted(rows) && (NoLateUpsert(rows, run) && st.Upsert? ==> OnlyPurged(rows, run, st.key))
    requires Answers(rows, run) == Answers(rows, WithoutPurges(run)) <==> NoLateUpsert(rows, run)
    ensures
      Answers(rows, run + [st]) == Answers(rows, WithoutPurges(run + [st]))
      <==> NoLateUpsert(rows, run) && !LateUpsert(rows, run, st)
  {
    assert LateUpsert(rows, run, st) ==> st.Upsert?;
    if NoLateUpsert(rows, run) && st.Upsert? {
      LateAnswerDiffers(rows, run, st);
    }
    hide LateUpsert, NoLateUpsert, After, Kept, OnlyPurged, Execute, Answers, WithoutPurges;
    AnswersSnoc(rows, run, st);
    var stored, kept := Answers(rows, run), Answers(rows, WithoutPurges(run));
    if st.Upsert? {
      SameSnoc(stored, Execute(After(rows, run), st)[st.key].attempts, kept, Execute(Kept(rows, run), st)[st.key].attempts);
    } else {
      assert stored + [] == stored && kept + [] == kept;
    }
  }

  /**
   Deleting ended counters changes no answer of a run if and only if no purge whose time reaches a
   window's end runs before an upsert of that key stamped inside that window.
   */
  lemma {:induction false} PurgesAreInvisibleIff(rows: Counters, run: Run)
    requires Counted(rows)
    ensures Answers(rows, run) == Answers(rows, WithoutPurges(run)) <==> NoLateUpsert(rows, run)
  {
    if run != [] {
      var front, st := run[..|run| - 1], run[|run| - 1];
      assert run == front + [st];
      hide LateUpsert, After, Kept, OnlyPurged, Execute, Answers, WithoutPurges, Counted;
      PurgesAreInvisibleIff(rows, front);
      NoLateUpsertSnoc(rows, front, st);
      if NoLateUpsert(rows, front) && st.Upsert? {
        NoneLateOfKey(rows, front, st.key);
        PurgesOnlyRemove(rows, front, st.key);
      }
      hide NoLateUpsert;
      AgreeSnoc(rows, front, st);
    }
  }

  lemma NoneLateOfKey(rows: Counters, run: Run, key: Key)
    requires NoLateUpsert(rows, run)
    ensures NoLateUpsertOf(rows, run, key)
  {
    hide LateUpsert;
  }

  lemma SameSnoc(x: seq<nat>, a: nat, y: seq<nat>, b: nat)
    ensures x + [a] == y + [b] <==> x == y && a == b
  {
    assert (x + [a])[..|x|] == x && (y + [b])[..|y|] == y;
    assert (x + [a])[|x|] == a && (y + [b])[|y|] == b;
  }

  lemma AnswersSnoc(rows: Counters, run: Run, st: Statement)
    ensures Answers(rows, run + [st]) == Answers(rows, run) + if st.Upsert? then [Execute(After(rows, run), st)[st.key].attempts] else []
    ensures Answers(rows, WithoutPurges(run + [st]))
         == Answers(rows, WithoutPurges(run)) + if st.Upsert? then [Execute(Kept(rows, run), st)[st.key].attempts] else []
  {
    var kept := WithoutPurges(run);
    assert (run + [st])[..|run + [st]| - 1] == run;
    assert (kept + [st])[..|kept + [st]| - 1] == kept;
    AfterSnoc(rows, run, st);
    AfterSnoc(rows, kept, st);
    if st.DeleteExpired? {
      assert kept + [] == kept;
    }
  }

  /** One request took its time after another and ran first: a ninth login attempt is answered as the first. */
  lemma PurgeCanBeVisible(key: Key)
    ensures
      var rows := map[key := Counter(8, 60_000)];
      var run := [DeleteExpired(60_000), Upsert(key, 59_999)];
      Answers(rows, run) == [1] && Answers(rows, WithoutPurges(run)) == [9]
  {
    var rows := map[key := Counter(8, 60_000)];
    var purge, upsert := DeleteExpired(60_000), Upsert(key, 59_999);
    AfterSnoc(rows, [], purge);
    AnswersSnoc(rows, [], purge);
    AnswersSnoc(rows, [purge], upsert);
    KeptSnoc(rows, [], purge);
    assert [] + [purge] == [purge] && [purge] + [upsert] == [purge, upsert];
  }

  /******* The counters against the history of a key *******/

  /** The stamps of all upserts of a key, in the order in which they run. */
  function StampsOf(run: Run, key: Key): seq<int> {
    if run == [] then []
    else
      var st := run[|run| - 1];
      StampsOf(run[..|run| - 1], key) + if st.Upsert? && st.key == key then [st.now] else []
  }

  /** Cut the stamps into windows, each opened by the first stamp at least a minute after the last opening: where the last one opens. */
  function WindowStart(stamps: seq<int>): (start: nat)
    requires stamps != []
    ensures start < |stamps|
  {
    if |stamps| == 1 then 0
    else
      var start := WindowStart(stamps[..|stamps| - 1]);
      if stamps[start] + WINDOW <= stamps[|stamps| - 1] then |stamps| - 1 else start
  }

  function CounterOf(stamps: seq<int>): Counter
    requires stamps != []
  {
    Counter(|stamps| - WindowStart(stamps), stamps[WindowStart(stamps)] + WINDOW)
  }

  predicate NeverCleared(run: Run, key: Key) {
    forall i | 0 <= i < |run| :: run[i].Clear? ==> key !in run[i].keys
  }

  /** The row of the key is the counter of these stamps. */
  predicate IsHistory(rows: Counters, stamps: seq<int>, key: Key) {
    (key in rows <==> stamps != []) && (key in rows ==> rows[key] == CounterOf(stamps))
  }

  /** Without purges, a row is always the counter of its key's history, however the stamps are ordered. */
  lemma {:induction false} KeptIsHistory(run: Run, key: Key)
    requires NeverCleared(run, key)
    ensures IsHistory(Kept(map[], run), StampsOf(run, key), key)
  {
    if run == [] {
      assert Kept(map[], []) == map[];
    } else {
      var front, st := run[..|run| - 1], run[|run| - 1];
      assert run == front + [st];
      assert NeverCleared(front, key) && (st.Clear? ==> key !in st.keys);
      assert StampsOf(run, key) == StampsOf(front, key) + if st.Upsert? && st.key == key then [st.now] else [];
      hide Kept, StampsOf, IsHistory, NeverCleared, Execute;
      KeptIsHistory(front, key);
      KeptSnoc(map[], front, st);
      HistoryStep(Kept(map[], front), StampsOf(front, key), st, key);
    }
  }

  lemma HistoryStep(rows: Counters, stamps: seq<int>, st: Statement, key: Key)
    requires IsHistory(rows, stamps, key) && (st.Clear? ==> key !in st.keys)
    ensures IsHistory(if st.DeleteExpired? then rows else Execute(rows, st),
                      stamps + if st.Upsert? && st.key == key then [st.now] else [], key)
  {
    if st.Upsert? && st.key == key {
      OneMoreStamp(stamps, st.now);
      hide CounterOf;
    } else {
      assert stamps + [] == stamps;
      hide CounterOf;
    }
  }

  lemma OneMoreStamp(stamps: seq<int>, now: int)
    ensures
      CounterOf(stamps + [now])
      == if stamps != [] && CounterOf(stamps).windowEndsAt > now
         then Counter(CounterOf(stamps).attempts + 1, CounterOf(stamps).windowEndsAt) else Counter(1, now + WINDOW)
  {
    assert (stamps + [now])[..|stamps|] == stamps;
  }

  /**
   In a run without late upserts of a key, its next upsert's row is its position in the current window of
   that key's own history, whatever other requests and purges do, if and only if it is not late.
   */
  lemma AnswersCountTheWindowIff(run: Run, st: Statement)
    requires st.Upsert? && NeverCleared(run, st.key) && NoLateUpsertOf(map[], run, st.key)
    ensures
      Execute(After(map[], run), st)[st.key] == CounterOf(StampsOf(run, st.key) + [st.now])
      <==> !LateUpsert(map[], run, st)
  {
    PurgesOnlyRemove(map[], run, st.key);
    LateAnswerDiffers(map[], run, st);
    KeptIsHistory(run, st.key);
    OneMoreStamp(StampsOf(run, st.key), st.now);
  }

  /******* Windows and the minute *******/

  predicate Opens(rows: Counters, key: Key, now: int) {
    key !in rows || rows[key].windowEndsAt <= now
  }

  predicate InMinute(st: Statement, key: Key, from: int) {
    st.Upsert? && st.key == key && from <= st.now < from + WINDOW
  }

  /** One upsert stamped in the minute and answered within the limit. */
  function Admits(rows: Counters, st: Statement, key: Key, limit: nat, from: int): nat {
    if InMinute(st, key, from) && Execute(rows, st)[key].attempts <= limit then 1 else 0
  }

  /** The upserts of a key stamped in [from, from + one minute) that were answered within the limit. */
  function Admitted(rows: Counters, run: Run, key: Key, limit: nat, from: int): nat {
    if run == [] then 0
    else
      var front, st := run[..|run| - 1], run[|run| - 1];
      Admitted(rows, front, key, limit, from) + Admits(After(rows, front), st, key, limit, from)
  }

  /** Whether the window that counts next is one that the minute has hit: `hit` says so of the one before the statement. */
  predicate StillHit(rows: Counters, st: Statement, key: Key, from: int, hit: bool) {
    InMinute(st, key, from) || (hit && !(st.Upsert? && st.key == key && Opens(rows, key, st.now)))
  }

  /** Whether the window of the key's latest upsert has counted an upsert stamped in the minute. */
  predicate CurrentHit(rows: Counters, run: Run, key: Key, from: int) {
    run != [] &&
    var front, st := run[..|run| - 1], run[|run| - 1];
    StillHit(After(rows, front), st, key, from, CurrentHit(rows, front, key, from))
  }

  function NewlyHit(rows: Counters, st: Statement, key: Key, from: int, hit: bool): nat {
    if InMinute(st, key, from) && (Opens(rows, key, st.now) || !hit) then 1 else 0
  }

  /** How many windows of the key count an upsert stamped in the minute. */
  function WindowsHit(rows: Counters, run: Run, key: Key, from: int): nat {
    if run == [] then 0
    else
      var front, st := run[..|run| - 1], run[|run| - 1];
      WindowsHit(rows, front, key, from) + NewlyHit(After(rows, front), st, key, from, CurrentHit(rows, front, key, from))
  }

  lemma WindowsSnoc(rows: Counters, run: Run, st: Statement, key: Key, limit: nat, from: int)
    ensures Admitted(rows, run + [st], key, limit, from)
         == Admitted(rows, run, key, limit, from) + Admits(After(rows, run), st, key, limit, from)
    ensures CurrentHit(rows, run + [st], key, from)
         == StillHit(After(rows, run), st, key, from, CurrentHit(rows, run, key, from))
    ensures WindowsHit(rows, run + [st], key, from)
         == WindowsHit(rows, run, key, from) + NewlyHit(After(rows, run), st, key, from, CurrentHit(rows, run, key, from))
    ensures After(rows, run + [st]) == Execute(After(rows, run), st)
  {
    assert (run + [st])[..|run + [st]| - 1] == run;
  }

  function Unused(rows: Counters, key: Key, limit: nat): nat {
    if key in rows && rows[key].attempts <= limit then limit - rows[key].attempts else 0
  }

  lemma UnusedShrinks(rows: Counters, st: Statement, key: Key, limit: nat, from: int, hit: bool)
    ensures
      Admits(rows, st, key, limit, from)
      + (if StillHit(rows, st, key, from, hit) then Unused(Execute(rows, st), key, limit) else 0)
      <= (if hit then Unused(rows, key, limit) else 0) + if NewlyHit(rows, st, key, from, hit) == 1 then limit else 0
  {
  }

  /** Each window that the minute hits admits at most the limit. */
  lemma {:induction false} AdmittedByWindows(rows: Counters, run: Run, key: Key, limit: nat, from: int)
    ensures
      Admitted(rows, run, key, limit, from)
      + (if CurrentHit(rows, run, key, from) then Unused(After(rows, run), key, limit) else 0)
      <= limit * WindowsHit(rows, run, key, from)
  {
    if run != [] {
      var front, st := run[..|run| - 1], run[|run| - 1];
      AdmittedByWindows(rows, front, key, limit, from);
      UnusedShrinks(After(rows, front), st, key, limit, from, CurrentHit(rows, front, key, from));
      assert run == front + [st];
      WindowsSnoc(rows, front, st, key, limit, from);
      OneMore(limit, WindowsHit(rows, front, key, from));
      hide Admitted, CurrentHit, WindowsHit, After, Admits, StillHit, Unused;
    }
  }

  lemma OneMore(limit: nat, n: nat)
    ensures limit * (n + 1) == limit * n + limit && limit * (n + 0) == limit * n
  {
  }

  /******* How much traffic a minute can admit *******/

  /** The same upsert arriving several times in a row. */
  function Repeated(st: Statement, count: nat): Run {
    seq(count, _ => st)
  }

  /** The run with more traffic: each upsert of the key arrives with as many copies as the list says. */
  function Flooded(run: Run, key: Key, copies: seq<nat>): Run
    requires |copies| == |run|
  {
    if run == [] then []
    else
      var st := run[|run| - 1];
      Flooded(run[..|run| - 1], key, copies[..|run| - 1])
      + Repeated(st, if st.Upsert? && st.key == key then copies[|run| - 1] + 1 else 1)
  }

  /** Two tables that differ at most in how often the key was counted. */
  predicate SameWindows(rows: Counters, more: Counters, key: Key) {
    && rows.Keys == more.Keys
    && (forall k | k in rows && k != key :: rows[k] == more[k])
    && (key in rows ==> rows[key].windowEndsAt == more[key].windowEndsAt)
  }

  lemma SameWindowsStep(rows: Counters, more: Counters, key: Key, st: Statement)
    requires SameWindows(rows, more, key)
    ensures SameWindows(Execute(rows, st), Execute(more, st), key)
  {
  }

  /** The same windows, hit by the same minute. */
  predicate SameHits(rows: Counters, run: Run, more: Run, key: Key, from: int) {
    && SameWindows(After(rows, run), After(rows, more), key)
    && CurrentHit(rows, more, key, from) == CurrentHit(rows, run, key, from)
    && WindowsHit(rows, more, key, from) == WindowsHit(rows, run, key, from)
  }

  /** A running window that the minute has hit, or will not hit now, is hit no more than it was. */
  lemma StaysHit(rows: Counters, st: Statement, from: int, hit: bool)
    requires st.Upsert? && !Opens(rows, st.key, st.now) && (InMinute(st, st.key, from) ==> hit)
    ensures StillHit(rows, st, st.key, from, hit) == hit && NewlyHit(rows, st, st.key, from, hit) == 0
    ensures !Opens(Execute(rows, st), st.key, st.now)
  {
  }

  /** The upsert's window runs, and the minute has hit it if the upsert is stamped in the minute. */
  predicate Settled(rows: Counters, run: Run, st: Statement, from: int) {
    st.Upsert? && !Opens(After(rows, run), st.key, st.now) && (InMinute(st, st.key, from) ==> CurrentHit(rows, run, st.key, from))
  }

  lemma SettledOnce(rows: Counters, run: Run, st: Statement, from: int)
    requires st.Upsert?
    ensures Settled(rows, run + [st], st, from) && SameHits(rows, run + [st], run + [st], st.key, from)
  {
    WindowsSnoc(rows, run, st, st.key, 0, from);
    hide After, CurrentHit, WindowsHit;
  }

  lemma SettledAgain(rows: Counters, once: Run, more: Run, st: Statement, from: int)
    requires Settled(rows, once, st, from) && Settled(rows, more, st, from) && SameHits(rows, once, more, st.key, from)
    ensures Settled(rows, more + [st], st, from) && SameHits(rows, once, more + [st], st.key, from)
  {
    hide After, CurrentHit, WindowsHit, Opens, InMinute, StillHit, NewlyHit, Execute, SameWindows;
    WindowsSnoc(rows, more, st, st.key, 0, from);
    StaysHit(After(rows, more), st, from, CurrentHit(rows, more, st.key, from));
    StillOpen(After(rows, once), After(rows, more), st);
  }

  /** Copies right after an upsert fall into its window and hit no other. */
  lemma {:induction false} CopiesStayInTheWindow(rows: Counters, run: Run, st: Statement, count: nat, from: int)
    requires st.Upsert?
    ensures
      var once, more := run + [st], run + Repeated(st, count + 1);
      SameHits(rows, once, more, st.key, from) && Settled(rows, more, st, from)
  {
    hide Settled, SameHits;
    SettledOnce(rows, run, st, from);
    if count == 0 {
      assert Repeated(st, 1) == [st];
    } else {
      var before := run + Repeated(st, count);
      assert run + Repeated(st, count + 1) == before + [st];
      CopiesStayInTheWindow(rows, run, st, count - 1, from);
      SettledAgain(rows, run + [st], before, st, from);
    }
  }

  lemma StillOpen(rows: Counters, more: Counters, st: Statement)
    requires st.Upsert? && SameWindows(rows, more, st.key) && !Opens(rows, st.key, st.now)
    ensures SameWindows(rows, Execute(more, st), st.key)
  {
  }

  lemma SameHitsStep(rows: Counters, run: Run, more: Run, key: Key, st: Statement, from: int)
    requires SameHits(rows, run, more, key, from)
    ensures SameHits(rows, run + [st], more + [st], key, from)
  {
    WindowsSnoc(rows, run, st, key, 0, from);
    WindowsSnoc(rows, more, st, key, 0, from);
    SameWindowsStep(After(rows, run), After(rows, more), key, st);
    hide After, CurrentHit, WindowsHit, Execute;
  }

  /** More traffic at the same moments changes the counts, but neither the windows nor which of them the minute hits. */
  lemma {:induction false} FloodKeepsWindows(rows: Counters, run: Run, key: Key, copies: seq<nat>, from: int)
    requires |copies| == |run|
    ensures SameHits(rows, run, Flooded(run, key, copies), key, from)
  {
    if run != [] {
      var front, st, n := run[..|run| - 1], run[|run| - 1], copies[|run| - 1];
      var flooded := Flooded(front, key, copies[..|run| - 1]);
      FloodKeepsWindows(rows, front, key, copies[..|run| - 1], from);
      SameHitsStep(rows, front, flooded, key, st, from);
      assert run == front + [st] && Repeated(st, 1) == [st];
      hide SameHits;
      if st.Upsert? && st.key == key {
        CopiesMatch(rows, front, flooded, st, n, from);
      }
    }
  }

  lemma CopiesMatch(rows: Counters, run: Run, more: Run, st: Statement, count: nat, from: int)
    requires st.Upsert? && SameHits(rows, run + [st], more + [st], st.key, from)
    ensures SameHits(rows, run + [st], more + Repeated(st, count + 1), st.key, from)
  {
    assert Repeated(st, 1) == [st];
    CopiesStayInTheWindow(rows, more, st, count, from);
    hide After, CurrentHit, WindowsHit, Repeated;
  }

  function Before(rows: Counters, key: Key, now: int): nat {
    if Opens(rows, key, now) then 0 else rows[key].attempts
  }

  function End(rows: Counters, key: Key, now: int): int {
    if Opens(rows, key, now) then now + WINDOW else rows[key].windowEndsAt
  }

  /** After `count` copies of an upsert: what the row holds, and how many more were admitted. */
  predicate FilledUp(first: Counters, last: Counters, st: Statement, count: nat, limit: nat, admitted: nat, after: nat)
    requires st.Upsert?
  {
    var before := Before(first, st.key, st.now);
    && (count == 0 ==> last == first)
    && (count > 0 ==>
          !Opens(last, st.key, st.now) && last[st.key] == Counter(before + count, End(first, st.key, st.now)))
    && after >= admitted + if before + count <= limit then count else if before <= limit then limit - before else 0
  }

  lemma OneCopy(
    first: Counters, last: Counters, st: Statement, count: nat, limit: nat, from: int, admitted: nat, after: nat)
    requires st.Upsert? && InMinute(st, st.key, from) && FilledUp(first, last, st, count, limit, admitted, after)
    ensures FilledUp(first, Execute(last, st), st, count + 1, limit, admitted, after + Admits(last, st, st.key, limit, from))
  {
  }

  /** Copies of an upsert stamped in the minute are admitted until their window is full. */
  lemma {:induction false} CopiesFillTheWindow(rows: Counters, run: Run, st: Statement, count: nat, limit: nat, from: int)
    requires st.Upsert? && InMinute(st, st.key, from)
    ensures
      var all := run + Repeated(st, count);
      FilledUp(After(rows, run), After(rows, all), st, count, limit,
               Admitted(rows, run, st.key, limit, from), Admitted(rows, all, st.key, limit, from))
  {
    hide After, Admitted, Admits, Execute, InMinute;
    if count == 0 {
      assert run + Repeated(st, 0) == run;
    } else {
      hide FilledUp;
      CopiesFillTheWindow(rows, run, st, count - 1, limit, from);
      var most := run + Repeated(st, count - 1);
      assert run + Repeated(st, count) == most + [st];
      WindowsSnoc(rows, most, st, st.key, limit, from);
      OneCopy(After(rows, run), After(rows, most), st, count - 1, limit, from,
              Admitted(rows, run, st.key, limit, from), Admitted(rows, most, st.key, limit, from));
    }
  }

  /** The copies that fill every window that the minute hits. */
  function Filling(run: Run, key: Key, limit: nat, from: int): (copies: seq<nat>)
    ensures |copies| == |run|
  {
    seq(|run|, i requires 0 <= i < |run| => if InMinute(run[i], key, from) then limit else 0)
  }

  function Start(rows: Counters, key: Key): nat {
    if key in rows then rows[key].attempts else 0
  }

  /** Before the minute hits the current window, its count is at most the traffic so far; every hit window is full up to the slack. */
  predicate Filled(rows: Counters, run: Run, flooded: Run, key: Key, limit: nat, from: int, slack: nat)
    requires slack <= limit
  {
    && (!CurrentHit(rows, run, key, from) ==> Start(After(rows, flooded), key) <= Start(rows, key) + |run|)
    && Admitted(rows, flooded, key, limit, from) >= (limit - slack) * WindowsHit(rows, run, key, from)
  }

  lemma FilledOutside(rows: Counters, run: Run, flooded: Run, st: Statement, key: Key, limit: nat, from: int, slack: nat)
    requires Start(rows, key) + |run| < slack <= limit && !InMinute(st, key, from)
    requires SameHits(rows, run, flooded, key, from) && Filled(rows, run, flooded, key, limit, from, slack)
    ensures Filled(rows, run + [st], flooded + [st], key, limit, from, slack)
  {
    WindowsSnoc(rows, run, st, key, limit, from);
    WindowsSnoc(rows, flooded, st, key, limit, from);
    hide After, CurrentHit, WindowsHit, Admitted;
  }

  lemma FilledInside(rows: Counters, run: Run, flooded: Run, st: Statement, key: Key, limit: nat, from: int, slack: nat)
    requires Start(rows, key) + |run| < slack <= limit && InMinute(st, key, from)
    requires SameHits(rows, run, flooded, key, from) && Filled(rows, run, flooded, key, limit, from, slack)
    ensures Filled(rows, run + [st], flooded + Repeated(st, limit + 1), key, limit, from, slack)
  {
    hide Admitted, CurrentHit, WindowsHit, After, Repeated, Execute;
    WindowsSnoc(rows, run, st, key, limit, from);
    CopiesFillTheWindow(rows, flooded, st, limit + 1, limit, from);
    OneMore(limit - slack, WindowsHit(rows, run, key, from));
    var opens := Opens(After(rows, run), key, st.now);
    assert opens == Opens(After(rows, flooded), key, st.now);
    assert opens || !CurrentHit(rows, run, key, from) ==> Before(After(rows, flooded), key, st.now) <= slack;
    hide SameWindows, Before, Opens, Start;
  }

  lemma FloodedSnoc(run: Run, key: Key, limit: nat, from: int)
    requires run != []
    ensures
      var front, st := run[..|run| - 1], run[|run| - 1];
      Flooded(run, key, Filling(run, key, limit, from))
      == Flooded(front, key, Filling(front, key, limit, from))
         + if InMinute(st, key, from) then Repeated(st, limit + 1) else [st]
  {
    var front, copies := run[..|run| - 1], Filling(run, key, limit, from);
    assert copies[..|run| - 1] == Filling(front, key, limit, from);
    assert Repeated(run[|run| - 1], 1) == [run[|run| - 1]];
  }

  lemma {:induction false} FloodFills(rows: Counters, run: Run, key: Key, limit: nat, from: int, slack: nat)
    requires Start(rows, key) + |run| <= slack <= limit
    ensures Filled(rows, run, Flooded(run, key, Filling(run, key, limit, from)), key, limit, from, slack)
  {
    if run != [] {
      hide Filled, SameHits, Flooded, Start, Filling, After, Repeated, InMinute;
      var front, st := run[..|run| - 1], run[|run| - 1];
      var flooded := Flooded(front, key, Filling(front, key, limit, from));
      FloodedSnoc(run, key, limit, from);
      FloodFills(rows, front, key, limit, from, slack);
      FloodKeepsWindows(rows, front, key, Filling(front, key, limit, from), from);
      assert run == front + [st];
      if InMinute(st, key, from) {
        FilledInside(rows, front, flooded, st, key, limit, from, slack);
      } else {
        FilledOutside(rows, front, flooded, st, key, limit, from, slack);
      }
    }
  }

  /** The run with more traffic admits at most `n` times the limit. */
  predicate AdmitsAtMost(rows: Counters, run: Run, key: Key, copies: seq<nat>, limit: nat, from: int, n: nat)
    requires |copies| == |run|
  {
    Admitted(rows, Flooded(run, key, copies), key, limit, from) <= n * limit
  }

  lemma FewWindowsBoundTheMinute(rows: Counters, run: Run, key: Key, copies: seq<nat>, limit: nat, from: int, n: nat)
    requires |copies| == |run| && WindowsHit(rows, run, key, from) <= n
    ensures AdmitsAtMost(rows, run, key, copies, limit, from, n)
  {
    hide Admitted, Flooded, WindowsHit, After, CurrentHit, SameWindows, Unused;
    FloodKeepsWindows(rows, run, key, copies, from);
    AdmittedByWindows(rows, Flooded(run, key, copies), key, limit, from);
    Scale(limit, WindowsHit(rows, run, key, from), n);
  }

  lemma Scale(limit: nat, windows: nat, n: nat)
    requires windows <= n
    ensures limit * windows <= n * limit
  {
  }

  lemma ManyWindowsBreakTheMinute(rows: Counters, run: Run, key: Key, from: int, n: nat) returns (copies: seq<nat>, limit: nat)
    requires WindowsHit(rows, run, key, from) > n
    ensures |copies| == |run| && !AdmitsAtMost(rows, run, key, copies, limit, from, n)
  {
    hide Admitted, Flooded, WindowsHit, After, CurrentHit, Start, Filling;
    var slack := Start(rows, key) + |run|;
    limit := Enough(n, slack);
    MoreWindowsAdmitMore(n, WindowsHit(rows, run, key, from), slack);
    copies := Filling(run, key, limit, from);
    FloodFills(rows, run, key, limit, from, slack);
    hide Enough;
  }

  function Enough(n: nat, slack: nat): nat {
    (n + 1) * slack + 1
  }

  lemma MoreWindowsAdmitMore(n: nat, windows: nat, slack: nat)
    requires windows > n
    ensures slack <= Enough(n, slack) && (Enough(n, slack) - slack) * windows > n * Enough(n, slack)
  {
    var limit := Enough(n, slack);
    assert (n + 1) * slack >= slack;
    assert (limit - slack) * windows >= (limit - slack) * (n + 1);
    assert (limit - slack) * (n + 1) == limit * (n + 1) - slack * (n + 1) == n * limit + 1;
  }

  /**
   The exact bound of a minute: however much traffic arrives at the moments of a run, at most `n`
   times any limit is admitted in [from, from + one minute), if and only if the stamps of the run
   that lie in the minute are counted in at most `n` windows.
   */
  lemma MinuteBoundIff(rows: Counters, run: Run, key: Key, from: int, n: nat)
    ensures
      WindowsHit(rows, run, key, from) <= n
      <==> forall copies: seq<nat>, limit: nat | |copies| == |run| :: AdmitsAtMost(rows, run, key, copies, limit, from, n)
  {
    if WindowsHit(rows, run, key, from) <= n {
      forall copies: seq<nat>, limit: nat | |copies| == |run|
        ensures AdmitsAtMost(rows, run, key, copies, limit, from, n)
      {
        FewWindowsBoundTheMinute(rows, run, key, copies, limit, from, n);
      }
    } else {
      var copies, limit := ManyWindowsBreakTheMinute(rows, run, key, from, n);
    }
  }

  /******* When windows are disjoint minutes *******/

  /** An upsert that opens a window is stamped at or after the end of the window before, if the key was not cleared since. */
  predicate OpensAfterTheLast(rows: Counters, run: Run, st: Statement, key: Key) {
    st.Upsert? && st.key == key && Opens(After(rows, run), key, st.now) && key in Kept(rows, run)
    ==> Kept(rows, run)[key].windowEndsAt <= st.now
  }

  predicate DisjointWindows(rows: Counters, run: Run, key: Key) {
    forall j | 0 <= j < |run| :: OpensAfterTheLast(rows, run[..j], run[j], key)
  }

  /** Between two clears of a key, its windows are disjoint and at least a minute long if and only if none of its upserts is late. */
  lemma {:induction false} WindowsAreDisjointIff(rows: Counters, run: Run, key: Key)
    ensures DisjointWindows(rows, run, key) <==> NoLateUpsertOf(rows, run, key)
  {
    if run != [] {
      var front, st := run[..|run| - 1], run[|run| - 1];
      assert run == front + [st];
      WindowsAreDisjointIff(rows, front, key);
      NoLateUpsertOfSnoc(rows, front, st, key);
      assert DisjointWindows(rows, run, key) <==> DisjointWindows(rows, front, key) && OpensAfterTheLast(rows, front, st, key) by {
        assert forall j | 0 <= j < |front| :: run[..j] == front[..j] && run[j] == front[j];
        assert run[..|front|] == front;
      }
      if NoLateUpsertOf(rows, front, key) {
        PurgesOnlyRemove(rows, front, key);
      }
      hide After, Kept, PurgedAt, NoLateUpsertOf, DisjointWindows;
    }
  }

  /** No upsert of the key is stamped before the opening of the window that counts it. */
  predicate NoStraggler(rows: Counters, run: Run, key: Key) {
    forall j | 0 <= j < |run| ::
      run[j].Upsert? && run[j].key == key && key in Kept(rows, run[..j])
      ==> Kept(rows, run[..j])[key].windowEndsAt - WINDOW <= run[j].now
  }

  lemma NoStragglerSnoc(rows: Counters, run: Run, st: Statement, key: Key)
    requires NoStraggler(rows, run + [st], key)
    ensures NoStraggler(rows, run, key)
    ensures st.Upsert? && st.key == key && key in Kept(rows, run) ==> Kept(rows, run)[key].windowEndsAt - WINDOW <= st.now
  {
    var all := run + [st];
    assert all[..|run|] == run && all[|run|] == st;
    assert forall j | 0 <= j < |run| :: all[..j] == run[..j] && all[j] == run[j];
  }

  /** How many more windows the minute can hit. */
  function HitsLeft(kept: Counters, key: Key, from: int, hit: bool): nat {
    if key !in kept then 2
    else
      var end := kept[key].windowEndsAt;
      if end >= from + 2 * WINDOW || (hit && end >= from + WINDOW) then 0
      else if hit || end >= from + WINDOW then 1
      else 2
  }

  lemma HitsLeftShrink(rows: Counters, kept: Counters, st: Statement, key: Key, from: int, hit: bool)
    requires st.Upsert? && st.key == key && (key in kept ==> kept[key].windowEndsAt - WINDOW <= st.now)
    requires Opens(rows, key, st.now) == Opens(kept, key, st.now)
    requires hit ==> key in kept && kept[key].windowEndsAt > from
    ensures
      NewlyHit(rows, st, key, from, hit) + HitsLeft(Bump(kept, key, st.now), key, from, StillHit(rows, st, key, from, hit))
      <= HitsLeft(kept, key, from, hit)
    ensures StillHit(rows, st, key, from, hit) ==> Bump(kept, key, st.now)[key].windowEndsAt > from
  {
  }

  /** The windows hit so far, and those that the minute can still hit, are at most two. */
  predicate AtMostTwo(kept: Counters, key: Key, from: int, hit: bool, windows: nat) {
    && (hit ==> key in kept && kept[key].windowEndsAt > from)
    && windows + HitsLeft(kept, key, from, hit) <= 2
  }

  lemma AtMostTwoStep(rows: Counters, kept: Counters, st: Statement, key: Key, from: int, hit: bool, windows: nat)
    requires AtMostTwo(kept, key, from, hit, windows) && (st.Clear? ==> key !in st.keys)
    requires st.Upsert? && st.key == key ==>
               (key in kept ==> kept[key].windowEndsAt - WINDOW <= st.now) && Opens(rows, key, st.now) == Opens(kept, key, st.now)
    ensures AtMostTwo(if st.DeleteExpired? then kept else Execute(kept, st), key, from, StillHit(rows, st, key, from, hit),
                      windows + NewlyHit(rows, st, key, from, hit))
  {
    if st.Upsert? && st.key == key {
      HitsLeftShrink(rows, kept, st, key, from, hit);
      hide HitsLeft;
    } else {
      SameHitsLeft(kept, if st.DeleteExpired? then kept else Execute(kept, st), key, from, hit);
      hide HitsLeft;
    }
  }

  /** Without late upserts the stored row opens a window exactly when the kept one does. */
  lemma OpensAlike(rows: Counters, run: Run, st: Statement)
    requires st.Upsert? && OnlyPurged(rows, run, st.key) && !LateUpsert(rows, run, st)
    ensures Opens(After(rows, run), st.key, st.now) == Opens(Kept(rows, run), st.key, st.now)
  {
    hide After, Kept, Untouched;
  }

  lemma {:induction false} AtMostTwoWindows(rows: Counters, run: Run, key: Key, from: int)
    requires NeverCleared(run, key) && NoLateUpsertOf(rows, run, key) && NoStraggler(rows, run, key)
    ensures AtMostTwo(Kept(rows, run), key, from, CurrentHit(rows, run, key, from), WindowsHit(rows, run, key, from))
  {
    hide After, Kept, OnlyPurged, LateUpsert, Opens, StillHit, NewlyHit, Execute;
    if run == [] {
      assert !CurrentHit(rows, run, key, from) && WindowsHit(rows, run, key, from) == 0;
    } else {
      var front, st := run[..|run| - 1], run[|run| - 1];
      assert run == front + [st];
      hide AtMostTwo, CurrentHit, WindowsHit;
      NoLateUpsertOfSnoc(rows, front, st, key);
      NoStragglerSnoc(rows, front, st, key);
      AtMostTwoWindows(rows, front, key, from);
      PurgesOnlyRemove(rows, front, key);
      KeptSnoc(rows, front, st);
      WindowsSnoc(rows, front, st, key, 0, from);
      if st.Upsert? && st.key == key {
        OpensAlike(rows, front, st);
      }
      hide NoLateUpsertOf, NoStraggler;
      AtMostTwoStep(After(rows, front), Kept(rows, front), st, key, from, CurrentHit(rows, front, key, from), WindowsHit(rows, front, key, from));
    }
  }

  lemma SameHitsLeft(kept: Counters, kept': Counters, key: Key, from: int, hit: bool)
    requires (key in kept <==> key in kept') && (key in kept ==> kept[key] == kept'[key])
    ensures HitsLeft(kept, key, from, hit) == HitsLeft(kept', key, from, hit)
  {
  }

  /**
   Twice the limit: when no upsert of the key is late and none is a straggler, its windows are
   disjoint minutes that contain their stamps, so that any minute admits at most twice the limit,
   whatever the limit and however much traffic arrives at these moments.
   */
  lemma TwiceTheLimit(rows: Counters, run: Run, key: Key, copies: seq<nat>, limit: nat, from: int)
    requires NeverCleared(run, key) && NoLateUpsertOf(rows, run, key) && NoStraggler(rows, run, key)
    requires |copies| == |run|
    ensures AdmitsAtMost(rows, run, key, copies, limit, from, 2)
    ensures Admitted(rows, run, key, limit, from) <= 2 * limit
  {
    AtMostTwoWindows(rows, run, key, from);
    FewWindowsBoundTheMinute(rows, run, key, copies, limit, from, 2);
    AdmittedByWindows(rows, run, key, limit, from);
    Scale(limit, WindowsHit(rows, run, key, from), 2);
  }

  /******* What a bounded lag guarantees *******/

  /** `at` are the times of a monotone clock at which the statements run; an upsert runs at most `lag` after its stamp. */
  predicate Prompt(run: Run, at: seq<int>, lag: nat) {
    && |at| == |run|
    && (forall i, j | 0 <= i < j < |at| :: at[i] <= at[j])
    && (forall i | 0 <= i < |run| :: PromptAt(run[i], at[i], lag))
  }

  predicate PromptAt(st: Statement, at: int, lag: nat) {
    match st
    case Upsert(_, now) => now <= at <= now + lag
    case DeleteExpired(now) => now <= at
    case Clear(_) => true
  }

  /** How many windows can open from a time on and still count a stamp of the minute: openings are a window less the lag apart. */
  function Openings(t: int, from: int, lag: nat): nat
    requires lag < WINDOW
    decreases if t < from + WINDOW + lag then from + WINDOW + lag - t else 0
  {
    if t >= from + WINDOW + lag then 0 else 1 + Openings(t + WINDOW - lag, from, lag)
  }

  lemma {:induction false} OpeningsFall(t: int, t': int, from: int, lag: nat)
    requires lag < WINDOW && t <= t'
    ensures Openings(t', from, lag) <= Openings(t, from, lag)
    decreases if t < from + WINDOW + lag then from + WINDOW + lag - t else 0
  {
    if t' < from + WINDOW + lag {
      OpeningsFall(t + WINDOW - lag, t' + WINDOW - lag, from, lag);
    }
  }

  lemma {:induction false} OpeningsBound(t: int, from: int, lag: nat, n: nat)
    requires lag < WINDOW && n * (WINDOW - lag) >= from + WINDOW + lag - t
    ensures Openings(t, from, lag) <= n
    decreases n
  {
    if t < from + WINDOW + lag {
      assert n > 0;
      assert (n - 1) * (WINDOW - lag) == n * (WINDOW - lag) - (WINDOW - lag);
      OpeningsBound(t + WINDOW - lag, from, lag, n - 1);
    }
  }

  function Max(a: int, b: int): int {
    if a < b then b else a
  }

  /** The windows that can still open once the clock shows a time. */
  function OpeningsFrom(clock: int, from: int, lag: nat): nat
    requires lag < WINDOW
  {
    if clock <= from then 1 + Openings(from + 1, from, lag) else Openings(clock, from, lag)
  }

  /** The admissions that the minute can still see. */
  function Room(rows: Counters, key: Key, limit: nat, from: int, lag: nat, clock: int): nat
    requires lag < WINDOW
  {
    if clock >= from + WINDOW + lag then 0
    else if key in rows && rows[key].windowEndsAt > from then
      Unused(rows, key, limit) + limit * Openings(Max(clock, rows[key].windowEndsAt), from, lag)
    else limit * OpeningsFrom(clock, from, lag)
  }

  lemma OpeningsFromFall(clock: int, at: int, from: int, lag: nat)
    requires lag < WINDOW && clock <= at
    ensures OpeningsFrom(at, from, lag) <= OpeningsFrom(clock, from, lag)
    ensures at > from ==> Openings(at, from, lag) <= OpeningsFrom(clock, from, lag)
  {
    OpeningsFall(from + 1, Max(at, from + 1), from, lag);
    OpeningsFall(Max(clock, from + 1), Max(at, from + 1), from, lag);
  }

  /** A statement that leaves the key's row alone: time passing takes room away. */
  lemma RoomFalls(rows: Counters, key: Key, limit: nat, from: int, lag: nat, clock: int, at: int)
    requires lag < WINDOW && clock <= at
    ensures Room(rows, key, limit, from, lag, at) <= Room(rows, key, limit, from, lag, clock)
  {
    OpeningsFromFall(clock, at, from, lag);
    Scale(limit, OpeningsFrom(at, from, lag), OpeningsFrom(clock, from, lag));
    if key in rows {
      var early, late := Max(clock, rows[key].windowEndsAt), Max(at, rows[key].windowEndsAt);
      OpeningsFall(early, late, from, lag);
      Scale(limit, Openings(late, from, lag), Openings(early, from, lag));
    }
    hide Openings, OpeningsFrom;
  }

  /** What is left once the row has ended, by an opening or a purge that runs at or after its end. */
  lemma RoomAfterEnd(rows: Counters, key: Key, limit: nat, from: int, lag: nat, clock: int, at: int)
    requires lag < WINDOW && clock <= at && at < from + WINDOW + lag && (key in rows ==> rows[key].windowEndsAt <= at)
    ensures limit * OpeningsFrom(at, from, lag) <= Room(rows, key, limit, from, lag, clock)
  {
    OpeningsFromFall(clock, at, from, lag);
    Scale(limit, OpeningsFrom(at, from, lag), OpeningsFrom(clock, from, lag));
    if key in rows && rows[key].windowEndsAt > from {
      OpeningsFall(Max(clock, rows[key].windowEndsAt), at, from, lag);
      Scale(limit, Openings(at, from, lag), Openings(Max(clock, rows[key].windowEndsAt), from, lag));
    }
    hide Openings;
  }

  lemma OpeningUsesRoom(rows: Counters, key: Key, now: int, limit: nat, from: int, lag: nat, clock: int, at: int)
    requires lag < WINDOW && clock <= at && now <= at <= now + lag && Opens(rows, key, now)
    ensures Admits(rows, Upsert(key, now), key, limit, from) + Room(Bump(rows, key, now), key, limit, from, lag, at)
         <= Room(rows, key, limit, from, lag, clock)
  {
    if at < from + WINDOW + lag {
      RoomAfterEnd(rows, key, limit, from, lag, clock, at);
      hide Room;
      OpenedRoom(rows, key, now, limit, from, lag, at);
    }
  }

  /** A window opened at `at` leaves room for the openings a window less the lag later. */
  lemma OpenedRoom(rows: Counters, key: Key, now: int, limit: nat, from: int, lag: nat, at: int)
    requires lag < WINDOW && now <= at <= now + lag && Opens(rows, key, now) && at < from + WINDOW + lag
    ensures Admits(rows, Upsert(key, now), key, limit, from) + Room(Bump(rows, key, now), key, limit, from, lag, at)
         <= limit * OpeningsFrom(at, from, lag)
  {
    var end := now + WINDOW;
    if end > from {
      var next := if at > from then at + WINDOW - lag else from + 1;
      OpeningsFall(next, Max(at, end), from, lag);
      Scale(limit, Openings(Max(at, end), from, lag), Openings(next, from, lag));
      OneMore(limit, Openings(next, from, lag));
      assert OpeningsFrom(at, from, lag) == Openings(next, from, lag) + 1;
      hide Openings, OpeningsFrom;
    }
  }

  lemma CountingUsesRoom(rows: Counters, key: Key, now: int, limit: nat, from: int, lag: nat, clock: int, at: int)
    requires lag < WINDOW && clock <= at && now <= at <= now + lag && !Opens(rows, key, now)
    ensures Admits(rows, Upsert(key, now), key, limit, from) + Room(Bump(rows, key, now), key, limit, from, lag, at)
         <= Room(rows, key, limit, from, lag, clock)
  {
    RoomFalls(rows, key, limit, from, lag, clock, at);
    hide Openings, OpeningsFrom;
  }

  lemma PurgeUsesRoom(rows: Counters, key: Key, now: int, limit: nat, from: int, lag: nat, clock: int, at: int)
    requires lag < WINDOW && clock <= at && now <= at
    ensures Room(Purge(rows, now), key, limit, from, lag, at) <= Room(rows, key, limit, from, lag, clock)
  {
    if key in rows && rows[key].windowEndsAt <= now && at < from + WINDOW + lag {
      RoomAfterEnd(rows, key, limit, from, lag, clock, at);
    } else {
      RoomFalls(rows, key, limit, from, lag, clock, at);
    }
    hide Openings, OpeningsFrom;
  }

  lemma StatementUsesRoom(rows: Counters, st: Statement, key: Key, limit: nat, from: int, lag: nat, clock: int, at: int)
    requires lag < WINDOW && clock <= at && PromptAt(st, at, lag) && (st.Clear? ==> key !in st.keys)
    ensures Admits(rows, st, key, limit, from) + Room(Execute(rows, st), key, limit, from, lag, at)
         <= Room(rows, key, limit, from, lag, clock)
  {
    hide Openings, OpeningsFrom;
    if st.Upsert? && st.key == key {
      if Opens(rows, key, st.now) {
        OpeningUsesRoom(rows, key, st.now, limit, from, lag, clock, at);
      } else {
        CountingUsesRoom(rows, key, st.now, limit, from, lag, clock, at);
      }
    } else if st.DeleteExpired? {
      PurgeUsesRoom(rows, key, st.now, limit, from, lag, clock, at);
    } else {
      RoomFalls(rows, key, limit, from, lag, clock, at);
    }
  }

  lemma {:induction false} AdmittedFitsTheRoom(
    rows: Counters, run: Run, at: seq<int>, key: Key, limit: nat, from: int, lag: nat, clock: int)
    requires lag < WINDOW && Prompt(run, at, lag) && NeverCleared(run, key) && (run != [] ==> clock <= at[0])
    ensures
      Admitted(rows, run, key, limit, from)
      + Room(After(rows, run), key, limit, from, lag, if run == [] then clock else at[|run| - 1])
      <= Room(rows, key, limit, from, lag, clock)
  {
    if run != [] {
      var front, st, times := run[..|run| - 1], run[|run| - 1], at[..|run| - 1];
      assert run == front + [st];
      AdmittedFitsTheRoom(rows, front, times, key, limit, from, lag, clock);
      assert PromptAt(st, at[|run| - 1], lag);
      WindowsSnoc(rows, front, st, key, limit, from);
      var before := if front == [] then clock else times[|front| - 1];
      StatementUsesRoom(After(rows, front), st, key, limit, from, lag, before, at[|run| - 1]);
      hide After, Admitted, Admits, Room;
    }
  }

  lemma RoomAtStart(rows: Counters, key: Key, limit: nat, from: int, lag: nat, clock: int)
    requires lag < WINDOW
    ensures Room(rows, key, limit, from, lag, clock) <= limit * (1 + Openings(from + 1, from, lag))
  {
    OneMore(limit, Openings(from + 1, from, lag));
    OpeningsFall(from + 1, Max(clock, from + 1), from, lag);
    Scale(limit, Openings(Max(clock, from + 1), from, lag), Openings(from + 1, from, lag));
    if key in rows && rows[key].windowEndsAt > from {
      var next := Max(clock, rows[key].windowEndsAt);
      OpeningsFall(from + 1, next, from, lag);
      Scale(limit, Openings(next, from, lag), Openings(from + 1, from, lag));
    }
    hide Openings;
  }

  /**
   What the limiter guarantees under a monotone clock when every upsert runs at most `lag` after its
   request took the time, whatever overlaps: any minute of stamps admits at most `n` times the limit
   once `n - 1` windows, each shortened by the lag, are at least as long as the minute prolonged by it.
   Without lag that is twice the limit, with a lag of up to twenty seconds three times.
   */
  lemma LagBoundsTheMinute(rows: Counters, run: Run, at: seq<int>, key: Key, limit: nat, from: int, lag: nat, n: nat)
    requires lag < WINDOW && Prompt(run, at, lag) && NeverCleared(run, key)
    requires n > 0 && (n - 1) * (WINDOW - lag) >= WINDOW + lag - 1
    ensures Admitted(rows, run, key, limit, from) <= n * limit
  {
    var clock := if run == [] then from else at[0];
    AdmittedFitsTheRoom(rows, run, at, key, limit, from, lag, clock);
    RoomAtStart(rows, key, limit, from, lag, clock);
    OpeningsBound(from + 1, from, lag, n - 1);
    Scale(limit, 1 + Openings(from + 1, from, lag), n);
    hide Admitted, Room, Openings, After;
  }

  lemma TwoOrThreeTimesTheLimit(rows: Counters, run: Run, at: seq<int>, key: Key, limit: nat, from: int, lag: nat)
    requires lag <= 20_000 && Prompt(run, at, lag) && NeverCleared(run, key)
    ensures Admitted(rows, run, key, limit, from) <= (if lag == 0 then 2 else 3) * limit
  {
    LagBoundsTheMinute(rows, run, at, key, limit, from, lag, if lag == 0 then 2 else 3);
  }

  /******* Two overlapping requests are enough to exceed twice the limit *******/

  /** Upserts that purges of requests which began a millisecond later overtake, twice. */
  function OvertakenRun(key: Key): Run {
    var first := Repeated(Upsert(key, 59_999), 4) + [DeleteExpired(60_000)];
    first + Repeated(Upsert(key, 59_999), 5) + [DeleteExpired(119_999)] + Repeated(Upsert(key, 119_998), 5)
  }

  /** A block of copies that are all admitted, and the purge that removes their window. */
  lemma BlockThenPurge(rows: Counters, run: Run, key: Key, now: int, count: nat, limit: nat, from: int, purge: int)
    requires from <= now < from + WINDOW && count > 0 && Before(After(rows, run), key, now) + count <= limit
    requires End(After(rows, run), key, now) <= purge
    ensures
      var all := run + Repeated(Upsert(key, now), count);
      && Admitted(rows, all, key, limit, from) >= Admitted(rows, run, key, limit, from) + count
      && Admitted(rows, all + [DeleteExpired(purge)], key, limit, from) >= Admitted(rows, run, key, limit, from) + count
      && key !in After(rows, all + [DeleteExpired(purge)])
  {
    var all := run + Repeated(Upsert(key, now), count);
    CopiesFillTheWindow(rows, run, Upsert(key, now), count, limit, from);
    WindowsSnoc(rows, all, DeleteExpired(purge), key, limit, from);
    hide After, Admitted, Repeated;
  }

  /**
   With a limit of 5 and every statement at most one millisecond late, one minute admits 14: the
   windows are not disjoint when a purge runs before an upsert stamped inside the window.
   */
  lemma OvertakenUpsertsBreakTwice(key: Key)
    ensures Admitted(map[key := Counter(1, 60_000)], OvertakenRun(key), key, 5, 59_999) >= 14
    ensures exists at :: Prompt(OvertakenRun(key), at, 1)
  {
    var rows := map[key := Counter(1, 60_000)];
    var first := [] + Repeated(Upsert(key, 59_999), 4) + [DeleteExpired(60_000)];
    BlockThenPurge(rows, [], key, 59_999, 4, 5, 59_999, 60_000);
    assert first == Repeated(Upsert(key, 59_999), 4) + [DeleteExpired(60_000)];
    var second := first + Repeated(Upsert(key, 59_999), 5) + [DeleteExpired(119_999)];
    BlockThenPurge(rows, first, key, 59_999, 5, 5, 59_999, 119_999);
    BlockThenPurge(rows, second, key, 119_998, 5, 5, 59_999, 179_998);
    hide Admitted, After, Repeated;
    assert OvertakenRun(key) == second + Repeated(Upsert(key, 119_998), 5);
    OvertakenIsPrompt(key);
  }

  lemma OvertakenIsPrompt(key: Key)
    ensures exists at :: Prompt(OvertakenRun(key), at, 1)
  {
    var at := seq(20, i => if i < 4 then 59_999 else if i < 10 then 60_000 else 119_999);
    var run := OvertakenRun(key);
    assert |run| == 16;
    assert Prompt(run, at[..16], 1) by {
      forall i | 0 <= i < 16
        ensures PromptAt(run[i], at[i], 1)
      {
        assert run[i] == if i < 4 then Upsert(key, 59_999) else if i == 4 then DeleteExpired(60_000)
                         else if i < 10 then Upsert(key, 59_999) else if i == 10 then DeleteExpired(119_999) else Upsert(key, 119_998);
      }
    }
  }

  /** Upserts that a later request's new window overtakes; there is no purge at all. */
  function StragglingRun(key: Key): Run {
    [Upsert(key, -59_999)] + Repeated(Upsert(key, 0), 4) + Repeated(Upsert(key, 1), 5)
    + [Upsert(key, 60_001)] + Repeated(Upsert(key, 59_999), 4)
  }

  /** Without any purge the bound fails as well: stamps from before its opening are counted in a third window. */
  lemma StragglersBreakTwice(key: Key)
    ensures NoLateUpsert(map[], StragglingRun(key))
    ensures Admitted(map[], StragglingRun(key), key, 5, 0) >= 13
  {
    NoPurgeNoLateUpsert(key);
    hide Admitted, After, Repeated, NoLateUpsert;
    var opener := [Upsert(key, -59_999)];
    var two := opener + Repeated(Upsert(key, 0), 4) + Repeated(Upsert(key, 1), 5);
    var three := two + [Upsert(key, 60_001)];
    FirstTwoWindows(key);
    OneUpsertOpens(map[], two, key, 60_001, 5, 0);
    CopiesFillTheWindow(map[], three, Upsert(key, 59_999), 4, 5, 0);
  }

  lemma NoPurgeNoLateUpsert(key: Key)
    ensures NoLateUpsert(map[], StragglingRun(key))
  {
    var run := StragglingRun(key);
    assert forall i | 0 <= i < |run| :: !run[i].DeleteExpired?;
    hide After, Kept, Untouched;
    forall j | 0 <= j < |run|
      ensures !LateUpsert(map[], run[..j], run[j])
    {
      assert forall i | 0 <= i < j :: !PurgedAt(map[], run[..j], run[j].key, i);
    }
  }

  lemma OneUpsertOpens(rows: Counters, run: Run, key: Key, now: int, limit: nat, from: int)
    requires Opens(After(rows, run), key, now)
    ensures
      var more := run + [Upsert(key, now)];
      && key in After(rows, more) && After(rows, more)[key] == Counter(1, now + WINDOW)
      && Admitted(rows, more, key, limit, from) >= Admitted(rows, run, key, limit, from)
  {
    WindowsSnoc(rows, run, Upsert(key, now), key, limit, from);
    hide Admitted, After;
  }

  /** The window that the opener leaves a millisecond, and the one after it. */
  lemma FirstTwoWindows(key: Key)
    ensures
      var two := [Upsert(key, -59_999)] + Repeated(Upsert(key, 0), 4) + Repeated(Upsert(key, 1), 5);
      && key in After(map[], two) && After(map[], two)[key].windowEndsAt == 60_001
      && Admitted(map[], two, key, 5, 0) >= 9
  {
    assert After(map[], []) == map[];
    hide Admitted, After, Repeated;
    var opener := [Upsert(key, -59_999)];
    assert [] + opener == opener;
    OneUpsertOpens(map[], [], key, -59_999, 5, 0);
    CopiesFillTheWindow(map[], opener, Upsert(key, 0), 4, 5, 0);
    CopiesFillTheWindow(map[], opener + Repeated(Upsert(key, 0), 4), Upsert(key, 1), 5, 5, 0);
  }
}

/**
 How exact the bound of the limiter is under a lag: windows that purges overtake open a window less the lag
 apart, and as many as fit into a minute and a lag all count stamps of one minute.
 */
module LimiterLag {
  import opened RateLimiter
  import opened LimiterRuns

  /** The time at which the k-th window opens; the first one ends just inside the minute. */
  function Opening(k: nat, from: int, lag: nat): int {
    from + 1 + (k - 1) * (WINDOW - lag)
  }

  /** A purge at the window's end, an upsert that it overtook, and copies of an upsert stamped in the minute. */
  function Block(key: Key, k: nat, copies: nat, from: int, lag: nat): Run {
    var t := Opening(k, from, lag);
    [DeleteExpired(t), Upsert(key, t - lag)] + Repeated(Upsert(key, Max(from, t - lag)), copies)
  }

  function BlockTimes(k: nat, copies: nat, from: int, lag: nat): seq<int> {
    var t := Opening(k, from, lag);
    [t, t] + seq(copies, _ => Max(from, t))
  }

  function Blocks(key: Key, count: nat, copies: nat, from: int, lag: nat): Run {
    if count == 0 then [] else Blocks(key, count - 1, copies, from, lag) + Block(key, count - 1, copies, from, lag)
  }

  function BlocksTimes(count: nat, copies: nat, from: int, lag: nat): seq<int> {
    if count == 0 then [] else BlocksTimes(count - 1, copies, from, lag) + BlockTimes(count - 1, copies, from, lag)
  }

  lemma OpeningsStep(k: nat, from: int, lag: nat)
    requires lag < WINDOW
    ensures Opening(k + 1, from, lag) == Opening(k, from, lag) + WINDOW - lag && Opening(k + 1, from, lag) > from
  {
    assert k * (WINDOW - lag) == (k - 1) * (WINDOW - lag) + (WINDOW - lag);
    assert k * (WINDOW - lag) >= 0;
  }

  /******* The run is prompt *******/

  lemma PromptAppend(run: Run, at: seq<int>, run': Run, at': seq<int>, lag: nat)
    requires Prompt(run, at, lag) && Prompt(run', at', lag)
    requires forall i, j | 0 <= i < |at| && 0 <= j < |at'| :: at[i] <= at'[j]
    ensures Prompt(run + run', at + at', lag)
  {
    hide PromptAt;
  }

  lemma BlockIsPrompt(key: Key, k: nat, copies: nat, from: int, lag: nat)
    requires lag < WINDOW
    ensures Prompt(Block(key, k, copies, from, lag), BlockTimes(k, copies, from, lag), lag)
    ensures forall i | 0 <= i < |BlockTimes(k, copies, from, lag)| ::
              Opening(k, from, lag) <= BlockTimes(k, copies, from, lag)[i] <= Opening(k + 1, from, lag)
    ensures NeverCleared(Block(key, k, copies, from, lag), key)
  {
    OpeningsStep(k, from, lag);
    hide Opening;
  }

  lemma {:induction false} BlocksArePrompt(key: Key, count: nat, copies: nat, from: int, lag: nat)
    requires lag < WINDOW
    ensures Prompt(Blocks(key, count, copies, from, lag), BlocksTimes(count, copies, from, lag), lag)
    ensures forall i | 0 <= i < |BlocksTimes(count, copies, from, lag)| ::
              BlocksTimes(count, copies, from, lag)[i] <= Opening(count, from, lag)
    ensures NeverCleared(Blocks(key, count, copies, from, lag), key)
  {
    if count > 0 {
      hide Opening, Block, BlockTimes, Prompt;
      BlocksArePrompt(key, count - 1, copies, from, lag);
      BlockIsPrompt(key, count - 1, copies, from, lag);
      OpeningsStep(count - 1, from, lag);
      PromptAppend(Blocks(key, count - 1, copies, from, lag), BlocksTimes(count - 1, copies, from, lag),
                   Block(key, count - 1, copies, from, lag), BlockTimes(count - 1, copies, from, lag), lag);
    }
  }

  /******* Its windows are full *******/

  predicate Ended(rows: Counters, key: Key, t: int) {
    key in rows ==> rows[key].windowEndsAt <= t
  }

  /** A purge at the window's end and an upsert that it overtook open the next window. */
  lemma OvertakenOpens(rows: Counters, run: Run, key: Key, t: int, now: int, limit: nat, from: int)
    requires Ended(After(rows, run), key, t)
    ensures
      var more := run + [DeleteExpired(t)] + [Upsert(key, now)];
      && key in After(rows, more) && After(rows, more)[key] == Counter(1, now + WINDOW)
      && Admitted(rows, more, key, limit, from) >= Admitted(rows, run, key, limit, from)
  {
    WindowsSnoc(rows, run, DeleteExpired(t), key, limit, from);
    WindowsSnoc(rows, run + [DeleteExpired(t)], Upsert(key, now), key, limit, from);
    hide After, Admitted;
  }

  /** Copies fill an open window up to the limit. */
  lemma CopiesFill(rows: Counters, run: Run, key: Key, end: int, now: int, copies: nat, from: int)
    requires key in After(rows, run) && After(rows, run)[key] == Counter(1, end)
    requires from <= now < from + WINDOW && now < end
    ensures
      var more := run + Repeated(Upsert(key, now), copies);
      && Ended(After(rows, more), key, end)
      && Admitted(rows, more, key, copies + 1, from) >= Admitted(rows, run, key, copies + 1, from) + copies
  {
    CopiesFillTheWindow(rows, run, Upsert(key, now), copies, copies + 1, from);
    if copies == 0 {
      assert run + Repeated(Upsert(key, now), 0) == run;
    }
    hide After, Admitted, Repeated;
  }

  /** One more block fills one more window, which ends where the next block begins. */
  lemma BlockFills(rows: Counters, run: Run, key: Key, k: nat, copies: nat, from: int, lag: nat)
    requires lag < WINDOW && Ended(After(rows, run), key, Opening(k, from, lag))
    requires Opening(k, from, lag) - lag < from + WINDOW
    ensures
      var more := run + Block(key, k, copies, from, lag);
      && Ended(After(rows, more), key, Opening(k + 1, from, lag))
      && Admitted(rows, more, key, copies + 1, from) >= Admitted(rows, run, key, copies + 1, from) + copies
  {
    hide After, Admitted, Opening, Repeated, Ended;
    OpeningsStep(k, from, lag);
    var t := Opening(k, from, lag);
    var begun := run + [DeleteExpired(t)] + [Upsert(key, t - lag)];
    OvertakenOpens(rows, run, key, t, t - lag, copies + 1, from);
    CopiesFill(rows, begun, key, t - lag + WINDOW, Max(from, t - lag), copies, from);
    assert run + Block(key, k, copies, from, lag) == begun + Repeated(Upsert(key, Max(from, t - lag)), copies);
  }

  lemma {:induction false} BlocksFill(key: Key, count: nat, copies: nat, from: int, lag: nat)
    requires lag < WINDOW && forall k: nat | k < count :: Opening(k, from, lag) - lag < from + WINDOW
    ensures Ended(After(map[], Blocks(key, count, copies, from, lag)), key, Opening(count, from, lag))
    ensures Admitted(map[], Blocks(key, count, copies, from, lag), key, copies + 1, from) >= count * copies
  {
    if count > 0 {
      hide After, Admitted, Opening, Block, Ended;
      BlocksFill(key, count - 1, copies, from, lag);
      BlockFills(map[], Blocks(key, count - 1, copies, from, lag), key, count - 1, copies, from, lag);
      OneMore(copies, count - 1);
    }
  }

  /******* The bound is exact *******/

  /** A run of prompt statements that clears no counter of the key admits at most `n` times the limit in a minute. */
  predicate Bounded(rows: Counters, run: Run, at: seq<int>, key: Key, limit: nat, from: int, lag: nat, n: nat) {
    Prompt(run, at, lag) && NeverCleared(run, key) ==> Admitted(rows, run, key, limit, from) <= n * limit
  }

  /** While the bound's condition fails, one more window opens within the minute and the lag. */
  lemma OpensInTime(k: nat, n: nat, from: int, lag: nat)
    requires lag < WINDOW && 0 < n && k <= n && (n - 1) * (WINDOW - lag) < WINDOW + lag - 1
    ensures Opening(k, from, lag) - lag < from + WINDOW
  {
    assert (k - 1) * (WINDOW - lag) <= (n - 1) * (WINDOW - lag);
  }

  /**
   Under a lag shorter than the window, a minute admits at most `n` times the limit, in every prompt run that
   never clears the key and for every limit, if and only if `n - 1` windows, each shortened by the lag, are at
   least as long as the minute prolonged by it.
   */
  lemma LagBoundIff(key: Key, lag: nat, n: nat)
    requires lag < WINDOW && n > 0
    ensures
      (forall rows: Counters, run: Run, at: seq<int>, limit: nat, from: int :: Bounded(rows, run, at, key, limit, from, lag, n))
      <==> (n - 1) * (WINDOW - lag) >= WINDOW + lag - 1
  {
    if (n - 1) * (WINDOW - lag) >= WINDOW + lag - 1 {
      forall rows: Counters, run: Run, at: seq<int>, limit: nat, from: int
        ensures Bounded(rows, run, at, key, limit, from, lag, n)
      {
        if Prompt(run, at, lag) && NeverCleared(run, key) {
          LagBoundsTheMinute(rows, run, at, key, limit, from, lag, n);
        }
      }
    } else {
      forall k: nat | k < n + 1
        ensures Opening(k, 0, lag) - lag < 0 + WINDOW
      {
        OpensInTime(k, n, 0, lag);
      }
      BlocksArePrompt(key, n + 1, n + 1, 0, lag);
      BlocksFill(key, n + 1, n + 1, 0, lag);
      assert (n + 1) * (n + 1) > n * (n + 2);
      var run, at := Blocks(key, n + 1, n + 1, 0, lag), BlocksTimes(n + 1, n + 1, 0, lag);
      hide Admitted, Prompt, NeverCleared, Blocks, BlocksTimes, Opening;
      assert !Bounded(map[], run, at, key, n + 2, 0, lag, n);
    }
  }
}

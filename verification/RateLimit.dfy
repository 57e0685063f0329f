/** The fixed-window rate limiter, its Redis script, and the loop that waits a limit out. */
module RateLimit {
  import opened Text

  // ----- The window script

  /** A Redis counter; times are in milliseconds. */
  datatype Bucket = Bucket(count: nat, expiresAt: Option<int>)

  type Keys = map<string, Bucket>

  /** A key is gone once the clock has passed its expiry. */
  predicate Alive(keys: Keys, key: string, now: int) {
    key in keys && (keys[key].expiresAt.Some? ==> now <= keys[key].expiresAt.value)
  }

  function Incremented(keys: Keys, key: string, now: int): Keys {
    keys[key := if Alive(keys, key, now) then keys[key].(count := keys[key].count + 1) else Bucket(1, None)]
  }

  /** EXPIRE with a time that is not positive deletes the key. */
  function Expiring(keys: Keys, key: string, windowSec: int, now: int): Keys
    requires key in keys
  {
    if windowSec <= 0 then keys - {key} else keys[key := keys[key].(expiresAt := Some(now + 1000 * windowSec))]
  }

  /** TTL: seconds to the nearest, -1 without expiry, -2 without key. */
  function TimeToLive(keys: Keys, key: string, now: int): int {
    if !Alive(keys, key, now) then -2
    else match keys[key].expiresAt { case None => -1 case Some(t) => (t - now + 500) / 1000 }
  }

  /** The script runs without interruption: count up, and set the expiry with the first count. */
  function ScriptKeys(keys: Keys, key: string, windowSec: int, now: int): Keys {
    var counted := Incremented(keys, key, now);
    if counted[key].count == 1 then Expiring(counted, key, windowSec, now) else counted
  }

  function ScriptCount(keys: Keys, key: string, now: int): nat {
    Incremented(keys, key, now)[key].count
  }

  class Redis {
    var keys: Keys

    constructor ()
      ensures keys == map[]
    {
      keys := map[];
    }

    method Eval(key: string, windowSec: int, now: int) returns (count: nat, ttl: int)
      modifies this
      ensures keys == ScriptKeys(old(keys), key, windowSec, now)
      ensures count == ScriptCount(old(keys), key, now) && ttl == TimeToLive(keys, key, now)
    {
      if Alive(keys, key, now) {
        keys := keys[key := keys[key].(count := keys[key].count + 1)];
      } else {
        keys := keys[key := Bucket(1, None)];
      }
      count := keys[key].count;
      if count == 1 {
        keys := Expiring(keys, key, windowSec, now);
      }
      ttl := TimeToLive(keys, key, now);
    }
  }

  // ----- The check

  datatype RateLimitResult = RateLimitResult(
    allowed: bool, remaining: int, limit: int, resetInSec: int, failedOpen: bool, failedClosed: bool)

  /** Without a client, or when the command fails, there is nothing to count. */
  datatype Reply = NoClient | CommandFailed | Counted(count: nat, ttl: int)

  function Verdict(reply: Reply, limit: int, windowSec: int, failClosed: bool): RateLimitResult {
    match reply
    case NoClient => RateLimitResult(true, limit, limit, windowSec, true, false)
    case CommandFailed =>
      if failClosed then RateLimitResult(false, 0, limit, windowSec, false, true)
      else RateLimitResult(true, limit, limit, windowSec, true, false)
    case Counted(count, ttl) =>
      RateLimitResult(count <= limit, if limit < count then 0 else limit - count, limit,
                      if ttl > 0 then ttl else windowSec, false, false)
  }

  method CheckRateLimit(client: Redis?, reachable: bool, key: string, limit: int, windowSec: int, failClosed: bool,
          now: int)
    returns (r: RateLimitResult)
    modifies client
    ensures client == null ==> r == Verdict(NoClient, limit, windowSec, failClosed)
    ensures client != null && !reachable ==>
      r == Verdict(CommandFailed, limit, windowSec, failClosed) && client.keys == old(client.keys)
    ensures client != null && reachable ==>
              && client.keys == ScriptKeys(old(client.keys), RedisKey(key), windowSec, now)
              && r == Verdict(Counted(ScriptCount(old(client.keys), RedisKey(key), now),
                                      TimeToLive(client.keys, RedisKey(key), now)),
                              limit, windowSec, failClosed)
    ensures client == null ==> r.allowed && r.failedOpen && !r.failedClosed
    ensures client != null && !reachable ==>
      if failClosed then !r.allowed && r.failedClosed && !r.failedOpen
      else r.allowed && r.failedOpen && !r.failedClosed
    ensures client != null && reachable ==> !r.failedOpen && !r.failedClosed
  {
    if client == null {
      return RateLimitResult(true, limit, limit, windowSec, true, false);
    }
    if !reachable {
      if failClosed {
        return RateLimitResult(false, 0, limit, windowSec, false, true);
      }
      return RateLimitResult(true, limit, limit, windowSec, true, false);
    }
    var count, ttl := client.Eval(RedisKey(key), windowSec, now);
    var resetInSec := if ttl > 0 then ttl else windowSec;
    r := RateLimitResult(count <= limit, if limit < count then 0 else limit - count, limit, resetInSec, false, false);
  }

  function RedisKey(key: string): string {
    "inflynx:ratelimit:" + key
  }

  // ----- Runs of calls

  datatype Call = Call(key: string, limit: int, windowSec: int, now: int)

  function AfterCalls(keys: Keys, calls: seq<Call>, i: nat := 0): Keys
    requires i <= |calls|
    decreases |calls| - i
  {
    if i == |calls| then keys
    else AfterCalls(ScriptKeys(keys, calls[i].key, calls[i].windowSec, calls[i].now), calls, i + 1)
  }

  predicate Allowed(keys: Keys, c: Call) {
    ScriptCount(keys, c.key, c.now) <= c.limit
  }

  /** How many of the key's calls from the i-th on are made between `from` and `to` and allowed. */
  function AllowedWithin(keys: Keys, calls: seq<Call>, i: nat, key: string, from: int, to: int): nat
    requires i <= |calls|
    decreases |calls| - i
  {
    if i == |calls| then 0
    else
      var c := calls[i];
      (if c.key == key && from <= c.now <= to && Allowed(keys, c) then 1 else 0)
      + AllowedWithin(ScriptKeys(keys, c.key, c.windowSec, c.now), calls, i + 1, key, from, to)
  }

  predicate AllExpire(keys: Keys) {
    forall key :: key in keys ==> keys[key].expiresAt.Some? && keys[key].count >= 1
  }

  lemma ScriptExpires(keys: Keys, key: string, windowSec: int, now: int)
    requires AllExpire(keys)
    ensures AllExpire(ScriptKeys(keys, key, windowSec, now))
  {
  }

  /** No run of calls, whatever their keys, windows and times, leaves a counter without an expiry. */
  lemma {:induction false} CountersExpire(keys: Keys, calls: seq<Call>, i: nat)
    requires i <= |calls| && AllExpire(keys)
    ensures AllExpire(AfterCalls(keys, calls, i))
    decreases |calls| - i
  {
    if i < |calls| {
      var c := calls[i];
      ScriptExpires(keys, c.key, c.windowSec, c.now);
      CountersExpire(ScriptKeys(keys, c.key, c.windowSec, c.now), calls, i + 1);
    }
  }

  // ----- Bounds

  /** The clock does not run backwards, and the key is always checked with the same limit and window. */
  predicate Steady(calls: seq<Call>, key: string, limit: int, windowSec: int) {
    && (forall i, j :: 0 <= i < j < |calls| ==> calls[i].now <= calls[j].now)
    && (forall i :: 0 <= i < |calls| && calls[i].key == key ==>
          calls[i].limit == limit && calls[i].windowSec == windowSec)
  }

  function Positive(n: int): nat {
    if n < 0 then 0 else n
  }

  /** What may still be allowed between `from` and one window later, as the key's counter stands. */
  function Budget(keys: Keys, key: string, limit: int, windowSec: int, from: int): int {
    if limit <= 0 then 0
    else if key !in keys || keys[key].expiresAt.None? then 2 * limit - 1
    else
      var end := keys[key].expiresAt.value;
      if end < from then 2 * limit - 1
      else if end < from + 1000 * windowSec then Positive(limit - keys[key].count) + limit
      else Positive(limit - keys[key].count)
  }

  lemma CallSpendsBudget(keys: Keys, c: Call, from: int)
    requires AllExpire(keys) && c.windowSec >= 1 && c.now <= from + 1000 * c.windowSec
    ensures Budget(ScriptKeys(keys, c.key, c.windowSec, c.now), c.key, c.limit, c.windowSec, from)
            + (if from <= c.now && Allowed(keys, c) then 1 else 0)
         <= Budget(keys, c.key, c.limit, c.windowSec, from)
  {
  }

  lemma {:induction false} NoneLater(keys: Keys, calls: seq<Call>, i: nat, key: string, from: int, to: int)
    requires i <= |calls| && forall j :: i <= j < |calls| ==> calls[j].now > to
    ensures AllowedWithin(keys, calls, i, key, from, to) == 0
    decreases |calls| - i
  {
    if i < |calls| {
      var c := calls[i];
      NoneLater(ScriptKeys(keys, c.key, c.windowSec, c.now), calls, i + 1, key, from, to);
    }
  }

  lemma {:induction false} BudgetBounds(keys: Keys, calls: seq<Call>, i: nat, key: string, limit: int, windowSec: int,
          from: int)
    requires i <= |calls| && AllExpire(keys) && windowSec >= 1 && Steady(calls, key, limit, windowSec)
    ensures AllowedWithin(keys, calls, i, key, from, from + 1000 * windowSec)
            <= Budget(keys, key, limit, windowSec, from)
    decreases |calls| - i
  {
    if i < |calls| {
      var c := calls[i];
      if c.now > from + 1000 * windowSec {
        NoneLater(keys, calls, i, key, from, from + 1000 * windowSec);
      } else {
        var next := ScriptKeys(keys, c.key, c.windowSec, c.now);
        ScriptExpires(keys, c.key, c.windowSec, c.now);
        BudgetBounds(next, calls, i + 1, key, limit, windowSec, from);
        if c.key == key {
          CallSpendsBudget(keys, c, from);
        }
      }
    }
  }

  /**
   * Any stretch of one window's length, wherever it starts, holds at most 2 * limit - 1 allowed
   * calls: it meets at most two windows, and never the opening calls of both.
   */
  lemma AtMostTwiceTheLimit(calls: seq<Call>, key: string, limit: int, windowSec: int, from: int)
    requires windowSec >= 1 && Steady(calls, key, limit, windowSec)
    ensures AllowedWithin(map[], calls, 0, key, from, from + 1000 * windowSec) <= Positive(2 * limit - 1)
  {
    BudgetBounds(map[], calls, 0, key, limit, windowSec, from);
  }

  /** How many of the calls from the i-th to before the j-th are the key's. */
  function CallsOf(calls: seq<Call>, i: nat, j: nat, key: string): nat
    requires i <= j <= |calls|
    decreases j - i
  {
    if i == j then 0 else (if calls[i].key == key then 1 else 0) + CallsOf(calls, i + 1, j, key)
  }

  predicate Within(calls: seq<Call>, i: nat, j: nat, from: int, to: int) {
    forall k :: i <= k < j && k < |calls| ==> from <= calls[k].now <= to
  }

  /** While a window is open, the calls that are still within its limit are allowed and no others. */
  lemma {:induction false} SameWindow(
    keys: Keys, calls: seq<Call>, i: nat, j: nat, key: string, limit: int, windowSec: int, from: int, to: int)
    returns (next: Keys)
    requires i <= j <= |calls| && Steady(calls, key, limit, windowSec) && Within(calls, i, j, from, to)
    requires key in keys && keys[key].count >= 1
    requires keys[key].expiresAt.Some? && Within(calls, i, j, from, keys[key].expiresAt.value)
    ensures key in next && next[key] == keys[key].(count := keys[key].count + CallsOf(calls, i, j, key))
    ensures AllowedWithin(keys, calls, i, key, from, to)
         == Min(CallsOf(calls, i, j, key), Positive(limit - keys[key].count))
            + AllowedWithin(next, calls, j, key, from, to)
    decreases j - i
  {
    if i == j {
      next := keys;
    } else {
      var c := calls[i];
      next := SameWindow(ScriptKeys(keys, c.key, c.windowSec, c.now), calls, i + 1, j, key, limit, windowSec, from, to);
    }
  }

  /** From the call that opens a window until the window ends, exactly the first `limit` calls are allowed. */
  lemma WindowAllowsExactly(keys: Keys, calls: seq<Call>, i: nat, key: string, limit: int, windowSec: int)
    requires i < |calls| && Steady(calls, key, limit, windowSec) && windowSec >= 1
    requires calls[i].key == key && !Alive(keys, key, calls[i].now)
    requires Within(calls, i, |calls|, calls[i].now, calls[i].now + 1000 * windowSec)
    ensures AllowedWithin(keys, calls, i, key, calls[i].now, calls[i].now + 1000 * windowSec)
         == Min(CallsOf(calls, i, |calls|, key), Positive(limit))
  {
    var c := calls[i];
    var end := c.now + 1000 * windowSec;
    var next := SameWindow(ScriptKeys(keys, key, windowSec, c.now), calls, i + 1, |calls|, key, limit, windowSec,
        c.now, end);
  }

  // ----- What an answer promises

  /** The answer to a call whose count and time to live come back. */
  function AnswerTo(keys: Keys, c: Call, failClosed: bool): RateLimitResult {
    Verdict(Counted(ScriptCount(keys, c.key, c.now),
                    TimeToLive(ScriptKeys(keys, c.key, c.windowSec, c.now), c.key, c.now)),
            c.limit, c.windowSec, failClosed)
  }

  /** With `left` milliseconds until its window ends, the reset time is right to half a second. */
  predicate ResetIsClose(r: RateLimitResult, left: int) {
    -500 <= 1000 * r.resetInSec - left <= 500
  }

  lemma CallKeepsWindow(keys: Keys, c: Call)
    requires AllExpire(keys) && c.windowSec >= 1
    ensures var next := ScriptKeys(keys, c.key, c.windowSec, c.now);
            && AllExpire(next) && c.key in next && next[c.key].count == ScriptCount(keys, c.key, c.now) >= 1
            && next[c.key].expiresAt.Some? && c.now <= next[c.key].expiresAt.value
            && (!Alive(keys, c.key, c.now) ==> next[c.key].expiresAt.value == c.now + 1000 * c.windowSec)
  {
    ScriptExpires(keys, c.key, c.windowSec, c.now);
  }

  /**
   * A counted answer says whether the call is one of the first `limit` of its window. What it gives as
   * remaining is how many of the key's further calls in that window will be allowed, of as many as there are.
   */
  lemma AnswerCounts(keys: Keys, calls: seq<Call>, i: nat, failClosed: bool)
    requires i < |calls| && AllExpire(keys) && calls[i].windowSec >= 1
    requires Steady(calls, calls[i].key, calls[i].limit, calls[i].windowSec)
    requires var end := ScriptKeys(keys, calls[i].key, calls[i].windowSec, calls[i].now)[calls[i].key].expiresAt;
             end.Some? && Within(calls, i + 1, |calls|, calls[i].now, end.value)
    ensures var c := calls[i];
            var next := ScriptKeys(keys, c.key, c.windowSec, c.now);
            var r := AnswerTo(keys, c, failClosed);
            && !r.failedOpen && !r.failedClosed && r.limit == c.limit
            && (r.allowed <==> next[c.key].count <= c.limit) && r.remaining >= 0
            && AllowedWithin(next, calls, i + 1, c.key, c.now, next[c.key].expiresAt.value)
            == Min(CallsOf(calls, i + 1, |calls|, c.key), r.remaining)
  {
    var c := calls[i];
    var next := ScriptKeys(keys, c.key, c.windowSec, c.now);
    CallKeepsWindow(keys, c);
    var last := SameWindow(next, calls, i + 1, |calls|, c.key, c.limit, c.windowSec, c.now,
        next[c.key].expiresAt.value);
  }

  /**
   * The reset time is right to half a second, if and only if the window has that much left; in its last half
   * second the length of a whole window is given instead.
   */
  lemma ResetExactly(keys: Keys, c: Call, failClosed: bool)
    requires AllExpire(keys) && c.windowSec >= 1
    ensures var next := ScriptKeys(keys, c.key, c.windowSec, c.now);
            var left := next[c.key].expiresAt.value - c.now;
            var r := AnswerTo(keys, c, failClosed);
            && (ResetIsClose(r, left) <==> left >= 500) && (left < 500 ==> r.resetInSec == c.windowSec)
  {
    CallKeepsWindow(keys, c);
  }

  // ----- The bound is reached

  /** One call opens a window, limit - 1 come at its very end, and limit more right after it. */
  function Burst(key: string, limit: nat, windowSec: nat): seq<Call>
    requires limit >= 1
  {
    [Call(key, limit, windowSec, 0)]
    + seq(limit - 1, _ => Call(key, limit, windowSec, 1000 * windowSec))
    + seq(limit, _ => Call(key, limit, windowSec, 1000 * windowSec + 1))
  }

  lemma {:induction false} AllCallsOf(calls: seq<Call>, i: nat, j: nat, key: string)
    requires i <= j <= |calls| && forall k :: 0 <= k < |calls| ==> calls[k].key == key
    ensures CallsOf(calls, i, j, key) == j - i
    decreases j - i
  {
    if i < j {
      AllCallsOf(calls, i + 1, j, key);
    }
  }

  lemma BurstSteady(key: string, limit: nat, windowSec: nat)
    requires limit >= 1
    ensures Steady(Burst(key, limit, windowSec), key, limit, windowSec)
    ensures forall k :: 0 <= k < 2 * limit ==> Burst(key, limit, windowSec)[k].key == key
  {
  }

  /** No smaller bound holds for all runs, whatever the limit and the window. */
  lemma BurstReachesBound(key: string, limit: nat, windowSec: nat)
    requires limit >= 1 && windowSec >= 1
    ensures Steady(Burst(key, limit, windowSec), key, limit, windowSec)
    ensures AllowedWithin(map[], Burst(key, limit, windowSec), 0, key, 1, 1 + 1000 * windowSec) == 2 * limit - 1
  {
    var calls := Burst(key, limit, windowSec);
    var to := 1 + 1000 * windowSec;
    BurstSteady(key, limit, windowSec);
    var first := ScriptKeys(map[], key, windowSec, 0);
    var late := SameWindow(first, calls, 1, limit, key, limit, windowSec, 1, to);
    AllCallsOf(calls, 1, limit, key);
    var second := ScriptKeys(late, key, windowSec, to);
    var end := SameWindow(second, calls, limit + 1, 2 * limit, key, limit, windowSec, 1, to);
    AllCallsOf(calls, limit + 1, 2 * limit, key);
  }

  // ----- The reported reset time

  /**
   * A call that finds the window still open reports a reset time; half a second after that time
   * the window has ended.
   */
  lemma ResetTimeIsEnough(keys: Keys, key: string, limit: int, windowSec: int, now: int)
    requires AllExpire(keys) && windowSec >= 1 && Alive(keys, key, now)
    ensures var next := ScriptKeys(keys, key, windowSec, now);
            var r := Verdict(Counted(ScriptCount(keys, key, now), TimeToLive(next, key, now)), limit, windowSec, false);
            && !Alive(next, key, now + 1000 * r.resetInSec + 500)
            && (limit >= 1 ==> Allowed(next, Call(key, limit, windowSec, now + 1000 * r.resetInSec + 500)))
  {
  }

  // ----- Waiting a limit out

  const DEFAULT_BUDGET_MS: int := 90000

  /**
   * What the loop meets: the results of the checks, the clock when it starts, at the k-th test of
   * the loop and when the k-th sleep is planned, the abort signal, and floor(random() * cap).
   */
  datatype World = World(
    recheck: nat -> RateLimitResult,
    started: int,
    tested: nat -> int,
    planned: nat -> int,
    aborted: nat -> bool,
    random: (nat, nat) -> nat)

  predicate Waiting(w: World, budgetMs: int, k: nat) {
    !w.recheck(k).allowed && !w.recheck(k).failedClosed && !w.aborted(k) && w.tested(k) - w.started < budgetMs
  }

  /** The k-th sleep without its jitter: until the window resets, or what is left of the budget. */
  function Base(w: World, budgetMs: int, k: nat): nat {
    var hint := w.recheck(k).resetInSec;
    var waitSec := if hint == 0 then 5 else if hint < 1 then 1 else hint;
    Min(waitSec * 1000, Positive(budgetMs - (w.planned(k) - w.started)))
  }

  function Cap(base: nat): nat {
    Min(500, if base == 0 then 1 else base)
  }

  function Slept(w: World, budgetMs: int, k: nat): nat {
    var base := Base(w, budgetMs, k);
    base + w.random(k, Cap(base))
  }

  function TotalSlept(w: World, budgetMs: int, k: nat): nat {
    if k == 0 then 0 else TotalSlept(w, budgetMs, k - 1) + Slept(w, budgetMs, k - 1)
  }

  /** The clock advances by at least the time slept, unless the sleep is aborted. */
  predicate Advances(w: World, budgetMs: int, k: nat) {
    && w.tested(k) <= w.planned(k)
    && (w.aborted(k + 1) || w.planned(k) + Slept(w, budgetMs, k) <= w.tested(k + 1))
  }

  /** random() is below 1. */
  predicate Jitters(w: World, k: nat, cap: nat) {
    cap >= 1 ==> w.random(k, cap) < cap
  }

  ghost predicate Faithful(w: World, budgetMs: int) {
    && w.started <= w.tested(0)
    && (forall k: nat :: Advances(w, budgetMs, k))
    && (forall k: nat, cap: nat :: Jitters(w, k, cap))
  }

  /** A sleep lasts a second at least or uses the budget up, and goes half a second beyond it at most. */
  lemma SleepBounds(w: World, budgetMs: int, k: nat)
    requires Faithful(w, budgetMs)
    ensures var spent := w.planned(k) - w.started;
            && (Slept(w, budgetMs, k) >= 1000 || spent + Slept(w, budgetMs, k) >= budgetMs)
            && (Slept(w, budgetMs, k) < Positive(budgetMs - spent) + 500)
  {
    var base := Base(w, budgetMs, k);
    var cap := Cap(base);
    assert Jitters(w, k, cap);
  }

  lemma ClockAdvances(w: World, budgetMs: int, k: nat)
    requires Faithful(w, budgetMs)
    ensures w.tested(k) <= w.planned(k)
    ensures w.aborted(k + 1) || w.planned(k) + Slept(w, budgetMs, k) <= w.tested(k + 1)
  {
    assert Advances(w, budgetMs, k);
  }

  lemma TotalUnfold(w: World, budgetMs: int, k: nat)
    ensures TotalSlept(w, budgetMs, k + 1) == TotalSlept(w, budgetMs, k) + Slept(w, budgetMs, k)
  {
  }

  /** What one more round does, in terms of the clock and the time slept so far. */
  lemma RoundArithmetic(budgetMs: int, started: int, tested: int, planned: int, slept: nat, total: nat)
    requires total <= tested - started < budgetMs && tested <= planned
    requires slept < Positive(budgetMs - (planned - started)) + 500
    ensures total + slept < budgetMs + 500
  {
  }

  /** The k-th sleep and all before it stay within the budget and one jitter. */
  lemma SleepWithinBudget(w: World, budgetMs: int, k: nat)
    requires Faithful(w, budgetMs) && Waiting(w, budgetMs, k)
    requires TotalSlept(w, budgetMs, k) <= w.tested(k) - w.started
    ensures TotalSlept(w, budgetMs, k + 1) < budgetMs + 500
    ensures !w.aborted(k + 1) ==> TotalSlept(w, budgetMs, k + 1) <= w.tested(k + 1) - w.started
    ensures Waiting(w, budgetMs, k + 1) ==> w.tested(k + 1) >= w.tested(k) + 1000
  {
    var slept := Slept(w, budgetMs, k);
    SleepBounds(w, budgetMs, k);
    ClockAdvances(w, budgetMs, k);
    TotalUnfold(w, budgetMs, k);
    RoundArithmetic(budgetMs, w.started, w.tested(k), w.planned(k), slept, TotalSlept(w, budgetMs, k));
  }

  /**
   * A sleep lasts until the reset the last check reported (5 seconds if it reported none, and a second at least),
   * or to the end of the budget if that comes first, and less than half a second longer.
   */
  lemma SleepsUntilReset(w: World, budgetMs: int, k: nat)
    requires Faithful(w, budgetMs)
    ensures var hint := w.recheck(k).resetInSec;
            var wanted := if hint == 0 then 5000 else if hint < 1 then 1000 else 1000 * hint;
            var left := Positive(budgetMs - (w.planned(k) - w.started));
            && Min(wanted, left) <= Slept(w, budgetMs, k) <= Min(wanted, left) + 499
            && (wanted <= left ==> Slept(w, budgetMs, k) >= 1000 * hint)
  {
    assert Jitters(w, k, Cap(Base(w, budgetMs, k)));
  }

  method SleepTime(w: World, budgetMs: int, k: nat, current: RateLimitResult) returns (ms: nat)
    requires current == w.recheck(k)
    ensures ms == Slept(w, budgetMs, k)
  {
    var waitSec := if current.resetInSec == 0 then 5 else if current.resetInSec < 1 then 1 else current.resetInSec;
    var remain := Positive(budgetMs - (w.planned(k) - w.started));
    var base := Min(waitSec * 1000, remain);
    var jitter := w.random(k, Min(500, if base == 0 then 1 else base));
    return base + jitter;
  }

  /**
   * Checks and sleeps until the call is allowed, waiting cannot help, the caller aborts or the
   * budget is spent. Every round but the last takes a second of the budget at least, and all
   * sleeps together exceed it by less than half a second.
   */
  method WaitOutRateLimit(w: World, budgetMs: int := DEFAULT_BUDGET_MS) returns (current: RateLimitResult, rounds: nat)
    requires Faithful(w, budgetMs)
    ensures current == w.recheck(rounds) && !Waiting(w, budgetMs, rounds)
    ensures forall k :: 0 <= k < rounds ==> Waiting(w, budgetMs, k)
    ensures current.allowed || current.failedClosed || w.aborted(rounds) || w.tested(rounds) - w.started >= budgetMs
    ensures forall k :: 0 <= k < rounds ==>
      !w.recheck(k).allowed && !w.recheck(k).failedClosed && !w.aborted(k) && w.tested(k) - w.started < budgetMs
    ensures rounds > 0 ==> TotalSlept(w, budgetMs, rounds) < budgetMs + 500 && 1000 * (rounds - 1) < budgetMs
  {
    rounds := 0;
    current := w.recheck(0);
    var slept := 0;
    while !current.allowed && !current.failedClosed && !w.aborted(rounds) && w.tested(rounds) - w.started < budgetMs
      invariant current == w.recheck(rounds)
      invariant forall k :: 0 <= k < rounds ==> Waiting(w, budgetMs, k)
      invariant slept == TotalSlept(w, budgetMs, rounds)
      invariant rounds > 0 ==> slept < budgetMs + 500 && 1000 * (rounds - 1) < budgetMs
      invariant !w.aborted(rounds) ==> slept <= w.tested(rounds) - w.started
      invariant Waiting(w, budgetMs, rounds) ==> 1000 * rounds <= w.tested(rounds) - w.started
      decreases budgetMs - 1000 * rounds
    {
      SleepWithinBudget(w, budgetMs, rounds);
      TotalUnfold(w, budgetMs, rounds);
      var ms := SleepTime(w, budgetMs, rounds, current);
      slept := slept + ms;
      rounds := rounds + 1;
      current := w.recheck(rounds);
    }
    forall k | 0 <= k < rounds
      ensures !w.recheck(k).allowed && !w.recheck(k).failedClosed && !w.aborted(k) && w.tested(k) - w.started < budgetMs
    {
      assert Waiting(w, budgetMs, k);
    }
  }
}

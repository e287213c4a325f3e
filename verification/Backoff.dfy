/**
 The poller's exponential backoff for one bot: when a bot is polled, how long the poller waits
 after a failure, and when it marks the bot unreachable.  The multiplier is a real number.
 */
module Backoff {
  import opened Common

  datatype Config = Config(initial: int, max: int, multiplier: real, maxRetries: int)

  datatype State = State(interval: int, retries: int, lastAttempt: Option<int>)

  /** A configuration the waits are computed for: no negative interval, at least one attempt. */
  predicate Sane(c: Config) {
    c.initial >= 0 && c.max >= 0 && c.multiplier >= 1.0 && c.maxRetries >= 1
  }

  function Fresh(c: Config): State {
    State(c.initial, 0, None)
  }

  function AfterReset(): State {
    State(0, 0, None)
  }

  predicate ShouldRetry(c: Config, b: State, now: int) {
    b.retries < c.maxRetries && (b.lastAttempt.Some? ==> now - b.lastAttempt.value >= b.interval)
  }

  function Grow(c: Config, interval: int): int {
    var next := (interval as real * c.multiplier).Floor;
    if next > c.max then c.max else next
  }

  function AfterFailure(c: Config, b: State, now: int): State {
    State(Grow(c, b.interval), b.retries + 1, Some(now))
  }

  datatype Polled = Polled(state: State, attempted: bool, marked: bool)

  /** One visit of the polling loop; `up` says whether the bot answers. */
  function Poll(c: Config, b: State, now: int, up: bool): Polled {
    if !ShouldRetry(c, b, now) then Polled(b, false, false)
    else if up then Polled(AfterReset(), true, false)
    else
      var next := AfterFailure(c, b, now);
      Polled(next, true, next.retries >= c.maxRetries)
  }

  // ---------------------------------------------------------------- streaks of failures

  /** The state after polling an unresponsive bot at these times. */
  function Streak(c: Config, b: State, times: seq<int>): State {
    if times == [] then b
    else Poll(c, Streak(c, b, times[..|times| - 1]), times[|times| - 1], false).state
  }

  function Marks(c: Config, b: State, times: seq<int>): nat {
    if times == [] then 0
    else Marks(c, b, times[..|times| - 1]) +
         if Poll(c, Streak(c, b, times[..|times| - 1]), times[|times| - 1], false).marked then 1 else 0
  }

  /** The wait after `k` failures, as a closed formula. */
  function Wait(c: Config, k: nat): int {
    if k == 0 then c.initial else Min(c.max, c.initial * Pow2(k))
  }

  /** The time that must lie between the first failure and the `k`-th one. */
  function Elapsed(c: Config, k: nat): int {
    if k <= 1 then 0 else Elapsed(c, k - 1) + Wait(c, k - 1)
  }

  lemma GrowDoubles(c: Config, k: nat)
    requires Sane(c) && c.multiplier == 2.0
    ensures Grow(c, Wait(c, k)) == Wait(c, k + 1)
  {
  }

  /** From a fresh backoff that doubles, `k` failures, at least one, make the wait
      min(max, initial * 2^k), and the failures are spaced by those waits. */
  lemma {:induction false} StreakWaits(c: Config, times: seq<int>)
    requires Sane(c) && c.multiplier == 2.0
    ensures var b := Streak(c, Fresh(c), times);
            && 0 <= b.retries <= c.maxRetries && b.interval == Wait(c, b.retries)
            && (times == [] ==> b == Fresh(c))
            && (times != [] ==> b.retries >= 1 && b.lastAttempt.Some? &&
                                b.lastAttempt.value - times[0] >= Elapsed(c, b.retries))
    decreases |times|
  {
    if times != [] {
      var before := times[..|times| - 1];
      StreakWaits(c, before);
      var b := Streak(c, Fresh(c), before);
      GrowDoubles(c, b.retries);
      if before != [] {
        assert before[0] == times[0];
      }
    }
  }

  /** During such a streak the bot is polled again exactly when retries are left and the wait for its
      `k` failures has passed since the last one. */
  lemma StreakPollsIff(c: Config, times: seq<int>, now: int, up: bool)
    requires Sane(c) && c.multiplier == 2.0 && times != []
    ensures var b := Streak(c, Fresh(c), times); var k := b.retries;
            k >= 1 && b.lastAttempt.Some? &&
            (Poll(c, b, now, up).attempted <==>
             k < c.maxRetries && now - b.lastAttempt.value >= Min(c.max, c.initial * Pow2(k)))
  {
    StreakWaits(c, times);
  }

  lemma {:induction false} RetriesBounded(c: Config, times: seq<int>)
    requires c.maxRetries >= 1
    ensures 0 <= Streak(c, Fresh(c), times).retries <= c.maxRetries
    decreases |times|
  {
    if times != [] {
      RetriesBounded(c, times[..|times| - 1]);
    }
  }

  /** Whatever the intervals, the bot is marked unreachable once in the streak, at the failure
      that exhausts the retries, and not before then. */
  lemma {:induction false} MarkedOnce(c: Config, times: seq<int>)
    requires c.maxRetries >= 1
    ensures Marks(c, Fresh(c), times) == if Streak(c, Fresh(c), times).retries == c.maxRetries then 1 else 0
    decreases |times|
  {
    if times != [] {
      MarkedOnce(c, times[..|times| - 1]);
      RetriesBounded(c, times[..|times| - 1]);
    }
  }

  /** ... and no sooner after the first failure than the waits in between add up to. */
  lemma MarkedNoSooner(c: Config, times: seq<int>)
    requires Sane(c) && c.multiplier == 2.0 && times != []
    requires Poll(c, Streak(c, Fresh(c), times[..|times| - 1]), times[|times| - 1], false).marked
    ensures times[|times| - 1] - times[0] >= Elapsed(c, c.maxRetries)
  {
    StreakWaits(c, times[..|times| - 1]);
    StreakWaits(c, times);
  }

  // ---------------------------------------------------------------- beyond the streak

  function After(c: Config, b: State, times: seq<int>, up: seq<bool>): State
    requires |times| == |up|
    decreases |times|
  {
    if times == [] then b
    else Poll(c, After(c, b, times[..|times| - 1], up[..|up| - 1]), times[|times| - 1], up[|up| - 1]).state
  }

  /** Once the retries are exhausted the bot is never polled again, whatever it does: its state
      is the same after every later visit, and no visit attempts anything. */
  lemma {:induction false} ExhaustedForever(c: Config, b: State, times: seq<int>, up: seq<bool>)
    requires |times| == |up| && b.retries >= c.maxRetries
    ensures After(c, b, times, up) == b
    ensures forall now, answer :: !Poll(c, After(c, b, times, up), now, answer).attempted
    decreases |times|
  {
    if times != [] {
      ExhaustedForever(c, b, times[..|times| - 1], up[..|up| - 1]);
    }
  }

  ghost predicate NeverBack(times: seq<int>) {
    forall i, k | 0 <= i <= k < |times| :: times[i] <= times[k]
  }

  /** An answered poll gives the bot all its retries back and forgets the wait: from then on every
      visit of a silent bot polls it, until as many failures as there are retries, and the last of
      them marks it. */
  lemma {:induction false} SuccessRestoresRetries(c: Config, b: State, now: int, times: seq<int>)
    requires Sane(c) && Poll(c, b, now, true).attempted && NeverBack(times)
    ensures !Poll(c, b, now, true).marked
    ensures var s := Streak(c, Poll(c, b, now, true).state, times);
            && s.retries == Min(|times|, c.maxRetries) && s.interval == 0
            && (s.lastAttempt.Some? ==> times != [] && s.lastAttempt.value <= times[|times| - 1])
    ensures Marks(c, Poll(c, b, now, true).state, times) == if |times| < c.maxRetries then 0 else 1
    decreases |times|
  {
    if times != [] {
      var n := |times| - 1;
      SuccessRestoresRetries(c, b, now, times[..n]);
      assert n > 0 ==> times[..n][n - 1] <= times[n];
      assert (0 as real * c.multiplier).Floor == 0;
    }
  }

  /** A success resets the interval to zero, and zero stays zero: a later streak has no waits, so
      the closed formula holds for a fresh backoff only. */
  lemma {:induction false} NoWaitsAfterReset(c: Config, times: seq<int>)
    requires Sane(c)
    ensures Streak(c, AfterReset(), times).interval == 0
    decreases |times|
  {
    if times != [] {
      NoWaitsAfterReset(c, times[..|times| - 1]);
      assert (0 as real * c.multiplier).Floor == 0;
    }
  }

  /** So after a reset the doubled wait is right exactly when it is zero anyway. */
  lemma ResetStreakDoublesIff(c: Config, times: seq<int>)
    requires Sane(c) && times != []
    ensures var b := Streak(c, AfterReset(), times);
            b.retries >= 1 && (b.interval == Wait(c, b.retries) <==> c.initial == 0 || c.max == 0)
  {
    NoWaitsAfterReset(c, times);
    RetriesPositive(c, times);
    var k := Streak(c, AfterReset(), times).retries;
    if c.initial > 0 {
      assert c.initial * Pow2(k) > 0;
    }
  }

  lemma {:induction false} RetriesPositive(c: Config, times: seq<int>)
    requires Sane(c) && times != []
    ensures Streak(c, AfterReset(), times).retries >= 1
    decreases |times|
  {
    if |times| > 1 {
      RetriesPositive(c, times[..|times| - 1]);
    }
  }

  // ---------------------------------------------------------------- the backoff as an object

  class ExponentialBackoff {
    const config: Config
    var interval: int
    var retries: int
    var lastAttempt: Option<int>

    ghost function View(): State
      reads this
    {
      State(interval, retries, lastAttempt)
    }

    constructor (config: Config)
      ensures this.config == config && View() == Fresh(config)
    {
      this.config := config;
      interval, retries, lastAttempt := config.initial, 0, None;
    }

    method MayRetry(now: int) returns (r: bool)
      ensures r == ShouldRetry(config, View(), now)
      ensures r <==> retries < config.maxRetries && (lastAttempt.Some? ==> now >= lastAttempt.value + interval)
    {
      if retries >= config.maxRetries {
        return false;
      }
      if lastAttempt.Some? && now - lastAttempt.value < interval {
        return false;
      }
      return true;
    }

    method RecordFailure(now: int)
      modifies this
      ensures View() == AfterFailure(config, old(View()), now)
      ensures retries == old(retries) + 1 && lastAttempt == Some(now)
      ensures interval == Min(config.max, (old(interval) as real * config.multiplier).Floor)
    {
      retries := retries + 1;
      lastAttempt := Some(now);
      interval := (interval as real * config.multiplier).Floor;
      if interval > config.max {
        interval := config.max;
      }
    }

    method Reset()
      modifies this
      ensures View() == AfterReset() && retries == 0 && interval == 0 && lastAttempt.None?
    {
      retries, interval, lastAttempt := 0, 0, None;
    }

    /** The part of a poll that concerns the backoff; `marked` reports the bot unreachable. */
    method PollBot(now: int, up: bool) returns (attempted: bool, marked: bool)
      modifies this
      ensures Polled(View(), attempted, marked) == Poll(config, old(View()), now, up)
    {
      var retry := MayRetry(now);
      if !retry {
        return false, false;
      }
      if up {
        Reset();
        return true, false;
      }
      RecordFailure(now);
      return true, retries >= config.maxRetries;
    }
  }
}

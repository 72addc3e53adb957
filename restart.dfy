/**
 * `run_with_auto_restart`: calls `start_stream` until it returns, the user
 * interrupts, the attempts are used up, or the wait before a restart
 * raises because the delay is negative. Each call of `start_stream` is
 * abstracted to the way it ended; the loop is run against the sequence of
 * those results, and stops early (with `Unobserved`) if it would need a
 * result beyond the end of that sequence.
 */
module Restart {
  import opened Wrappers
  import opened StreamConfig

  /** How one call of `start_stream` ended. */
  datatype AttemptResult =
    | Returned     // it returned: the user stopped it, or ffmpeg exited on its own
    | Interrupted  // a KeyboardInterrupt escaped it
    | Raised       // an exception escaped it (the re-raise, or one before its `try`)

  /** Why the loop stopped. */
  datatype StopReason =
    | NoAttempt          // the loop condition was false from the start
    | StreamReturned     // `break` after a normal return
    | UserInterrupt      // `break` in the KeyboardInterrupt handler
    | AttemptsExhausted  // `break` after the last permitted attempt raised
    | SleepRejected      // `time.sleep` raised `ValueError` on a negative delay, out of the handler
    | Unobserved         // the loop would call `start_stream` again past the given results

  datatype Run = Run(attempts: nat, stop: StopReason, waits: seq<int>)

  /** Python's `max_attempts or streaming.get('max_reconnect_attempts', 10)`: `None` and `0` fall back. */
  function MaxAttempts(requested: Option<int>, s: StreamingSettings): int {
    if requested.Some? && requested.value != 0 then requested.value
    else s.maxReconnectAttempts.GetOr(DefaultMaxReconnectAttempts)
  }

  /** `streaming.get('reconnect_delay_seconds', 5)`. */
  function RetryDelay(s: StreamingSettings): int {
    s.reconnectDelaySeconds.GetOr(DefaultReconnectDelaySeconds)
  }

  lemma DefaultPolicy(requested: Option<int>, s: StreamingSettings)
    requires requested == None || requested == Some(0)
    requires s.maxReconnectAttempts == None && s.reconnectDelaySeconds == None
    ensures MaxAttempts(requested, s) == 10 && RetryDelay(s) == 5
  {
  }

  /** The loop's own test: `max_attempts == -1 or attempt < max_attempts`. */
  predicate MayAttempt(maxAttempts: int, attempt: int) {
    maxAttempts == -1 || attempt < maxAttempts
  }

  /** The index of the first result that is not `Raised`, or the length if there is none. */
  function FirstSettled(results: seq<AttemptResult>): (k: nat)
    ensures k <= |results|
    ensures forall i :: 0 <= i < k ==> results[i] == Raised
    ensures k < |results| ==> results[k] != Raised
  {
    if results == [] || results[0] != Raised then 0 else 1 + FirstSettled(results[1..])
  }

  function StopFor(r: AttemptResult): StopReason
    requires r != Raised
  {
    if r == Returned then StreamReturned else UserInterrupt
  }

  /**
   * What the loop does, stated without the loop: every attempt before the
   * first result that is not `Raised` restarts while attempts remain, after
   * a wait of `delay` seconds. A negative delay makes the first wait raise,
   * which ends the loop after one attempt.
   */
  function ExpectedRun(maxAttempts: int, delay: int, results: seq<AttemptResult>): Run {
    var k := FirstSettled(results);
    if !MayAttempt(maxAttempts, 0) then Run(0, NoAttempt, [])
    else if delay < 0 && 0 < k && MayAttempt(maxAttempts, 1) then Run(1, SleepRejected, [])
    else if MayAttempt(maxAttempts, k) then
      if k < |results| then Run(k + 1, StopFor(results[k]), seq(k, _ => delay))
      else Run(|results|, Unobserved, seq(|results|, _ => delay))
    else Run(maxAttempts, AttemptsExhausted, seq(maxAttempts - 1, _ => delay))
  }

  /**
   * The loop of `run_with_auto_restart`. `attempt` is the Python counter when
   * the loop ends; `waits` lists the `time.sleep(delay)` calls in order.
   */
  method RunWithAutoRestart(requested: Option<int>, s: StreamingSettings, results: seq<AttemptResult>)
    returns (attempt: nat, stop: StopReason, waits: seq<int>)
    ensures Run(attempt, stop, waits) == ExpectedRun(MaxAttempts(requested, s), RetryDelay(s), results)
  {
    var maxAttempts := MaxAttempts(requested, s);
    var delay := RetryDelay(s);
    attempt := 0;
    stop := NoAttempt;
    waits := [];
    while MayAttempt(maxAttempts, attempt)
      invariant attempt <= FirstSettled(results)
      invariant attempt == 0 || MayAttempt(maxAttempts, attempt)
      invariant waits == seq(attempt, _ => delay)
      invariant delay < 0 ==> attempt == 0
      decreases |results| - attempt
    {
      if attempt == |results| {
        stop := Unobserved;
        break;
      }
      attempt := attempt + 1;
      var result := results[attempt - 1];
      if result == Returned {
        stop := StreamReturned;
        break;
      } else if result == Interrupted {
        stop := UserInterrupt;
        break;
      } else if MayAttempt(maxAttempts, attempt) {
        if delay < 0 {
          stop := SleepRejected;
          break;
        }
        waits := waits + [delay];
      } else {
        stop := AttemptsExhausted;
        break;
      }
    }
  }

  // ---------------------------------------------------------------- properties

  /** With a positive limit, `start_stream` is called at most that many times. */
  lemma AttemptsBounded(maxAttempts: int, delay: int, results: seq<AttemptResult>)
    requires maxAttempts > 0
    ensures ExpectedRun(maxAttempts, delay, results).attempts <= maxAttempts
    ensures ExpectedRun(maxAttempts, delay, results).attempts <= |results|
  {
  }

  /**
   * Every attempt but the last one raised, and each of them was followed by
   * one wait of `delay` seconds; a negative delay allows no wait at all.
   */
  lemma EarlierAttemptsRaised(maxAttempts: int, delay: int, results: seq<AttemptResult>)
    ensures var r := ExpectedRun(maxAttempts, delay, results);
            (forall i :: 0 <= i < r.attempts - 1 ==> results[i] == Raised) &&
            (forall i :: 0 <= i < |r.waits| ==> r.waits[i] == delay) &&
            (r.stop == Unobserved ==> |r.waits| == r.attempts) &&
            (r.stop != Unobserved && r.stop != NoAttempt ==> |r.waits| == r.attempts - 1) &&
            (delay < 0 ==> r.waits == [] && r.attempts <= 1)
  {
  }

  /**
   * The loop ends at the first normal return or interrupt, if the limit lets
   * it get that far and no wait before it raises.
   */
  lemma StopsAtFirstSettled(maxAttempts: int, delay: int, results: seq<AttemptResult>, k: nat)
    requires k < |results| && results[k] != Raised
    requires forall i :: 0 <= i < k ==> results[i] == Raised
    requires MayAttempt(maxAttempts, k)
    ensures delay >= 0 || k == 0 ==>
              ExpectedRun(maxAttempts, delay, results) == Run(k + 1, StopFor(results[k]), seq(k, _ => delay))
    ensures delay < 0 && k > 0 ==> ExpectedRun(maxAttempts, delay, results) == Run(1, SleepRejected, [])
  {
  }

  /**
   * Attempts run out exactly when the first `maxAttempts` attempts all raised
   * and no wait between them raised.
   */
  lemma ExhaustedIff(maxAttempts: int, delay: int, results: seq<AttemptResult>)
    ensures ExpectedRun(maxAttempts, delay, results).stop == AttemptsExhausted <==>
            maxAttempts > 0 && maxAttempts <= |results| &&
            (forall i :: 0 <= i < maxAttempts ==> results[i] == Raised) &&
            (delay >= 0 || maxAttempts == 1)
  {
  }

  /**
   * With the unlimited sentinel `-1`, a run of exceptions never ends the loop
   * by itself, unless the delay is negative and the first wait raises.
   */
  lemma UnlimitedKeepsRetrying(delay: int, results: seq<AttemptResult>)
    requires forall i :: 0 <= i < |results| ==> results[i] == Raised
    ensures delay >= 0 || results == [] ==>
              ExpectedRun(-1, delay, results) == Run(|results|, Unobserved, seq(|results|, _ => delay))
    ensures delay < 0 && results != [] ==> ExpectedRun(-1, delay, results) == Run(1, SleepRejected, [])
  {
  }

  /**
   * A crash is followed by exactly one restart: one more `Raised` in front of
   * the results adds exactly one attempt and one wait of `delay` seconds to
   * the run the remaining attempts make (while attempts remain after it).
   * With a negative delay that wait raises instead and the run ends there.
   */
  lemma {:induction false} CrashAddsOneAttempt(maxAttempts: int, delay: int, results: seq<AttemptResult>)
    requires maxAttempts == -1 || maxAttempts > 1
    ensures var remaining := if maxAttempts == -1 then -1 else maxAttempts - 1;
            var before := ExpectedRun(remaining, delay, results);
            delay >= 0 ==>
              ExpectedRun(maxAttempts, delay, [Raised] + results) ==
                Run(before.attempts + 1, before.stop, [delay] + before.waits)
    ensures delay < 0 ==> ExpectedRun(maxAttempts, delay, [Raised] + results) == Run(1, SleepRejected, [])
  {
    var rs := [Raised] + results;
    assert rs[1..] == results;
    assert FirstSettled(rs) == 1 + FirstSettled(results);
  }

  /**
   * `time.sleep` rejects a negative delay: the loop ends that way exactly
   * when the delay is negative and the first attempt raised with attempts
   * left.
   */
  lemma SleepRejectedIff(maxAttempts: int, delay: int, results: seq<AttemptResult>)
    ensures ExpectedRun(maxAttempts, delay, results).stop == SleepRejected <==>
            delay < 0 && |results| > 0 && results[0] == Raised && MayAttempt(maxAttempts, 1)
  {
  }

  /** The maximum the interactive "auto-restart" option passes is the unlimited sentinel. */
  lemma AutoRestartOptionIsUnlimited(s: StreamingSettings)
    ensures MaxAttempts(Some(-1), s) == -1
  {
  }
}

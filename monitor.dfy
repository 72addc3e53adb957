/**
 * The rate-limit bookkeeping of `StreamMonitor`: `log_stats` emits a sample
 * only when monitoring is enabled and at least `log_interval` seconds have
 * passed since the last emission, and then records the time. The clock
 * reading `time.time()` is the parameter `now`; what is emitted (CPU and
 * memory figures) is not modelled.
 */
module Monitoring {
  import opened Wrappers
  import opened StreamConfig

  /** Consecutive times at least `interval` apart. */
  ghost predicate Spaced(times: seq<int>, interval: int) {
    forall i :: 1 <= i < |times| ==> times[i - 1] + interval <= times[i]
  }

  class StreamMonitor {
    const enabled: bool
    const logInterval: int
    const logFile: string
    var lastLogTime: int

    /** The times at which `LogStats` has emitted, oldest first. */
    ghost var emissions: seq<int>

    ghost predicate Valid()
      reads this
    {
      && (!enabled ==> emissions == [])
      && (emissions == [] ==> lastLogTime == 0)
      && (emissions != [] ==> lastLogTime == emissions[|emissions| - 1] && emissions[0] >= logInterval)
      && Spaced(emissions, logInterval)
    }

    /**
     * `StreamMonitor(config)`: enabled only if the `monitoring` settings say
     * so and the process-statistics library could be imported.
     */
    constructor (c: Config, psutilAvailable: bool)
      ensures Valid() && emissions == [] && lastLogTime == 0
      ensures enabled <==> c.monitoring.Some? && c.monitoring.value.enabled == Some(true) && psutilAvailable
      ensures logInterval ==
                if c.monitoring.Some? then c.monitoring.value.logIntervalSeconds.GetOr(DefaultLogIntervalSeconds)
                else DefaultLogIntervalSeconds
      ensures logFile ==
                if c.monitoring.Some? then c.monitoring.value.logFile.GetOr(DefaultLogFile)
                else DefaultLogFile
    {
      var m := c.monitoring.GetOr(MonitoringSettings(None, None, None));
      enabled := m.enabled.GetOr(false) && psutilAvailable;
      logInterval := m.logIntervalSeconds.GetOr(DefaultLogIntervalSeconds);
      logFile := m.logFile.GetOr(DefaultLogFile);
      lastLogTime := 0;
      emissions := [];
    }

    /** Whether a call of `log_stats` at time `now` emits. */
    predicate IsDue(now: int)
      reads this
    {
      enabled && now - lastLogTime >= logInterval
    }

    /**
     * `log_stats`: emits exactly when due and then sets `last_log_time` to
     * `now`; otherwise nothing changes. `emitted` reports which happened.
     */
    method LogStats(now: int) returns (emitted: bool)
      requires Valid()
      modifies this
      ensures Valid()
      ensures emitted <==> old(IsDue(now))
      ensures lastLogTime == if emitted then now else old(lastLogTime)
      ensures emissions == if emitted then old(emissions) + [now] else old(emissions)
    {
      if !enabled {
        return false;
      }
      if now - lastLogTime < logInterval {
        return false;
      }
      lastLogTime := now;
      emissions := emissions + [now];
      emitted := true;
    }
  }

  /** Two calls in a row that both emit are at least `log_interval` seconds apart; a disabled monitor never emits. */
  method TwoSamples(m: StreamMonitor, t1: int, t2: int) returns (first: bool, second: bool)
    requires m.Valid()
    modifies m
    ensures m.Valid()
    ensures first && second ==> t2 - t1 >= m.logInterval
    ensures !m.enabled ==> !first && !second
    ensures first && !second ==> m.lastLogTime == t1
  {
    first := m.LogStats(t1);
    second := m.LogStats(t2);
  }
}

# ytube-stream streamer core in Dafny

This project models the decision logic of `stream.py`, a script that loops a
video file and an audio file into a YouTube RTMP ingest through an ffmpeg
subprocess. Four parts are modelled:

- **Configuration and start-up validation** (`config.dfy`, module `StreamConfig`).
  The JSON configuration is a set of records; optional keys are `Option`s. The
  defaults the streamer uses for absent keys are constants. `ValidateConfig`
  is `validate_config`. The existence of a file (`os.path.exists`) is a
  function parameter.
- **The ffmpeg argument builder** (`command.dfy`, module `FfmpegCommand`).
  `Command` is `build_ffmpeg_command`. Each `extend` call of the source is one
  segment of the result, kept in the source's order. The arguments are first
  built as tokens (`Args`): an option name (`Flag`) or a word (the program
  name, an option's value, the URL). `Command` renders them as the strings
  the source returns. So a configured value that happens to be spelled like
  an option, such as a file named `-preset`, is still a value. The lemmas fix the
  position of every argument, the copy and re-encode branches, the two-tier
  `-refs`/`-bf` policy, the optional `-tune`, the defaulted `-maxrate`, the
  GOP of `30 * keyframe_interval` and the closing ingest URL.
  `str(gop_size)` is modelled in `decimal.dfy` (module `Decimal`), together
  with a parser that reads the text back.
- **The restart loop** (`restart.dfy`, module `Restart`).
  `RunWithAutoRestart` is the `while` loop of `run_with_auto_restart`. Each
  call of `start_stream` is reduced to how it ended: returned, KeyboardInterrupt,
  or an exception that escaped it. The loop runs against a finite sequence of such
  results. If it would need one more result than the sequence holds, it stops
  with `Unobserved`. That is needed because with the unlimited sentinel `-1`
  the real loop can run forever. The method is proved equal to
  `ExpectedRun`, a definition of the same run stated without a loop. The
  restart properties are lemmas about `ExpectedRun`.
- **The monitor's rate limiter** (`monitor.dfy`, module `Monitoring`).
  `StreamMonitor` is a class whose field `lastLogTime` is updated by
  `LogStats`, as `last_log_time` is by `log_stats`. The clock is the
  parameter `now`. A ghost history of emission times carries the invariant
  that consecutive emissions are at least `log_interval` seconds apart.

`wrappers.dfy` holds the `Option` and `Outcome` types.

Facts about `stream.py` that the model follows:

- An encoder that exits on its own makes `start_stream` print the error
  output and return normally (stream.py:241-245), so `run_with_auto_restart`
  leaves the loop at its `break` (stream.py:286). An encoder crash therefore
  does not cause a restart. Only an exception that escapes `start_stream`
  does: the re-raise at stream.py:258-261, or one raised before its `try`
  (stream.py:207-219), such as a failed configuration lookup or an error in
  `build_ffmpeg_command`. In the model a self-terminated encoder is the
  `Returned` result, and every escaping exception is the `Raised` result.
- `time.sleep` raises `ValueError` on a negative delay. That happens inside
  the `except Exception` handler (stream.py:292-296), so the error escapes
  `run_with_auto_restart` at the first restart. The model ends such a run
  with the stop reason `SleepRejected`.
- The command has exactly two inputs and one audio mapping.
- `start_stream` sleeps a fixed 32 seconds before watching the encoder
  (stream.py:235).

## Model

| member | source | states |
|---|---|---|
| `StreamConfig.ValidateConfig` | stream.py:95-112 | Passes exactly when both media files exist and the stream key is not `YOUR_STREAM_KEY_HERE`; otherwise it reports the first failing check, in the order video file, audio file, stream key |
| `Decimal.NatToString` | stream.py:150-151 | The decimal text of a natural number is non-empty, consists only of digits, has two or more digits exactly when the number is at least 10, and starts with `0` only for the number 0 |
| `Decimal.NatToStringCanonical` | stream.py:150-151 | Any digit string without a leading zero is the text of the number it denotes, so `NatToString` is the one text `str` gives |
| `Decimal.IntToString` | stream.py:150-151 | `str(gop_size)`: non-empty, starting with `-` exactly for negative numbers; `ParseIntToString` and `IntToStringInjective` state what the text means |
| `Decimal.DigitsValueOfNatToString` | stream.py:150-151 | The digits of `n` denote `n` |
| `Decimal.ParseIntToString` | stream.py:150-151 | `str(n)` of any integer, negative ones included, reads back as `n` |
| `Decimal.IntToStringInjective` | stream.py:150-151 | Distinct GOP sizes give distinct texts |
| `Decimal.SixtyText` | stream.py:138-139 | The default keyframe interval 2 gives the GOP text `60` |
| `FfmpegCommand.Args` | stream.py:114-203 | `build_ffmpeg_command` as option and word tokens, segment by segment in the order of the source's `extend` calls; `CopyArgs`, `EncodeArgs`, `OptionsAlternateWithValues`, `CopyOmitsEncoderOptions`, `TuneIff` and the positional lemmas state its properties |
| `FfmpegCommand.Command` | stream.py:114-203 | The list of strings `build_ffmpeg_command` returns, the tokens of `Args` spelled out; `CommandPrefix`, `CommandSuffix` and `GopArguments` state its strings |
| `FfmpegCommand.CommandPrefix` | stream.py:120-134 | The first 17 arguments: `ffmpeg`, `-probesize 50M`, `-analyzeduration 30000000`, then two `-stream_loop -1 -i <file>` inputs (video first, then audio), then `-map 0:v:0 -c:v <codec>` |
| `FfmpegCommand.CommandSuffix` | stream.py:180-201 | The last 23 arguments are the audio, flv, muxing-queue, timestamp and reconnect settings; the last one is `rtmp_url + "/" + stream_key` |
| `FfmpegCommand.CopyArgs` | stream.py:136-178 | With codec `copy` the command is the inputs, `-bufsize <buffer_size>` and the output settings: 42 arguments |
| `FfmpegCommand.EncodeArgs` | stream.py:136-172 | With any other codec the command is the inputs, the encoder settings, the optional tune pair, the reference-frame policy and the output settings: 68 arguments, or 70 with a tune |
| `FfmpegCommand.OptionsAlternateWithValues` | stream.py:120-201 | The command is `ffmpeg`, then option/value pairs, then the URL: an even number of arguments, with option names exactly at the odd positions in between, so each option takes exactly one value |
| `FfmpegCommand.CopyOmitsEncoderOptions` | stream.py:136-178 | With codec `copy`, none of `-preset`, `-b:v`, `-maxrate`, `-s`, `-r`, `-g`, `-keyint_min`, `-sc_threshold`, `-pix_fmt`, `-profile:v`, `-level`, `-tune`, `-refs`, `-bf` occurs; `-bufsize` occurs exactly once, at index 17, followed by the buffer size |
| `FfmpegCommand.EncoderSettings` | stream.py:143-156 | When re-encoding, arguments 17 to 40 are preset, target bitrate, maximum bitrate, buffer size, resolution, `-r 30`, the GOP after both `-g` and `-keyint_min`, `-sc_threshold 0`, `yuv420p`, `high` and level `4.2` |
| `FfmpegCommand.GopArguments` | stream.py:138-151 | When re-encoding, `-g` and `-keyint_min` are each followed by the decimal text of `30 * keyframe_interval`; the text reads back as that number and is `60` when no interval is configured |
| `FfmpegCommand.MaxRateArgument` | stream.py:140-146 | When re-encoding, `-maxrate` is followed by `maxrate` if configured, otherwise by the target bitrate |
| `FfmpegCommand.TuneIff` | stream.py:136-160 | The option `-tune` is in the command if and only if the codec is not `copy` and a non-empty tune is configured; it is then at index 41, followed by the tune |
| `FfmpegCommand.ReferenceFrameArguments` | stream.py:162-172 | When re-encoding, `-refs n -bf n` follows the encoder settings and tune, with `n = 2` for the presets veryfast, faster and fast and `n = 3` for every other preset |
| `Restart.MaxAttempts` | stream.py:277 | `max_attempts or streaming.get('max_reconnect_attempts', 10)`; `DefaultPolicy` and `AutoRestartOptionIsUnlimited` state its values |
| `Restart.RetryDelay` | stream.py:278 | `streaming.get('reconnect_delay_seconds', 5)`; `DefaultPolicy` states the default |
| `Restart.DefaultPolicy` | stream.py:277-278 | With no usable argument and no configured values, the loop allows 10 attempts and waits 5 seconds between them |
| `Restart.AutoRestartOptionIsUnlimited` | stream.py:327-329 | The menu's auto-restart option passes the unlimited sentinel `-1` through unchanged |
| `Restart.RunWithAutoRestart` | stream.py:275-299 | The loop's final attempt counter, stop reason and list of waits equal `ExpectedRun` for the effective maximum and delay |
| `Restart.AttemptsBounded` | stream.py:281-299 | With a positive maximum, `start_stream` is called at most that many times |
| `Restart.EarlierAttemptsRaised` | stream.py:282-296 | Every attempt before the last one raised; each wait lasts the configured delay; there is one wait per restarted attempt; a negative delay allows no wait and at most one attempt |
| `Restart.StopsAtFirstSettled` | stream.py:282-296 | If the limit lets the loop get there, it stops at the first normal return or KeyboardInterrupt, after exactly that many attempts; with a negative delay and an earlier exception it ends at the first wait instead |
| `Restart.ExhaustedIff` | stream.py:292-299 | The loop gives up on the attempt limit if and only if the maximum is positive, the first `maximum` attempts all raised, and the delay is not negative unless the maximum is 1 |
| `Restart.UnlimitedKeepsRetrying` | stream.py:281-296 | With `-1` and a delay that is not negative, every exception leads to a wait and another attempt, so a run of exceptions never ends the loop by itself; with a negative delay the first exception ends it at the wait |
| `Restart.CrashAddsOneAttempt` | stream.py:281-296 | With a delay that is not negative, one more exception before a run adds exactly one attempt and one wait, and keeps the stop reason; with a negative delay the run ends at that wait after one attempt |
| `Restart.SleepRejectedIff` | stream.py:292-296 | The loop ends with `time.sleep` raising `ValueError` if and only if the delay is negative and the first attempt raised with attempts left |
| `Monitoring.StreamMonitor.constructor` | stream.py:28-32 | The monitor is enabled only when `monitoring.enabled` is true and psutil is available; the interval defaults to 30 and the log file to `stream_monitor.log`; `last_log_time` starts at 0 |
| `Monitoring.StreamMonitor.IsDue` | stream.py:44-48 | The guard of `log_stats`: enabled and at least `log_interval` seconds since `last_log_time`; `LogStats` states its effect |
| `Monitoring.StreamMonitor.LogStats` | stream.py:42-51 | Emits exactly when enabled and `now - last_log_time >= log_interval`, and then sets `last_log_time` to `now`; otherwise nothing changes; consecutive emissions stay at least `log_interval` apart |
| `Monitoring.TwoSamples` | stream.py:44-51 | Two calls in a row that both emit are at least `log_interval` apart, and a disabled monitor emits neither time |

## Left out

- Process handling in `start_stream` and `stop_stream` (stream.py:205-273) is left out: `Popen`, `poll`, `terminate`, `kill`, `wait`, reading stderr, and the 32-second and 1-second sleeps. This is process I/O and timing. Each call of `start_stream` is only the way it ended.
- The `time.sleep(delay)` between attempts is recorded as an entry in `waits`, not performed. The delay is an integer; a JSON float delay such as 2.5 cannot be expressed. Python raises a KeyboardInterrupt during that sleep inside the `except` handler, so it would escape `run_with_auto_restart`. This model does not capture that case.
- The CPU and memory sampling with psutil, the `logging` set-up and the printed messages (stream.py:34-40, 53-72) are foreign library calls and float figures. Only the rate-limit bookkeeping is modelled. The `process_pid` argument of `log_stats` affects only those figures, so it is not a parameter.
- Clock readings are integers (`now`); `time.time()` returns a float.
- `keyframe_interval` is an integer. A JSON float such as 2.5 would make `str(gop_size)` print `75.0`, which is not modelled.
- `load_config` and `main` are left out: JSON loading, the `os.path.exists` check on the configuration file, `sys.exit`, the banner and the interactive `input()` menu (stream.py:85-93, 302-332). A missing JSON key (a `KeyError` in Python) cannot be expressed, because every required field of the records is present. A key present with the JSON value `null` is treated like an absent key. In Python, `.get` returns that `None`: a `null` `maxrate` would put `None` into the command, and a `null` `keyframe_interval` would raise a `TypeError`. The exits of `validate_config` are the `Fail` outcomes.
- The auxiliary scripts `debug_stream.py`, `bandwidth_test.py` and `test_crossfade.py` are left out. They are one-shot shell-outs to `ping`, `ps`, `ffprobe` and ffmpeg, with float arithmetic and printing, and are not on the streamer's command path.
- `FfmpegCommand.CopyOmitsEncoderOptions` and `FfmpegCommand.TuneIff` state that an option is absent as an option token. A configured value spelled like the option, such as a file named `-tune`, still gives a string equal to that option's text, in a value position.

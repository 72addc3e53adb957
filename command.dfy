/**
 * `build_ffmpeg_command`: the argument vector handed to ffmpeg. The source
 * grows one local list with successive `extend` calls; here each call is one
 * segment and the command is their concatenation in the same order. Each
 * argument is built as a token that records whether ffmpeg reads it as an
 * option name or as a word (the program name, an option's value, the output
 * URL); `Command` renders the tokens as the strings the source produces.
 */
module FfmpegCommand {
  import opened Wrappers
  import opened StreamConfig
  import opened Decimal

  /** The ffmpeg options the builder writes. */
  datatype Opt =
    | Probesize | AnalyzeDuration | StreamLoop | Input | Map | VideoCodec
    | Preset | VideoBitrate | MaxRateOpt | BufSize | Size | FrameRate | Gop | KeyintMin
    | ScThreshold | PixFmt | Profile | Level | Tune | Refs | BFrames
    | AudioCodec | AudioBitrate | AudioRate | Format | FlvFlags | MaxMuxingQueueSize | FFlags
    | Reconnect | ReconnectStreamed | ReconnectDelayMax

  function Spelling(o: Opt): string {
    match o
    case Probesize => "-probesize"
    case AnalyzeDuration => "-analyzeduration"
    case StreamLoop => "-stream_loop"
    case Input => "-i"
    case Map => "-map"
    case VideoCodec => "-c:v"
    case Preset => "-preset"
    case VideoBitrate => "-b:v"
    case MaxRateOpt => "-maxrate"
    case BufSize => "-bufsize"
    case Size => "-s"
    case FrameRate => "-r"
    case Gop => "-g"
    case KeyintMin => "-keyint_min"
    case ScThreshold => "-sc_threshold"
    case PixFmt => "-pix_fmt"
    case Profile => "-profile:v"
    case Level => "-level"
    case Tune => "-tune"
    case Refs => "-refs"
    case BFrames => "-bf"
    case AudioCodec => "-c:a"
    case AudioBitrate => "-b:a"
    case AudioRate => "-ar"
    case Format => "-f"
    case FlvFlags => "-flvflags"
    case MaxMuxingQueueSize => "-max_muxing_queue_size"
    case FFlags => "-fflags"
    case Reconnect => "-reconnect"
    case ReconnectStreamed => "-reconnect_streamed"
    case ReconnectDelayMax => "-reconnect_delay_max"
  }

  /** One argument: an option name, or any other word. */
  datatype Arg = Flag(opt: Opt) | Word(text: string)

  function Text(a: Arg): string {
    match a
    case Flag(o) => Spelling(o)
    case Word(t) => t
  }

  /** The strings of the tokens, in order. */
  function Render(args: seq<Arg>): seq<string> {
    seq(|args|, i requires 0 <= i < |args| => Text(args[i]))
  }


  /** The presets that get the smaller reference-frame and B-frame counts. */
  const FastPresets: seq<string> := ["veryfast", "faster", "fast"]

  /** The options only a re-encoding command carries. */
  predicate IsEncoderOption(o: Opt) {
    match o
    case Preset | VideoBitrate | MaxRateOpt | Size | FrameRate | Gop | KeyintMin
      | ScThreshold | PixFmt | Profile | Level | Tune | Refs | BFrames => true
    case _ => false
  }

  /** The ingest URL: endpoint, a slash, the stream key. */
  function StreamUrl(c: Config): string {
    c.youtube.rtmpUrl + "/" + c.youtube.streamKey
  }

  /** Frames between keyframes: 30 fps times the keyframe interval in seconds (default 2). */
  function GopSize(v: VideoSettings): int {
    30 * v.keyframeInterval.GetOr(DefaultKeyframeInterval)
  }

  /** The value after `-maxrate`: `maxrate` when given, else the target bitrate. */
  function MaxRate(v: VideoSettings): string {
    v.maxrate.GetOr(v.bitrate)
  }

  /** Python's `if tune:` on the optional `tune` key. */
  predicate HasTune(v: VideoSettings) {
    v.tune.Some? && v.tune.value != ""
  }

  /** The two looping inputs and the video stream selection. */
  function InputArgs(c: Config): seq<Arg> {
    [ Word("ffmpeg"),
      Flag(Probesize), Word("50M"),
      Flag(AnalyzeDuration), Word("30000000"),
      Flag(StreamLoop), Word("-1"),
      Flag(Input), Word(c.video.file),
      Flag(StreamLoop), Word("-1"),
      Flag(Input), Word(c.audio.file),
      Flag(Map), Word("0:v:0"),
      Flag(VideoCodec), Word(c.video.codec) ]
  }

  /** The re-encoding parameters. */
  function EncoderArgs(c: Config): seq<Arg> {
    var gop := IntToString(GopSize(c.video));
    [ Flag(Preset), Word(c.video.preset),
      Flag(VideoBitrate), Word(c.video.bitrate),
      Flag(MaxRateOpt), Word(MaxRate(c.video)),
      Flag(BufSize), Word(c.streaming.bufferSize),
      Flag(Size), Word(c.video.resolution),
      Flag(FrameRate), Word("30"),
      Flag(Gop), Word(gop),
      Flag(KeyintMin), Word(gop),
      Flag(ScThreshold), Word("0"),
      Flag(PixFmt), Word("yuv420p"),
      Flag(Profile), Word("high"),
      Flag(Level), Word("4.2") ]
  }

  function TuneArgs(v: VideoSettings): seq<Arg> {
    if HasTune(v) then [Flag(Tune), Word(v.tune.value)] else []
  }

  /** Two-tier reference-frame / B-frame policy. */
  function FrameArgs(v: VideoSettings): seq<Arg> {
    if v.preset in FastPresets then [Flag(Refs), Word("2"), Flag(BFrames), Word("2")]
    else [Flag(Refs), Word("3"), Flag(BFrames), Word("3")]
  }

  /** Audio, container and reconnection settings, then the destination. */
  function OutputArgs(c: Config): seq<Arg> {
    [ Flag(Map), Word("1:a:0"),
      Flag(AudioCodec), Word(c.audio.codec),
      Flag(AudioBitrate), Word(c.audio.bitrate),
      Flag(AudioRate), Word("48000"),
      Flag(Format), Word("flv"),
      Flag(FlvFlags), Word("no_duration_filesize"),
      Flag(MaxMuxingQueueSize), Word("9999"),
      Flag(FFlags), Word("+genpts"),
      Flag(Reconnect), Word("1"),
      Flag(ReconnectStreamed), Word("1"),
      Flag(ReconnectDelayMax), Word("5"),
      Word(StreamUrl(c)) ]
  }

  /** `build_ffmpeg_command`, as tokens. */
  function Args(c: Config): seq<Arg> {
    InputArgs(c)
    + (if c.video.codec != "copy" then EncoderArgs(c) + TuneArgs(c.video) + FrameArgs(c.video) else [])
    + (if c.video.codec == "copy" then [Flag(BufSize), Word(c.streaming.bufferSize)] else [])
    + OutputArgs(c)
  }

  /** `build_ffmpeg_command`, as the list of strings it returns. */
  function Command(c: Config): seq<string> {
    Render(Args(c))
  }

  // ---------------------------------------------------------------- shape

  /** With codec `copy` the command is the inputs, one `-bufsize` hint and the output settings: 42 arguments. */
  lemma CopyArgs(c: Config)
    requires c.video.codec == "copy"
    ensures Args(c) == InputArgs(c) + [Flag(BufSize), Word(c.streaming.bufferSize)] + OutputArgs(c)
    ensures |Args(c)| == |Command(c)| == 42
  {
  }

  /**
   * When re-encoding, the command is the inputs, the encoder settings, the
   * optional tune, the frame policy and the output settings: 68 arguments,
   * or 70 with a tune.
   */
  lemma EncodeArgs(c: Config)
    requires c.video.codec != "copy"
    ensures Args(c) == InputArgs(c) + EncoderArgs(c) + TuneArgs(c.video) + FrameArgs(c.video) + OutputArgs(c)
    ensures |Args(c)| == |Command(c)| == (if HasTune(c.video) then 70 else 68)
  {
  }

  /** The strings of a slice are the slice of the strings. */
  lemma RenderSlice(args: seq<Arg>, lo: nat, hi: nat)
    requires lo <= hi <= |args|
    ensures Render(args)[lo..hi] == Render(args[lo..hi])
  {
  }

  /** Every command opens with the probe settings, the two looping inputs (video first) and the video codec. */
  lemma CommandPrefix(c: Config)
    ensures |Command(c)| >= 17
    ensures Command(c)[..5] == ["ffmpeg", "-probesize", "50M", "-analyzeduration", "30000000"]
    ensures Command(c)[5..13] == ["-stream_loop", "-1", "-i", c.video.file, "-stream_loop", "-1", "-i", c.audio.file]
    ensures Command(c)[13..17] == ["-map", "0:v:0", "-c:v", c.video.codec]
  {
    var args, inputs := Args(c), InputArgs(c);
    InputsFirst(c);
    assert args[..5] == inputs[..5];
    assert args[5..13] == inputs[5..13];
    assert args[13..17] == inputs[13..];
    RenderSlice(args, 0, 5);
    RenderSlice(args, 5, 13);
    RenderSlice(args, 13, 17);
    ProbeArgsText(c);
    LoopArgsText(c);
    MapArgsText(c);
  }

  lemma InputsFirst(c: Config)
    ensures |Args(c)| >= 17 && Args(c)[..17] == InputArgs(c)
  {
  }

  lemma ProbeArgsText(c: Config)
    ensures Render(InputArgs(c)[..5]) == ["ffmpeg", "-probesize", "50M", "-analyzeduration", "30000000"]
  {
  }

  lemma LoopArgsText(c: Config)
    ensures Render(InputArgs(c)[5..13]) ==
              ["-stream_loop", "-1", "-i", c.video.file, "-stream_loop", "-1", "-i", c.audio.file]
  {
  }

  lemma MapArgsText(c: Config)
    ensures Render(InputArgs(c)[13..]) == ["-map", "0:v:0", "-c:v", c.video.codec]
  {
  }

  lemma AudioArgsText(c: Config)
    ensures Render(OutputArgs(c)[..8]) ==
              ["-map", "1:a:0", "-c:a", c.audio.codec, "-b:a", c.audio.bitrate, "-ar", "48000"]
  {
  }

  lemma MuxerArgsText(c: Config)
    ensures Render(OutputArgs(c)[8..16]) ==
              ["-f", "flv", "-flvflags", "no_duration_filesize", "-max_muxing_queue_size", "9999", "-fflags", "+genpts"]
  {
  }

  lemma ReconnectArgsText(c: Config)
    ensures Render(OutputArgs(c)[16..22]) ==
              ["-reconnect", "1", "-reconnect_streamed", "1", "-reconnect_delay_max", "5"]
  {
  }

  /** Every command closes with the audio, flv and reconnect settings; the last argument is the ingest URL. */
  lemma CommandSuffix(c: Config)
    ensures |Command(c)| >= 23
    ensures var n := |Command(c)|;
      && Command(c)[n - 23..n - 15] ==
           ["-map", "1:a:0", "-c:a", c.audio.codec, "-b:a", c.audio.bitrate, "-ar", "48000"]
      && Command(c)[n - 15..n - 7] ==
           ["-f", "flv", "-flvflags", "no_duration_filesize", "-max_muxing_queue_size", "9999", "-fflags", "+genpts"]
      && Command(c)[n - 7..n - 1] ==
           ["-reconnect", "1", "-reconnect_streamed", "1", "-reconnect_delay_max", "5"]
      && Command(c)[n - 1] == c.youtube.rtmpUrl + "/" + c.youtube.streamKey
  {
    var args := Args(c);
    var n := |args|;
    var out := OutputArgs(c);
    OutputsLast(c);
    assert args[n - 23..n - 15] == out[..8];
    assert args[n - 15..n - 7] == out[8..16];
    assert args[n - 7..n - 1] == out[16..22];
    RenderSlice(args, n - 23, n - 15);
    RenderSlice(args, n - 15, n - 7);
    RenderSlice(args, n - 7, n - 1);
    AudioArgsText(c);
    MuxerArgsText(c);
    ReconnectArgsText(c);
  }

  lemma OutputsLast(c: Config)
    ensures |Args(c)| >= 23 && Args(c)[|Args(c)| - 23..] == OutputArgs(c)
  {
  }

  /** Option names at even offsets, each followed by one word. */
  ghost predicate Paired(args: seq<Arg>) {
    |args| % 2 == 0 && forall i :: 0 <= i < |args| ==> (args[i].Flag? <==> i % 2 == 0)
  }

  lemma ParityShift(j: int, n: int)
    requires n % 2 == 0
    ensures (j + n) % 2 == j % 2
  {
  }

  lemma PairedConcat(a: seq<Arg>, b: seq<Arg>)
    requires Paired(a) && Paired(b)
    ensures Paired(a + b)
  {
    forall i | 0 <= i < |a + b| ensures (a + b)[i].Flag? <==> i % 2 == 0 {
      if i < |a| {
        assert (a + b)[i] == a[i];
      } else {
        var j := i - |a|;
        assert (a + b)[i] == b[j];
        ParityShift(j, |a|);
      }
    }
    ParityShift(|a|, |b|);
  }

  /** The part of the command between the program name and the URL. */
  function Body(c: Config): seq<Arg> {
    InputArgs(c)[1..]
    + (if c.video.codec != "copy" then EncoderArgs(c) + TuneArgs(c.video) + FrameArgs(c.video) else [])
    + (if c.video.codec == "copy" then [Flag(BufSize), Word(c.streaming.bufferSize)] else [])
    + OutputArgs(c)[..22]
  }

  lemma InputsPaired(c: Config)
    ensures Paired(InputArgs(c)[1..])
  {
  }

  lemma OutputsPaired(c: Config)
    ensures Paired(OutputArgs(c)[..22])
  {
  }

  lemma EncoderPaired(c: Config)
    ensures Paired(EncoderArgs(c) + TuneArgs(c.video) + FrameArgs(c.video))
  {
    assert Paired(EncoderArgs(c));
    assert Paired(TuneArgs(c.video));
    assert Paired(FrameArgs(c.video));
    PairedConcat(EncoderArgs(c), TuneArgs(c.video));
    PairedConcat(EncoderArgs(c) + TuneArgs(c.video), FrameArgs(c.video));
  }

  lemma BodyPaired(c: Config)
    ensures Paired(Body(c))
  {
    var inputs := InputArgs(c)[1..];
    var outputs := OutputArgs(c)[..22];
    var encode := if c.video.codec != "copy" then EncoderArgs(c) + TuneArgs(c.video) + FrameArgs(c.video) else [];
    var copy := if c.video.codec == "copy" then [Flag(BufSize), Word(c.streaming.bufferSize)] else [];
    InputsPaired(c);
    OutputsPaired(c);
    EncoderPaired(c);
    assert Paired(encode);
    assert Paired(copy);
    PairedConcat(inputs, encode);
    PairedConcat(inputs + encode, copy);
    PairedConcat(inputs + encode + copy, outputs);
    assert Body(c) == inputs + encode + copy + outputs;
  }

  /**
   * Every command is the program name, then option/value pairs, then the
   * URL: inside the command, options sit exactly at the odd positions, so
   * each option takes exactly one value.
   */
  lemma OptionsAlternateWithValues(c: Config)
    ensures |Args(c)| % 2 == 0
    ensures Args(c)[0] == Word("ffmpeg") && Args(c)[|Args(c)| - 1] == Word(StreamUrl(c))
    ensures forall i :: 0 < i < |Args(c)| - 1 ==> (Args(c)[i].Flag? <==> i % 2 == 1)
  {
    BodyPaired(c);
    ArgsAroundBody(c);
    PairedBetweenWords(Body(c), Word("ffmpeg"), Word(StreamUrl(c)));
  }

  /** Framing option/value pairs by two words puts the options at the odd positions inside. */
  lemma PairedBetweenWords(body: seq<Arg>, first: Arg, last: Arg)
    requires Paired(body)
    ensures |[first] + body + [last]| % 2 == 0
    ensures forall i :: 0 < i < |body| + 1 ==> (([first] + body + [last])[i].Flag? <==> i % 2 == 1)
  {
    var args := [first] + body + [last];
    forall i | 0 < i < |body| + 1 ensures args[i].Flag? <==> i % 2 == 1 {
      assert args[i] == body[i - 1];
      assert (i - 1) % 2 == 0 <==> i % 2 == 1;
    }
  }

  lemma ArgsAroundBody(c: Config)
    ensures Args(c) == [Word("ffmpeg")] + Body(c) + [Word(StreamUrl(c))]
  {
    var inputs, outputs := InputArgs(c), OutputArgs(c);
    var encode := if c.video.codec != "copy" then EncoderArgs(c) + TuneArgs(c.video) + FrameArgs(c.video) else [];
    var copy := if c.video.codec == "copy" then [Flag(BufSize), Word(c.streaming.bufferSize)] else [];
    InputsAroundHead(c);
    OutputsAroundUrl(c);
    Regroup(Word("ffmpeg"), inputs[1..], encode, copy, outputs[..22], Word(StreamUrl(c)));
  }

  lemma InputsAroundHead(c: Config)
    ensures InputArgs(c) == [Word("ffmpeg")] + InputArgs(c)[1..]
  {
  }

  lemma OutputsAroundUrl(c: Config)
    ensures OutputArgs(c) == OutputArgs(c)[..22] + [Word(StreamUrl(c))]
  {
  }

  lemma Regroup(h: Arg, a: seq<Arg>, b: seq<Arg>, m: seq<Arg>, o: seq<Arg>, t: Arg)
    ensures ([h] + a) + b + m + (o + [t]) == [h] + (a + b + m + o) + [t]
  {
  }

  // ---------------------------------------------------------------- copy branch

  /** No argument is a re-encoding option. */
  predicate NoEncoderOption(args: seq<Arg>) {
    forall i :: 0 <= i < |args| && args[i].Flag? ==> !IsEncoderOption(args[i].opt)
  }

  lemma AbsentOption(args: seq<Arg>, o: Opt)
    requires NoEncoderOption(args) && IsEncoderOption(o)
    ensures Flag(o) !in args
  {
  }

  lemma TuneAbsentFromSettings(c: Config)
    requires !HasTune(c.video)
    ensures Flag(Tune) !in EncoderArgs(c) + TuneArgs(c.video) + FrameArgs(c.video)
  {
    assert TuneArgs(c.video) == [];
  }

  lemma InputsHaveNoEncoderOption(c: Config)
    ensures NoEncoderOption(InputArgs(c)) && Flag(BufSize) !in InputArgs(c)
  {
  }

  lemma OutputsHaveNoEncoderOption(c: Config)
    ensures NoEncoderOption(OutputArgs(c)) && Flag(BufSize) !in OutputArgs(c)
  {
  }

  lemma NoEncoderOptionConcat(a: seq<Arg>, b: seq<Arg>)
    requires NoEncoderOption(a) && NoEncoderOption(b)
    ensures NoEncoderOption(a + b)
  {
    forall i | 0 <= i < |a + b| && (a + b)[i].Flag? ensures !IsEncoderOption((a + b)[i].opt) {
      if i < |a| {
        assert (a + b)[i] == a[i];
      } else {
        assert (a + b)[i] == b[i - |a|];
      }
    }
  }

  /** An element absent from both ends and from the rest of the middle occurs only at the middle's head. */
  lemma OnlyAtMiddleHead(a: seq<Arg>, m: seq<Arg>, b: seq<Arg>, x: Arg)
    requires |m| > 0 && x !in a && x !in m[1..] && x !in b
    ensures forall i :: 0 <= i < |a + m + b| && (a + m + b)[i] == x ==> i == |a|
  {
  }

  /**
   * With codec `copy` no re-encoding option occurs anywhere, and `-bufsize`
   * occurs exactly once, at index 17, followed by the configured buffer size.
   */
  lemma CopyOmitsEncoderOptions(c: Config)
    requires c.video.codec == "copy"
    ensures forall o :: IsEncoderOption(o) ==> Flag(o) !in Args(c)
    ensures Args(c)[17] == Flag(BufSize) && Args(c)[18] == Word(c.streaming.bufferSize)
    ensures Command(c)[17] == "-bufsize" && Command(c)[18] == c.streaming.bufferSize
    ensures forall i :: 0 <= i < |Args(c)| && Args(c)[i] == Flag(BufSize) ==> i == 17
  {
    CopyArgsHaveNoEncoderOption(c);
    CopyBufSizeOnce(c);
  }

  lemma CopyArgsHaveNoEncoderOption(c: Config)
    requires c.video.codec == "copy"
    ensures forall o :: IsEncoderOption(o) ==> Flag(o) !in Args(c)
  {
    var inputs, hint, outputs := InputArgs(c), [Flag(BufSize), Word(c.streaming.bufferSize)], OutputArgs(c);
    CopyArgs(c);
    InputsHaveNoEncoderOption(c);
    OutputsHaveNoEncoderOption(c);
    assert NoEncoderOption(hint);
    NoEncoderOptionConcat(inputs, hint);
    NoEncoderOptionConcat(inputs + hint, outputs);
    forall o | IsEncoderOption(o) ensures Flag(o) !in Args(c) {
      AbsentOption(inputs + hint + outputs, o);
    }
  }

  lemma CopyBufSizeOnce(c: Config)
    requires c.video.codec == "copy"
    ensures |Args(c)| > 18
    ensures Args(c)[17] == Flag(BufSize) && Args(c)[18] == Word(c.streaming.bufferSize)
    ensures Command(c)[17] == "-bufsize" && Command(c)[18] == c.streaming.bufferSize
    ensures forall i :: 0 <= i < |Args(c)| && Args(c)[i] == Flag(BufSize) ==> i == 17
  {
    var inputs, hint, outputs := InputArgs(c), [Flag(BufSize), Word(c.streaming.bufferSize)], OutputArgs(c);
    CopyArgs(c);
    InputsHaveNoEncoderOption(c);
    OutputsHaveNoEncoderOption(c);
    assert hint[1..] == [Word(c.streaming.bufferSize)];
    OnlyAtMiddleHead(inputs, hint, outputs, Flag(BufSize));
  }

  // ---------------------------------------------------------------- encode branch

  /**
   * When re-encoding, the settings block right after the inputs: preset,
   * target and maximum bitrate, buffer size, resolution, 30 fps, the GOP as
   * both maximum and minimum keyframe interval, scene-cut detection off and
   * the fixed pixel format, profile and level.
   */
  lemma EncoderSettings(c: Config)
    requires c.video.codec != "copy"
    ensures |Args(c)| >= 41
    ensures Args(c)[17..41] ==
      [ Flag(Preset), Word(c.video.preset), Flag(VideoBitrate), Word(c.video.bitrate),
        Flag(MaxRateOpt), Word(MaxRate(c.video)), Flag(BufSize), Word(c.streaming.bufferSize),
        Flag(Size), Word(c.video.resolution), Flag(FrameRate), Word("30"),
        Flag(Gop), Word(IntToString(GopSize(c.video))), Flag(KeyintMin), Word(IntToString(GopSize(c.video))),
        Flag(ScThreshold), Word("0"), Flag(PixFmt), Word("yuv420p"),
        Flag(Profile), Word("high"), Flag(Level), Word("4.2") ]
  {
    EncoderAt(c);
  }

  /** When re-encoding, the encoder settings are the arguments from index 17 on. */
  lemma EncoderAt(c: Config)
    requires c.video.codec != "copy"
    ensures |Args(c)| >= 41 && Args(c)[17..41] == EncoderArgs(c)
  {
    EncodeArgs(c);
  }

  /**
   * When re-encoding, `-g` and `-keyint_min` are each followed by the decimal
   * text of 30 times the keyframe interval, which reads back as that number
   * and is "60" when the interval is not configured.
   */
  lemma GopArguments(c: Config)
    requires c.video.codec != "copy"
    ensures |Args(c)| > 32
    ensures Args(c)[29] == Flag(Gop) && Args(c)[31] == Flag(KeyintMin)
    ensures Command(c)[30] == Command(c)[32] == IntToString(30 * c.video.keyframeInterval.GetOr(2))
    ensures ParseInt(Command(c)[30]) == Some(30 * c.video.keyframeInterval.GetOr(2))
    ensures c.video.keyframeInterval.None? ==> Command(c)[30] == "60"
  {
    EncoderAt(c);
    assert Args(c)[30] == EncoderArgs(c)[13] && Args(c)[32] == EncoderArgs(c)[15];
    ParseIntToString(GopSize(c.video));
    SixtyText();
  }

  /** When re-encoding, `-maxrate` is followed by `maxrate` if configured, otherwise by the target bitrate. */
  lemma MaxRateArgument(c: Config)
    requires c.video.codec != "copy"
    ensures |Args(c)| > 22
    ensures Args(c)[19] == Flag(VideoBitrate) && Args(c)[20] == Word(c.video.bitrate)
    ensures Args(c)[21] == Flag(MaxRateOpt)
    ensures Args(c)[22] == Word(if c.video.maxrate.Some? then c.video.maxrate.value else c.video.bitrate)
  {
    EncoderAt(c);
    var enc := EncoderArgs(c);
    assert enc[2] == Flag(VideoBitrate) && enc[3] == Word(c.video.bitrate);
    assert enc[4] == Flag(MaxRateOpt) && enc[5] == Word(MaxRate(c.video));
    assert Args(c)[19] == enc[2] && Args(c)[20] == enc[3] && Args(c)[21] == enc[4] && Args(c)[22] == enc[5];
  }

  /**
   * The option `-tune` occurs if and only if the command re-encodes and a
   * non-empty tune is configured; it then follows the encoder settings,
   * with the tune as its value.
   */
  lemma TuneIff(c: Config)
    ensures Flag(Tune) in Args(c) <==> c.video.codec != "copy" && HasTune(c.video)
    ensures c.video.codec != "copy" && HasTune(c.video) ==>
              |Args(c)| > 42 && Args(c)[41] == Flag(Tune) && Args(c)[42] == Word(c.video.tune.value)
  {
    if c.video.codec == "copy" {
      CopyHasNoTune(c);
    } else if HasTune(c.video) {
      TunePresent(c);
    } else {
      TuneAbsent(c);
    }
  }

  lemma TunePresent(c: Config)
    requires c.video.codec != "copy" && HasTune(c.video)
    ensures |Args(c)| > 42 && Args(c)[41] == Flag(Tune) && Args(c)[42] == Word(c.video.tune.value)
    ensures Flag(Tune) in Args(c)
  {
    EncodeArgs(c);
  }

  lemma CopyHasNoTune(c: Config)
    requires c.video.codec == "copy"
    ensures Flag(Tune) !in Args(c)
  {
    CopyOmitsEncoderOptions(c);
    assert IsEncoderOption(Tune);
  }

  lemma TuneAbsent(c: Config)
    requires c.video.codec != "copy" && !HasTune(c.video)
    ensures Flag(Tune) !in Args(c)
  {
    EncodeArgs(c);
    InputsHaveNoEncoderOption(c);
    OutputsHaveNoEncoderOption(c);
    AbsentOption(InputArgs(c), Tune);
    AbsentOption(OutputArgs(c), Tune);
    TuneAbsentFromSettings(c);
  }

  /**
   * When re-encoding, `-refs` and `-bf` come right after the encoder settings
   * (and the tune pair), both `2` for the presets veryfast, faster and fast
   * and both `3` for every other preset.
   */
  lemma ReferenceFrameArguments(c: Config)
    requires c.video.codec != "copy"
    ensures var k := if HasTune(c.video) then 43 else 41;
            var n := if c.video.preset in {"veryfast", "faster", "fast"} then "2" else "3";
            k + 4 <= |Args(c)| && Args(c)[k..k + 4] == [Flag(Refs), Word(n), Flag(BFrames), Word(n)]
  {
    EncodeArgs(c);
    var k := if HasTune(c.video) then 43 else 41;
    assert Args(c)[k..k + 4] == FrameArgs(c.video);
  }
}

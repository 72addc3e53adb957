/**
 * The streamer's configuration (the JSON document `config.json`) as typed
 * records, the defaults the streamer substitutes for absent keys, and the
 * start-up validation `validate_config`.
 */
module StreamConfig {
  import opened Wrappers

  /** The `video` object. The last three keys are optional. */
  datatype VideoSettings = VideoSettings(
    file: string,
    codec: string,
    bitrate: string,
    resolution: string,
    preset: string,
    keyframeInterval: Option<int>,
    maxrate: Option<string>,
    tune: Option<string>)

  /** The `audio` object. */
  datatype AudioSettings = AudioSettings(file: string, codec: string, bitrate: string)

  /** The `streaming` object; the restart policy keys are optional. */
  datatype StreamingSettings = StreamingSettings(
    bufferSize: string,
    maxReconnectAttempts: Option<int>,
    reconnectDelaySeconds: Option<int>)

  /** The `youtube` object: the ingest endpoint and the stream key. */
  datatype YoutubeSettings = YoutubeSettings(rtmpUrl: string, streamKey: string)

  /** The optional `monitoring` object, every key of which is optional. */
  datatype MonitoringSettings = MonitoringSettings(
    enabled: Option<bool>,
    logIntervalSeconds: Option<int>,
    logFile: Option<string>)

  datatype Config = Config(
    video: VideoSettings,
    audio: AudioSettings,
    streaming: StreamingSettings,
    youtube: YoutubeSettings,
    monitoring: Option<MonitoringSettings>)

  /** The stream key shipped in the example configuration. */
  const PlaceholderStreamKey: string := "YOUR_STREAM_KEY_HERE"

  const DefaultKeyframeInterval: int := 2
  const DefaultMaxReconnectAttempts: int := 10
  const DefaultReconnectDelaySeconds: int := 5
  const DefaultLogIntervalSeconds: int := 30
  const DefaultLogFile: string := "stream_monitor.log"

  /** Why the streamer refuses to start; each one ends the program with exit status 1. */
  datatype ConfigError =
    | VideoFileMissing(path: string)
    | AudioFileMissing(path: string)
    | StreamKeyNotSet

  /** The three start-up requirements together. */
  predicate IsValidConfig(c: Config, fileExists: string -> bool) {
    fileExists(c.video.file) && fileExists(c.audio.file) && c.youtube.streamKey != PlaceholderStreamKey
  }

  /**
   * `validate_config`: the video file is checked first, then the audio file,
   * then the stream key; the first failing check is the one reported.
   * `fileExists` stands for `os.path.exists`.
   */
  function ValidateConfig(c: Config, fileExists: string -> bool): (r: Outcome<ConfigError>)
    ensures r.Pass? <==> IsValidConfig(c, fileExists)
    ensures r == Fail(VideoFileMissing(c.video.file)) <==> !fileExists(c.video.file)
    ensures r == Fail(AudioFileMissing(c.audio.file)) <==>
              fileExists(c.video.file) && !fileExists(c.audio.file)
    ensures r == Fail(StreamKeyNotSet) <==>
              fileExists(c.video.file) && fileExists(c.audio.file) && c.youtube.streamKey == PlaceholderStreamKey
  {
    if !fileExists(c.video.file) then Fail(VideoFileMissing(c.video.file))
    else if !fileExists(c.audio.file) then Fail(AudioFileMissing(c.audio.file))
    else if c.youtube.streamKey == PlaceholderStreamKey then Fail(StreamKeyNotSet)
    else Pass
  }
}

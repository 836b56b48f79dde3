/** Rule evaluation: which incident a signal detects and which incidents it recovers. */
module Detection {
  import opened Wrap
  import opened Incidents

  /** One constructor per metric name the rules look at. */
  datatype Metric =
    | HeartbeatAgeSec | EncoderProcessAlive | EncoderProcessExitedEvent
    | RecorderWriteBitrate | RecorderFileSize | RecorderDiskFree | HostDiskFree
    | ArchivePackageStatus | RecorderRemuxDuration | GDriveUploadStatus | GDriveUploadRetryCount
    | ArchivePackageFailedEvent | ArchiveUploadFailedEvent
    | SrtPacketLoss | RtpPacketLoss | RtmpReconnectCount | EncoderRtmpReconnectCount
    | EncoderOutputFps | EncoderOutputBitrate | EncoderDroppedFrames | EncoderAudioSilence | EncoderAudioClipping
    | DiscordAudioReceiving | DiscordForwardActive | DiscordForwardErrors | DiscordLastForwardAge
    | DiscordReconnectCount | DiscordVoiceDisconnectCount | MediaInputTimeout
    | WorkerSendFailures | DiscordWorkerPublishFailures
    | StreamStartDuration | StreamStopDuration | StreamStatus
    | OtherMetric

  /** The metric a name stands for: one of the cumulative counters, or one of the others. */
  function MetricOf(name: string): Metric {
    if CounterOf(name) != OtherMetric then CounterOf(name)
    else if ServiceOf(name) != OtherMetric then ServiceOf(name)
    else if MediaOf(name) != OtherMetric then MediaOf(name)
    else StreamOf(name)
  }

  predicate IsCounter(m: Metric) {
    || m.RtmpReconnectCount? || m.EncoderRtmpReconnectCount? || m.EncoderDroppedFrames? || m.EncoderAudioClipping?
    || m.DiscordReconnectCount? || m.DiscordVoiceDisconnectCount? || m.WorkerSendFailures? || m.DiscordWorkerPublishFailures?
    || m.DiscordForwardErrors?
  }

  function CounterOf(name: string): (m: Metric)
    ensures m.OtherMetric? || IsCounter(m)
  {
    if name == "encoder.dropped_frames_total" then EncoderDroppedFrames
    else if name == "encoder.audio_clipping_total" then EncoderAudioClipping
    else if name == "worker.event_send_failures_total" then WorkerSendFailures
    else if name == "discord.worker_event_publish_failures_total" then DiscordWorkerPublishFailures
    else if name == "discord.audio_forward_errors_total" then DiscordForwardErrors
    else if name == "rtmp.reconnect_count" then RtmpReconnectCount
    else if name == "encoder.rtmp_reconnect_count" then EncoderRtmpReconnectCount
    else if name == "discord.reconnect_count" then DiscordReconnectCount
    else if name == "discord.voice_disconnect_count" then DiscordVoiceDisconnectCount
    else OtherMetric
  }

  function ServiceOf(name: string): Metric {
    if name == "heartbeat.age_sec" then HeartbeatAgeSec
    else if name == "encoder.process_alive" then EncoderProcessAlive
    else if name == "encoder.process.exited" then EncoderProcessExitedEvent
    else if name == "recorder.write_bitrate_kbps" then RecorderWriteBitrate
    else if name == "recorder.file_size_bytes" then RecorderFileSize
    else if name == "recorder.disk_free_bytes" then RecorderDiskFree
    else if name == "host.disk_free_bytes" then HostDiskFree
    else if name == "archive.package_status" then ArchivePackageStatus
    else OtherMetric
  }

  function MediaOf(name: string): Metric {
    if name == "recorder.remux_duration_ms" then RecorderRemuxDuration
    else if name == "gdrive.upload_status" then GDriveUploadStatus
    else if name == "gdrive.upload_retry_count" then GDriveUploadRetryCount
    else if name == "archive.package.failed" then ArchivePackageFailedEvent
    else if name == "archive.upload.failed" then ArchiveUploadFailedEvent
    else if name == "srt.packet_loss_percent" then SrtPacketLoss
    else if name == "rtp.packet_loss_percent" then RtpPacketLoss
    else if name == "encoder.output_fps" then EncoderOutputFps
    else if name == "encoder.output_bitrate_kbps" then EncoderOutputBitrate
    else OtherMetric
  }

  function StreamOf(name: string): Metric {
    if name == "encoder.audio_silence_sec" then EncoderAudioSilence
    else if name == "discord.audio_receiving" then DiscordAudioReceiving
    else if name == "discord.audio_forward_active" then DiscordForwardActive
    else if name == "discord.audio_last_forward_age_sec" then DiscordLastForwardAge
    else if name == "media.input_timeout_sec" then MediaInputTimeout
    else if name == "stream.start_duration_ms" then StreamStartDuration
    else if name == "stream.stop_duration_ms" then StreamStopDuration
    else if name == "stream.status" then StreamStatus
    else OtherMetric
  }

  lemma ReadAsCounter(name: string)
    requires CounterOf(name) != OtherMetric
    ensures MetricOf(name) == CounterOf(name)
  {
  }

  // Within its group a name is read as a metric exactly if it is the name the services report that metric under.

  lemma CounterNamed(name: string)
    ensures CounterOf(name).EncoderDroppedFrames? ==> name == "encoder.dropped_frames_total"
    ensures CounterOf(name).EncoderAudioClipping? ==> name == "encoder.audio_clipping_total"
    ensures CounterOf(name).WorkerSendFailures? ==> name == "worker.event_send_failures_total"
    ensures CounterOf(name).DiscordWorkerPublishFailures? ==> name == "discord.worker_event_publish_failures_total"
    ensures CounterOf(name).DiscordForwardErrors? ==> name == "discord.audio_forward_errors_total"
    ensures CounterOf(name).RtmpReconnectCount? ==> name == "rtmp.reconnect_count"
    ensures CounterOf(name).EncoderRtmpReconnectCount? ==> name == "encoder.rtmp_reconnect_count"
    ensures CounterOf(name).DiscordReconnectCount? ==> name == "discord.reconnect_count"
    ensures CounterOf(name).DiscordVoiceDisconnectCount? ==> name == "discord.voice_disconnect_count"
  {
  }

  lemma CounterFound()
    ensures CounterOf("encoder.dropped_frames_total") == EncoderDroppedFrames
    ensures CounterOf("encoder.audio_clipping_total") == EncoderAudioClipping
    ensures CounterOf("worker.event_send_failures_total") == WorkerSendFailures
    ensures CounterOf("discord.worker_event_publish_failures_total") == DiscordWorkerPublishFailures
    ensures CounterOf("discord.audio_forward_errors_total") == DiscordForwardErrors
    ensures CounterOf("rtmp.reconnect_count") == RtmpReconnectCount
    ensures CounterOf("encoder.rtmp_reconnect_count") == EncoderRtmpReconnectCount
    ensures CounterOf("discord.reconnect_count") == DiscordReconnectCount
    ensures CounterOf("discord.voice_disconnect_count") == DiscordVoiceDisconnectCount
  {
    assert "encoder.audio_clipping_total"[8] == 'a';
    assert "encoder.dropped_frames_total"[8] == 'd';
    assert "encoder.rtmp_reconnect_count"[8] == 'r';
  }

  lemma ServiceNamed(name: string)
    ensures ServiceOf(name).HeartbeatAgeSec? ==> name == "heartbeat.age_sec"
    ensures ServiceOf(name).EncoderProcessAlive? ==> name == "encoder.process_alive"
    ensures ServiceOf(name).EncoderProcessExitedEvent? ==> name == "encoder.process.exited"
    ensures ServiceOf(name).RecorderWriteBitrate? ==> name == "recorder.write_bitrate_kbps"
    ensures ServiceOf(name).RecorderFileSize? ==> name == "recorder.file_size_bytes"
    ensures ServiceOf(name).RecorderDiskFree? ==> name == "recorder.disk_free_bytes"
    ensures ServiceOf(name).HostDiskFree? ==> name == "host.disk_free_bytes"
    ensures ServiceOf(name).ArchivePackageStatus? ==> name == "archive.package_status"
  {
  }

  lemma ServiceFound()
    ensures ServiceOf("heartbeat.age_sec") == HeartbeatAgeSec
    ensures ServiceOf("encoder.process_alive") == EncoderProcessAlive
    ensures ServiceOf("encoder.process.exited") == EncoderProcessExitedEvent
    ensures ServiceOf("recorder.write_bitrate_kbps") == RecorderWriteBitrate
    ensures ServiceOf("recorder.file_size_bytes") == RecorderFileSize
    ensures ServiceOf("recorder.disk_free_bytes") == RecorderDiskFree
    ensures ServiceOf("host.disk_free_bytes") == HostDiskFree
    ensures ServiceOf("archive.package_status") == ArchivePackageStatus
  {
    assert "archive.package_status"[0] == 'a';
    assert "encoder.process.exited"[0] == 'e';
    assert "recorder.disk_free_bytes"[9] == 'd';
    assert "recorder.file_size_bytes"[9] == 'f';
  }

  lemma MediaNamed(name: string)
    ensures MediaOf(name).RecorderRemuxDuration? ==> name == "recorder.remux_duration_ms"
    ensures MediaOf(name).GDriveUploadStatus? ==> name == "gdrive.upload_status"
    ensures MediaOf(name).GDriveUploadRetryCount? ==> name == "gdrive.upload_retry_count"
    ensures MediaOf(name).ArchivePackageFailedEvent? ==> name == "archive.package.failed"
    ensures MediaOf(name).ArchiveUploadFailedEvent? ==> name == "archive.upload.failed"
    ensures MediaOf(name).SrtPacketLoss? ==> name == "srt.packet_loss_percent"
    ensures MediaOf(name).RtpPacketLoss? ==> name == "rtp.packet_loss_percent"
    ensures MediaOf(name).EncoderOutputFps? ==> name == "encoder.output_fps"
    ensures MediaOf(name).EncoderOutputBitrate? ==> name == "encoder.output_bitrate_kbps"
  {
  }

  lemma MediaFound()
    ensures MediaOf("recorder.remux_duration_ms") == RecorderRemuxDuration
    ensures MediaOf("gdrive.upload_status") == GDriveUploadStatus
    ensures MediaOf("gdrive.upload_retry_count") == GDriveUploadRetryCount
    ensures MediaOf("archive.package.failed") == ArchivePackageFailedEvent
    ensures MediaOf("archive.upload.failed") == ArchiveUploadFailedEvent
    ensures MediaOf("srt.packet_loss_percent") == SrtPacketLoss
    ensures MediaOf("rtp.packet_loss_percent") == RtpPacketLoss
    ensures MediaOf("encoder.output_fps") == EncoderOutputFps
    ensures MediaOf("encoder.output_bitrate_kbps") == EncoderOutputBitrate
  {
    assert "rtp.packet_loss_percent"[0] == 'r';
    assert "srt.packet_loss_percent"[0] == 's';
  }

  lemma StreamNamed(name: string)
    ensures StreamOf(name).EncoderAudioSilence? ==> name == "encoder.audio_silence_sec"
    ensures StreamOf(name).DiscordAudioReceiving? ==> name == "discord.audio_receiving"
    ensures StreamOf(name).DiscordForwardActive? ==> name == "discord.audio_forward_active"
    ensures StreamOf(name).DiscordLastForwardAge? ==> name == "discord.audio_last_forward_age_sec"
    ensures StreamOf(name).MediaInputTimeout? ==> name == "media.input_timeout_sec"
    ensures StreamOf(name).StreamStartDuration? ==> name == "stream.start_duration_ms"
    ensures StreamOf(name).StreamStopDuration? ==> name == "stream.stop_duration_ms"
    ensures StreamOf(name).StreamStatus? ==> name == "stream.status"
  {
  }

  lemma StreamFound()
    ensures StreamOf("encoder.audio_silence_sec") == EncoderAudioSilence
    ensures StreamOf("discord.audio_receiving") == DiscordAudioReceiving
    ensures StreamOf("discord.audio_forward_active") == DiscordForwardActive
    ensures StreamOf("discord.audio_last_forward_age_sec") == DiscordLastForwardAge
    ensures StreamOf("media.input_timeout_sec") == MediaInputTimeout
    ensures StreamOf("stream.start_duration_ms") == StreamStartDuration
    ensures StreamOf("stream.stop_duration_ms") == StreamStopDuration
    ensures StreamOf("stream.status") == StreamStatus
  {
    assert "discord.audio_receiving"[0] == 'd';
    assert "media.input_timeout_sec"[0] == 'm';
    assert "stream.stop_duration_ms"[0] == 's';
  }

  datatype Rule =
    | HeartbeatTimeout | EncoderProcessExited | RecorderNotWriting | DiskLow | ArchivePackageFailed | ArchiveRemuxSlow
    | GDriveUploadFailed | GDriveUploadRetryHigh | HighPacketLoss | RtmpsReconnectLoop | EncoderLowFps | EncoderBitrateLow
    | EncoderDroppedFramesHigh | AudioSilence | AudioClipping | DiscordAudioNotReceiving | DiscordForwardInactive
    | DiscordForwardFailed | DiscordForwardStale | DiscordReconnectLoop | DiscordVoiceDisconnected | MediaTimeout
    | WorkerEventSendFailed | StreamStartTimeout | StreamStopTimeout | UnexpectedStopped

  function RuleName(r: Rule): string {
    match r
    case HeartbeatTimeout => "heartbeat_timeout"
    case EncoderProcessExited => "encoder_process_exited"
    case RecorderNotWriting => "recorder_not_writing"
    case DiskLow => "disk_low"
    case ArchivePackageFailed => "archive_package_failed"
    case ArchiveRemuxSlow => "archive_remux_slow"
    case GDriveUploadFailed => "gdrive_upload_failed"
    case GDriveUploadRetryHigh => "gdrive_upload_retry_high"
    case HighPacketLoss => "high_packet_loss"
    case RtmpsReconnectLoop => "rtmps_reconnect_loop"
    case EncoderLowFps => "encoder_low_fps"
    case EncoderBitrateLow => "encoder_bitrate_low"
    case EncoderDroppedFramesHigh => "encoder_dropped_frames_high"
    case AudioSilence => "audio_silence"
    case AudioClipping => "audio_clipping"
    case DiscordAudioNotReceiving => "discord_audio_not_receiving"
    case DiscordForwardInactive => "discord_audio_forward_inactive"
    case DiscordForwardFailed => "discord_audio_forward_failed"
    case DiscordForwardStale => "discord_audio_forward_stale"
    case DiscordReconnectLoop => "discord_reconnect_loop"
    case DiscordVoiceDisconnected => "discord_voice_disconnected"
    case MediaTimeout => "media_input_timeout"
    case WorkerEventSendFailed => "worker_event_send_failed"
    case StreamStartTimeout => "stream_start_timeout"
    case StreamStopTimeout => "stream_stop_timeout"
    case UnexpectedStopped => "unexpected_stopped"
  }

  /** Length, first and last character of each name. */
  function Signature(r: Rule): (int, char, char) {
    match r
    case HeartbeatTimeout => (17, 'h', 't')
    case EncoderProcessExited => (22, 'e', 'd')
    case RecorderNotWriting => (20, 'r', 'g')
    case DiskLow => (8, 'd', 'w')
    case ArchivePackageFailed => (22, 'a', 'd')
    case ArchiveRemuxSlow => (18, 'a', 'w')
    case GDriveUploadFailed => (20, 'g', 'd')
    case GDriveUploadRetryHigh => (24, 'g', 'h')
    case HighPacketLoss => (16, 'h', 's')
    case RtmpsReconnectLoop => (20, 'r', 'p')
    case EncoderLowFps => (15, 'e', 's')
    case EncoderBitrateLow => (19, 'e', 'w')
    case EncoderDroppedFramesHigh => (27, 'e', 'h')
    case AudioSilence => (13, 'a', 'e')
    case AudioClipping => (14, 'a', 'g')
    case DiscordAudioNotReceiving => (27, 'd', 'g')
    case DiscordForwardInactive => (30, 'd', 'e')
    case DiscordForwardFailed => (28, 'd', 'd')
    case DiscordForwardStale => (27, 'd', 'e')
    case DiscordReconnectLoop => (22, 'd', 'p')
    case DiscordVoiceDisconnected => (26, 'd', 'd')
    case MediaTimeout => (19, 'm', 't')
    case WorkerEventSendFailed => (24, 'w', 'd')
    case StreamStartTimeout => (20, 's', 't')
    case StreamStopTimeout => (19, 's', 't')
    case UnexpectedStopped => (18, 'u', 'd')
  }

  lemma NameLength(r: Rule)
    ensures |RuleName(r)| > 0 && Signature(r).0 == |RuleName(r)|
  {
  }

  lemma NameFirst(r: Rule)
    requires |RuleName(r)| > 0
    ensures Signature(r).1 == RuleName(r)[0]
  {
  }

  lemma NameLast(r: Rule)
    requires |RuleName(r)| > 0
    ensures Signature(r).2 == RuleName(r)[|RuleName(r)| - 1]
  {
  }

  lemma SignatureOfName(r: Rule)
    ensures var name := RuleName(r); |name| > 0 && Signature(r) == (|name|, name[0], name[|name| - 1])
  {
    NameLength(r);
    NameFirst(r);
    NameLast(r);
  }

  lemma SignatureInjective(a: Rule, b: Rule)
    requires Signature(a) == Signature(b)
    ensures a == b
  {
  }

  lemma RuleNameInjective(a: Rule, b: Rule)
    requires RuleName(a) == RuleName(b)
    ensures a == b
  {
    SignatureOfName(a);
    SignatureOfName(b);
    SignatureInjective(a, b);
  }

  /** A signal as the rules see it. The three attribute reads are optional numbers: present when the
      attribute is a number or a string that parses as one. */
  datatype Signal = Signal(
    kind: string, name: string, value: real, streamLive: bool, status: string,
    counterDelta: Option<real>, lastForwardAge: Option<real>, forwardedTotal: Option<real>, uploadPhase: bool)

  /** The same with the metric that the name stands for. */
  datatype Reading = Reading(
    kind: string, metric: Metric, value: real, streamLive: bool, status: string,
    counterDelta: Option<real>, lastForwardAge: Option<real>, forwardedTotal: Option<real>, uploadPhase: bool)

  function Read(s: Signal): Reading {
    Reading(s.kind, MetricOf(s.name), s.value, s.streamLive, s.status, s.counterDelta, s.lastForwardAge, s.forwardedTotal, s.uploadPhase)
  }

  datatype Thresholds = Thresholds(
    heartbeatAgeSec: real, diskFreeBytes: real, remuxSlowMs: real, uploadRetryCount: real, packetLossPercent: real,
    rtmpsReconnectCount: real, lowFps: real, lowBitrateKbps: real, droppedFramesTotal: real, audioSilenceSec: real,
    audioClippingTotal: real, forwardStaleSec: real, forwardErrors: real, discordReconnectCount: real,
    voiceDisconnectCount: real, mediaTimeoutSec: real, startTimeoutMs: real, stopTimeoutMs: real)

  datatype Reason =
    | HeartbeatCurrent | EncoderAlive | RecorderWriting | DiskRecovered | PackageSucceeded | RemuxRecovered | UploadSucceeded | RetryCountRecovered | PacketLossRecovered
    | RtmpsRecovered | FpsRecovered | BitrateRecovered | DroppedFramesRecovered | AudioRecovered | ClippingRecovered | AudioReceiving | ForwardActive
    | RecentForwardSucceeded | NoNewForwardErrors | ReconnectsRecovered | VoiceRecovered | MediaRecovered | DeliveryRecovered | StartRecovered | StopRecovered | StreamNotLive

  function ReasonName(r: Reason): string {
    match r
    case HeartbeatCurrent => "heartbeat_current"
    case EncoderAlive => "encoder_process_alive"
    case RecorderWriting => "recorder_writing"
    case DiskRecovered => "disk_capacity_recovered"
    case PackageSucceeded => "archive_package_succeeded"
    case RemuxRecovered => "archive_remux_duration_recovered"
    case UploadSucceeded => "gdrive_upload_succeeded"
    case RetryCountRecovered => "gdrive_retry_count_recovered"
    case PacketLossRecovered => "packet_loss_recovered"
    case RtmpsRecovered => "rtmps_reconnect_count_recovered"
    case FpsRecovered => "encoder_fps_recovered"
    case BitrateRecovered => "encoder_bitrate_recovered"
    case DroppedFramesRecovered => "encoder_dropped_frames_recovered"
    case AudioRecovered => "audio_signal_recovered"
    case ClippingRecovered => "audio_clipping_recovered"
    case AudioReceiving => "discord_audio_receiving"
    case ForwardActive => "discord_audio_forward_active"
    case RecentForwardSucceeded => "recent_forward_succeeded"
    case NoNewForwardErrors => "no_new_forward_errors"
    case ReconnectsRecovered => "discord_reconnect_count_recovered"
    case VoiceRecovered => "discord_voice_connection_recovered"
    case MediaRecovered => "media_input_recovered"
    case DeliveryRecovered => "event_delivery_recovered"
    case StartRecovered => "stream_start_duration_recovered"
    case StopRecovered => "stream_stop_duration_recovered"
    case StreamNotLive => "stream_not_live"
  }

  datatype Found = Found(rule: Rule, severity: Severity)

  datatype Recovery = Recovery(rule: Rule, reason: Reason)

  function CounterValue(s: Reading): real {
    if s.counterDelta.Some? then (if s.counterDelta.value < 0.0 then 0.0 else s.counterDelta.value) else s.value
  }

  predicate RecentForward(s: Reading, cfg: Thresholds) {
    && s.lastForwardAge.Some? && s.forwardedTotal.Some?
    && s.forwardedTotal.value > 0.0 && s.lastForwardAge.value <= cfg.forwardStaleSec
  }

  function ForwardErrors(s: Reading, cfg: Thresholds): seq<Found> {
    if RecentForward(s, cfg) then []
    else if CounterValue(s) >= cfg.forwardErrors
            || (s.lastForwardAge.Some? && s.lastForwardAge.value >= cfg.forwardStaleSec)
    then [Found(DiscordForwardFailed, Error)]
    else [Found(DiscordForwardFailed, Warning)]
  }

  // ---- What each metric means, one metric at a time ----

  function If(c: bool, rule: Rule, severity: Severity): Option<Found> {
    if c then Some(Found(rule, severity)) else None
  }

  /** The incident a signal stands for, read off its metric. */
  function Meaning(s: Reading, cfg: Thresholds): Option<Found> {
    var v, n, live := s.value, CounterValue(s), s.streamLive;
    match s.metric
    case HeartbeatAgeSec => If(v > cfg.heartbeatAgeSec, HeartbeatTimeout, Error)
    case EncoderProcessAlive => If(live && v == 0.0, EncoderProcessExited, Critical)
    case EncoderProcessExitedEvent => If(s.kind == "error", EncoderProcessExited, Critical)
    case RecorderWriteBitrate => If(live && v <= 0.0, RecorderNotWriting, Critical)
    case RecorderFileSize => If(live && v <= 0.0, RecorderNotWriting, Critical)
    case RecorderDiskFree => If(0.0 < v < cfg.diskFreeBytes, DiskLow, Error)
    case HostDiskFree => If(0.0 < v < cfg.diskFreeBytes, DiskLow, Error)
    case ArchivePackageStatus => If(v == 0.0, ArchivePackageFailed, Error)
    case RecorderRemuxDuration => If(v > cfg.remuxSlowMs, ArchiveRemuxSlow, Warning)
    case GDriveUploadStatus => If(v == 0.0, GDriveUploadFailed, Error)
    case GDriveUploadRetryCount => If(v >= cfg.uploadRetryCount, GDriveUploadRetryHigh, Warning)
    case ArchivePackageFailedEvent => Some(Found(if s.uploadPhase then GDriveUploadFailed else ArchivePackageFailed, Error))
    case ArchiveUploadFailedEvent => Some(Found(GDriveUploadFailed, Error))
    case SrtPacketLoss => If(v >= cfg.packetLossPercent, HighPacketLoss, Warning)
    case RtpPacketLoss => If(v >= cfg.packetLossPercent, HighPacketLoss, Warning)
    case RtmpReconnectCount => If(live && n >= cfg.rtmpsReconnectCount, RtmpsReconnectLoop, Error)
    case EncoderRtmpReconnectCount => If(live && n >= cfg.rtmpsReconnectCount, RtmpsReconnectLoop, Error)
    case EncoderOutputFps => If(live && 0.0 < v < cfg.lowFps, EncoderLowFps, Warning)
    case EncoderOutputBitrate => If(live && 0.0 < v < cfg.lowBitrateKbps, EncoderBitrateLow, Warning)
    case EncoderDroppedFrames => If(live && n >= cfg.droppedFramesTotal, EncoderDroppedFramesHigh, Warning)
    case EncoderAudioSilence => If(live && v >= cfg.audioSilenceSec, AudioSilence, Warning)
    case EncoderAudioClipping => If(live && n >= cfg.audioClippingTotal, AudioClipping, Warning)
    case DiscordAudioReceiving => If(live && v == 0.0, DiscordAudioNotReceiving, Warning)
    case DiscordForwardActive => If(live && v == 0.0, DiscordForwardInactive, Warning)
    case DiscordForwardErrors =>
      if live && n > 0.0 && ForwardErrors(s, cfg) != [] then Some(ForwardErrors(s, cfg)[0]) else None
    case DiscordLastForwardAge => If(live && v >= cfg.forwardStaleSec, DiscordForwardStale, Warning)
    case DiscordReconnectCount => If(live && n >= cfg.discordReconnectCount, DiscordReconnectLoop, Warning)
    case DiscordVoiceDisconnectCount => If(live && n >= cfg.voiceDisconnectCount, DiscordVoiceDisconnected, Error)
    case MediaInputTimeout => If(live && v >= cfg.mediaTimeoutSec, MediaTimeout, Error)
    case WorkerSendFailures => If(n > 0.0, WorkerEventSendFailed, Warning)
    case DiscordWorkerPublishFailures => If(n > 0.0, WorkerEventSendFailed, Warning)
    case StreamStartDuration => If(v > cfg.startTimeoutMs, StreamStartTimeout, Error)
    case StreamStopDuration => If(v > cfg.stopTimeoutMs, StreamStopTimeout, Error)
    case StreamStatus => If(live && (s.status == "stopped" || s.status == "failed"), UnexpectedStopped, Critical)
    case OtherMetric => None
  }

  /** Rules that recover together, and why. */
  datatype Healing = Healing(rules: seq<Rule>, reason: Reason)

  function When(c: bool, healed: seq<Rule>, reason: Reason): Healing {
    Healing(if c then healed else [], reason)
  }

  /** The reason for which a signal recovers a rule. */
  function Healed(s: Reading, cfg: Thresholds, rule: Rule): Option<Reason> {
    if rule in Heals(s, cfg).rules then Some(Heals(s, cfg).reason) else None
  }

  /** What a signal recovers, read off its metric. */
  function Heals(s: Reading, cfg: Thresholds): Healing {
    match HealStage(s.metric)
    case 1 => HealsService(s, cfg)
    case 2 => HealsArchive(s, cfg)
    case 3 => HealsNetwork(s, cfg)
    case 4 => HealsMedia(s, cfg)
    case 5 => HealsAudio(s, cfg)
    case 6 => HealsDiscord(s, cfg)
    case 7 => HealsForwarding(s, cfg)
    case 8 => HealsDelivery(s, cfg)
    case 9 => HealsEvents(s, cfg)
    case 10 => HealsStream(s, cfg)
    case 11 => HealsStatus(s, cfg)
    case _ => NOTHING_HEALED
  }

  const NOTHING_HEALED := Healing([], StreamNotLive)

  function HealsService(s: Reading, cfg: Thresholds): Healing {
    var v := s.value;
    match s.metric
    case HeartbeatAgeSec => When(v <= cfg.heartbeatAgeSec, [HeartbeatTimeout], HeartbeatCurrent)
    case EncoderProcessAlive => When(v > 0.0, [EncoderProcessExited], EncoderAlive)
    case RecorderWriteBitrate => When(v > 0.0, [RecorderNotWriting], RecorderWriting)
    case RecorderDiskFree => When(v >= cfg.diskFreeBytes, [DiskLow], DiskRecovered)
    case HostDiskFree => When(v >= cfg.diskFreeBytes, [DiskLow], DiskRecovered)
    case ArchivePackageStatus => When(v > 0.0, [ArchivePackageFailed], PackageSucceeded)
    case _ => NOTHING_HEALED
  }

  function HealsArchive(s: Reading, cfg: Thresholds): Healing {
    var v := s.value;
    match s.metric
    case RecorderRemuxDuration => When(v <= cfg.remuxSlowMs, [ArchiveRemuxSlow], RemuxRecovered)
    case GDriveUploadStatus =>
      When(v > 0.0, [GDriveUploadFailed, GDriveUploadRetryHigh], UploadSucceeded)
    case GDriveUploadRetryCount => When(v < cfg.uploadRetryCount, [GDriveUploadRetryHigh], RetryCountRecovered)
    case _ => NOTHING_HEALED
  }

  function HealsNetwork(s: Reading, cfg: Thresholds): Healing {
    var v, n, live := s.value, CounterValue(s), s.streamLive;
    match s.metric
    case SrtPacketLoss => When(v < cfg.packetLossPercent, [HighPacketLoss], PacketLossRecovered)
    case RtpPacketLoss => When(v < cfg.packetLossPercent, [HighPacketLoss], PacketLossRecovered)
    case RtmpReconnectCount => When(!live || n < cfg.rtmpsReconnectCount, [RtmpsReconnectLoop], RtmpsRecovered)
    case EncoderRtmpReconnectCount => When(!live || n < cfg.rtmpsReconnectCount, [RtmpsReconnectLoop], RtmpsRecovered)
    case _ => NOTHING_HEALED
  }

  function HealsMedia(s: Reading, cfg: Thresholds): Healing {
    var v, n, live := s.value, CounterValue(s), s.streamLive;
    match s.metric
    case EncoderOutputFps => When(!live || v >= cfg.lowFps, [EncoderLowFps], FpsRecovered)
    case EncoderOutputBitrate => When(!live || v >= cfg.lowBitrateKbps, [EncoderBitrateLow], BitrateRecovered)
    case EncoderDroppedFrames => When(!live || n < cfg.droppedFramesTotal, [EncoderDroppedFramesHigh], DroppedFramesRecovered)
    case _ => NOTHING_HEALED
  }

  function HealsAudio(s: Reading, cfg: Thresholds): Healing {
    var v, n, live := s.value, CounterValue(s), s.streamLive;
    match s.metric
    case EncoderAudioSilence => When(!live || v < cfg.audioSilenceSec, [AudioSilence], AudioRecovered)
    case EncoderAudioClipping => When(!live || n < cfg.audioClippingTotal, [AudioClipping], ClippingRecovered)
    case _ => NOTHING_HEALED
  }

  function HealsDiscord(s: Reading, cfg: Thresholds): Healing {
    var v := s.value;
    match s.metric
    case DiscordAudioReceiving => When(v > 0.0, [DiscordAudioNotReceiving], AudioReceiving)
    case DiscordForwardActive => When(v > 0.0, [DiscordForwardInactive], ForwardActive)
    case DiscordLastForwardAge => When(v < cfg.forwardStaleSec, [DiscordForwardStale], RecentForwardSucceeded)
    case _ => NOTHING_HEALED
  }

  function HealsForwarding(s: Reading, cfg: Thresholds): Healing {
    var n := CounterValue(s);
    match s.metric
    case DiscordForwardErrors =>
      if RecentForward(s, cfg) then
        Healing([DiscordForwardFailed, DiscordForwardStale], RecentForwardSucceeded)
      else When(n <= 0.0, [DiscordForwardFailed], NoNewForwardErrors)
    case _ => NOTHING_HEALED
  }

  function HealsDelivery(s: Reading, cfg: Thresholds): Healing {
    var n, live := CounterValue(s), s.streamLive;
    match s.metric
    case DiscordReconnectCount => When(!live || n < cfg.discordReconnectCount, [DiscordReconnectLoop], ReconnectsRecovered)
    case DiscordVoiceDisconnectCount => When(!live || n < cfg.voiceDisconnectCount, [DiscordVoiceDisconnected], VoiceRecovered)
    case _ => NOTHING_HEALED
  }

  function HealsEvents(s: Reading, cfg: Thresholds): Healing {
    var v, n, live := s.value, CounterValue(s), s.streamLive;
    match s.metric
    case MediaInputTimeout => When(!live || v < cfg.mediaTimeoutSec, [MediaTimeout], MediaRecovered)
    case WorkerSendFailures => When(n <= 0.0, [WorkerEventSendFailed], DeliveryRecovered)
    case DiscordWorkerPublishFailures => When(n <= 0.0, [WorkerEventSendFailed], DeliveryRecovered)
    case _ => NOTHING_HEALED
  }

  function HealsStream(s: Reading, cfg: Thresholds): Healing {
    var v := s.value;
    match s.metric
    case StreamStartDuration => When(v <= cfg.startTimeoutMs, [StreamStartTimeout], StartRecovered)
    case StreamStopDuration => When(v <= cfg.stopTimeoutMs, [StreamStopTimeout], StopRecovered)
    case _ => NOTHING_HEALED
  }

  function HealsStatus(s: Reading, cfg: Thresholds): Healing {
    match s.metric
    case StreamStatus => When(!s.streamLive && s.status != "failed", STREAM_RULES, StreamNotLive)
    case _ => NOTHING_HEALED
  }

  /** The rules that a stream going off air closes, in the order they are added. */
  const STREAM_RULES: seq<Rule> := [
    UnexpectedStopped, EncoderProcessExited, RecorderNotWriting, RtmpsReconnectLoop, EncoderLowFps, EncoderBitrateLow,
    EncoderDroppedFramesHigh, AudioSilence, AudioClipping, DiscordAudioNotReceiving, DiscordForwardInactive,
    DiscordForwardFailed, DiscordForwardStale, DiscordReconnectLoop, DiscordVoiceDisconnected, MediaTimeout,
    WorkerEventSendFailed, StreamStartTimeout, StreamStopTimeout]

  // ---- The evaluators as written ----

  /** Which stretch of the guard list can mention a metric. */
  function Stage(m: Metric): nat {
    match m
    case HeartbeatAgeSec | EncoderProcessAlive | EncoderProcessExitedEvent | RecorderWriteBitrate | RecorderFileSize
      | RecorderDiskFree | HostDiskFree | ArchivePackageStatus => 1
    case RecorderRemuxDuration | GDriveUploadStatus | GDriveUploadRetryCount | ArchivePackageFailedEvent
      | ArchiveUploadFailedEvent | SrtPacketLoss | RtpPacketLoss | RtmpReconnectCount | EncoderRtmpReconnectCount => 2
    case EncoderOutputFps | EncoderOutputBitrate | EncoderDroppedFrames | EncoderAudioSilence | EncoderAudioClipping => 3
    case DiscordAudioReceiving | DiscordForwardActive | DiscordForwardErrors | DiscordLastForwardAge => 4
    case DiscordReconnectCount | DiscordVoiceDisconnectCount | MediaInputTimeout
      | WorkerSendFailures | DiscordWorkerPublishFailures => 5
    case StreamStartDuration | StreamStopDuration | StreamStatus => 6
    case OtherMetric => 7
  }

  /** No signal, under any thresholds, both detects and recovers one rule. */
  lemma DetectExcludesRecovery(s: Reading, cfg: Thresholds)
    ensures Meaning(s, cfg).Some? ==> Healed(s, cfg, Meaning(s, cfg).value.rule).None?
  {
  }

  ghost function FoundAt(s: Reading, cfg: Thresholds, stage: nat): seq<Found> {
    if Stage(s.metric) == stage && Meaning(s, cfg).Some? then [Meaning(s, cfg).value] else []
  }

  /** The guards on the services and the recorder. */
  method AppendService(s: Reading, cfg: Thresholds, before: seq<Found>) returns (out: seq<Found>)
    ensures out == before + FoundAt(s, cfg, 1)
  {
    out := before;
    if s.metric.HeartbeatAgeSec? && s.value > cfg.heartbeatAgeSec {
      out := out + [Found(HeartbeatTimeout, Error)];
    }
    if s.metric.EncoderProcessAlive? && s.streamLive && s.value == 0.0 {
      out := out + [Found(EncoderProcessExited, Critical)];
    }
    if s.metric.EncoderProcessExitedEvent? && s.kind == "error" {
      out := out + [Found(EncoderProcessExited, Critical)];
    }
    if s.metric.RecorderWriteBitrate? && s.streamLive && s.value <= 0.0 {
      out := out + [Found(RecorderNotWriting, Critical)];
    }
    if s.metric.RecorderFileSize? && s.streamLive && s.value <= 0.0 {
      out := out + [Found(RecorderNotWriting, Critical)];
    }
    if (s.metric.RecorderDiskFree? || s.metric.HostDiskFree?) && s.value > 0.0 && s.value < cfg.diskFreeBytes {
      out := out + [Found(DiskLow, Error)];
    }
    if s.metric.ArchivePackageStatus? && s.value == 0.0 {
      out := out + [Found(ArchivePackageFailed, Error)];
    }
  }

  /** The guards on the archive and the transport. */
  method AppendArchive(s: Reading, cfg: Thresholds, before: seq<Found>) returns (out: seq<Found>)
    ensures out == before + FoundAt(s, cfg, 2)
  {
    var counterValue := CounterValue(s);
    out := before;
    if s.metric.RecorderRemuxDuration? && s.value > cfg.remuxSlowMs {
      out := out + [Found(ArchiveRemuxSlow, Warning)];
    }
    if s.metric.GDriveUploadStatus? && s.value == 0.0 {
      out := out + [Found(GDriveUploadFailed, Error)];
    }
    if s.metric.GDriveUploadRetryCount? && s.value >= cfg.uploadRetryCount {
      out := out + [Found(GDriveUploadRetryHigh, Warning)];
    }
    if s.metric.ArchivePackageFailedEvent? || s.metric.ArchiveUploadFailedEvent? {
      if s.uploadPhase || s.metric.ArchiveUploadFailedEvent? {
        out := out + [Found(GDriveUploadFailed, Error)];
      } else {
        out := out + [Found(ArchivePackageFailed, Error)];
      }
    }
    if (s.metric.SrtPacketLoss? || s.metric.RtpPacketLoss?) && s.value >= cfg.packetLossPercent {
      out := out + [Found(HighPacketLoss, Warning)];
    }
    if (s.metric.RtmpReconnectCount? || s.metric.EncoderRtmpReconnectCount?) && s.streamLive && counterValue >= cfg.rtmpsReconnectCount {
      out := out + [Found(RtmpsReconnectLoop, Error)];
    }
  }

  /** The guards on the media output. */
  method AppendMedia(s: Reading, cfg: Thresholds, before: seq<Found>) returns (out: seq<Found>)
    ensures out == before + FoundAt(s, cfg, 3)
  {
    var counterValue := CounterValue(s);
    out := before;
    if s.metric.EncoderOutputFps? && s.streamLive && s.value > 0.0 && s.value < cfg.lowFps {
      out := out + [Found(EncoderLowFps, Warning)];
    }
    if s.metric.EncoderOutputBitrate? && s.streamLive && s.value > 0.0 && s.value < cfg.lowBitrateKbps {
      out := out + [Found(EncoderBitrateLow, Warning)];
    }
    if s.metric.EncoderDroppedFrames? && s.streamLive && counterValue >= cfg.droppedFramesTotal {
      out := out + [Found(EncoderDroppedFramesHigh, Warning)];
    }
    if s.metric.EncoderAudioSilence? && s.streamLive && s.value >= cfg.audioSilenceSec {
      out := out + [Found(AudioSilence, Warning)];
    }
    if s.metric.EncoderAudioClipping? && s.streamLive && counterValue >= cfg.audioClippingTotal {
      out := out + [Found(AudioClipping, Warning)];
    }
  }

  /** The guards on the Discord audio path. */
  method AppendDiscord(s: Reading, cfg: Thresholds, before: seq<Found>) returns (out: seq<Found>)
    ensures out == before + FoundAt(s, cfg, 4)
  {
    var counterValue := CounterValue(s);
    out := before;
    if s.metric.DiscordAudioReceiving? && s.streamLive && s.value == 0.0 {
      out := out + [Found(DiscordAudioNotReceiving, Warning)];
    }
    if s.metric.DiscordForwardActive? && s.streamLive && s.value == 0.0 {
      out := out + [Found(DiscordForwardInactive, Warning)];
    }
    if s.metric.DiscordForwardErrors? && s.streamLive && counterValue > 0.0 {
      out := out + ForwardErrors(s, cfg);
    }
    if s.metric.DiscordLastForwardAge? && s.streamLive && s.value >= cfg.forwardStaleSec {
      out := out + [Found(DiscordForwardStale, Warning)];
    }
  }

  /** The guards on the connections and event delivery. */
  method AppendDelivery(s: Reading, cfg: Thresholds, before: seq<Found>) returns (out: seq<Found>)
    ensures out == before + FoundAt(s, cfg, 5)
  {
    var counterValue := CounterValue(s);
    out := before;
    if s.metric.DiscordReconnectCount? && s.streamLive && counterValue >= cfg.discordReconnectCount {
      out := out + [Found(DiscordReconnectLoop, Warning)];
    }
    if s.metric.DiscordVoiceDisconnectCount? && s.streamLive && counterValue >= cfg.voiceDisconnectCount {
      out := out + [Found(DiscordVoiceDisconnected, Error)];
    }
    if s.metric.MediaInputTimeout? && s.streamLive && s.value >= cfg.mediaTimeoutSec {
      out := out + [Found(MediaTimeout, Error)];
    }
    if s.metric.WorkerSendFailures? && counterValue > 0.0 {
      out := out + [Found(WorkerEventSendFailed, Warning)];
    }
    if s.metric.DiscordWorkerPublishFailures? && counterValue > 0.0 {
      out := out + [Found(WorkerEventSendFailed, Warning)];
    }
  }

  /** The guards on the stream itself. */
  method AppendStream(s: Reading, cfg: Thresholds, before: seq<Found>) returns (out: seq<Found>)
    ensures out == before + FoundAt(s, cfg, 6)
  {
    out := before;
    if s.metric.StreamStartDuration? && s.value > cfg.startTimeoutMs {
      out := out + [Found(StreamStartTimeout, Error)];
    }
    if s.metric.StreamStopDuration? && s.value > cfg.stopTimeoutMs {
      out := out + [Found(StreamStopTimeout, Error)];
    }
    if s.metric.StreamStatus? && s.streamLive && (s.status == "stopped" || s.status == "failed") {
      out := out + [Found(UnexpectedStopped, Critical)];
    }
  }

  /** The whole guard list: it finds exactly what the metric stands for, so at most one incident. */
  method EvaluateIncidents(s: Signal, cfg: Thresholds) returns (out: seq<Found>)
    ensures var r := Read(s); out == if Meaning(r, cfg).Some? then [Meaning(r, cfg).value] else []
  {
    var r := Read(s);
    out := RunGuards(r, cfg);
  }

  method RunGuards(r: Reading, cfg: Thresholds) returns (out: seq<Found>)
    ensures out == if Meaning(r, cfg).Some? then [Meaning(r, cfg).value] else []
  {
    out := AppendService(r, cfg, []);
    out := AppendArchive(r, cfg, out);
    out := AppendMedia(r, cfg, out);
    out := AppendDiscord(r, cfg, out);
    out := AppendDelivery(r, cfg, out);
    out := AppendStream(r, cfg, out);
  }

  /** The reason listed for a rule. */
  function Listed(recoveries: seq<Recovery>, rule: Rule): Option<Reason> {
    if recoveries == [] then None
    else if recoveries[|recoveries| - 1].rule == rule then Some(recoveries[|recoveries| - 1].reason)
    else Listed(recoveries[..|recoveries| - 1], rule)
  }

  /** The list with one more rule; a rule already listed keeps its first reason. */
  function Added(recoveries: seq<Recovery>, rule: Rule, reason: Reason): seq<Recovery> {
    if Listed(recoveries, rule).Some? then recoveries else recoveries + [Recovery(rule, reason)]
  }

  function AddedAll(recoveries: seq<Recovery>, rules: seq<Rule>, reason: Reason): seq<Recovery> {
    if rules == [] then recoveries
    else Added(AddedAll(recoveries, rules[..|rules| - 1], reason), rules[|rules| - 1], reason)
  }

  lemma AddedSnoc(recoveries: seq<Recovery>, rules: seq<Rule>, rule: Rule, reason: Reason)
    ensures AddedAll(recoveries, rules + [rule], reason) == Added(AddedAll(recoveries, rules, reason), rule, reason)
  {
    assert (rules + [rule])[..|rules|] == rules;
  }

  lemma AddedOne(recoveries: seq<Recovery>, rule: Rule, reason: Reason)
    ensures AddedAll(recoveries, [rule], reason) == Added(recoveries, rule, reason)
  {
    assert [rule][..0] == [];
  }

  lemma AddedTwo(recoveries: seq<Recovery>, a: Rule, b: Rule, reason: Reason)
    ensures AddedAll(recoveries, [a, b], reason) == Added(Added(recoveries, a, reason), b, reason)
  {
    AddedOne(recoveries, a, reason);
    AddedSnoc(recoveries, [a], b, reason);
    assert [a] + [b] == [a, b];
  }

  /** Adding lists a rule that was not listed with its reason, leaves the others, and lists no rule twice. */
  lemma AddedLaws(recoveries: seq<Recovery>, rule: Rule, reason: Reason, q: Rule)
    ensures var out := Added(recoveries, rule, reason);
            && Listed(out, q) == (if q == rule && Listed(recoveries, q).None? then Some(reason) else Listed(recoveries, q))
            && (Distinct(recoveries) ==> Distinct(out))
  {
    if Listed(recoveries, rule).None? {
      assert Added(recoveries, rule, reason)[..|recoveries|] == recoveries;
      forall i | 0 <= i < |recoveries|
        ensures recoveries[i].rule != rule
      {
        ListedAt(recoveries, i);
      }
    }
  }

  lemma {:induction false} AddedAllLaws(recoveries: seq<Recovery>, rules: seq<Rule>, reason: Reason, q: Rule)
    ensures var out := AddedAll(recoveries, rules, reason);
            && Listed(out, q) == (if q in rules && Listed(recoveries, q).None? then Some(reason) else Listed(recoveries, q))
            && (Distinct(recoveries) ==> Distinct(out))
  {
    if rules != [] {
      var init, last := rules[..|rules| - 1], rules[|rules| - 1];
      AddedAllLaws(recoveries, init, reason, q);
      AddedLaws(AddedAll(recoveries, init, reason), last, reason, q);
      assert q in rules <==> q in init || q == last by {
        assert rules == init + [last];
      }
    }
  }

  /** The de-duplicating closure. */
  method Add(recoveries: seq<Recovery>, rule: Rule, reason: Reason) returns (out: seq<Recovery>)
    ensures out == Added(recoveries, rule, reason)
  {
    for i := 0 to |recoveries|
      invariant forall k :: 0 <= k < i ==> recoveries[k].rule != rule
    {
      if recoveries[i].rule == rule {
        ListedAt(recoveries, i);
        return recoveries;
      }
    }
    ListedNowhere(recoveries, rule);
    out := recoveries + [Recovery(rule, reason)];
  }

  predicate Distinct(recoveries: seq<Recovery>) {
    forall i, j :: 0 <= i < j < |recoveries| ==> recoveries[i].rule != recoveries[j].rule
  }

  lemma {:induction false} ListedAt(recoveries: seq<Recovery>, i: nat)
    requires i < |recoveries|
    ensures Listed(recoveries, recoveries[i].rule).Some?
    ensures Distinct(recoveries) ==> Listed(recoveries, recoveries[i].rule) == Some(recoveries[i].reason)
  {
    if i < |recoveries| - 1 {
      ListedAt(recoveries[..|recoveries| - 1], i);
    }
  }

  lemma {:induction false} ListedNowhere(recoveries: seq<Recovery>, rule: Rule)
    requires forall k :: 0 <= k < |recoveries| ==> recoveries[k].rule != rule
    ensures Listed(recoveries, rule).None?
  {
    if recoveries != [] {
      ListedNowhere(recoveries[..|recoveries| - 1], rule);
    }
  }

  // ---- Counters ----

  /** What a counter counts for: its delta, never below zero, or without a delta its value. */
  predicate ClimbIs(s: Reading, climb: real) {
    if s.counterDelta == None then climb == s.value
    else if s.counterDelta.value > 0.0 then climb == s.counterDelta.value
    else climb == 0.0
  }

  /** The rule and the threshold of the counters that are compared with one. */
  function CounterRule(m: Metric, cfg: Thresholds): Option<(Rule, real)> {
    match m
    case RtmpReconnectCount => Some((RtmpsReconnectLoop, cfg.rtmpsReconnectCount))
    case EncoderRtmpReconnectCount => Some((RtmpsReconnectLoop, cfg.rtmpsReconnectCount))
    case EncoderDroppedFrames => Some((EncoderDroppedFramesHigh, cfg.droppedFramesTotal))
    case EncoderAudioClipping => Some((AudioClipping, cfg.audioClippingTotal))
    case DiscordReconnectCount => Some((DiscordReconnectLoop, cfg.discordReconnectCount))
    case DiscordVoiceDisconnectCount => Some((DiscordVoiceDisconnected, cfg.voiceDisconnectCount))
    case _ => None
  }

  lemma ClimbIsCounted(s: Reading, climb: real)
    requires ClimbIs(s, climb)
    ensures CounterValue(s) == climb
  {
  }

  /** Such a counter detects its rule exactly on a live stream when the climb reaches the threshold, and recovers it exactly otherwise: whatever
      the total, where there is a delta. */
  lemma CounterDecides(s: Reading, cfg: Thresholds, climb: real)
    requires ClimbIs(s, climb) && CounterRule(s.metric, cfg).Some?
    ensures var (rule, limit) := CounterRule(s.metric, cfg).value;
            && (Meaning(s, cfg).Some? <==> s.streamLive && climb >= limit)
            && (Meaning(s, cfg).Some? ==> Meaning(s, cfg).value.rule == rule)
            && (Healed(s, cfg, rule).Some? <==> !s.streamLive || climb < limit)
  {
    ClimbIsCounted(s, climb);
  }

  /** A count of failed deliveries detects exactly when it climbed. */
  lemma DeliveryCounterDecides(s: Reading, cfg: Thresholds, climb: real)
    requires ClimbIs(s, climb) && (s.metric.WorkerSendFailures? || s.metric.DiscordWorkerPublishFailures?)
    ensures Meaning(s, cfg) == if climb > 0.0 then Some(Found(WorkerEventSendFailed, Warning)) else None
    ensures Healed(s, cfg, WorkerEventSendFailed).Some? <==> climb <= 0.0
  {
    ClimbIsCounted(s, climb);
  }

  /** A recent forward: some audio was forwarded, the last of it no longer ago than the limit. */
  predicate ForwardedLately(s: Reading, cfg: Thresholds) {
    s.forwardedTotal.Some? && s.forwardedTotal.value > 0.0 && s.lastForwardAge.Some? && s.lastForwardAge.value <= cfg.forwardStaleSec
  }

  /** Forwarding errors detect exactly when they climbed on a live stream without a recent forward, as an error from the threshold on or when the last
      forward is that old; a recent forward recovers both forwarding rules, and no climb the first. */
  lemma ForwardCounterDecides(s: Reading, cfg: Thresholds, climb: real)
    requires ClimbIs(s, climb) && s.metric.DiscordForwardErrors?
    ensures Meaning(s, cfg)
         == if s.streamLive && climb > 0.0 && !ForwardedLately(s, cfg) then
              Some(Found(DiscordForwardFailed,
                         if climb >= cfg.forwardErrors || (s.lastForwardAge.Some? && s.lastForwardAge.value >= cfg.forwardStaleSec) then Error else Warning))
            else None
    ensures Healed(s, cfg, DiscordForwardFailed).Some? <==> ForwardedLately(s, cfg) || climb <= 0.0
    ensures Healed(s, cfg, DiscordForwardStale).Some? <==> ForwardedLately(s, cfg)
  {
    ClimbIsCounted(s, climb);
  }

  /** The stretch of the recovery guards that looks at a metric. */
  function HealStage(m: Metric): nat {
    match m
    case HeartbeatAgeSec | EncoderProcessAlive | EncoderProcessExitedEvent | RecorderWriteBitrate | RecorderFileSize
      | RecorderDiskFree | HostDiskFree | ArchivePackageStatus => 1
    case RecorderRemuxDuration | GDriveUploadStatus | GDriveUploadRetryCount | ArchivePackageFailedEvent | ArchiveUploadFailedEvent => 2
    case SrtPacketLoss | RtpPacketLoss | RtmpReconnectCount | EncoderRtmpReconnectCount => 3
    case EncoderOutputFps | EncoderOutputBitrate | EncoderDroppedFrames => 4
    case EncoderAudioSilence | EncoderAudioClipping => 5
    case DiscordAudioReceiving | DiscordForwardActive | DiscordLastForwardAge => 6
    case DiscordForwardErrors => 7
    case DiscordReconnectCount | DiscordVoiceDisconnectCount => 8
    case MediaInputTimeout | WorkerSendFailures | DiscordWorkerPublishFailures => 9
    case StreamStartDuration | StreamStopDuration => 10
    case StreamStatus => 11
    case OtherMetric => 12
  }

  /** What one stretch of the guards adds. */
  ghost predicate Extends(h: Healing, before: seq<Recovery>, out: seq<Recovery>) {
    out == AddedAll(before, h.rules, h.reason)
  }

  method HealService(s: Reading, cfg: Thresholds, before: seq<Recovery>) returns (out: seq<Recovery>)
    ensures Extends(HealsService(s, cfg), before, out)
  {
    out := before;
    if s.metric.HeartbeatAgeSec? && s.value <= cfg.heartbeatAgeSec {
      out := Add(out, HeartbeatTimeout, HeartbeatCurrent);
      AddedOne(before, HeartbeatTimeout, HeartbeatCurrent);
    }
    if s.metric.EncoderProcessAlive? && s.value > 0.0 {
      out := Add(out, EncoderProcessExited, EncoderAlive);
      AddedOne(before, EncoderProcessExited, EncoderAlive);
    }
    if s.metric.RecorderWriteBitrate? && s.value > 0.0 {
      out := Add(out, RecorderNotWriting, RecorderWriting);
      AddedOne(before, RecorderNotWriting, RecorderWriting);
    }
    if (s.metric.RecorderDiskFree? || s.metric.HostDiskFree?) && s.value >= cfg.diskFreeBytes {
      out := Add(out, DiskLow, DiskRecovered);
      AddedOne(before, DiskLow, DiskRecovered);
    }
    if s.metric.ArchivePackageStatus? && s.value > 0.0 {
      out := Add(out, ArchivePackageFailed, PackageSucceeded);
      AddedOne(before, ArchivePackageFailed, PackageSucceeded);
    }
  }

  method HealArchive(s: Reading, cfg: Thresholds, before: seq<Recovery>) returns (out: seq<Recovery>)
    ensures Extends(HealsArchive(s, cfg), before, out)
  {
    out := before;
    if s.metric.RecorderRemuxDuration? && s.value <= cfg.remuxSlowMs {
      out := Add(out, ArchiveRemuxSlow, RemuxRecovered);
      AddedOne(before, ArchiveRemuxSlow, RemuxRecovered);
    }
    if s.metric.GDriveUploadStatus? && s.value > 0.0 {
      out := Add(out, GDriveUploadFailed, UploadSucceeded);
      out := Add(out, GDriveUploadRetryHigh, UploadSucceeded);
      AddedTwo(before, GDriveUploadFailed, GDriveUploadRetryHigh, UploadSucceeded);
    }
    if s.metric.GDriveUploadRetryCount? && s.value < cfg.uploadRetryCount {
      out := Add(out, GDriveUploadRetryHigh, RetryCountRecovered);
      AddedOne(before, GDriveUploadRetryHigh, RetryCountRecovered);
    }
  }

  method HealNetwork(s: Reading, cfg: Thresholds, before: seq<Recovery>) returns (out: seq<Recovery>)
    ensures Extends(HealsNetwork(s, cfg), before, out)
  {
    var counterValue := CounterValue(s);
    out := before;
    if (s.metric.SrtPacketLoss? || s.metric.RtpPacketLoss?) && s.value < cfg.packetLossPercent {
      out := Add(out, HighPacketLoss, PacketLossRecovered);
      AddedOne(before, HighPacketLoss, PacketLossRecovered);
    }
    if (s.metric.RtmpReconnectCount? || s.metric.EncoderRtmpReconnectCount?)
       && (!s.streamLive || counterValue < cfg.rtmpsReconnectCount) {
      out := Add(out, RtmpsReconnectLoop, RtmpsRecovered);
      AddedOne(before, RtmpsReconnectLoop, RtmpsRecovered);
    }
  }

  method HealMedia(s: Reading, cfg: Thresholds, before: seq<Recovery>) returns (out: seq<Recovery>)
    ensures Extends(HealsMedia(s, cfg), before, out)
  {
    var counterValue := CounterValue(s);
    out := before;
    if s.metric.EncoderOutputFps? && (!s.streamLive || s.value >= cfg.lowFps) {
      out := Add(out, EncoderLowFps, FpsRecovered);
      AddedOne(before, EncoderLowFps, FpsRecovered);
    }
    if s.metric.EncoderOutputBitrate? && (!s.streamLive || s.value >= cfg.lowBitrateKbps) {
      out := Add(out, EncoderBitrateLow, BitrateRecovered);
      AddedOne(before, EncoderBitrateLow, BitrateRecovered);
    }
    if s.metric.EncoderDroppedFrames? && (!s.streamLive || counterValue < cfg.droppedFramesTotal) {
      out := Add(out, EncoderDroppedFramesHigh, DroppedFramesRecovered);
      AddedOne(before, EncoderDroppedFramesHigh, DroppedFramesRecovered);
    }
  }

  method HealAudio(s: Reading, cfg: Thresholds, before: seq<Recovery>) returns (out: seq<Recovery>)
    ensures Extends(HealsAudio(s, cfg), before, out)
  {
    var counterValue := CounterValue(s);
    out := before;
    if s.metric.EncoderAudioSilence? && (!s.streamLive || s.value < cfg.audioSilenceSec) {
      out := Add(out, AudioSilence, AudioRecovered);
      AddedOne(before, AudioSilence, AudioRecovered);
    }
    if s.metric.EncoderAudioClipping? && (!s.streamLive || counterValue < cfg.audioClippingTotal) {
      out := Add(out, AudioClipping, ClippingRecovered);
      AddedOne(before, AudioClipping, ClippingRecovered);
    }
  }

  method HealDiscord(s: Reading, cfg: Thresholds, before: seq<Recovery>) returns (out: seq<Recovery>)
    ensures Extends(HealsDiscord(s, cfg), before, out)
  {
    out := before;
    if s.metric.DiscordAudioReceiving? && s.value > 0.0 {
      out := Add(out, DiscordAudioNotReceiving, AudioReceiving);
      AddedOne(before, DiscordAudioNotReceiving, AudioReceiving);
    }
    if s.metric.DiscordForwardActive? && s.value > 0.0 {
      out := Add(out, DiscordForwardInactive, ForwardActive);
      AddedOne(before, DiscordForwardInactive, ForwardActive);
    }
    if s.metric.DiscordLastForwardAge? && s.value < cfg.forwardStaleSec {
      out := Add(out, DiscordForwardStale, RecentForwardSucceeded);
      AddedOne(before, DiscordForwardStale, RecentForwardSucceeded);
    }
  }

  method HealForwarding(s: Reading, cfg: Thresholds, before: seq<Recovery>) returns (out: seq<Recovery>)
    ensures Extends(HealsForwarding(s, cfg), before, out)
  {
    out := before;
    if s.metric.DiscordForwardErrors? {
      out := HealForwardErrors(s, cfg, before);
    }
  }

  method HealForwardErrors(s: Reading, cfg: Thresholds, before: seq<Recovery>) returns (out: seq<Recovery>)
    requires s.metric.DiscordForwardErrors?
    ensures Extends(HealsForwarding(s, cfg), before, out)
  {
    out := before;
    if RecentForward(s, cfg) {
      out := Add(out, DiscordForwardFailed, RecentForwardSucceeded);
      out := Add(out, DiscordForwardStale, RecentForwardSucceeded);
      AddedTwo(before, DiscordForwardFailed, DiscordForwardStale, RecentForwardSucceeded);
    } else if CounterValue(s) <= 0.0 {
      out := Add(out, DiscordForwardFailed, NoNewForwardErrors);
      AddedOne(before, DiscordForwardFailed, NoNewForwardErrors);
    }
  }

  method HealDelivery(s: Reading, cfg: Thresholds, before: seq<Recovery>) returns (out: seq<Recovery>)
    ensures Extends(HealsDelivery(s, cfg), before, out)
  {
    var counterValue := CounterValue(s);
    out := before;
    if s.metric.DiscordReconnectCount? && (!s.streamLive || counterValue < cfg.discordReconnectCount) {
      out := Add(out, DiscordReconnectLoop, ReconnectsRecovered);
      AddedOne(before, DiscordReconnectLoop, ReconnectsRecovered);
    }
    if s.metric.DiscordVoiceDisconnectCount? && (!s.streamLive || counterValue < cfg.voiceDisconnectCount) {
      out := Add(out, DiscordVoiceDisconnected, VoiceRecovered);
      AddedOne(before, DiscordVoiceDisconnected, VoiceRecovered);
    }
  }

  method HealEvents(s: Reading, cfg: Thresholds, before: seq<Recovery>) returns (out: seq<Recovery>)
    ensures Extends(HealsEvents(s, cfg), before, out)
  {
    var counterValue := CounterValue(s);
    out := before;
    if s.metric.MediaInputTimeout? && (!s.streamLive || s.value < cfg.mediaTimeoutSec) {
      out := Add(out, MediaTimeout, MediaRecovered);
      AddedOne(before, MediaTimeout, MediaRecovered);
    }
    if (s.metric.WorkerSendFailures? || s.metric.DiscordWorkerPublishFailures?) && counterValue <= 0.0 {
      out := Add(out, WorkerEventSendFailed, DeliveryRecovered);
      AddedOne(before, WorkerEventSendFailed, DeliveryRecovered);
    }
  }

  method HealStream(s: Reading, cfg: Thresholds, before: seq<Recovery>) returns (out: seq<Recovery>)
    ensures Extends(HealsStream(s, cfg), before, out)
  {
    out := before;
    if s.metric.StreamStartDuration? && s.value <= cfg.startTimeoutMs {
      out := Add(out, StreamStartTimeout, StartRecovered);
      AddedOne(before, StreamStartTimeout, StartRecovered);
    }
    if s.metric.StreamStopDuration? && s.value <= cfg.stopTimeoutMs {
      out := Add(out, StreamStopTimeout, StopRecovered);
      AddedOne(before, StreamStopTimeout, StopRecovered);
    }
  }

  method HealStatus(s: Reading, cfg: Thresholds, before: seq<Recovery>) returns (out: seq<Recovery>)
    ensures Extends(HealsStatus(s, cfg), before, out)
  {
    out := before;
    if s.metric.StreamStatus? && !s.streamLive && s.status != "failed" {
      out := AddAll(out, STREAM_RULES, StreamNotLive);
    }
  }

  method AddAll(before: seq<Recovery>, rules: seq<Rule>, reason: Reason) returns (out: seq<Recovery>)
    ensures out == AddedAll(before, rules, reason)
  {
    out := before;
    for i := 0 to |rules|
      invariant out == AddedAll(before, rules[..i], reason)
    {
      AddedSnoc(before, rules[..i], rules[i], reason);
      assert rules[..i + 1] == rules[..i] + [rules[i]];
      out := Add(out, rules[i], reason);
    }
    assert rules[..|rules|] == rules;
  }

  /** The whole list lists each healed rule once, with its reason, and nothing else. */
  method EvaluateRecoveries(s: Signal, cfg: Thresholds) returns (out: seq<Recovery>)
    ensures Distinct(out)
    ensures forall q :: Listed(out, q) == Healed(Read(s), cfg, q)
  {
    var r := Read(s);
    out := RunHealers(r, cfg);
    ListedIsHealed(r, cfg, HeartbeatTimeout);
    forall q
      ensures Listed(out, q) == Healed(r, cfg, q)
    {
      ListedIsHealed(r, cfg, q);
    }
  }

  /** What a stretch of the guards heals is what the signal heals if its metric belongs there, and nothing otherwise. */
  ghost predicate AtStage(s: Reading, cfg: Thresholds, stage: nat, h: Healing) {
    if HealStage(s.metric) == stage then h == Heals(s, cfg) else h.rules == []
  }

  lemma ServiceStage(s: Reading, cfg: Thresholds)
    ensures AtStage(s, cfg, 1, HealsService(s, cfg))
  {
  }

  lemma ArchiveStage(s: Reading, cfg: Thresholds)
    ensures AtStage(s, cfg, 2, HealsArchive(s, cfg))
  {
  }

  lemma NetworkStage(s: Reading, cfg: Thresholds)
    ensures AtStage(s, cfg, 3, HealsNetwork(s, cfg))
  {
  }

  lemma MediaStage(s: Reading, cfg: Thresholds)
    ensures AtStage(s, cfg, 4, HealsMedia(s, cfg))
  {
  }

  lemma AudioStage(s: Reading, cfg: Thresholds)
    ensures AtStage(s, cfg, 5, HealsAudio(s, cfg))
  {
  }

  lemma DiscordStage(s: Reading, cfg: Thresholds)
    ensures AtStage(s, cfg, 6, HealsDiscord(s, cfg))
  {
  }

  lemma ForwardingStage(s: Reading, cfg: Thresholds)
    ensures AtStage(s, cfg, 7, HealsForwarding(s, cfg))
  {
  }

  lemma DeliveryStage(s: Reading, cfg: Thresholds)
    ensures AtStage(s, cfg, 8, HealsDelivery(s, cfg))
  {
  }

  lemma EventsStage(s: Reading, cfg: Thresholds)
    ensures AtStage(s, cfg, 9, HealsEvents(s, cfg))
  {
  }

  lemma StreamStage(s: Reading, cfg: Thresholds)
    ensures AtStage(s, cfg, 10, HealsStream(s, cfg))
  {
  }

  lemma StatusStage(s: Reading, cfg: Thresholds)
    ensures AtStage(s, cfg, 11, HealsStatus(s, cfg))
  {
  }

  /** What the stretches up to one of them have listed. */
  ghost function ListedUpTo(s: Reading, cfg: Thresholds, stage: nat): seq<Recovery> {
    if 1 <= HealStage(s.metric) <= stage then AddedAll([], Heals(s, cfg).rules, Heals(s, cfg).reason) else []
  }

  lemma StageAdded(s: Reading, cfg: Thresholds, stage: nat, h: Healing)
    requires stage > 0 && AtStage(s, cfg, stage, h)
    ensures AddedAll(ListedUpTo(s, cfg, stage - 1), h.rules, h.reason) == ListedUpTo(s, cfg, stage)
  {
  }

  method RunHealers(r: Reading, cfg: Thresholds) returns (out: seq<Recovery>)
    ensures out == ListedUpTo(r, cfg, 11)
  {
    out := HealService(r, cfg, []);
    ServiceStage(r, cfg);
    StageAdded(r, cfg, 1, HealsService(r, cfg));
    out := HealArchive(r, cfg, out);
    ArchiveStage(r, cfg);
    StageAdded(r, cfg, 2, HealsArchive(r, cfg));
    out := HealNetwork(r, cfg, out);
    NetworkStage(r, cfg);
    StageAdded(r, cfg, 3, HealsNetwork(r, cfg));
    out := HealMedia(r, cfg, out);
    MediaStage(r, cfg);
    StageAdded(r, cfg, 4, HealsMedia(r, cfg));
    out := HealAudio(r, cfg, out);
    AudioStage(r, cfg);
    StageAdded(r, cfg, 5, HealsAudio(r, cfg));
    out := HealDiscord(r, cfg, out);
    DiscordStage(r, cfg);
    StageAdded(r, cfg, 6, HealsDiscord(r, cfg));
    out := HealForwarding(r, cfg, out);
    ForwardingStage(r, cfg);
    StageAdded(r, cfg, 7, HealsForwarding(r, cfg));
    out := HealDelivery(r, cfg, out);
    DeliveryStage(r, cfg);
    StageAdded(r, cfg, 8, HealsDelivery(r, cfg));
    out := HealEvents(r, cfg, out);
    EventsStage(r, cfg);
    StageAdded(r, cfg, 9, HealsEvents(r, cfg));
    out := HealStream(r, cfg, out);
    StreamStage(r, cfg);
    StageAdded(r, cfg, 10, HealsStream(r, cfg));
    out := HealStatus(r, cfg, out);
    StatusStage(r, cfg);
    StageAdded(r, cfg, 11, HealsStatus(r, cfg));
  }

  lemma ListedIsHealed(s: Reading, cfg: Thresholds, q: Rule)
    ensures Listed(ListedUpTo(s, cfg, 11), q) == Healed(s, cfg, q) && Distinct(ListedUpTo(s, cfg, 11))
  {
    AllListed(s, cfg);
    AddedAllLaws([], Heals(s, cfg).rules, Heals(s, cfg).reason, q);
  }

  lemma AllListed(s: Reading, cfg: Thresholds)
    ensures ListedUpTo(s, cfg, 11) == AddedAll([], Heals(s, cfg).rules, Heals(s, cfg).reason)
  {
    StageRange(s.metric);
    if HealStage(s.metric) == 12 {
      assert Heals(s, cfg) == NOTHING_HEALED;
    }
  }

  lemma StageRange(m: Metric)
    ensures 1 <= HealStage(m) <= 12
  {
  }
}

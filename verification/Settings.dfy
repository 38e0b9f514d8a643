/** A node's settings for its output log and for the rotation of the logs its process writes, and
    what the validator demands of them. */
module Settings {
  import opened Options

  const FILE := "file"
  const SIGNAL := "signal"
  const COPY_TRUNCATE := "copytruncate"
  const SKIP := "skip"
  const FAIL := "fail"

  datatype StreamLog = StreamLog(stdout: string, stderr: string, filePath: string)

  datatype RotateFile = RotateFile(pattern: string, signal: string)

  datatype OversizedFile = OversizedFile(maxBytes: int, keepTailBytes: int)

  datatype LogRotate = LogRotate(filePath: string, files: seq<RotateFile>, reopen: string, onMissingPid: string,
                                 interval: int, signal: string, oversized: Option<OversizedFile>)

  /** The settings, and what kind of node they are on. */
  datatype NodeSettings = NodeSettings(log: Option<StreamLog>, rotate: Option<LogRotate>,
                                       exec: bool, oneshot: bool, scheduler: bool)

  datatype SettingsError =
    | LogWithoutPath
    | RotateWithExec
    | RotateWithOneshot
    | RotateWithScheduler
    | FilePathAndFiles
    | NothingToRotate
    | EmptyPattern(index: nat)
    | UnknownReopen(mode: string)
    | UnknownOnMissingPid(mode: string)
    | NegativeInterval
    | MissingSignal
    | MissingFileSignal(index: nat)
    | OversizedNotPositive
    | KeepTailNotPositive
    | KeepTailTooLarge(keep: int, max: int)

  function OrDefault(value: string, default: string): string {
    if value == "" then default else value
  }

  function ReopenMode(cfg: LogRotate): string { OrDefault(cfg.reopen, SIGNAL) }

  function MissingPidMode(cfg: LogRotate): string { OrDefault(cfg.onMissingPid, SKIP) }

  // ---- What good settings are ----

  predicate LogOk(log: StreamLog) {
    log.filePath != "" || (log.stdout != FILE && log.stderr != FILE)
  }

  /** The group has a signal, or every file entry its own. */
  predicate HasSignal(cfg: LogRotate) {
    cfg.signal != "" || (cfg.files != [] && forall i :: 0 <= i < |cfg.files| ==> cfg.files[i].signal != "")
  }

  predicate OversizedOk(o: OversizedFile) {
    0 < o.keepTailBytes < o.maxBytes
  }

  predicate RotateOk(cfg: LogRotate) {
    && (cfg.filePath == "" <==> cfg.files != [])
    && (forall i :: 0 <= i < |cfg.files| ==> cfg.files[i].pattern != "")
    && ReopenMode(cfg) in [SIGNAL, COPY_TRUNCATE]
    && MissingPidMode(cfg) in [SKIP, FAIL]
    && cfg.interval >= 0
    && (ReopenMode(cfg) == SIGNAL ==> HasSignal(cfg))
    && (cfg.oversized.Some? ==> OversizedOk(cfg.oversized.value))
  }

  predicate SettingsOk(s: NodeSettings) {
    && (s.log.Some? ==> LogOk(s.log.value))
    && (s.rotate.Some? ==> !s.exec && !s.oneshot && !s.scheduler && RotateOk(s.rotate.value))
  }

  /** The defect that an error reports is there. */
  predicate Defect(s: NodeSettings, e: SettingsError) {
    if e.LogWithoutPath? then
      s.log.Some? && s.log.value.filePath == "" && FILE in [s.log.value.stdout, s.log.value.stderr]
    else
      s.rotate.Some? &&
      var cfg := s.rotate.value;
      match e
      case RotateWithExec => s.exec
      case RotateWithOneshot => s.oneshot
      case RotateWithScheduler => s.scheduler
      case FilePathAndFiles => cfg.filePath != "" && cfg.files != []
      case NothingToRotate => cfg.filePath == "" && cfg.files == []
      case EmptyPattern(i) => i < |cfg.files| && cfg.files[i].pattern == ""
      case UnknownReopen(mode) => mode == cfg.reopen && ReopenMode(cfg) !in [SIGNAL, COPY_TRUNCATE]
      case UnknownOnMissingPid(mode) => mode == cfg.onMissingPid && MissingPidMode(cfg) !in [SKIP, FAIL]
      case NegativeInterval => cfg.interval < 0
      case MissingSignal => ReopenMode(cfg) == SIGNAL && cfg.signal == "" && cfg.files == []
      case MissingFileSignal(i) =>
        ReopenMode(cfg) == SIGNAL && cfg.signal == "" && i < |cfg.files| && cfg.files[i].signal == ""
      case OversizedNotPositive => cfg.oversized.Some? && cfg.oversized.value.maxBytes <= 0
      case KeepTailNotPositive => cfg.oversized.Some? && cfg.oversized.value.keepTailBytes <= 0
      case KeepTailTooLarge(keep, max) =>
        cfg.oversized == Some(OversizedFile(max, keep)) && keep >= max
      case _ => false
  }

  lemma DefectRefutes(s: NodeSettings, e: SettingsError)
    requires Defect(s, e)
    ensures !SettingsOk(s)
  {
  }

  // ---- What the settings mean ----

  /** Omitted modes are short for the usual ones, and these are all there are. */
  lemma ModesExactly(cfg: LogRotate)
    ensures RotateOk(cfg.(reopen := "")) <==> RotateOk(cfg.(reopen := "signal"))
    ensures RotateOk(cfg.(onMissingPid := "")) <==> RotateOk(cfg.(onMissingPid := "skip"))
    ensures RotateOk(cfg) ==> cfg.reopen in ["", "signal", "copytruncate"] && cfg.onMissingPid in ["", "skip", "fail"]
    ensures RotateOk(cfg) ==> RotateOk(cfg.(reopen := "copytruncate")) && RotateOk(cfg.(onMissingPid := "fail"))
  {
  }

  /** A log needs a path exactly if one of the two streams goes to a file. */
  lemma LogNeedsPath(log: StreamLog)
    ensures LogOk(log.(filePath := "")) <==> log.stdout != "file" && log.stderr != "file"
    ensures log.filePath != "" ==> LogOk(log)
  {
  }

  // ---- The check ----

  method CheckFiles(cfg: LogRotate) returns (err: Option<SettingsError>)
    ensures err.None? <==> (cfg.filePath == "" <==> cfg.files != [])
                           && forall i :: 0 <= i < |cfg.files| ==> cfg.files[i].pattern != ""
    ensures err.Some? ==> forall s: NodeSettings :: s.rotate == Some(cfg) ==> Defect(s, err.value)
  {
    if cfg.filePath != "" && |cfg.files| > 0 { return Some(FilePathAndFiles); }
    if cfg.filePath == "" && |cfg.files| == 0 { return Some(NothingToRotate); }
    for i := 0 to |cfg.files|
      invariant forall j :: 0 <= j < i ==> cfg.files[j].pattern != ""
    {
      if cfg.files[i].pattern == "" { return Some(EmptyPattern(i)); }
    }
    return None;
  }

  method CheckSignal(cfg: LogRotate) returns (err: Option<SettingsError>)
    ensures err.None? <==> (ReopenMode(cfg) == SIGNAL ==> HasSignal(cfg))
    ensures err.Some? ==> forall s: NodeSettings :: s.rotate == Some(cfg) ==> Defect(s, err.value)
  {
    if ReopenMode(cfg) == SIGNAL && cfg.signal == "" {
      if |cfg.files| == 0 { return Some(MissingSignal); }
      for i := 0 to |cfg.files|
        invariant forall j :: 0 <= j < i ==> cfg.files[j].signal != ""
      {
        if cfg.files[i].signal == "" { return Some(MissingFileSignal(i)); }
      }
    }
    return None;
  }

  method CheckSettings(s: NodeSettings) returns (err: Option<SettingsError>)
    ensures err.None? <==> SettingsOk(s)
    ensures err.Some? ==> Defect(s, err.value)
  {
    if s.log.Some? {
      var log := s.log.value;
      if (log.stdout == FILE || log.stderr == FILE) && log.filePath == "" { return Some(LogWithoutPath); }
    }
    if s.rotate.None? { return None; }
    var cfg := s.rotate.value;
    if s.exec { return Some(RotateWithExec); }
    if s.oneshot { return Some(RotateWithOneshot); }
    if s.scheduler { return Some(RotateWithScheduler); }
    err := CheckFiles(cfg);
    if err.Some? { return; }
    if ReopenMode(cfg) !in [SIGNAL, COPY_TRUNCATE] { return Some(UnknownReopen(cfg.reopen)); }
    if MissingPidMode(cfg) !in [SKIP, FAIL] { return Some(UnknownOnMissingPid(cfg.onMissingPid)); }
    if cfg.interval < 0 { return Some(NegativeInterval); }
    err := CheckSignal(cfg);
    if err.Some? { return; }
    if cfg.oversized.Some? {
      var o := cfg.oversized.value;
      if o.maxBytes <= 0 { return Some(OversizedNotPositive); }
      if o.keepTailBytes <= 0 { return Some(KeepTailNotPositive); }
      if o.keepTailBytes >= o.maxBytes { return Some(KeepTailTooLarge(o.keepTailBytes, o.maxBytes)); }
    }
    return None;
  }
}

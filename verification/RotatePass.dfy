/** One pass of the log rotator over the files an app owns: rotate every file past its threshold,
    tell the app to reopen them, and only then compress and prune. */
module RotatePass {
  import opened Options
  import opened ArchiveName
  import opened Rotate
  import Settings

  const DEFAULT_MAX_BYTES := 10 * 1024 * 1024
  const DEFAULT_MAX_BACKUPS := 3

  datatype Reopen = BySignal | ByCopyTruncate

  datatype Oversized = Oversized(maxBytes: int, keepTailBytes: int, compress: bool)

  datatype Config = Config(maxBytes: int, maxBackups: int, signal: string, compress: bool,
                           reopen: Reopen, oversized: Option<Oversized>)

  /** The overrides of one include entry. */
  datatype LogFile = LogFile(maxBytes: int, maxBackups: int, signal: string)

  datatype Match = Match(path: string, file: LogFile)

  datatype Crossed = Crossed(path: string, file: LogFile, size: nat, archive: string)

  /** What a pass does, in the order it does it; `seen` are the files the app finds when it is told
      to reopen its logs. */
  datatype Event =
    | Archived(path: string)
    | Sent(signal: string, seen: Files)
    | Trimmed(archive: string)
    | Zipped(archive: string)
    | PrunedLog(path: string)

  datatype Signal = Term | Int | Hup | Quit | Usr1 | Usr2 | Winch

  /** The signal a name stands for: each has three names. */
  function SignalOf(name: string): Option<Signal> {
    if name in ["SIGTERM", "TERM", "15"] then Some(Term)
    else if name in ["SIGINT", "INT", "2"] then Some(Int)
    else if name in ["SIGHUP", "HUP", "1"] then Some(Hup)
    else if name in ["SIGQUIT", "QUIT", "3"] then Some(Quit)
    else if name in ["SIGUSR1", "USR1", "10"] then Some(Usr1)
    else if name in ["SIGUSR2", "USR2", "12"] then Some(Usr2)
    else if name in ["SIGWINCH", "WINCH", "28"] then Some(Winch)
    else None
  }

  predicate KnownSignal(name: string) { SignalOf(name).Some? }

  /** A signal goes by its name, with or without SIG, and by its number, and by nothing else. */
  lemma NamesOf(name: string)
    ensures SignalOf(name) == Some(Term) <==> name == "TERM" || name == "SIGTERM" || name == "15"
    ensures SignalOf(name) == Some(Int) <==> name == "INT" || name == "SIGINT" || name == "2"
    ensures SignalOf(name) == Some(Hup) <==> name == "HUP" || name == "SIGHUP" || name == "1"
    ensures SignalOf(name) == Some(Quit) <==> name == "QUIT" || name == "SIGQUIT" || name == "3"
    ensures SignalOf(name) == Some(Usr1) <==> name == "USR1" || name == "SIGUSR1" || name == "10"
    ensures SignalOf(name) == Some(Usr2) <==> name == "USR2" || name == "SIGUSR2" || name == "12"
    ensures SignalOf(name) == Some(Winch) <==> name == "WINCH" || name == "SIGWINCH" || name == "28"
  {
  }

  function EffectiveMaxBytes(cfg: Config, f: LogFile): int {
    if f.maxBytes > 0 then f.maxBytes else if cfg.maxBytes > 0 then cfg.maxBytes else DEFAULT_MAX_BYTES
  }

  function EffectiveMaxBackups(cfg: Config, f: LogFile): (limit: int)
    ensures limit != 0
  {
    if f.maxBackups != 0 then f.maxBackups else if cfg.maxBackups != 0 then cfg.maxBackups else DEFAULT_MAX_BACKUPS
  }

  function EffectiveSignal(cfg: Config, f: LogFile): string {
    if f.signal != "" then f.signal else cfg.signal
  }

  /** v is the first in a list of settings that is set. */
  ghost predicate IsFirstSet<T>(v: T, settings: seq<T>, isSet: T -> bool) {
    isSet(v) && exists k :: 0 <= k < |settings| && settings[k] == v && forall j :: 0 <= j < k ==> !isSet(settings[j])
  }

  /** A file's own setting goes before the group's, and that before the default. */
  lemma Precedence(cfg: Config, f: LogFile)
    ensures IsFirstSet(EffectiveMaxBytes(cfg, f), [f.maxBytes, cfg.maxBytes, 10 * 1024 * 1024], n => n > 0)
    ensures IsFirstSet(EffectiveMaxBackups(cfg, f), [f.maxBackups, cfg.maxBackups, 3], n => n != 0)
    ensures EffectiveSignal(cfg, f) != "" ==>
              IsFirstSet(EffectiveSignal(cfg, f), [f.signal, cfg.signal], s => s != "")
    ensures EffectiveSignal(cfg, f) == "" <==> f.signal == "" && cfg.signal == ""
  {
    var bytes, backups, signals :=
      [f.maxBytes, cfg.maxBytes, 10 * 1024 * 1024], [f.maxBackups, cfg.maxBackups, 3], [f.signal, cfg.signal];
    assert EffectiveMaxBytes(cfg, f) == bytes[if f.maxBytes > 0 then 0 else if cfg.maxBytes > 0 then 1 else 2];
    assert EffectiveMaxBackups(cfg, f)
           == backups[if f.maxBackups != 0 then 0 else if cfg.maxBackups != 0 then 1 else 2];
    assert EffectiveSignal(cfg, f) == signals[if f.signal != "" then 0 else 1];
  }

  function RotateThreshold(cfg: Config, f: LogFile): (limit: int)
    ensures forall size: nat :: size >= limit <==> size >= EffectiveMaxBytes(cfg, f) || IsOversized(cfg, size)
  {
    var limit := EffectiveMaxBytes(cfg, f);
    if cfg.oversized.Some? && cfg.oversized.value.maxBytes < limit then cfg.oversized.value.maxBytes else limit
  }

  predicate IsOversized(cfg: Config, size: nat) {
    cfg.oversized.Some? && size >= cfg.oversized.value.maxBytes
  }

  function Keep(cfg: Config, size: nat): int {
    if IsOversized(cfg, size) then cfg.oversized.value.keepTailBytes else 0
  }

  predicate Compresses(cfg: Config, size: nat) {
    if IsOversized(cfg, size) then cfg.oversized.value.compress else cfg.compress
  }

  // ---- What validation means for a pass ----

  /** An oversized trigger is valid if and only if it always leaves something, and less than there was. */
  lemma ValidTriggerShortens(o: Settings.OversizedFile)
    ensures Settings.OversizedOk(o) <==>
            forall data: seq<byte> :: |data| >= o.maxBytes ==> 0 < |Tail(data, o.keepTailBytes)| < |data|
  {
    if !Settings.OversizedOk(o) {
      var n: nat := if o.maxBytes <= 0 then 0 else o.maxBytes;
      var data: seq<byte> := seq(n, _ => 0);
      TailExactly(data, o.keepTailBytes);
      assert |data| >= o.maxBytes;
    } else {
      forall data: seq<byte> | |data| >= o.maxBytes ensures 0 < |Tail(data, o.keepTailBytes)| < |data| {
        TailExactly(data, o.keepTailBytes);
      }
    }
  }

  /** In signal mode a group is valid only if every file has a signal, its own or the group's. */
  lemma ValidGroupSignals(cfg: Settings.LogRotate, group: Config)
    requires group.signal == cfg.signal
    ensures Settings.HasSignal(cfg) <==>
            if cfg.files == [] then cfg.signal != ""
            else forall i :: 0 <= i < |cfg.files| ==> EffectiveSignal(group, LogFile(0, 0, cfg.files[i].signal)) != ""
  {
  }

  // ---- What each step leaves ----

  predicate Crosses(cfg: Config, fs: Files, m: Match) {
    m.path in fs && |fs[m.path].data| >= RotateThreshold(cfg, m.file)
  }

  /** The files among the first k matches that have crossed their thresholds. */
  function Crossings(cfg: Config, fs: Files, ms: seq<Match>, k: nat): seq<Crossed>
    requires k <= |ms|
  {
    if k == 0 then [] else
    var m := ms[k - 1];
    Crossings(cfg, fs, ms, k - 1) + if Crosses(cfg, fs, m) then [Crossed(m.path, m.file, |fs[m.path].data|, "")] else []
  }

  /** A match is rotated exactly if it is there and as large as its limit, or oversized. */
  lemma CrossesExactly(cfg: Config, fs: Files, m: Match)
    ensures Crosses(cfg, fs, m) <==>
            && m.path in fs
            && (|| |fs[m.path].data| >= EffectiveMaxBytes(cfg, m.file)
                || (cfg.oversized.Some? && |fs[m.path].data| >= cfg.oversized.value.maxBytes))
  {
    hide EffectiveMaxBytes;
  }

  /** What rotating c puts at index 1, given the active file f. */
  function FirstArchive(cfg: Config, c: Crossed, f: Option<File>): Option<File> {
    match f
    case None => None
    case Some(file) =>
      Some(if cfg.reopen == BySignal then file else file.(data := Tail(file.data, Keep(cfg, c.size))))
  }

  /** ... and what it leaves in the active file's place. */
  function ActiveAfter(cfg: Config, f: Option<File>): Option<File> {
    if f.None? || cfg.reopen == BySignal then None else Some(File([], false))
  }

  /** The files once c's archive is trimmed, compressed and its log pruned. */
  ghost function Cleaned(fs: Files, cfg: Config, c: Crossed): Files {
    if c.archive == "" then fs
    else
      var trimmed := if IsOversized(cfg, c.size) then KeptTail(fs, c.archive, Keep(cfg, c.size)) else fs;
      var zipped := if Compresses(cfg, c.size) then Gzipped(trimmed, c.archive) else trimmed;
      Pruned(zipped, c.path, EffectiveMaxBackups(cfg, c.file))
  }

  ghost function CleanedAll(fs: Files, cfg: Config, cs: seq<Crossed>, k: nat): Files
    requires k <= |cs|
  {
    if k == 0 then fs else Cleaned(CleanedAll(fs, cfg, cs, k - 1), cfg, cs[k - 1])
  }

  // ---- The events of each phase ----

  function RotateEvents(cs: seq<Crossed>, k: nat): seq<Event>
    requires k <= |cs|
  {
    if k == 0 then []
    else RotateEvents(cs, k - 1) + if cs[k - 1].archive != "" then [Archived(cs[k - 1].path)] else []
  }

  /** The distinct signal names configured for the rotated files among the first k, in order. */
  function Names(cfg: Config, cs: seq<Crossed>, k: nat): seq<string>
    requires k <= |cs|
  {
    if k == 0 then [] else
    var before, name := Names(cfg, cs, k - 1), EffectiveSignal(cfg, cs[k - 1].file);
    if cs[k - 1].archive == "" || name == "" || name in before then before else before + [name]
  }

  function SendEvents(names: seq<string>, k: nat, seen: Files): seq<Event>
    requires k <= |names|
  {
    if k == 0 then []
    else SendEvents(names, k - 1, seen) + if KnownSignal(names[k - 1]) then [Sent(names[k - 1], seen)] else []
  }

  function CleanEvents(cfg: Config, c: Crossed): seq<Event> {
    if c.archive == "" then [] else
    (if IsOversized(cfg, c.size) then [Trimmed(c.archive)] else [])
    + (if Compresses(cfg, c.size) then [Zipped(c.archive)] else [])
    + [PrunedLog(c.path)]
  }

  function CleanAllEvents(cfg: Config, cs: seq<Crossed>, k: nat): seq<Event>
    requires k <= |cs|
  {
    if k == 0 then [] else CleanAllEvents(cfg, cs, k - 1) + CleanEvents(cfg, cs[k - 1])
  }

  /** Everything one pass does, in order, mid being the files after the first phase. */
  function PassEvents(cfg: Config, cs: seq<Crossed>, mid: Files): seq<Event> {
    RotateEvents(cs, |cs|)
    + (if cfg.reopen == BySignal then var names := Names(cfg, cs, |cs|); SendEvents(names, |names|, mid) else [])
    + CleanAllEvents(cfg, cs, |cs|)
  }

  // ---- Each log and its archives are a family of names ----

  ghost predicate IsNumbered(path: string, name: string) {
    exists s, ext :: s != "" && AllDigits(s) && IsExt(ext) && name == path + "." + s + ext
  }

  ghost predicate InFamily(path: string, name: string) {
    name == path || IsNumbered(path, name)
  }

  /** No two matched logs share a path, and none is an archive of another. */
  ghost predicate Apart(p: string, q: string) {
    p != q && !IsNumbered(p, q) && !IsNumbered(q, p)
  }

  ghost predicate AllApart(cs: seq<Crossed>) {
    forall i, j :: 0 <= i < j < |cs| ==> Apart(cs[i].path, cs[j].path)
  }

  ghost predicate SameFamily(fs: Files, fs': Files, path: string) {
    forall name :: InFamily(path, name) ==> Lookup(fs', name) == Lookup(fs, name)
  }

  /** Every change is to the family of path. */
  ghost predicate OnlyFamily(fs: Files, fs': Files, path: string) {
    forall name :: !InFamily(path, name) ==> Lookup(fs', name) == Lookup(fs, name)
  }

  ghost predicate OutsideAll(cs: seq<Crossed>, name: string) {
    forall j :: 0 <= j < |cs| ==> !InFamily(cs[j].path, name)
  }

  ghost predicate SameOutside(fs: Files, fs': Files, cs: seq<Crossed>) {
    forall name :: OutsideAll(cs, name) ==> Lookup(fs', name) == Lookup(fs, name)
  }

  lemma ArchiveIsNumbered(path: string, n: nat, ext: string)
    requires IsExt(ext)
    ensures InFamily(path, Archive(path, n, ext))
  {
    ValueOfDigits(n);
    var s := Digits(n);
    assert s != "" && AllDigits(s) && Archive(path, n, ext) == path + "." + s + ext;
  }

  lemma OwnName(path: string)
    ensures InFamily(path, path)
  {
  }

  lemma ParsedIsNumbered(path: string, name: string)
    requires Parse(path, name).Some?
    ensures InFamily(path, name)
  {
    var rest := name[|path| + 1..];
    var s, ext := Stem(rest), if EndsWithGz(rest) then GZ else "";
    assert rest == s + ext;
    assert name == name[..|path| + 1] + rest;
    assert (path + ".") + (s + ext) == path + "." + s + ext;
    assert s != "" && AllDigits(s) && IsExt(ext);
  }

  lemma NumberedEnd(path: string, s: string, ext: string)
    requires s != "" && AllDigits(s) && IsExt(ext)
    ensures var a := path + "." + s + ext; ext == GZ <==> a[|a| - 1] == 'z'
  {
    var a := path + "." + s + ext;
    if ext == "" { assert a[|a| - 1] == s[|s| - 1]; } else { assert a[|a| - 1] == ext[2]; }
  }

  lemma FamiliesDisjoint(p: string, q: string, name: string)
    requires Apart(p, q) && InFamily(p, name)
    ensures !InFamily(q, name)
  {
    if IsNumbered(p, name) && IsNumbered(q, name) {
      var s, ext :| s != "" && AllDigits(s) && IsExt(ext) && name == p + "." + s + ext;
      var s', ext' :| s' != "" && AllDigits(s') && IsExt(ext') && name == q + "." + s' + ext';
      NumberedEnd(p, s, ext);
      NumberedEnd(q, s', ext');
      assert name[..|name| - |ext|] == p + "." + s && name[..|name| - |ext'|] == q + "." + s';
      SplitsAtDot(p, q, s, s');
    }
  }

  lemma OtherFamily(fs: Files, fs': Files, p: string, q: string)
    requires Apart(p, q) && OnlyFamily(fs, fs', p)
    ensures SameFamily(fs, fs', q)
  {
    hide InFamily, Apart;
    forall name | InFamily(q, name) ensures Lookup(fs', name) == Lookup(fs, name) {
      if InFamily(p, name) { FamiliesDisjoint(p, q, name); }
    }
  }

  // ---- Phase one ----

  lemma RotatedOnlyFamily(fs: Files, fs': Files, path: string, first: Option<File>, active: Option<File>)
    requires Rotated(fs, fs', path, first, active)
    ensures OnlyFamily(fs, fs', path)
  {
    forall name | !InFamily(path, name) ensures Lookup(fs', name) == Lookup(fs, name) {
      if IsArchive(path, name) {
        var n: nat, ext :| n >= 1 && IsExt(ext) && name == Archive(path, n, ext);
        ArchiveIsNumbered(path, n, ext);
      }
    }
  }

  /** A rotation is one of the log's family, whatever else differs. */
  lemma OwnRotatedInFamily(was: Files, fs: Files, fs': Files, later: Files, path: string,
                           first: Option<File>, active: Option<File>)
    requires SameFamily(was, fs, path) && OwnRotated(fs, fs', path, first, active) && SameFamily(fs', later, path)
    ensures OwnRotated(was, later, path, first, active)
  {
    hide InFamily;
    OwnName(path);
    forall n: nat, ext {:trigger Lookup(was, Archive(path, n, ext))} | n >= 1 && IsExt(ext)
      ensures Lookup(later, Archive(path, n + 1, ext)) == Lookup(was, Archive(path, n, ext))
    {
      ArchiveIsNumbered(path, n, ext);
      ArchiveIsNumbered(path, n + 1, ext);
      assert Lookup(fs', Archive(path, n + 1, ext)) == Lookup(fs, Archive(path, n, ext));
    }
    ArchiveIsNumbered(path, 1, "");
    ArchiveIsNumbered(path, 1, GZ);
  }

  /** The first i logs are rotated, the others and all other files as they were. */
  ghost predicate Progress(cfg: Config, was: Files, fs: Files, cs: seq<Crossed>, i: nat) {
    && i <= |cs|
    && (forall j :: 0 <= j < i ==> LogRotated(cfg, was, fs, cs[j]))
    && (forall j :: i <= j < |cs| ==> SameFamily(was, fs, cs[j].path))
    && SameOutside(was, fs, cs)
  }

  ghost predicate LogRotated(cfg: Config, was: Files, fs: Files, c: Crossed) {
    var f := Lookup(was, c.path);
    OwnRotated(was, fs, c.path, FirstArchive(cfg, c, f), ActiveAfter(cfg, f))
  }

  lemma ProgressStep(cfg: Config, was: Files, fs: Files, fs': Files, cs: seq<Crossed>, i: nat)
    requires AllApart(cs) && i < |cs| && Progress(cfg, was, fs, cs, i)
    requires var f := Lookup(fs, cs[i].path);
             Rotated(fs, fs', cs[i].path, FirstArchive(cfg, cs[i], f), ActiveAfter(cfg, f))
    ensures Progress(cfg, was, fs', cs, i + 1)
  {
    hide InFamily, Apart, SameFamily, OnlyFamily, OwnRotated;
    var c := cs[i];
    var f := Lookup(fs, c.path);
    RotatedOnlyFamily(fs, fs', c.path, FirstArchive(cfg, c, f), ActiveAfter(cfg, f));
    forall j | 0 <= j < |cs| && j != i ensures SameFamily(fs, fs', cs[j].path) {
      ApartPair(cs, i, j);
      OtherFamily(fs, fs', c.path, cs[j].path);
    }
    SameFamilyRefl(fs', c.path);
    SamePath(was, fs, c.path);
    OwnRotatedInFamily(was, fs, fs', fs', c.path, FirstArchive(cfg, c, f), ActiveAfter(cfg, f));
    forall j | 0 <= j < i ensures LogRotated(cfg, was, fs', cs[j]) {
      assert LogRotated(cfg, was, fs, cs[j]);
      var g := Lookup(was, cs[j].path);
      SameFamilyRefl(was, cs[j].path);
      OwnRotatedInFamily(was, was, fs, fs', cs[j].path, FirstArchive(cfg, cs[j], g), ActiveAfter(cfg, g));
    }
    forall j | i < j < |cs| ensures SameFamily(was, fs', cs[j].path) {
      SameFamilyTrans(was, fs, fs', cs[j].path);
    }
    OutsideStep(was, fs, fs', cs, i);
  }

  lemma ApartPair(cs: seq<Crossed>, i: nat, j: nat)
    requires AllApart(cs) && i < |cs| && j < |cs| && i != j
    ensures Apart(cs[i].path, cs[j].path)
  {
  }

  lemma SameFamilyRefl(fs: Files, path: string)
    ensures SameFamily(fs, fs, path)
  {
  }

  lemma SameFamilyTrans(fs: Files, fs': Files, fs'': Files, path: string)
    requires SameFamily(fs, fs', path) && SameFamily(fs', fs'', path)
    ensures SameFamily(fs, fs'', path)
  {
    hide InFamily;
  }

  lemma SamePath(fs: Files, fs': Files, path: string)
    requires SameFamily(fs, fs', path)
    ensures Lookup(fs', path) == Lookup(fs, path)
  {
    OwnName(path);
  }

  lemma OutsideStep(was: Files, fs: Files, fs': Files, cs: seq<Crossed>, i: nat)
    requires i < |cs| && SameOutside(was, fs, cs) && OnlyFamily(fs, fs', cs[i].path)
    ensures SameOutside(was, fs', cs)
  {
    hide InFamily;
  }

  lemma SameIndexed(was: Files, fs: Files, path: string)
    requires SameFamily(was, fs, path) && Indexed(was, path)
    ensures Indexed(fs, path)
  {
    hide InFamily;
    forall n: nat, ext | IsExt(ext) && Archive(path, n, ext) in fs ensures n < MAX_INT {
      ArchiveIsNumbered(path, n, ext);
      assert Lookup(fs, Archive(path, n, ext)) == Lookup(was, Archive(path, n, ext));
    }
  }

  // ---- Phase three ----

  lemma PrunedOnlyFamily(fs: Files, path: string, maxBackups: int)
    ensures OnlyFamily(fs, Pruned(fs, path, maxBackups), path)
  {
    hide InFamily;
    forall name | !InFamily(path, name) ensures Lookup(Pruned(fs, path, maxBackups), name) == Lookup(fs, name) {
      if Parse(path, name).Some? { ParsedIsNumbered(path, name); }
    }
  }

  lemma CleanedOnlyFamily(fs: Files, cfg: Config, c: Crossed)
    requires c.archive == "" || c.archive == Archive(c.path, 1, "")
    ensures OnlyFamily(fs, Cleaned(fs, cfg, c), c.path)
  {
    hide InFamily, Pruned;
    if c.archive != "" {
      GzName(c.path);
      ArchiveIsNumbered(c.path, 1, "");
      ArchiveIsNumbered(c.path, 1, GZ);
      var trimmed := if IsOversized(cfg, c.size) then KeptTail(fs, c.archive, Keep(cfg, c.size)) else fs;
      var zipped := if Compresses(cfg, c.size) then Gzipped(trimmed, c.archive) else trimmed;
      PrunedOnlyFamily(zipped, c.path, EffectiveMaxBackups(cfg, c.file));
      assert OnlyFamily(fs, zipped, c.path);
    }
  }

  class Engine {
    const disk: Disk
    var trace: seq<Event>

    constructor (disk: Disk)
      ensures this.disk == disk && trace == []
    {
      this.disk := disk;
      trace := [];
    }

    /** The matched files that have crossed their thresholds. */
    method FindCrossed(cfg: Config, ms: seq<Match>) returns (cs: seq<Crossed>)
      ensures cs == Crossings(cfg, disk.files, ms, |ms|)
    {
      cs := [];
      for k := 0 to |ms|
        invariant cs == Crossings(cfg, disk.files, ms, k)
      {
        var m := ms[k];
        if m.path in disk.files {
          var size := |disk.files[m.path].data|;
          if size >= RotateThreshold(cfg, m.file) {
            cs := cs + [Crossed(m.path, m.file, size, "")];
          }
        }
      }
    }

    /** Renames the log, or copies and truncates it; the archive's name, or "" if there was no log. */
    method RotateOne(cfg: Config, c: Crossed) returns (archive: string)
      requires Indexed(disk.files, c.path)
      modifies this, disk
      ensures archive == if c.path in old(disk.files) then Archive(c.path, 1, "") else ""
      ensures var f := Lookup(old(disk.files), c.path);
              Rotated(old(disk.files), disk.files, c.path, FirstArchive(cfg, c, f), ActiveAfter(cfg, f))
      ensures trace == old(trace) + if archive != "" then [Archived(c.path)] else []
    {
      hide Rotated, Indexed;
      var r: Option<string>;
      if cfg.reopen == ByCopyTruncate {
        var keep := 0;
        if IsOversized(cfg, c.size) { keep := cfg.oversized.value.keepTailBytes; }
        r := disk.CopyTruncate(c.path, keep);
      } else {
        r := disk.ShiftAndRename(c.path);
      }
      if r.None? { return ""; }
      trace := trace + [Archived(c.path)];
      return r.value;
    }

    /** Phase one: rotates every crossed file. */
    method RotateAll(cfg: Config, cs: seq<Crossed>) returns (done: seq<Crossed>)
      requires AllApart(cs)
      requires forall i :: 0 <= i < |cs| ==> Indexed(disk.files, cs[i].path) && cs[i].archive == ""
      modifies this, disk
      ensures |done| == |cs| && forall i :: 0 <= i < |cs| ==> done[i] == Done(old(disk.files), cs[i])
      ensures Progress(cfg, old(disk.files), disk.files, cs, |cs|)
      ensures trace == old(trace) + RotateEvents(done, |done|)
    {
      hide AllApart, Indexed, Rotated, Progress, InFamily;
      ghost var was := disk.files;
      done := [];
      assert Progress(cfg, was, was, cs, 0) by { NoProgress(cfg, was, cs); }
      for i := 0 to |cs|
        invariant |done| == i && forall j :: 0 <= j < i ==> done[j] == Done(was, cs[j])
        invariant Progress(cfg, was, disk.files, cs, i)
        invariant trace == old(trace) + RotateEvents(done, i)
      {
        ghost var fs := disk.files;
        StillSame(cfg, was, fs, cs, i);
        SameIndexed(was, fs, cs[i].path);
        SamePath(was, fs, cs[i].path);
        var archive := RotateOne(cfg, cs[i]);
        ProgressStep(cfg, was, fs, disk.files, cs, i);
        ghost var before := done;
        done := done + [cs[i].(archive := archive)];
        RotateEventsPrefix(before, done, i);
      }
    }

    /** Phase two: one signal for each distinct name. */
    method SignalOnce(cfg: Config, cs: seq<Crossed>)
      modifies this
      ensures var names := Names(cfg, cs, |cs|); trace == old(trace) + SendEvents(names, |names|, disk.files)
    {
      var sent: seq<string> := [];
      for k := 0 to |cs|
        invariant sent == Names(cfg, cs, k)
        invariant trace == old(trace) + SendEvents(sent, |sent|, disk.files)
      {
        if cs[k].archive != "" {
          var name := EffectiveSignal(cfg, cs[k].file);
          if name != "" && name !in sent {
            ghost var before := sent;
            sent := sent + [name];
            SendEventsPrefix(before, sent, |before|, disk.files);
            if KnownSignal(name) { trace := trace + [Sent(name, disk.files)]; }
          }
        }
      }
    }

    method CleanOne(cfg: Config, c: Crossed)
      modifies this, disk
      ensures disk.files == Cleaned(old(disk.files), cfg, c)
      ensures trace == old(trace) + CleanEvents(cfg, c)
    {
      hide Pruned, KeptTail, Gzipped;
      if c.archive == "" { return; }
      if IsOversized(cfg, c.size) {
        var _ := disk.KeepTail(c.archive, cfg.oversized.value.keepTailBytes);
        trace := trace + [Trimmed(c.archive)];
        if cfg.oversized.value.compress {
          var _ := disk.CompressArchive(c.archive);
          trace := trace + [Zipped(c.archive)];
        }
      } else if cfg.compress {
        var _ := disk.CompressArchive(c.archive);
        trace := trace + [Zipped(c.archive)];
      }
      disk.PruneBackups(c.path, EffectiveMaxBackups(cfg, c.file));
      trace := trace + [PrunedLog(c.path)];
    }

    /** Phase three: trims, compresses and prunes what was rotated. */
    method CleanAll(cfg: Config, cs: seq<Crossed>)
      modifies this, disk
      ensures disk.files == CleanedAll(old(disk.files), cfg, cs, |cs|)
      ensures trace == old(trace) + CleanAllEvents(cfg, cs, |cs|)
    {
      hide Cleaned, CleanEvents;
      for k := 0 to |cs|
        invariant disk.files == CleanedAll(old(disk.files), cfg, cs, k)
        invariant trace == old(trace) + CleanAllEvents(cfg, cs, k)
      {
        CleanOne(cfg, cs[k]);
      }
    }

    /** One pass. `gone` are files that other programs remove between the size check and the renames. */
    method Pass(cfg: Config, pid: int, ms: seq<Match>, gone: set<string>)
      returns (done: seq<Crossed>, ghost mid: Files)
      requires forall i, j :: 0 <= i < j < |ms| ==> Apart(ms[i].path, ms[j].path)
      requires forall i :: 0 <= i < |ms| ==> Indexed(disk.files, ms[i].path)
      modifies this, disk
      ensures cfg.reopen == BySignal && pid <= 0 ==> disk.files == old(disk.files) && trace == old(trace)
      ensures cfg.reopen == ByCopyTruncate || pid > 0 ==>
                && PassDone(cfg, ms, old(disk.files), gone, done, mid, disk.files)
                && trace == old(trace) + PassEvents(cfg, done, mid)
    {
      hide Apart, Indexed, AllApart, Progress, Crossings, RotateEvents, Names, SendEvents, CleanAllEvents, CleanedAll;
      mid := disk.files;
      if cfg.reopen == BySignal && pid <= 0 { return [], mid; }
      var cs := FindCrossed(cfg, ms);
      ghost var was := disk.files;
      disk.files := disk.files - gone;
      CrossingsApart(cfg, was, gone, ms, |ms|);
      done := RotateAll(cfg, cs);
      mid := disk.files;
      if cfg.reopen == BySignal { SignalOnce(cfg, done); }
      CleanAll(cfg, done);
    }
  }

  function Done(fs: Files, c: Crossed): Crossed {
    c.(archive := if c.path in fs then Archive(c.path, 1, "") else "")
  }

  /** mid is what the first phase makes of the files, final what the last phase makes of mid. */
  ghost predicate PassDone(cfg: Config, ms: seq<Match>, was: Files, gone: set<string>,
                           done: seq<Crossed>, mid: Files, final: Files) {
    var cs := Crossings(cfg, was, ms, |ms|);
    && |done| == |cs| && (forall i :: 0 <= i < |cs| ==> done[i] == Done(was - gone, cs[i]))
    && AllApart(cs)
    && Progress(cfg, was - gone, mid, cs, |cs|)
    && final == CleanedAll(mid, cfg, done, |done|)
  }

  lemma StillSame(cfg: Config, was: Files, fs: Files, cs: seq<Crossed>, i: nat)
    requires i < |cs| && Progress(cfg, was, fs, cs, i)
    ensures SameFamily(was, fs, cs[i].path)
  {
  }

  lemma NoProgress(cfg: Config, fs: Files, cs: seq<Crossed>)
    ensures Progress(cfg, fs, fs, cs, 0)
  {
  }

  lemma {:induction false} RotateEventsPrefix(cs: seq<Crossed>, cs': seq<Crossed>, k: nat)
    requires k <= |cs| && cs <= cs'
    ensures RotateEvents(cs', k) == RotateEvents(cs, k)
  {
    if k > 0 { RotateEventsPrefix(cs, cs', k - 1); }
  }

  lemma {:induction false} SendEventsPrefix(names: seq<string>, names': seq<string>, k: nat, seen: Files)
    requires k <= |names| && names <= names'
    ensures SendEvents(names', k, seen) == SendEvents(names, k, seen)
  {
    if k > 0 { SendEventsPrefix(names, names', k - 1, seen); }
  }

  predicate FromMatch(cfg: Config, fs: Files, m: Match, c: Crossed) {
    Crosses(cfg, fs, m) && c == Crossed(m.path, m.file, |fs[m.path].data|, "")
  }

  ghost predicate FromSome(cfg: Config, fs: Files, ms: seq<Match>, k: nat, c: Crossed) {
    k <= |ms| && exists j :: 0 <= j < k && FromMatch(cfg, fs, ms[j], c)
  }

  ghost predicate Listed(cfg: Config, fs: Files, m: Match, cs: seq<Crossed>) {
    exists i :: 0 <= i < |cs| && FromMatch(cfg, fs, m, cs[i])
  }

  /** Each crossed file is one match past its threshold, and each such match is crossed. */
  lemma {:induction false} CrossingsAre(cfg: Config, fs: Files, ms: seq<Match>, k: nat)
    requires k <= |ms|
    ensures forall c :: c in Crossings(cfg, fs, ms, k) ==> FromSome(cfg, fs, ms, k, c)
    ensures forall j :: 0 <= j < k && Crosses(cfg, fs, ms[j]) ==> Listed(cfg, fs, ms[j], Crossings(cfg, fs, ms, k))
  {
    if k > 0 {
      CrossingsAre(cfg, fs, ms, k - 1);
      var before, now := Crossings(cfg, fs, ms, k - 1), Crossings(cfg, fs, ms, k);
      forall c | c in now ensures FromSome(cfg, fs, ms, k, c) {
        if c in before {
          assert FromSome(cfg, fs, ms, k - 1, c);
        } else {
          assert c == now[|before|] && FromMatch(cfg, fs, ms[k - 1], c);
        }
      }
      assert before <= now;
      forall j | 0 <= j < k && Crosses(cfg, fs, ms[j]) ensures Listed(cfg, fs, ms[j], now) {
        if j < k - 1 {
          assert Listed(cfg, fs, ms[j], before);
          var i :| 0 <= i < |before| && FromMatch(cfg, fs, ms[j], before[i]);
          assert now[i] == before[i];
        } else {
          assert FromMatch(cfg, fs, ms[j], now[|before|]);
        }
      }
    }
  }

  lemma {:induction false} CrossingsApart(cfg: Config, fs: Files, gone: set<string>, ms: seq<Match>, k: nat)
    requires k <= |ms|
    requires forall i, j :: 0 <= i < j < |ms| ==> Apart(ms[i].path, ms[j].path)
    requires forall i :: 0 <= i < |ms| ==> Indexed(fs, ms[i].path)
    ensures AllApart(Crossings(cfg, fs, ms, k))
    ensures var cs := Crossings(cfg, fs, ms, k);
            forall i :: 0 <= i < |cs| ==> Indexed(fs - gone, cs[i].path) && cs[i].archive == ""
  {
    hide Apart, Indexed, Crosses;
    if k > 0 {
      CrossingsApart(cfg, fs, gone, ms, k - 1);
      CrossingsAre(cfg, fs, ms, k - 1);
      StillIndexed(fs, gone, ms[k - 1].path);
      forall c | c in Crossings(cfg, fs, ms, k - 1) ensures Apart(c.path, ms[k - 1].path) {
        assert FromSome(cfg, fs, ms, k - 1, c);
      }
    }
  }

  lemma StillIndexed(fs: Files, gone: set<string>, path: string)
    requires Indexed(fs, path)
    ensures Indexed(fs - gone, path)
  {
  }

  // ---- The order of a pass ----

  function Phase(e: Event): nat {
    match e
    case Archived(_) => 1
    case Sent(_, _) => 2
    case _ => 3
  }

  ghost predicate AllInPhase(events: seq<Event>, phase: nat) {
    forall i :: 0 <= i < |events| ==> Phase(events[i]) == phase
  }

  ghost predicate Distinct<T>(s: seq<T>) {
    forall i, j :: 0 <= i < j < |s| ==> s[i] != s[j]
  }

  lemma {:induction false} RotatesInPhase(cs: seq<Crossed>, k: nat)
    requires k <= |cs|
    ensures AllInPhase(RotateEvents(cs, k), 1)
  {
    if k > 0 { RotatesInPhase(cs, k - 1); }
  }

  lemma {:induction false} CleansInPhase(cfg: Config, cs: seq<Crossed>, k: nat)
    requires k <= |cs|
    ensures AllInPhase(CleanAllEvents(cfg, cs, k), 3)
  {
    hide CleanEvents;
    if k > 0 {
      CleansInPhase(cfg, cs, k - 1);
      CleanInPhase(cfg, cs[k - 1]);
    }
  }

  lemma CleanInPhase(cfg: Config, c: Crossed)
    ensures AllInPhase(CleanEvents(cfg, c), 3)
  {
    hide IsOversized, Compresses;
  }

  /** Every send goes out with the files as phase one left them; no name is sent twice. */
  lemma {:induction false} SendsAre(names: seq<string>, k: nat, seen: Files)
    requires k <= |names|
    requires Distinct(names)
    ensures var events := SendEvents(names, k, seen);
            && AllInPhase(events, 2)
            && (forall e :: e in events <==>
                              e.Sent? && e.seen == seen && e.signal in names[..k] && KnownSignal(e.signal))
            && Distinct(events)
  {
    hide KnownSignal;
    if k > 0 {
      SendsAre(names, k - 1, seen);
      assert names[..k] == names[..k - 1] + [names[k - 1]];
    }
  }

  /** The names to send: one for each distinct configured name of a rotated file. */
  lemma {:induction false} NamesAre(cfg: Config, cs: seq<Crossed>, k: nat)
    requires k <= |cs|
    ensures var names := Names(cfg, cs, k);
            && Distinct(names)
            && (forall name :: name in names <==> Configured(cfg, cs, k, name))
  {
    if k > 0 {
      NamesAre(cfg, cs, k - 1);
      var c := cs[k - 1];
      forall name ensures Configured(cfg, cs, k, name) <==>
                          Configured(cfg, cs, k - 1, name)
                          || (c.archive != "" && name == EffectiveSignal(cfg, c.file) && name != "")
      {
      }
    }
  }

  ghost predicate Configured(cfg: Config, cs: seq<Crossed>, k: nat, name: string) {
    && k <= |cs| && name != ""
    && exists i :: 0 <= i < k && cs[i].archive != "" && EffectiveSignal(cfg, cs[i].file) == name
  }

  /** A pass renames everything first, then sends each known configured signal once, then cleans up. */
  lemma PassOrder(cfg: Config, cs: seq<Crossed>, mid: Files)
    ensures var events := PassEvents(cfg, cs, mid);
            && (forall i, j :: 0 <= i < j < |events| ==> Phase(events[i]) <= Phase(events[j]))
            && (forall i, j :: 0 <= i < j < |events| && events[i].Sent? && events[j].Sent? ==>
                  events[i].signal != events[j].signal)
            && (forall e :: e in events && e.Sent? <==>
                  e.Sent? && e.seen == mid && cfg.reopen == BySignal && KnownSignal(e.signal)
                  && Configured(cfg, cs, |cs|, e.signal))
  {
    hide KnownSignal, Configured, RotateEvents, Names, SendEvents, CleanAllEvents;
    var names := Names(cfg, cs, |cs|);
    RotatesInPhase(cs, |cs|);
    CleansInPhase(cfg, cs, |cs|);
    NamesAre(cfg, cs, |cs|);
    SendsAre(names, |names|, mid);
    assert names[..|names|] == names;
    PassOrdered(RotateEvents(cs, |cs|), if cfg.reopen == BySignal then SendEvents(names, |names|, mid) else [],
                CleanAllEvents(cfg, cs, |cs|));
  }

  /** One of the first k logs was there and has this path. */
  ghost predicate Archives(cs: seq<Crossed>, k: nat, path: string) {
    k <= |cs| && exists j :: 0 <= j < k && cs[j].archive != "" && cs[j].path == path
  }

  ghost predicate Trims(cfg: Config, cs: seq<Crossed>, k: nat, archive: string) {
    && k <= |cs| && archive != "" && cfg.oversized.Some?
    && exists j :: 0 <= j < k && cs[j].archive == archive && cs[j].size >= cfg.oversized.value.maxBytes
  }

  ghost predicate Zips(cfg: Config, cs: seq<Crossed>, k: nat, archive: string) {
    && k <= |cs| && archive != ""
    && exists j :: 0 <= j < k && cs[j].archive == archive
                   && if cfg.oversized.Some? && cs[j].size >= cfg.oversized.value.maxBytes
                      then cfg.oversized.value.compress else cfg.compress
  }

  lemma {:induction false} ArchivesAre(cs: seq<Crossed>, k: nat, path: string)
    requires k <= |cs|
    ensures Archived(path) in RotateEvents(cs, k) <==> Archives(cs, k, path)
  {
    if k > 0 { ArchivesAre(cs, k - 1, path); }
  }

  lemma {:induction false} CleansAre(cfg: Config, cs: seq<Crossed>, k: nat, path: string, archive: string)
    requires k <= |cs|
    ensures PrunedLog(path) in CleanAllEvents(cfg, cs, k) <==> Archives(cs, k, path)
    ensures Trimmed(archive) in CleanAllEvents(cfg, cs, k) <==> Trims(cfg, cs, k, archive)
    ensures Zipped(archive) in CleanAllEvents(cfg, cs, k) <==> Zips(cfg, cs, k, archive)
  {
    if k > 0 {
      hide CleanEvents, Archives, Trims, Zips;
      CleansAre(cfg, cs, k - 1, path, archive);
      CleansOne(cfg, cs[k - 1], path, archive);
      OneMoreLog(cfg, cs, k, path, archive);
    }
  }

  lemma OneMoreLog(cfg: Config, cs: seq<Crossed>, k: nat, path: string, archive: string)
    requires 0 < k <= |cs|
    ensures var c := cs[k - 1];
            var large := cfg.oversized.Some? && c.size >= cfg.oversized.value.maxBytes;
            && (Archives(cs, k, path) <==> Archives(cs, k - 1, path) || (c.archive != "" && c.path == path))
            && (Trims(cfg, cs, k, archive) <==>
                Trims(cfg, cs, k - 1, archive) || (c.archive == archive != "" && large))
            && (Zips(cfg, cs, k, archive) <==>
                || Zips(cfg, cs, k - 1, archive)
                || (c.archive == archive != "" && if large then cfg.oversized.value.compress else cfg.compress))
  {
  }

  lemma CleansOne(cfg: Config, c: Crossed, path: string, archive: string)
    ensures PrunedLog(path) in CleanEvents(cfg, c) <==> c.archive != "" && c.path == path
    ensures Trimmed(archive) in CleanEvents(cfg, c) <==>
            c.archive != "" && c.archive == archive && cfg.oversized.Some? && c.size >= cfg.oversized.value.maxBytes
    ensures Zipped(archive) in CleanEvents(cfg, c) <==>
            c.archive != "" && c.archive == archive
            && if cfg.oversized.Some? && c.size >= cfg.oversized.value.maxBytes
               then cfg.oversized.value.compress else cfg.compress
  {
  }

  /** The other events: each log that was there is archived, trimmed if it was oversized, gzipped if that
      is asked for its size, and pruned; nothing is done for one that was gone. */
  lemma PassEventsAre(cfg: Config, cs: seq<Crossed>, mid: Files, path: string, archive: string)
    ensures var events := PassEvents(cfg, cs, mid);
            && (Archived(path) in events <==> Archives(cs, |cs|, path))
            && (PrunedLog(path) in events <==> Archives(cs, |cs|, path))
            && (Trimmed(archive) in events <==> Trims(cfg, cs, |cs|, archive))
            && (Zipped(archive) in events <==> Zips(cfg, cs, |cs|, archive))
  {
    hide Archives, Trims, Zips, RotateEvents, CleanAllEvents, SendEvents, Names, KnownSignal;
    var names := Names(cfg, cs, |cs|);
    NamesAre(cfg, cs, |cs|);
    SendsAre(names, |names|, mid);
    RotatesInPhase(cs, |cs|);
    CleansInPhase(cfg, cs, |cs|);
    ArchivesAre(cs, |cs|, path);
    CleansAre(cfg, cs, |cs|, path, archive);
    NotInPhase(RotateEvents(cs, |cs|), 1);
    NotInPhase(SendEvents(names, |names|, mid), 2);
    NotInPhase(CleanAllEvents(cfg, cs, |cs|), 3);
  }

  lemma NotInPhase(events: seq<Event>, phase: nat)
    requires AllInPhase(events, phase)
    ensures forall e :: e in events ==> Phase(e) == phase
  {
  }

  /** Two names of rotated files stand for the same signal. */
  ghost predicate Aliases(cfg: Config, cs: seq<Crossed>, name: string, name': string) {
    && name != name' && Configured(cfg, cs, |cs|, name) && Configured(cfg, cs, |cs|, name')
    && SignalOf(name).Some? && SignalOf(name) == SignalOf(name')
  }

  ghost predicate NoSignalTwice(events: seq<Event>) {
    forall i, j :: 0 <= i < j < |events| && events[i].Sent? && events[j].Sent? ==>
      SignalOf(events[i].signal) != SignalOf(events[j].signal)
  }

  /** In signal mode no signal goes out twice if and only if no two configured names are aliases. */
  lemma SignalsOnceExactly(cfg: Config, cs: seq<Crossed>, mid: Files)
    requires cfg.reopen == BySignal
    ensures NoSignalTwice(PassEvents(cfg, cs, mid)) <==> forall name, name' :: !Aliases(cfg, cs, name, name')
  {
    hide SignalOf, Configured, PassEvents;
    var events := PassEvents(cfg, cs, mid);
    PassOrder(cfg, cs, mid);
    if name, name' :| Aliases(cfg, cs, name, name') {
      assert Sent(name, mid) in events && Sent(name', mid) in events;
      var i :| 0 <= i < |events| && events[i] == Sent(name, mid);
      var j :| 0 <= j < |events| && events[j] == Sent(name', mid);
      SameSignalTwice(events, i, j);
    } else {
      forall i, j | 0 <= i < j < |events| && events[i].Sent? && events[j].Sent?
        ensures SignalOf(events[i].signal) != SignalOf(events[j].signal)
      {
        assert events[i] in events && events[j] in events;
        assert !Aliases(cfg, cs, events[i].signal, events[j].signal);
      }
    }
  }

  lemma SameSignalTwice(events: seq<Event>, i: nat, j: nat)
    requires i < |events| && j < |events| && i != j && events[i].Sent? && events[j].Sent?
    requires SignalOf(events[i].signal) == SignalOf(events[j].signal)
    ensures !NoSignalTwice(events)
  {
    hide SignalOf;
    var a, b := if i < j then i else j, if i < j then j else i;
    assert 0 <= a < b < |events| && events[a].Sent? && events[b].Sent?;
  }

  lemma PassOrdered(a: seq<Event>, b: seq<Event>, c: seq<Event>)
    requires AllInPhase(a, 1) && AllInPhase(b, 2) && AllInPhase(c, 3)
    ensures var events := a + b + c;
            && (forall i, j :: 0 <= i < j < |events| ==> Phase(events[i]) <= Phase(events[j]))
            && (forall e :: e in events && e.Sent? <==> e in b)
            && (forall i, j :: 0 <= i < j < |events| && events[i].Sent? && events[j].Sent? ==>
                  |a| <= i < j < |a| + |b| && events[i] == b[i - |a|] && events[j] == b[j - |a|])
  {
    var events := a + b + c;
    forall i | 0 <= i < |events|
      ensures Phase(events[i]) == if i < |a| then 1 else if i < |a| + |b| then 2 else 3
    {
    }
  }

  // ---- What a pass leaves ----

  lemma {:induction false} CleanedElsewhere(fs: Files, cfg: Config, cs: seq<Crossed>, i: nat, k: nat, path: string)
    requires i <= k <= |cs|
    requires forall j :: i <= j < k ==> Apart(cs[j].path, path)
    requires forall j :: i <= j < k ==> cs[j].archive == "" || cs[j].archive == Archive(cs[j].path, 1, "")
    ensures SameFamily(CleanedAll(fs, cfg, cs, i), CleanedAll(fs, cfg, cs, k), path)
    decreases k
  {
    hide Apart, InFamily, SameFamily, OnlyFamily, Cleaned;
    if k == i {
      SameFamilyRefl(CleanedAll(fs, cfg, cs, i), path);
    } else {
      CleanedElsewhere(fs, cfg, cs, i, k - 1, path);
      var before := CleanedAll(fs, cfg, cs, k - 1);
      CleanedOnlyFamily(before, cfg, cs[k - 1]);
      OtherFamily(before, CleanedAll(fs, cfg, cs, k), cs[k - 1].path, path);
      SameFamilyTrans(CleanedAll(fs, cfg, cs, i), before, CleanedAll(fs, cfg, cs, k), path);
    }
  }

  /** The newest archive once trimmed and, if asked, compressed. */
  function NewestArchive(cfg: Config, size: nat, f: File): File {
    var data := Tail(f.data, Keep(cfg, size));
    if Compresses(cfg, size) then File(data, true) else f.(data := data)
  }

  ghost predicate WithinLimit(limit: int, n: nat) {
    limit < 0 || n <= limit
  }

  /** The clean-up of one log: its newest archive is trimmed, compressed as asked and never pruned;
      the older ones are kept exactly up to the limit; the active file is not touched. */
  lemma CleanedLog(fs: Files, cfg: Config, c: Crossed)
    requires c.archive == Archive(c.path, 1, "") && c.archive in fs && Archive(c.path, 1, GZ) !in fs
    ensures var final := Cleaned(fs, cfg, c);
            var newest := Some(NewestArchive(cfg, c.size, fs[c.archive]));
            && Lookup(final, Archive(c.path, 1, "")) == (if Compresses(cfg, c.size) then None else newest)
            && Lookup(final, Archive(c.path, 1, GZ)) == (if Compresses(cfg, c.size) then newest else None)
            && Lookup(final, c.path) == Lookup(fs, c.path)
            && forall n: nat, ext {:trigger Lookup(final, Archive(c.path, n, ext))} ::
                 2 <= n <= MAX_INT && IsExt(ext) ==>
                 Lookup(final, Archive(c.path, n, ext)) ==
                 if WithinLimit(EffectiveMaxBackups(cfg, c.file), n) then Lookup(fs, Archive(c.path, n, ext)) else None
  {
    hide Pruned, EffectiveMaxBackups;
    var limit := EffectiveMaxBackups(cfg, c.file);
    var trimmed := if IsOversized(cfg, c.size) then KeptTail(fs, c.archive, Keep(cfg, c.size)) else fs;
    var zipped := if Compresses(cfg, c.size) then Gzipped(trimmed, c.archive) else trimmed;
    GzName(c.path);
    ArchivesDiffer(c.path, 1, "", c.path, 1, GZ);
    PrunedSlot(zipped, c.path, limit, 1, "");
    PrunedSlot(zipped, c.path, limit, 1, GZ);
    PrunedActive(zipped, c.path, limit);
    forall n: nat, ext | 2 <= n <= MAX_INT && IsExt(ext)
      ensures Lookup(Cleaned(fs, cfg, c), Archive(c.path, n, ext)) ==
              if WithinLimit(limit, n) then Lookup(fs, Archive(c.path, n, ext)) else None
    {
      ArchivesDiffer(c.path, 1, "", c.path, n, ext);
      ArchivesDiffer(c.path, 1, GZ, c.path, n, ext);
      PrunedSlot(zipped, c.path, limit, n, ext);
    }
  }

  lemma PrunedSlot(fs: Files, path: string, limit: int, n: nat, ext: string)
    requires 1 <= n <= MAX_INT && IsExt(ext)
    ensures Lookup(Pruned(fs, path, limit), Archive(path, n, ext))
            == if WithinLimit(limit, n) then Lookup(fs, Archive(path, n, ext)) else None
  {
    if limit >= 0 {
      hide Pruned;
      PruneKeeps(fs, path, limit, n, ext);
    }
  }

  lemma PrunedActive(fs: Files, path: string, limit: int)
    ensures Lookup(Pruned(fs, path, limit), path) == Lookup(fs, path)
    ensures |Archive(path, 1, "")| > |path| && |Archive(path, 1, GZ)| > |path|
  {
  }

  lemma TailTwice(data: seq<byte>, keep: int)
    ensures Tail(Tail(data, keep), keep) == Tail(data, keep)
  {
  }

  /** A rotated and cleaned-up log: its content is in the newest archive (all of it, or the last bytes
      of an oversized one), gzipped if that is asked for its size, its older archives are one index up,
      exactly up to the limit, and the active file is empty if it was copied. */
  ghost predicate LogKept(cfg: Config, was: Files, final: Files, c: Crossed, f: File) {
    && NewestKept(cfg, final, c, f)
    && Lookup(final, c.path) == (if cfg.reopen == BySignal then None else Some(File([], false)))
    && forall n: nat, ext :: 1 <= n < MAX_INT && IsExt(ext) ==> SlotKept(cfg, was, final, c, n, ext)
  }

  ghost predicate NewestKept(cfg: Config, final: Files, c: Crossed, f: File) {
    var large := cfg.oversized.Some? && c.size >= cfg.oversized.value.maxBytes;
    var keep := if large then cfg.oversized.value.keepTailBytes else 0;
    var zip := if large then cfg.oversized.value.compress else cfg.compress;
    var newest := Archive(c.path, 1, if zip then GZ else "");
    && Archive(c.path, 1, if zip then "" else GZ) !in final
    && newest in final && final[newest].gzipped == (zip || f.gzipped)
    && IsSuffix(final[newest].data, f.data)
    && |final[newest].data| == if 0 < keep < |f.data| then keep else |f.data|
  }

  ghost predicate SlotKept(cfg: Config, was: Files, final: Files, c: Crossed, n: nat, ext: string) {
    Lookup(final, Archive(c.path, n + 1, ext)) ==
    if WithinLimit(EffectiveMaxBackups(cfg, c.file), n + 1) then Lookup(was, Archive(c.path, n, ext)) else None
  }

  lemma CleanedKeeps(cfg: Config, was: Files, rotated: Files, final: Files, c: Crossed, f: File)
    requires c.archive == Archive(c.path, 1, "")
    requires OwnRotated(was, rotated, c.path, FirstArchive(cfg, c, Some(f)), ActiveAfter(cfg, Some(f)))
    requires SameFamily(Cleaned(rotated, cfg, c), final, c.path)
    ensures LogKept(cfg, was, final, c, f)
  {
    hide InFamily, Cleaned, EffectiveMaxBackups, Keep, Compresses, WithinLimit, Tail, NewestKept, NewestArchive;
    var cleaned := Cleaned(rotated, cfg, c);
    assert Lookup(rotated, Archive(c.path, 1, GZ)) == None;
    assert Lookup(rotated, Archive(c.path, 1, "")) == FirstArchive(cfg, c, Some(f));
    CleanedLog(rotated, cfg, c);
    OwnName(c.path);
    ArchiveIsNumbered(c.path, 1, "");
    ArchiveIsNumbered(c.path, 1, GZ);
    assert Lookup(final, c.path) == ActiveAfter(cfg, Some(f));
    assert Lookup(final, Archive(c.path, 1, "")) == Lookup(cleaned, Archive(c.path, 1, ""));
    assert Lookup(final, Archive(c.path, 1, GZ)) == Lookup(cleaned, Archive(c.path, 1, GZ));
    NewestIsKept(cfg, final, c, f);
    forall n: nat, ext | 1 <= n < MAX_INT && IsExt(ext) ensures SlotKept(cfg, was, final, c, n, ext) {
      ArchiveIsNumbered(c.path, n + 1, ext);
      assert Lookup(rotated, Archive(c.path, n + 1, ext)) == Lookup(was, Archive(c.path, n, ext));
      assert Lookup(final, Archive(c.path, n + 1, ext)) == Lookup(cleaned, Archive(c.path, n + 1, ext));
    }
  }

  lemma NewestIsKept(cfg: Config, final: Files, c: Crossed, f: File)
    requires var first := FirstArchive(cfg, c, Some(f)).value;
             var newest, zip := Some(NewestArchive(cfg, c.size, first)), Compresses(cfg, c.size);
             && Lookup(final, Archive(c.path, 1, "")) == (if zip then None else newest)
             && Lookup(final, Archive(c.path, 1, GZ)) == (if zip then newest else None)
    ensures NewestKept(cfg, final, c, f)
  {
    hide Tail, Archive;
    TailTwice(f.data, Keep(cfg, c.size));
    TailExactly(f.data, Keep(cfg, c.size));
  }

  lemma DoneApart(cfg: Config, ms: seq<Match>, was: Files, gone: set<string>, done: seq<Crossed>,
                  mid: Files, final: Files, i: nat, j: nat)
    requires PassDone(cfg, ms, was, gone, done, mid, final) && i < |done| && j < |done| && i != j
    ensures Apart(done[i].path, done[j].path)
  {
    hide Apart, Progress, Crossings, CleanedAll;
    ApartPair(Crossings(cfg, was, ms, |ms|), i, j);
  }

  /** After a pass every rotated log is kept; the app was told to reopen only once all of the log's
      content was in path.1. */
  lemma RotatedLogKept(cfg: Config, ms: seq<Match>, was: Files, gone: set<string>, done: seq<Crossed>,
                       mid: Files, final: Files, i: nat)
    requires PassDone(cfg, ms, was, gone, done, mid, final)
    requires i < |done| && done[i].path in was && done[i].path !in gone
    ensures done[i].archive == Archive(done[i].path, 1, "")
    ensures cfg.reopen == BySignal ==> Lookup(mid, done[i].archive) == Some(was[done[i].path])
    ensures LogKept(cfg, was - gone, final, done[i], was[done[i].path])
  {
    hide Apart, InFamily, SameFamily, Cleaned, Crosses, Crossings, SameOutside, LogKept, AllApart, CleanedAll;
    hide OwnRotated;
    var c, kept := done[i], was - gone;
    var f := kept[c.path];
    var cs := Crossings(cfg, was, ms, |ms|);
    assert Lookup(kept, c.path) == Some(f);
    assert LogRotated(cfg, kept, mid, cs[i]);
    forall j | 0 <= j < |done| && j != i ensures Apart(done[j].path, c.path) {
      DoneApart(cfg, ms, was, gone, done, mid, final, j, i);
    }
    var first, active := FirstArchive(cfg, c, Some(f)), ActiveAfter(cfg, Some(f));
    var rotated := CleanedAll(mid, cfg, done, i);
    assert CleanedAll(mid, cfg, done, 0) == mid by { NothingCleaned(mid, cfg, done); }
    CleanedElsewhere(mid, cfg, done, 0, i, c.path);
    CleanedElsewhere(mid, cfg, done, i + 1, |done|, c.path);
    NextCleaned(mid, cfg, done, i);
    SameFamilyRefl(kept, c.path);
    OwnRotatedInFamily(kept, kept, mid, rotated, c.path, first, active);
    CleanedKeeps(cfg, kept, rotated, final, c, f);
    FirstOf(kept, mid, c.path, first, active);
  }

  /** A log that was gone by the time it was to be rotated has no archive, and gets no clean-up: its old
      archives have moved up by one, and that is all. */
  lemma GoneLogShifted(cfg: Config, ms: seq<Match>, was: Files, gone: set<string>, done: seq<Crossed>,
                       mid: Files, final: Files, i: nat)
    requires PassDone(cfg, ms, was, gone, done, mid, final)
    requires i < |done| && (done[i].path !in was || done[i].path in gone)
    ensures done[i].archive == ""
    ensures OwnRotated(was - gone, final, done[i].path, None, None)
  {
    hide Apart, InFamily, SameFamily, Cleaned, Crosses, Crossings, SameOutside, AllApart, CleanedAll;
    hide OwnRotated;
    var c, kept := done[i], was - gone;
    var cs := Crossings(cfg, was, ms, |ms|);
    assert Lookup(kept, c.path) == None;
    assert LogRotated(cfg, kept, mid, cs[i]);
    forall j | 0 <= j < |done| && j != i ensures Apart(done[j].path, c.path) {
      DoneApart(cfg, ms, was, gone, done, mid, final, j, i);
    }
    assert CleanedAll(mid, cfg, done, 0) == mid by { NothingCleaned(mid, cfg, done); }
    CleanedElsewhere(mid, cfg, done, 0, i, c.path);
    CleanedElsewhere(mid, cfg, done, i + 1, |done|, c.path);
    NextCleaned(mid, cfg, done, i);
    assert CleanedAll(mid, cfg, done, i + 1) == CleanedAll(mid, cfg, done, i) by { NotCleaned(mid, cfg, done, i); }
    SameFamilyTrans(mid, CleanedAll(mid, cfg, done, i), final, c.path);
    SameFamilyRefl(kept, c.path);
    OwnRotatedInFamily(kept, kept, mid, final, c.path, None, None);
  }

  lemma NotCleaned(fs: Files, cfg: Config, cs: seq<Crossed>, i: nat)
    requires i < |cs| && cs[i].archive == ""
    ensures CleanedAll(fs, cfg, cs, i + 1) == CleanedAll(fs, cfg, cs, i)
  {
  }

  lemma NothingCleaned(fs: Files, cfg: Config, cs: seq<Crossed>)
    ensures CleanedAll(fs, cfg, cs, 0) == fs
  {
  }

  lemma NextCleaned(fs: Files, cfg: Config, cs: seq<Crossed>, i: nat)
    requires i < |cs|
    ensures CleanedAll(fs, cfg, cs, i + 1) == Cleaned(CleanedAll(fs, cfg, cs, i), cfg, cs[i])
  {
  }

  lemma FirstOf(fs: Files, fs': Files, path: string, first: Option<File>, active: Option<File>)
    requires OwnRotated(fs, fs', path, first, active)
    ensures Lookup(fs', Archive(path, 1, "")) == first
  {
  }

  /** A matched file below its threshold, with its archives, is untouched by the whole pass. */
  lemma BelowThresholdUntouched(cfg: Config, ms: seq<Match>, was: Files, gone: set<string>, done: seq<Crossed>,
                                mid: Files, final: Files, m: nat)
    requires forall i, j :: 0 <= i < j < |ms| ==> Apart(ms[i].path, ms[j].path)
    requires PassDone(cfg, ms, was, gone, done, mid, final)
    requires m < |ms| && !Crosses(cfg, was, ms[m])
    ensures SameFamily(was - gone, final, ms[m].path)
  {
    hide Apart, InFamily, SameFamily, Cleaned, Crosses, AllApart, LogRotated, CleanedAll;
    var cs, path := Crossings(cfg, was, ms, |ms|), ms[m].path;
    CrossingsAre(cfg, was, ms, |ms|);
    forall j | 0 <= j < |cs| ensures Apart(cs[j].path, path) {
      assert FromSome(cfg, was, ms, |ms|, cs[j]);
      var k :| 0 <= k < |ms| && FromMatch(cfg, was, ms[k], cs[j]);
      assert k != m;
      ApartSym(ms[if k < m then k else m].path, ms[if k < m then m else k].path);
    }
    OutsideFamily(was - gone, mid, cs, path);
    CleanedElsewhere(mid, cfg, done, 0, |done|, path);
    NothingCleaned(mid, cfg, done);
    SameFamilyTrans(was - gone, mid, final, path);
  }

  lemma ApartSym(p: string, q: string)
    ensures Apart(p, q) <==> Apart(q, p)
  {
  }

  lemma OutsideFamily(fs: Files, fs': Files, cs: seq<Crossed>, path: string)
    requires SameOutside(fs, fs', cs)
    requires forall j :: 0 <= j < |cs| ==> Apart(cs[j].path, path)
    ensures SameFamily(fs, fs', path)
  {
    hide InFamily, Apart;
    forall name | InFamily(path, name) ensures Lookup(fs', name) == Lookup(fs, name) {
      forall j | 0 <= j < |cs| ensures !InFamily(cs[j].path, name) {
        ApartSym(cs[j].path, path);
        FamiliesDisjoint(path, cs[j].path, name);
      }
      assert OutsideAll(cs, name);
    }
  }
}

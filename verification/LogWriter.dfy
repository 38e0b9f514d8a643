/** The rotating log writer: appends to the active file, and rotates when a write would push it
    past its limit. */
module LogWriter {
  import opened Options
  import opened ArchiveName
  import opened Rotate

  const DEFAULT_MAX_BYTES := 10 * 1024 * 1024
  const DEFAULT_MAX_BACKUPS := 3

  datatype Settings = Settings(path: string, maxBytes: int, maxBackups: int, compress: bool)

  // ---- What one write does to the files ----

  /** The newest archive gzipped, if the writer compresses. */
  function Compressed(fs: Files, path: string, compress: bool): Files {
    if compress then Gzipped(fs, Archive(path, 1, "")) else fs
  }

  /** fs' is fs rotated: archives shifted, the active file archived, pruned, and a new one opened. */
  ghost predicate RotatedTo(w: Settings, fs: Files, fs': Files) {
    && w.path in fs
    && exists shifted: Files ::
         Rotated(fs, shifted, w.path, Some(fs[w.path]), None)
         && fs' == Pruned(Compressed(shifted, w.path, w.compress), w.path, w.maxBackups)[w.path := File([], false)]
  }

  function Appended(fs: Files, path: string, p: seq<byte>): Files
    requires path in fs
  {
    fs[path := fs[path].(data := fs[path].data + p)]
  }

  ghost predicate WriteStep(w: Settings, fs: Files, p: seq<byte>, fs': Files) {
    w.path in fs &&
    if |fs[w.path].data| + |p| <= w.maxBytes then fs' == Appended(fs, w.path, p)
    else exists mid: Files :: RotatedTo(w, fs, mid) && w.path in mid && fs' == Appended(mid, w.path, p)
  }

  class RotatingFileWriter {
    const disk: Disk
    const settings: Settings
    var open: bool
    var size: nat

    ghost predicate Valid()
      reads this, disk
    {
      && settings.maxBytes > 0
      && (open ==> settings.path in disk.files && size == |disk.files[settings.path].data|)
    }

    /** Opens the active file for appending, creating it if need be. */
    constructor (disk: Disk, path: string, maxBytes: int, maxBackups: int, compress: bool)
      modifies disk
      ensures Valid() && open && this.disk == disk
      ensures settings == Settings(path, if maxBytes <= 0 then 10 * 1024 * 1024 else maxBytes,
                                   if maxBackups == 0 then 3 else maxBackups, compress)
      ensures disk.files == if path in old(disk.files) then old(disk.files)
                            else old(disk.files)[path := File([], false)]
    {
      this.disk := disk;
      settings := Settings(path, if maxBytes <= 0 then DEFAULT_MAX_BYTES else maxBytes,
                           if maxBackups == 0 then DEFAULT_MAX_BACKUPS else maxBackups, compress);
      open := true;
      size := if path in disk.files then |disk.files[path].data| else 0;
      new;
      if path !in disk.files {
        disk.files := disk.files[path := File([], false)];
      }
    }

    /** Appends p, rotating first when it would push the active file past the limit. Fails, with
        nothing changed, only when the writer is closed. */
    method Write(p: seq<byte>) returns (n: Option<nat>)
      requires Valid() && Indexed(disk.files, settings.path)
      modifies this, disk
      ensures Valid() && open == old(open)
      ensures !old(open) ==> n == None && disk.files == old(disk.files)
      ensures old(open) ==> n == Some(|p|) && WriteStep(settings, old(disk.files), p, disk.files)
    {
      hide RotatedTo, Indexed;
      if !open { return None; }
      if size + |p| > settings.maxBytes {
        RotateFiles();
      }
      var f := disk.files[settings.path];
      disk.files := disk.files[settings.path := f.(data := f.data + p)];
      size := size + |p|;
      return Some(|p|);
    }

    method Close()
      requires Valid()
      modifies this`open
      ensures Valid() && !open
    {
      open := false;
    }

    method RotateFiles()
      requires Valid() && open && Indexed(disk.files, settings.path)
      modifies this, disk
      ensures Valid() && open && size == 0 && RotatedTo(settings, old(disk.files), disk.files)
    {
      hide Rotated, Indexed, IsArchive;
      open := false;
      ghost var was := disk.files;
      var archive := disk.ShiftAndRename(settings.path);
      ghost var shifted := disk.files;
      if settings.compress {
        var _ := disk.CompressArchive(archive.value);
      }
      assert disk.files == Compressed(shifted, settings.path, settings.compress);
      disk.PruneBackups(settings.path, settings.maxBackups);
      disk.files := disk.files[settings.path := File([], false)];
      open, size := true, 0;
      assert RotatedTo(settings, was, disk.files);
    }
  }

  // ---- Conservation ----

  /** The archives from index n down to 1, oldest first. */
  function Archives(fs: Files, path: string, n: nat): seq<byte> {
    if n == 0 then [] else ArchiveData(fs, path, n) + Archives(fs, path, n - 1)
  }

  /** Everything the log still holds: archives with indexes up to n, then the active file. */
  function Log(fs: Files, path: string, n: nat): seq<byte> {
    Archives(fs, path, n) + DataAt(fs, path)
  }

  lemma {:induction false} SuffixOfAppend(dropped: seq<byte>, s: seq<byte>)
    ensures IsSuffix(s, dropped + s)
  {
    assert (dropped + s)[|dropped|..] == s;
  }

  lemma RotatedArchive(fs: Files, shifted: Files, path: string, n: nat)
    requires path in fs && Rotated(fs, shifted, path, Some(fs[path]), None)
    ensures n == 0 ==> ArchiveData(shifted, path, 1) == fs[path].data
    ensures n >= 1 ==> ArchiveData(shifted, path, n + 1) == ArchiveData(fs, path, n)
    ensures Archive(path, 1, GZ) !in shifted
  {
    if n == 0 {
      assert Lookup(shifted, Archive(path, 1, "")) == Some(fs[path]);
    } else {
      assert Lookup(shifted, Archive(path, n + 1, "")) == Lookup(fs, Archive(path, n, ""));
      assert Lookup(shifted, Archive(path, n + 1, GZ)) == Lookup(fs, Archive(path, n, GZ));
    }
  }

  /** A rotation moves the content of the active file behind the archives. */
  lemma {:induction false} RotationConserves(fs: Files, shifted: Files, path: string, n: nat)
    requires path in fs && Rotated(fs, shifted, path, Some(fs[path]), None)
    ensures Archives(shifted, path, n + 1) == Archives(fs, path, n) + fs[path].data
  {
    hide Rotated, ArchiveData;
    RotatedArchive(fs, shifted, path, n);
    if n == 0 {
      assert Archives(shifted, path, 0) == [];
    } else {
      RotationConserves(fs, shifted, path, n - 1);
      assert Archives(shifted, path, n + 1) == ArchiveData(shifted, path, n + 1) + Archives(shifted, path, n);
      assert Archives(fs, path, n) == ArchiveData(fs, path, n) + Archives(fs, path, n - 1);
    }
  }

  /** Compression changes no content. */
  lemma {:induction false} CompressionConserves(fs: Files, path: string, compress: bool, n: nat)
    requires Archive(path, 1, GZ) !in fs
    ensures Archives(Compressed(fs, path, compress), path, n) == Archives(fs, path, n)
  {
    if n > 0 {
      CompressionConserves(fs, path, compress, n - 1);
      GzName(path);
      ArchivesDiffer(path, n, "", path, 1, "");
      ArchivesDiffer(path, n, "", path, 1, GZ);
      ArchivesDiffer(path, n, GZ, path, 1, "");
      ArchivesDiffer(path, n, GZ, path, 1, GZ);
    }
  }

  lemma PrunedArchive(fs: Files, path: string, maxBackups: int, n: nat)
    requires 1 <= n <= MAX_INT && maxBackups >= 0
    ensures ArchiveData(Pruned(fs, path, maxBackups), path, n)
            == if n <= maxBackups then ArchiveData(fs, path, n) else []
  {
    hide Pruned;
    PruneKeeps(fs, path, maxBackups, n, "");
    PruneKeeps(fs, path, maxBackups, n, GZ);
  }

  /** Pruning drops the oldest archives only. */
  lemma {:induction false} PruningDropsOldest(fs: Files, path: string, maxBackups: int, n: nat)
    returns (dropped: seq<byte>)
    requires n <= MAX_INT
    ensures Archives(fs, path, n) == dropped + Archives(Pruned(fs, path, maxBackups), path, n)
    ensures maxBackups < 0 || n <= maxBackups ==> dropped == []
  {
    if n == 0 || maxBackups < 0 {
      dropped := [];
    } else {
      hide Pruned, ArchiveData, Archives;
      var fs' := Pruned(fs, path, maxBackups);
      var rest := PruningDropsOldest(fs, path, maxBackups, n - 1);
      PrunedArchive(fs, path, maxBackups, n);
      OldestFirst(fs, path, n);
      OldestFirst(fs', path, n);
      dropped := if n <= maxBackups then [] else ArchiveData(fs, path, n) + rest;
      DroppedInFront(ArchiveData(fs, path, n), rest, Archives(fs', path, n - 1), n <= maxBackups);
    }
  }

  lemma DroppedInFront(oldest: seq<byte>, rest: seq<byte>, kept: seq<byte>, stays: bool)
    requires stays ==> rest == []
    ensures oldest + (rest + kept) == (if stays then [] else oldest + rest) + ((if stays then oldest else []) + kept)
  {
  }

  lemma OldestFirst(fs: Files, path: string, n: nat)
    requires n > 0
    ensures Archives(fs, path, n) == ArchiveData(fs, path, n) + Archives(fs, path, n - 1)
  {
  }

  /** The active file's own content does not matter to the archives. */
  lemma {:induction false} ArchivesIgnoreActive(fs: Files, path: string, f: File, n: nat)
    ensures Archives(fs[path := f], path, n) == Archives(fs, path, n)
  {
    if n > 0 {
      ArchivesIgnoreActive(fs, path, f, n - 1);
      assert |Archive(path, n, "")| > |path| && |Archive(path, n, GZ)| > |path|;
    }
  }

  lemma WriteFits(w: Settings, fs: Files, p: seq<byte>, fs': Files)
    requires WriteStep(w, fs, p, fs')
    ensures w.path in fs' && (|fs'[w.path].data| <= w.maxBytes || fs'[w.path].data == p)
  {
    hide Rotated, Pruned;
  }

  /** What one write leaves is a suffix of what was there and what was written, and all of it when
      backups are unlimited; the active file then holds at most maxBytes, or that write alone. */
  lemma WriteConserves(w: Settings, fs: Files, p: seq<byte>, fs': Files, n: nat) returns (dropped: seq<byte>)
    requires WriteStep(w, fs, p, fs') && n < MAX_INT
    requires Archives(fs, w.path, n + 1) == Archives(fs, w.path, n)
    ensures Log(fs, w.path, n) + p == dropped + Log(fs', w.path, n + 1)
    ensures w.maxBackups < 0 ==> dropped == []
  {
    hide Archives, Rotated, Pruned, RotatedTo;
    var path := w.path;
    if |fs[path].data| + |p| <= w.maxBytes {
      dropped := [];
      ArchivesIgnoreActive(fs, path, fs[path].(data := fs[path].data + p), n + 1);
    } else {
      var mid: Files :| RotatedTo(w, fs, mid) && path in mid && fs' == Appended(mid, path, p);
      dropped := RotationLeaves(w, fs, mid, n);
      ArchivesIgnoreActive(mid, path, mid[path].(data := mid[path].data + p), n + 1);
      assert Archives(fs, path, n) + fs[path].data + p == dropped + Archives(mid, path, n + 1) + p;
    }
  }

  lemma RotationLeaves(w: Settings, fs: Files, fs': Files, n: nat) returns (dropped: seq<byte>)
    requires RotatedTo(w, fs, fs') && n < MAX_INT
    ensures Archives(fs, w.path, n) + fs[w.path].data == dropped + Archives(fs', w.path, n + 1)
    ensures DataAt(fs', w.path) == []
    ensures w.maxBackups < 0 ==> dropped == []
  {
    hide Rotated, Pruned, Compressed, ArchiveData, Archives;
    var path := w.path;
    var shifted: Files :| Rotated(fs, shifted, path, Some(fs[path]), None)
                   && fs' == Pruned(Compressed(shifted, path, w.compress), path, w.maxBackups)[path := File([], false)];
    RotatedArchive(fs, shifted, path, n);
    RotationConserves(fs, shifted, path, n);
    CompressionConserves(shifted, path, w.compress, n + 1);
    dropped := PruningDropsOldest(Compressed(shifted, path, w.compress), path, w.maxBackups, n + 1);
    ArchivesIgnoreActive(Pruned(Compressed(shifted, path, w.compress), path, w.maxBackups), path, File([], false),
                         n + 1);
  }

  // ---- Any sequence of writes ----

  /** states[i + 1] is what the i-th write makes of states[i]. */
  ghost predicate WriteRun(w: Settings, states: seq<Files>, ps: seq<seq<byte>>) {
    && |states| == |ps| + 1
    && forall i :: 0 <= i < |ps| ==> WriteStep(w, states[i], ps[i], states[i + 1])
  }

  /** The first k writes, joined. */
  function Joined(ps: seq<seq<byte>>, k: nat): seq<byte>
    requires k <= |ps|
  {
    if k == 0 then [] else Joined(ps, k - 1) + ps[k - 1]
  }

  lemma NothingAbove(fs: Files, path: string, n: nat)
    requires NoneAbove(fs, path, n)
    ensures Archives(fs, path, n + 1) == Archives(fs, path, n)
  {
    assert Archive(path, n + 1, "") !in fs && Archive(path, n + 1, GZ) !in fs;
    assert ArchiveData(fs, path, n + 1) == [];
  }

  lemma RotationRaisesByOne(w: Settings, fs: Files, fs': Files, n: nat)
    requires RotatedTo(w, fs, fs') && NoneAbove(fs, w.path, n) && n < MAX_INT
    ensures NoneAbove(fs', w.path, n + 1)
    ensures w.maxBackups >= 0 ==> NoneAbove(fs', w.path, w.maxBackups)
  {
    hide Rotated;
    var path := w.path;
    var shifted: Files :|
      Rotated(fs, shifted, path, Some(fs[path]), None)
      && fs' == Pruned(Compressed(shifted, path, w.compress), path, w.maxBackups)[path := File([], false)];
    forall m: nat, ext | m > n + 1 && IsExt(ext) ensures Archive(path, m, ext) !in fs' {
      RotatedAbove(fs, shifted, path, n, m, ext);
      CompressedAbove(shifted, path, w.compress, m, ext);
      assert |Archive(path, m, ext)| > |path|;
    }
    if w.maxBackups >= 0 {
      forall m: nat, ext | m > w.maxBackups && IsExt(ext) ensures Archive(path, m, ext) !in fs' {
        if m <= n + 1 {
          PruneKeeps(Compressed(shifted, path, w.compress), path, w.maxBackups, m, ext);
          assert |Archive(path, m, ext)| > |path|;
        }
      }
    }
  }

  lemma RotatedAbove(fs: Files, shifted: Files, path: string, n: nat, m: nat, ext: string)
    requires path in fs && Rotated(fs, shifted, path, Some(fs[path]), None)
    requires NoneAbove(fs, path, n) && m > n + 1 && IsExt(ext)
    ensures Archive(path, m, ext) !in shifted
  {
    var k: nat := m - 1;
    assert Lookup(fs, Archive(path, k, ext)) == None;
    assert Lookup(shifted, Archive(path, k + 1, ext)) == Lookup(fs, Archive(path, k, ext));
  }

  lemma CompressedAbove(fs: Files, path: string, compress: bool, m: nat, ext: string)
    requires m > 1 && IsExt(ext) && Archive(path, m, ext) !in fs
    ensures Archive(path, m, ext) !in Compressed(fs, path, compress)
  {
    GzName(path);
    ArchivesDiffer(path, m, ext, path, 1, GZ);
  }

  lemma WriteRaisesByOne(w: Settings, fs: Files, p: seq<byte>, fs': Files, n: nat)
    requires WriteStep(w, fs, p, fs') && NoneAbove(fs, w.path, n) && n < MAX_INT
    ensures NoneAbove(fs', w.path, n + 1)
  {
    hide RotatedTo;
    var mid := fs;
    if |fs[w.path].data| + |p| > w.maxBytes {
      mid :| RotatedTo(w, fs, mid) && w.path in mid && fs' == Appended(mid, w.path, p);
      RotationRaisesByOne(w, fs, mid, n);
    }
    forall m: nat, ext | m > n + 1 && IsExt(ext) ensures Archive(w.path, m, ext) !in fs' {
      assert |Archive(w.path, m, ext)| > |w.path|;
      assert Archive(w.path, m, ext) !in mid;
    }
  }

  /** Once something was written, the active file is within its limit or holds the last write alone. */
  lemma RunBoundsActive(w: Settings, states: seq<Files>, ps: seq<seq<byte>>, k: nat)
    requires WriteRun(w, states, ps) && 0 < k <= |ps|
    ensures w.path in states[k]
    ensures |states[k][w.path].data| <= w.maxBytes || states[k][w.path].data == ps[k - 1]
  {
    hide WriteStep;
    assert WriteStep(w, states[k - 1], ps[k - 1], states[k - 1 + 1]);
    WriteFits(w, states[k - 1], ps[k - 1], states[k]);
  }

  /** One write keeps the log a suffix of everything accepted, `all` being what it was before. */
  lemma WriteKeepsSuffix(w: Settings, fs: Files, p: seq<byte>, fs': Files, n: nat, all: seq<byte>)
    requires WriteStep(w, fs, p, fs') && NoneAbove(fs, w.path, n) && n < MAX_INT
    requires IsSuffix(Log(fs, w.path, n), all)
    requires w.maxBackups < 0 ==> Log(fs, w.path, n) == all
    ensures NoneAbove(fs', w.path, n + 1) && IsSuffix(Log(fs', w.path, n + 1), all + p)
    ensures w.maxBackups < 0 ==> Log(fs', w.path, n + 1) == all + p
  {
    hide WriteStep, NoneAbove, Log, IsSuffix;
    WriteRaisesByOne(w, fs, p, fs', n);
    NothingAbove(fs, w.path, n);
    var dropped := WriteConserves(w, fs, p, fs', n);
    SuffixStep(Log(fs, w.path, n), all, p, dropped, Log(fs', w.path, n + 1));
  }

  /** After any number k of writes, the log is a suffix of everything ever accepted, and all of it
      when backups are unlimited. */
  lemma {:induction false} RunConserves(w: Settings, states: seq<Files>, ps: seq<seq<byte>>, n: nat, k: nat)
    requires WriteRun(w, states, ps) && k <= |ps|
    requires NoneAbove(states[0], w.path, n) && n + k <= MAX_INT
    ensures NoneAbove(states[k], w.path, n + k)
    ensures IsSuffix(Log(states[k], w.path, n + k), Log(states[0], w.path, n) + Joined(ps, k))
    ensures w.maxBackups < 0 ==> Log(states[k], w.path, n + k) == Log(states[0], w.path, n) + Joined(ps, k)
  {
    hide WriteStep, NoneAbove, Log;
    var first := Log(states[0], w.path, n);
    if k == 0 {
      assert first + Joined(ps, k) == first;
    } else {
      hide IsSuffix, Joined;
      var i := k - 1;
      RunConserves(w, states, ps, n, i);
      assert WriteStep(w, states[i], ps[i], states[i + 1]);
      WriteKeepsSuffix(w, states[i], ps[i], states[k], n + i, first + Joined(ps, i));
      JoinedLast(first, ps, k);
    }
  }

  lemma JoinedLast(first: seq<byte>, ps: seq<seq<byte>>, k: nat)
    requires 0 < k <= |ps|
    ensures first + Joined(ps, k) == first + Joined(ps, k - 1) + ps[k - 1]
  {
  }

  lemma SuffixStep(log: seq<byte>, all: seq<byte>, p: seq<byte>, dropped: seq<byte>, log': seq<byte>)
    requires IsSuffix(log, all) && log + p == dropped + log'
    ensures IsSuffix(log', all + p)
    ensures log == all && dropped == [] ==> log' == all + p
  {
    var front := all[..|all| - |log|];
    assert all == front + log;
    assert (front + log) + p == front + (log + p);
    assert front + (dropped + log') == (front + dropped) + log';
    SuffixOfAppend(front + dropped, log');
  }

  /** No rotation comes before it has to: as long as everything fits, all of it is in the active file
      and nothing else changes. */
  lemma {:induction false} NoRotationBefore(w: Settings, states: seq<Files>, ps: seq<seq<byte>>, k: nat)
    requires WriteRun(w, states, ps) && k <= |ps| && w.path in states[0]
    requires |states[0][w.path].data| + |Joined(ps, k)| <= w.maxBytes
    ensures states[k] == Appended(states[0], w.path, Joined(ps, k))
  {
    hide RotatedTo;
    var f := states[0][w.path];
    if k == 0 {
      assert f.data + [] == f.data && states[0] == states[0][w.path := f];
    } else {
      NoRotationBefore(w, states, ps, k - 1);
      assert WriteStep(w, states[k - 1], ps[k - 1], states[k - 1 + 1]);
      assert f.data + Joined(ps, k - 1) + ps[k - 1] == f.data + Joined(ps, k);
    }
  }

  /** A rotation puts the whole active file at index 1, gzipped if that is asked for, and starts an
      empty one. */
  lemma RotationKeepsNewest(w: Settings, fs: Files, fs': Files)
    requires RotatedTo(w, fs, fs') && w.maxBackups != 0
    ensures var f, newest := fs[w.path], Archive(w.path, 1, if w.compress then GZ else "");
            && Lookup(fs', newest) == Some(File(f.data, w.compress || f.gzipped))
            && Archive(w.path, 1, if w.compress then "" else GZ) !in fs'
            && Lookup(fs', w.path) == Some(File([], false))
  {
    var path := w.path;
    var shifted: Files :|
      Rotated(fs, shifted, path, Some(fs[path]), None)
      && fs' == Pruned(Compressed(shifted, path, w.compress), path, w.maxBackups)[path := File([], false)];
    GzName(path);
    ArchivesDiffer(path, 1, "", path, 1, GZ);
    assert |Archive(path, 1, "")| > |path| && |Archive(path, 1, GZ)| > |path|;
    assert Lookup(shifted, Archive(path, 1, "")) == Some(fs[path]) && Lookup(shifted, Archive(path, 1, GZ)) == None;
    if w.maxBackups > 0 {
      PruneKeeps(Compressed(shifted, path, w.compress), path, w.maxBackups, 1, "");
      PruneKeeps(Compressed(shifted, path, w.compress), path, w.maxBackups, 1, GZ);
    }
  }
}

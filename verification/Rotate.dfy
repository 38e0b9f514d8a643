/** Numbered log-archive rotation over one directory of files. */
module Rotate {
  import opened Options
  import opened ArchiveName

  newtype byte = b: int | 0 <= b < 256

  /** A file's content; for a gzipped file, the content it unpacks to. */
  datatype File = File(data: seq<byte>, gzipped: bool)

  type Files = map<string, File>

  function Lookup(fs: Files, name: string): Option<File> {
    if name in fs then Some(fs[name]) else None
  }

  ghost predicate IsArchive(path: string, name: string) {
    exists n: nat, ext :: n >= 1 && IsExt(ext) && name == Archive(path, n, ext)
  }

  /** Every archive of the log has an index below the largest machine integer. */
  ghost predicate Indexed(fs: Files, path: string) {
    forall n: nat, ext :: IsExt(ext) && Archive(path, n, ext) in fs ==> n < MAX_INT
  }

  ghost predicate NoneAbove(fs: Files, path: string, highest: nat) {
    forall n: nat, ext :: n > highest && IsExt(ext) ==> Archive(path, n, ext) !in fs
  }

  /** Files other than the archives of the log are as they were. */
  ghost predicate SameElsewhere(fs: Files, fs': Files, path: string) {
    forall name :: !IsArchive(path, name) ==> Lookup(fs', name) == Lookup(fs, name)
  }

  /** The archives with indexes from i up have moved up by one. */
  ghost predicate ShiftedFrom(fs: Files, fs': Files, path: string, ext: string, i: nat) {
    forall n: nat {:trigger Lookup(fs', Archive(path, n, ext))} :: n >= 1 ==>
      Lookup(fs', Archive(path, n, ext)) ==
        if n < i then Lookup(fs, Archive(path, n, ext))
        else if n == i then None
        else Lookup(fs, Archive(path, n - 1, ext))
  }

  /** What shifting and renaming the active file leaves: each archive one index up, the active
      file's content at index 1, index 1 free for compression, everything else as it was. */
  ghost predicate Rotated(fs: Files, fs': Files, path: string, first: Option<File>, active: Option<File>) {
    && OwnRotated(fs, fs', path, first, active)
    && (forall name :: name != path && !IsArchive(path, name) ==> Lookup(fs', name) == Lookup(fs, name))
  }

  /** ... as far as the log and its own archives go. */
  ghost predicate OwnRotated(fs: Files, fs': Files, path: string, first: Option<File>, active: Option<File>) {
    && Lookup(fs', path) == active
    && Lookup(fs', Archive(path, 1, "")) == first && Lookup(fs', Archive(path, 1, GZ)) == None
    && (forall n: nat, ext {:trigger Lookup(fs, Archive(path, n, ext))} :: n >= 1 && IsExt(ext) ==>
          Lookup(fs', Archive(path, n + 1, ext)) == Lookup(fs, Archive(path, n, ext)))
  }

  function Tail(data: seq<byte>, keep: int): seq<byte> {
    if keep > 0 && |data| > keep then data[|data| - keep..] else data
  }

  ghost predicate IsSuffix(s: seq<byte>, whole: seq<byte>) {
    |s| <= |whole| && whole[|whole| - |s|..] == s
  }

  /** The tail is the end of the data: its last `keep` bytes, or all of it if that is less or nothing is asked. */
  lemma TailExactly(data: seq<byte>, keep: int)
    ensures IsSuffix(Tail(data, keep), data)
    ensures |Tail(data, keep)| == if 0 < keep < |data| then keep else |data|
  {
  }

  function KeptTail(fs: Files, name: string, keep: int): Files {
    if name in fs then fs[name := fs[name].(data := Tail(fs[name].data, keep))] else fs
  }

  /** name.gz in place of name. */
  function Gzipped(fs: Files, name: string): Files {
    if name in fs then fs[name + GZ := File(fs[name].data, true)] - {name} else fs
  }

  function DataAt(fs: Files, name: string): seq<byte> {
    if name in fs then fs[name].data else []
  }

  /** The content of the archive at index n, compressed or not. */
  function ArchiveData(fs: Files, path: string, n: nat): seq<byte> {
    if Archive(path, n, "") in fs then fs[Archive(path, n, "")].data else DataAt(fs, Archive(path, n, GZ))
  }

  lemma GzName(path: string)
    ensures Archive(path, 1, "") + GZ == Archive(path, 1, GZ)
  {
    assert path + "." + Digits(1) + "" == path + "." + Digits(1);
  }

  lemma ActiveIsNoArchive(path: string)
    ensures !IsArchive(path, path)
  {
    forall n: nat, ext | IsExt(ext) ensures path != Archive(path, n, ext) {
      assert |Archive(path, n, ext)| > |path|;
    }
  }

  lemma ActiveStays(fs: Files, fs': Files, path: string)
    requires SameElsewhere(fs, fs', path)
    ensures Lookup(fs', path) == Lookup(fs, path) && path != Archive(path, 1, "")
  {
    ActiveIsNoArchive(path);
    assert IsArchive(path, Archive(path, 1, ""));
  }

  /** Moving the archive at index i to the free index i + 1. */
  lemma ShiftSlot(fs: Files, was: Files, path: string, ext: string, i: nat)
    requires IsExt(ext) && i >= 1 && ShiftedFrom(fs, was, path, ext, i + 1)
    ensures Archive(path, i + 1, ext) !in was
    ensures ShiftedFrom(fs, Moved(was, Archive(path, i, ext), Archive(path, i + 1, ext)), path, ext, i)
  {
    var fs' := Moved(was, Archive(path, i, ext), Archive(path, i + 1, ext));
    assert Lookup(was, Archive(path, i + 1, ext)) == None;
    forall n: nat {:trigger Lookup(fs', Archive(path, n, ext))} | n >= 1
      ensures Lookup(fs', Archive(path, n, ext)) ==
              if n < i then Lookup(fs, Archive(path, n, ext))
              else if n == i then None
              else Lookup(fs, Archive(path, n - 1, ext))
    {
      ArchivesDiffer(path, n, ext, path, i, ext);
      ArchivesDiffer(path, n, ext, path, i + 1, ext);
      var at, moved := Lookup(was, Archive(path, n, ext)), Lookup(was, Archive(path, i, ext));
    }
  }

  /** ... leaves the archives with the other extension alone. */
  lemma ShiftOther(fs: Files, was: Files, path: string, ext: string, i: nat, other: string, j: nat)
    requires IsExt(ext) && IsExt(other) && ext != other && i >= 1 && ShiftedFrom(fs, was, path, other, j)
    ensures ShiftedFrom(fs, Moved(was, Archive(path, i, ext), Archive(path, i + 1, ext)), path, other, j)
  {
    forall n: nat
      ensures Lookup(Moved(was, Archive(path, i, ext), Archive(path, i + 1, ext)), Archive(path, n, other))
              == Lookup(was, Archive(path, n, other))
    {
      ArchivesDiffer(path, n, other, path, i, ext);
      ArchivesDiffer(path, n, other, path, i + 1, ext);
    }
  }

  lemma ShiftElsewhere(fs: Files, was: Files, path: string, ext: string, i: nat)
    requires IsExt(ext) && i >= 1 && SameElsewhere(fs, was, path)
    ensures SameElsewhere(fs, Moved(was, Archive(path, i, ext), Archive(path, i + 1, ext)), path)
  {
    assert IsArchive(path, Archive(path, i, ext)) && IsArchive(path, Archive(path, i + 1, ext));
  }

  /** A rename, if there is something to rename. */
  function Moved(fs: Files, from: string, to: string): Files {
    if from in fs then (fs - {from})[to := fs[from]] else fs
  }

  class Disk {
    var files: Files

    constructor (files: Files)
      ensures this.files == files
    {
      this.files := files;
    }

    method Rename(from: string, to: string) returns (ok: bool)
      requires from != to
      modifies this
      ensures ok <==> from in old(files)
      ensures files == Moved(old(files), from, to)
    {
      if from !in files { return false; }
      files := (files - {from})[to := files[from]];
      return true;
    }

    method Remove(name: string)
      modifies this
      ensures files == old(files) - {name}
    {
      files := files - {name};
    }

    method ReadDir() returns (names: seq<string>)
      ensures forall name :: name in names <==> name in files
    {
      names := [];
      var rest := files.Keys;
      while rest != {}
        invariant forall name :: name in files <==> name in names || name in rest
        decreases |rest|
      {
        var name :| name in rest;
        rest := rest - {name};
        names := names + [name];
      }
    }

    /** The largest index of an archive of the log, or 0 if there is none. */
    method HighestBackup(path: string) returns (highest: nat)
      ensures highest <= MAX_INT
      ensures forall name :: name in files && Parse(path, name).Some? ==> Parse(path, name).value.0 <= highest
      ensures highest > 0 ==>
                exists name :: name in files && Parse(path, name).Some? && Parse(path, name).value.0 == highest
      ensures Indexed(files, path) ==> NoneAbove(files, path, highest)
    {
      hide Parse, Archive;
      var names := ReadDir();
      highest := 0;
      for k := 0 to |names|
        invariant highest <= MAX_INT
        invariant forall j :: 0 <= j < k ==> Parse(path, names[j]).Some? ==> Parse(path, names[j]).value.0 <= highest
        invariant highest > 0 ==> exists j :: 0 <= j < k && Parse(path, names[j]).Some?
                                              && Parse(path, names[j]).value.0 == highest
      {
        var r := ParseBackup(path, names[k]);
        if r.Some? && r.value.0 > highest { highest := r.value.0; }
      }
      forall n: nat, ext | n > highest && IsExt(ext) && Indexed(files, path)
        ensures Archive(path, n, ext) !in files
      {
        if n <= MAX_INT {
          ParseOfArchive(path, n, ext);
          assert Archive(path, n, ext) in files <==> Archive(path, n, ext) in names;
        }
      }
    }

    /** Moves each archive one index up, from the highest down. */
    method ShiftBackups(path: string, highest: nat)
      requires NoneAbove(files, path, highest)
      modifies this
      ensures ShiftedFrom(old(files), files, path, "", 1) && ShiftedFrom(old(files), files, path, GZ, 1)
      ensures SameElsewhere(old(files), files, path)
    {
      ghost var was := files;
      var i := highest;
      while i >= 1
        invariant 0 <= i <= highest
        invariant ShiftedFrom(was, files, path, "", i + 1) && ShiftedFrom(was, files, path, GZ, i + 1)
        invariant SameElsewhere(was, files, path)
      {
        ShiftSlot(was, files, path, "", i);
        ShiftOther(was, files, path, "", i, GZ, i + 1);
        ShiftElsewhere(was, files, path, "", i);
        ShiftOne(path, i, "");
        ShiftSlot(was, files, path, GZ, i);
        ShiftOther(was, files, path, GZ, i, "", i);
        ShiftElsewhere(was, files, path, GZ, i);
        ShiftOne(path, i, GZ);
        i := i - 1;
      }
    }

    method ShiftOne(path: string, i: nat, ext: string)
      requires IsExt(ext) && i >= 1
      modifies this
      ensures files == Moved(old(files), Archive(path, i, ext), Archive(path, i + 1, ext))
    {
      var from, to := Archive(path, i, ext), Archive(path, i + 1, ext);
      if from in files {
        ArchivesDiffer(path, i, ext, path, i + 1, ext);
        var _ := Rename(from, to);
      }
    }

    /** Moves the active file to index 1. Fails, with the archives shifted, if there is none. */
    method ShiftAndRename(path: string) returns (r: Option<string>)
      requires Indexed(files, path)
      modifies this
      ensures r == if path in old(files) then Some(Archive(path, 1, "")) else None
      ensures r.Some? ==> Rotated(old(files), files, path, Some(old(files)[path]), None)
      ensures r.None? ==> Rotated(old(files), files, path, None, None)
    {
      ghost var was := files;
      var highest := HighestBackup(path);
      ShiftBackups(path, highest);
      ActiveIsNoArchive(path);
      ghost var shifted := files;
      var archive := Archive(path, 1, "");
      assert IsArchive(path, archive);
      var ok := Rename(path, archive);
      FirstFilled(was, shifted, path, files, None);
      r := if ok then Some(archive) else None;
    }

    /** Copies the active file, or its last `keep` bytes, to index 1 and empties it. */
    method CopyTruncate(path: string, keep: int) returns (r: Option<string>)
      requires Indexed(files, path)
      modifies this
      ensures r == if path in old(files) then Some(Archive(path, 1, "")) else None
      ensures r.Some? ==>
                var f := old(files)[path];
                Rotated(old(files), files, path, Some(f.(data := Tail(f.data, keep))), Some(File([], false)))
      ensures r.None? ==> Rotated(old(files), files, path, None, None)
    {
      hide ShiftedFrom, Rotated, SameElsewhere, IsArchive, Indexed, NoneAbove;
      ghost var was := files;
      var highest := HighestBackup(path);
      ShiftBackups(path, highest);
      ActiveIsNoArchive(path);
      ghost var shifted := files;
      ActiveStays(was, shifted, path);
      var archive := Archive(path, 1, "");
      if path !in files {
        FirstFilled(was, shifted, path, files, None);
        return None;
      }
      files := files[archive := files[path].(data := Tail(files[path].data, keep))];
      files := files[path := File([], false)];
      FirstFilled(was, shifted, path, files, Some(File([], false)));
      return Some(archive);
    }

    /** Reduces a file to its last `keep` bytes. */
    method KeepTail(name: string, keep: int) returns (ok: bool)
      modifies this
      ensures ok <==> keep <= 0 || name in old(files)
      ensures files == KeptTail(old(files), name, keep)
    {
      assert name in files ==> files == files[name := files[name]];
      if keep <= 0 { return true; }
      if name !in files { return false; }
      var size := |files[name].data|;
      if size <= keep { return true; }
      files := files[name := files[name].(data := files[name].data[size - keep..])];
      return true;
    }

    /** Gzips a file into name.gz and removes it. */
    method CompressArchive(name: string) returns (ok: bool)
      modifies this
      ensures ok <==> name in old(files)
      ensures files == Gzipped(old(files), name)
    {
      if name !in files { return false; }
      files := files[name + GZ := File(files[name].data, true)];
      files := files - {name};
      return true;
    }

    /** Removes the archives whose index exceeds the limit; a negative limit removes none. */
    method PruneBackups(path: string, maxBackups: int)
      modifies this
      ensures files == Pruned(old(files), path, maxBackups)
    {
      if maxBackups < 0 { return; }
      ghost var was := files;
      var names := ReadDir();
      for k := 0 to |names|
        invariant forall name :: Lookup(files, name)
                                 == if name in names[..k] && Excess(path, name, maxBackups) then None
                                    else Lookup(was, name)
      {
        assert names[..k + 1] == names[..k] + [names[k]];
        var r := ParseBackup(path, names[k]);
        if r.Some? && r.value.0 > maxBackups { Remove(names[k]); }
      }
      assert names[..|names|] == names;
      SameLookups(files, Pruned(was, path, maxBackups));
    }
  }

  ghost predicate Excess(path: string, name: string, maxBackups: int) {
    Parse(path, name).Some? && Parse(path, name).value.0 > maxBackups
  }

  ghost function Pruned(fs: Files, path: string, maxBackups: int): Files {
    if maxBackups < 0 then fs else map name | name in fs && !Excess(path, name, maxBackups) :: fs[name]
  }

  lemma SameLookups(fs: Files, fs': Files)
    requires forall name :: Lookup(fs, name) == Lookup(fs', name)
    ensures fs == fs'
  {
    forall name ensures name in fs <==> name in fs' {
      assert Lookup(fs, name) == Lookup(fs', name);
    }
    forall name | name in fs ensures fs[name] == fs'[name] {
      assert Lookup(fs, name) == Lookup(fs', name);
    }
  }

  /** From shifted archives to a finished rotation. */
  lemma FirstFilled(fs: Files, shifted: Files, path: string, fs': Files, active: Option<File>)
    requires ShiftedFrom(fs, shifted, path, "", 1) && ShiftedFrom(fs, shifted, path, GZ, 1)
    requires SameElsewhere(fs, shifted, path) && Lookup(fs', path) == active
    requires forall name :: name != path && name != Archive(path, 1, "") ==> Lookup(fs', name) == Lookup(shifted, name)
    ensures Rotated(fs, fs', path, Lookup(fs', Archive(path, 1, "")), active)
  {
    ActiveIsNoArchive(path);
    assert IsArchive(path, Archive(path, 1, ""));
    ArchivesDiffer(path, 1, GZ, path, 1, "");
    assert IsArchive(path, Archive(path, 1, GZ));
    assert Lookup(shifted, Archive(path, 1, GZ)) == None;
    assert Archive(path, 1, GZ) !in fs' by { assert Lookup(fs', Archive(path, 1, GZ)) == None; }
    forall n: nat, ext | n >= 1 && IsExt(ext)
      ensures Lookup(fs', Archive(path, n + 1, ext)) == Lookup(fs, Archive(path, n, ext))
    {
      assert IsArchive(path, Archive(path, n + 1, ext));
      ArchivesDiffer(path, n + 1, ext, path, 1, "");
      assert Lookup(shifted, Archive(path, n + 1, ext)) == Lookup(fs, Archive(path, n + 1 - 1, ext));
    }
  }

  /** Pruning keeps exactly the archives up to the limit, and every other file. */
  lemma PruneKeeps(fs: Files, path: string, maxBackups: int, n: nat, ext: string)
    requires 1 <= n <= MAX_INT && IsExt(ext) && maxBackups >= 0
    ensures Lookup(Pruned(fs, path, maxBackups), Archive(path, n, ext))
            == if n <= maxBackups then Lookup(fs, Archive(path, n, ext)) else None
    ensures forall name :: Parse(path, name).None? ==> Lookup(Pruned(fs, path, maxBackups), name) == Lookup(fs, name)
  {
    ParseOfArchive(path, n, ext);
  }
}

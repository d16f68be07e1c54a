/** The log directory as a map from file to lines, and one rotation of it. */
module LogFiles {
  import opened Common
  import opened Decimal

  /** dev-sys-cloud.log, and dev-sys-cloud.log.i. */
  datatype LogFile = Current | Archive(i: nat)

  type Directory = map<LogFile, seq<string>>

  function FileName(dir: string, f: LogFile): string {
    dir + "/dev-sys-cloud.log" + (match f case Current => "" case Archive(i) => "." + ToString(i))
  }

  /** Different files of the model are different paths. */
  lemma FileNamesDiffer(dir: string, f: LogFile, g: LogFile)
    requires FileName(dir, f) == FileName(dir, g)
    ensures f == g
  {
    var base := dir + "/dev-sys-cloud.log";
    assert FileName(dir, f)[|base|..] == FileName(dir, g)[|base|..];
    if f.Archive? && g.Archive? {
      assert FileName(dir, f)[|base| + 1..] == ToString(f.i);
      assert FileName(dir, g)[|base| + 1..] == ToString(g.i);
      ToStringInjective(f.i, g.i);
    }
  }

  function Lines(d: Directory, f: LogFile): seq<string> {
    if f in d then d[f] else []
  }

  function Size(lines: seq<string>): nat {
    if lines == [] then 0 else Size(lines[..|lines| - 1]) + |lines[|lines| - 1]|
  }

  /** The file f of d' is the file o of d: both absent, or equal. */
  ghost predicate SameFile(d': Directory, f: LogFile, d: Directory, o: Option<LogFile>) {
    if o.Some? && o.value in d then f in d' && d'[f] == d[o.value] else f !in d'
  }

  /** Where rotation takes the content of a file from; None for a file that does not exist afterwards. */
  function Origin(f: LogFile, maxFiles: int): Option<LogFile> {
    match f
    case Current => None
    case Archive(i) =>
      if i == 0 then Some(Current)
      else if i < maxFiles then Some(Archive(i - 1))
      else Some(f)
  }

  /** One rotation: .k becomes .(k+1), the base file .0, and only .(maxFiles-1) is lost. */
  ghost predicate Rotates(d: Directory, maxFiles: int, d': Directory) {
    forall f :: SameFile(d', f, d, Origin(f, maxFiles))
  }

  /** The same while the loop has yet to visit .i and below: .(i+1) is vacant. */
  function OriginSoFar(f: LogFile, i: int, maxFiles: int): Option<LogFile>
    requires i >= -1
  {
    match f
    case Current => Some(Current)
    case Archive(j) =>
      if j <= i || j >= maxFiles then Some(f)
      else if j == i + 1 then None
      else Some(Archive(j - 1))
  }

  ghost predicate RotatesSoFar(d: Directory, i: int, maxFiles: int, d': Directory)
    requires i >= -1
  {
    forall f :: SameFile(d', f, d, OriginSoFar(f, i, maxFiles))
  }

  function ShiftOne(d: Directory, i: nat, maxFiles: int): Directory {
    if Archive(i) !in d then d
    else if i + 1 >= maxFiles then d - {Archive(i)}
    else (d - {Archive(i)})[Archive(i + 1) := d[Archive(i)]]
  }

  lemma ShiftOneAdvances(d: Directory, i: nat, maxFiles: int, d': Directory)
    requires i < maxFiles && RotatesSoFar(d, i, maxFiles, d')
    ensures RotatesSoFar(d, i - 1, maxFiles, ShiftOne(d', i, maxFiles))
    ensures i + 1 < maxFiles ==> Archive(i + 1) !in d'
  {
    var d'', k := ShiftOne(d', i, maxFiles), i - 1;
    assert SameFile(d', Archive(i), d, OriginSoFar(Archive(i), i, maxFiles));
    assert SameFile(d', Archive(i + 1), d, OriginSoFar(Archive(i + 1), i, maxFiles));
    forall f
      ensures SameFile(d'', f, d, OriginSoFar(f, k, maxFiles))
    {
      assert SameFile(d', f, d, OriginSoFar(f, i, maxFiles));
    }
  }

  function BaseToZero(d: Directory): Directory {
    if Current in d then (d - {Current})[Archive(0) := d[Current]] else d
  }

  lemma LastRename(d: Directory, maxFiles: int, d': Directory)
    requires maxFiles >= 1 && RotatesSoFar(d, -1, maxFiles, d')
    ensures (Current in d' <==> Current in d) && Archive(0) !in d'
    ensures Rotates(d, maxFiles, BaseToZero(d'))
  {
    assert SameFile(d', Current, d, OriginSoFar(Current, -1, maxFiles));
    assert SameFile(d', Archive(0), d, OriginSoFar(Archive(0), -1, maxFiles));
    var d'' := BaseToZero(d');
    forall f
      ensures SameFile(d'', f, d, Origin(f, maxFiles))
    {
      assert SameFile(d', f, d, OriginSoFar(f, -1, maxFiles));
    }
  }

  class LogStore {
    var files: Directory

    constructor (files: Directory)
      ensures this.files == files
    {
      this.files := files;
    }

    method Remove(f: LogFile)
      modifies this
      ensures files == old(files) - {f}
    {
      files := files - {f};
    }

    /** POSIX rename: it replaces an existing target, and says so here. */
    method Rename(from: LogFile, to: LogFile) returns (replaced: bool)
      requires from in files && from != to
      modifies this
      ensures files == (old(files) - {from})[to := old(files)[from]]
      ensures replaced == (to in old(files))
    {
      replaced := to in files;
      files := (files - {from})[to := files[from]];
    }

    /**
      rotate(). It replaces an existing file exactly when it keeps no archives at all and both the
      base file and .0 exist.
     */
    method Rotate(maxFiles: int) returns (replaced: bool)
      modifies this
      ensures replaced <==> maxFiles <= 0 && Current in old(files) && Archive(0) in old(files)
      ensures maxFiles >= 1 ==> Rotates(old(files), maxFiles, files)
      ensures maxFiles <= 0 ==> files == BaseToZero(old(files))
    {
      replaced := false;
      var i := maxFiles - 1;
      while i >= 0
        invariant maxFiles >= 1 ==> -1 <= i < maxFiles && RotatesSoFar(old(files), i, maxFiles, files)
        invariant maxFiles <= 0 ==> i < 0 && files == old(files)
        invariant !replaced
      {
        ShiftOneAdvances(old(files), i, maxFiles, files);
        if Archive(i) in files {
          if i + 1 >= maxFiles {
            Remove(Archive(i));
          } else {
            replaced := Rename(Archive(i), Archive(i + 1));
          }
        }
        i := i - 1;
      }
      if maxFiles >= 1 {
        LastRename(old(files), maxFiles, files);
      }
      if Current in files {
        replaced := Rename(Current, Archive(0));
      }
    }
  }
}

/** "Latest firmware" for a product directory: the selection loop over an arbitrary directory order. */
module FirmwareSelection {
  import opened Common

  /** A regular file with the version its name parses to; 0.0.0 when no version is found. */
  datatype FirmwareFile = FirmwareFile(name: string, major: nat, minor: nat, patch: nat, mtime: int, size: int)

  predicate Versioned(f: FirmwareFile) {
    f.major > 0 || f.minor > 0 || f.patch > 0
  }

  /** Whether the loop replaces its best file so far. */
  predicate Newer(f: FirmwareFile, best: Option<FirmwareFile>) {
    var major, minor, patch, mtime :=
      if best.Some? then best.value.major else -1,
      if best.Some? then best.value.minor else 0,
      if best.Some? then best.value.patch else 0,
      if best.Some? then best.value.mtime else 0;
    if Versioned(f) then
      || f.major > major
      || (f.major == major && f.minor > minor)
      || (f.major == major && f.minor == minor && f.patch > patch)
      || (f.major == major && f.minor == minor && f.patch == patch && f.mtime > mtime)
    else
      major < 1 && f.mtime > mtime
  }

  function Select(files: seq<FirmwareFile>): Option<FirmwareFile> {
    if files == [] then None
    else
      var best, f := Select(files[..|files| - 1]), files[|files| - 1];
      if Newer(f, best) then Some(f) else best
  }

  method SelectLatest(files: seq<FirmwareFile>) returns (best: Option<FirmwareFile>)
    ensures best == Select(files)
  {
    best := None;
    for i := 0 to |files|
      invariant best == Select(files[..i])
    {
      assert files[..i + 1][..i] == files[..i];
      if Newer(files[i], best) {
        best := Some(files[i]);
      }
    }
    assert files[..|files|] == files;
  }

  /** Of two files with the same version and time the first one stays. */
  lemma TiesKeepTheFirst(f: FirmwareFile, best: FirmwareFile)
    requires f.major == best.major && f.minor == best.minor && f.patch == best.patch && f.mtime == best.mtime
    ensures !Newer(f, Some(best))
  {
  }

  // ---------------------------------------------------------------- what "latest" means

  /** Order by (major, minor, patch, mtime). */
  predicate AtMost(a: FirmwareFile, b: FirmwareFile) {
    || a.major < b.major
    || (a.major == b.major && a.minor < b.minor)
    || (a.major == b.major && a.minor == b.minor && a.patch < b.patch)
    || (a.major == b.major && a.minor == b.minor && a.patch == b.patch && a.mtime <= b.mtime)
  }

  predicate Tops(best: FirmwareFile, files: seq<FirmwareFile>) {
    forall i :: 0 <= i < |files| ==> AtMost(files[i], best)
  }

  predicate IsLatest(r: Option<FirmwareFile>, files: seq<FirmwareFile>) {
    if files == [] then r.None? else r.Some? && r.value in files && Tops(r.value, files)
  }

  predicate SomeMajor(files: seq<FirmwareFile>) {
    exists i :: 0 <= i < |files| && files[i].major >= 1
  }

  /** Among 0.x files, v beats every versioned one, and no unversioned file is younger than it. */
  predicate Dominates(v: FirmwareFile, files: seq<FirmwareFile>) {
    Versioned(v) &&
    forall i :: 0 <= i < |files| ==> if Versioned(files[i]) then AtMost(files[i], v) else files[i].mtime <= v.mtime
  }

  predicate SomeDominates(files: seq<FirmwareFile>) {
    exists i :: 0 <= i < |files| && Dominates(files[i], files)
  }

  predicate AllUnversionedSomeDated(files: seq<FirmwareFile>) {
    && (forall i :: 0 <= i < |files| ==> !Versioned(files[i]))
    && (exists i :: 0 <= i < |files| && files[i].mtime > 0)
  }

  /** Directories on which the loop works in every order. */
  predicate Decidable(files: seq<FirmwareFile>) {
    files == [] || SomeMajor(files) || SomeDominates(files) || AllUnversionedSomeDated(files)
  }

  // ---------------------------------------------------------------- the condition suffices

  lemma {:induction false} SelectIsAFile(files: seq<FirmwareFile>)
    ensures Select(files).Some? ==> Select(files).value in files
  {
    if files != [] {
      SelectIsAFile(files[..|files| - 1]);
    }
  }

  lemma {:induction false} SelectWithMajor(files: seq<FirmwareFile>)
    requires SomeMajor(files)
    ensures Select(files).Some? && Select(files).value.major >= 1 && Tops(Select(files).value, files)
  {
    var n := |files| - 1;
    var rest := files[..n];
    assert forall i :: 0 <= i < n ==> rest[i] == files[i];
    if SomeMajor(rest) {
      SelectWithMajor(rest);
    } else {
      SelectIsAFile(rest);
      assert files[n].major >= 1;
      assert forall i :: 0 <= i < n ==> rest[i].major < 1;
    }
  }

  predicate SameKey(a: FirmwareFile, b: FirmwareFile) {
    a.major == b.major && a.minor == b.minor && a.patch == b.patch && a.mtime == b.mtime
  }

  lemma {:induction false} SelectWithDominator(files: seq<FirmwareFile>, v: FirmwareFile)
    requires !SomeMajor(files) && Dominates(v, files)
    ensures v in files ==> Select(files).Some? && SameKey(Select(files).value, v)
  {
    if files != [] {
      var n := |files| - 1;
      var rest := files[..n];
      assert forall i :: 0 <= i < n ==> rest[i] == files[i];
      SelectWithDominator(rest, v);
      SelectIsAFile(rest);
      assert v in files ==> v in rest || v == files[n];
      var best := Select(rest);
      if best.Some? {
        var i :| 0 <= i < n && rest[i] == best.value;
        assert files[i] == best.value;
      }
    }
  }

  lemma {:induction false} SelectUnversioned(files: seq<FirmwareFile>)
    requires forall i :: 0 <= i < |files| ==> !Versioned(files[i])
    ensures Select(files).None? ==> forall i :: 0 <= i < |files| ==> files[i].mtime <= 0
    ensures Select(files).Some? ==> Select(files).value.mtime > 0 && Tops(Select(files).value, files)
  {
    if files != [] {
      var n := |files| - 1;
      var rest, f := files[..n], files[n];
      assert forall i :: 0 <= i < n ==> rest[i] == files[i];
      SelectUnversioned(rest);
      SelectIsAFile(rest);
      var best := Select(rest);
      UnversionedStep(best, f);
      assert Select(files) == if Newer(f, best) then Some(f) else best;
      assert best.Some? ==> best.value in files;
    }
  }

  /** Among unversioned files the younger one wins, and none before the epoch. */
  lemma UnversionedStep(best: Option<FirmwareFile>, f: FirmwareFile)
    requires !Versioned(f) && (best.Some? ==> !Versioned(best.value))
    ensures Newer(f, best) <==> f.mtime > (if best.Some? then best.value.mtime else 0)
    ensures best.Some? ==> (if f.mtime > best.value.mtime then AtMost(best.value, f) else AtMost(f, best.value))
  {
  }

  lemma DecidableSuffices(files: seq<FirmwareFile>)
    requires Decidable(files)
    ensures IsLatest(Select(files), files)
  {
    SelectIsAFile(files);
    if SomeMajor(files) {
      SelectWithMajor(files);
    } else if SomeDominates(files) {
      var i :| 0 <= i < |files| && Dominates(files[i], files);
      SelectWithDominator(files, files[i]);
      assert forall j :: 0 <= j < |files| ==> AtMost(files[j], files[i]);
    } else if files != [] {
      SelectUnversioned(files);
    }
  }

  // ---------------------------------------------------------------- the condition is needed

  /** The greatest versioned file, if there is one. */
  lemma {:induction false} GreatestVersioned(files: seq<FirmwareFile>) returns (k: int)
    ensures k < 0 ==> forall i :: 0 <= i < |files| ==> !Versioned(files[i])
    ensures k >= 0 ==> k < |files| && Versioned(files[k])
    ensures k >= 0 ==> forall i :: 0 <= i < |files| && Versioned(files[i]) ==> AtMost(files[i], files[k])
  {
    k := -1;
    if files != [] {
      var n := |files| - 1;
      k := GreatestVersioned(files[..n]);
      assert forall i :: 0 <= i < n ==> files[..n][i] == files[i];
      if Versioned(files[n]) && (k < 0 || AtMost(files[k], files[n])) {
        k := n;
      }
    }
  }

  function MoveToEnd(files: seq<FirmwareFile>, k: nat): (r: seq<FirmwareFile>)
    requires k < |files|
    ensures |r| == |files| && r[|r| - 1] == files[k]
    ensures multiset(r) == multiset(files)
  {
    assert files == files[..k] + [files[k]] + files[k + 1..];
    files[..k] + files[k + 1..] + [files[k]]
  }

  /** A younger unversioned file that comes last defeats the greatest 0.x file v. */
  lemma YoungerLastDefeats(files: seq<FirmwareFile>, v: FirmwareFile)
    requires files != [] && v in files && !SomeMajor(files) && Versioned(v)
    requires forall i :: 0 <= i < |files| && Versioned(files[i]) ==> AtMost(files[i], v)
    requires var u := files[|files| - 1]; !Versioned(u) && u.mtime > v.mtime
    ensures !IsLatest(Select(files), files)
  {
    var rest, u := files[..|files| - 1], files[|files| - 1];
    SelectIsAFile(rest);
    var best := Select(rest);
    var k :| 0 <= k < |files| && files[k] == v;
    if best.Some? && !Newer(u, best) {
      var i :| 0 <= i < |rest| && rest[i] == best.value;
      assert files[i] == best.value;
      assert !AtMost(files[k], best.value);
    } else {
      assert Select(files).Some? ==> !AtMost(files[k], Select(files).value);
    }
  }

  lemma UndecidableHasBadOrder(files: seq<FirmwareFile>) returns (order: seq<FirmwareFile>)
    requires !Decidable(files)
    ensures multiset(order) == multiset(files) && !IsLatest(Select(order), order)
  {
    var k := GreatestVersioned(files);
    if k < 0 {
      order := files;
      SelectUnversioned(files);
      SelectIsAFile(files);
    } else {
      var v := files[k];
      assert !Dominates(v, files);
      var j :| 0 <= j < |files| && !Versioned(files[j]) && files[j].mtime > v.mtime;
      order := MoveToEnd(files, j);
      SameFiles(files, order);
      assert v in multiset(files) && v in order;
      forall i | 0 <= i < |order|
        ensures order[i].major < 1 && (Versioned(order[i]) ==> AtMost(order[i], v))
      {
        assert order[i] in order;
        var m :| 0 <= m < |files| && files[m] == order[i];
      }
      YoungerLastDefeats(order, v);
    }
  }

  lemma SameFiles(s: seq<FirmwareFile>, t: seq<FirmwareFile>)
    requires multiset(s) == multiset(t)
    ensures forall f :: f in s <==> f in t
  {
    forall f
      ensures f in s <==> f in t
    {
      assert f in s <==> f in multiset(s);
      assert f in t <==> f in multiset(t);
    }
  }

  lemma DecidableIgnoresOrder(s: seq<FirmwareFile>, t: seq<FirmwareFile>)
    requires multiset(s) == multiset(t) && Decidable(s)
    ensures Decidable(t)
  {
    SameFiles(s, t);
    assert |s| == |multiset(s)| && |t| == |multiset(t)|;
    if s != [] {
      if SomeMajor(s) {
        var i :| 0 <= i < |s| && s[i].major >= 1;
        assert s[i] in t;
      } else if SomeDominates(s) {
        var i :| 0 <= i < |s| && Dominates(s[i], s);
        assert s[i] in t;
        assert Dominates(s[i], t) by { Transfer(s, t, s[i]); }
      } else {
        var i :| 0 <= i < |s| && s[i].mtime > 0;
        assert s[i] in t;
        forall j | 0 <= j < |t| ensures !Versioned(t[j]) { assert t[j] in s; }
      }
    }
  }

  lemma Transfer(s: seq<FirmwareFile>, t: seq<FirmwareFile>, v: FirmwareFile)
    requires Dominates(v, s) && forall f :: f in t ==> f in s
    ensures Dominates(v, t)
  {
    forall j | 0 <= j < |t|
      ensures if Versioned(t[j]) then AtMost(t[j], v) else t[j].mtime <= v.mtime
    {
      assert t[j] in s;
    }
  }

  /** The loop finds a latest file in every directory order if and only if the directory is decidable. */
  lemma LatestInEveryOrderIff(files: seq<FirmwareFile>)
    ensures (forall order :: multiset(order) == multiset(files) ==> IsLatest(Select(order), order)) <==>
            Decidable(files)
  {
    if Decidable(files) {
      forall order | multiset(order) == multiset(files)
        ensures IsLatest(Select(order), order)
      {
        DecidableIgnoresOrder(files, order);
        DecidableSuffices(order);
      }
    } else {
      var order := UndecidableHasBadOrder(files);
    }
  }

  /** Two orders of the same two files, two different answers. */
  lemma OrderMatters()
    ensures var a, b := FirmwareFile("v0.9.0.bin", 0, 9, 0, 100, 1), FirmwareFile("hotfix.bin", 0, 0, 0, 200, 1);
      Select([a, b]) == Some(b) && Select([b, a]) == Some(a) && !IsLatest(Some(b), [a, b])
  {
    var a, b := FirmwareFile("v0.9.0.bin", 0, 9, 0, 100, 1), FirmwareFile("hotfix.bin", 0, 0, 0, 200, 1);
    assert [a, b][..1] == [a] && [b, a][..1] == [b] && [a][..0] == [] && [b][..0] == [];
    assert Select([a]) == Some(a) && Select([b]) == Some(b);
    assert !AtMost([a, b][0], b);
  }
}

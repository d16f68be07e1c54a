/** LogManager::write over whole runs: what the files still hold, and how large they get. */
module LogRuns {
  import opened LogLines
  import opened LogFiles

  // ---------------------------------------------------------------- one write

  /** The directory, which files a rotation opened, the lines written so far, and those rotated away. */
  datatype Log = Log(files: Directory, reopened: set<LogFile>, accepted: seq<string>, dropped: seq<string>)

  /** What a reader takes from a file: all of it, less the repeated first line of one a rotation opened. */
  function Fresh(l: Log, f: LogFile): seq<string> {
    var lines := Lines(l.files, f);
    if f in l.reopened && lines != [] then lines[1..] else lines
  }

  /** Archives n-1 down to 0, then the current file. */
  function Read(l: Log, n: nat): seq<string> {
    if n == 0 then Fresh(l, Current) else Fresh(l, Archive(n - 1)) + Read(l, n - 1)
  }

  function Append(l: Log, line: string): Log {
    l.(files := l.files[Current := Lines(l.files, Current) + [line]], accepted := l.accepted + [line])
  }

  /** The file one step older. */
  function Next(f: LogFile): LogFile {
    match f case Current => Archive(0) case Archive(i) => Archive(i + 1)
  }

  /** The log after a rotation that left `files` and after the line was written once more. */
  function Reopen(l: Log, maxFiles: nat, files: Directory, line: string): Log
    requires maxFiles >= 1
  {
    Log(files[Current := Lines(files, Current) + [line]],
        (set f | f in l.reopened :: Next(f)) + {Current},
        l.accepted,
        l.dropped + Fresh(l, Archive(maxFiles - 1)))
  }

  predicate NeedsRotation(lines: seq<string>, limit: int) {
    Size(lines) > 0 && Size(lines) >= limit
  }

  /** write(), for an entry that passes the level filter on an open stream. */
  ghost predicate Writes(l: Log, line: string, limit: int, maxFiles: nat, l': Log) {
    var l1 := Append(l, line);
    if !NeedsRotation(l1.files[Current], limit) then l' == l1
    else exists files :: Rotates(l1.files, maxFiles, files) && maxFiles >= 1 && l' == Reopen(l1, maxFiles, files, line)
  }

  /** One call of write under the level and size settings of the moment. */
  datatype Call = Call(entry: Entry, minLevel: Level, limit: int)

  ghost predicate Step(l: Log, c: Call, maxFiles: nat, l': Log) {
    if Rank(c.entry.level) < Rank(c.minLevel) then l' == l
    else Writes(l, Line(c.entry), c.limit, maxFiles, l')
  }

  /** The states of the log before, between and after the calls. */
  ghost predicate IsRun(states: seq<Log>, calls: seq<Call>, maxFiles: nat) {
    && |states| == |calls| + 1
    && forall i :: 0 <= i < |calls| ==> Step(states[i], calls[i], maxFiles, states[i + 1])
  }

  // ---------------------------------------------------------------- nothing in the middle is lost

  predicate FileWithin(f: LogFile, maxFiles: nat) {
    f.Archive? ==> f.i < maxFiles
  }

  /** A file opened by rotation starts with the last line of the file before it, as long as that one is kept. */
  ghost predicate Repeats(l: Log, maxFiles: nat, f: LogFile) {
    f in l.reopened && FileWithin(f, maxFiles) ==>
      && Lines(l.files, f) != []
      && (FileWithin(Next(f), maxFiles) ==>
            var before := Lines(l.files, Next(f));
            before != [] && before[|before| - 1] == l.files[f][0])
  }

  ghost predicate Inv(l: Log, maxFiles: nat) {
    && l.accepted == l.dropped + Read(l, maxFiles)
    && forall f :: Repeats(l, maxFiles, f)
  }

  lemma {:induction false} AppendShows(l: Log, line: string, n: nat)
    requires Current in l.reopened ==> Lines(l.files, Current) != []
    ensures Read(Append(l, line), n) == Read(l, n) + [line]
  {
    if n > 0 {
      AppendShows(l, line, n - 1);
    }
  }

  lemma AppendKeepsInv(l: Log, line: string, maxFiles: nat)
    requires Inv(l, maxFiles)
    ensures Inv(Append(l, line), maxFiles)
  {
    assert Repeats(l, maxFiles, Current);
    AppendShows(l, line, maxFiles);
    var l' := Append(l, line);
    forall f
      ensures Repeats(l', maxFiles, f)
    {
      assert Repeats(l, maxFiles, f);
    }
  }

  lemma RotatedLines(d: Directory, maxFiles: nat, d': Directory, f: LogFile)
    requires maxFiles >= 1 && Rotates(d, maxFiles, d')
    ensures Current !in d'
    ensures FileWithin(Next(f), maxFiles) ==> Lines(d', Next(f)) == Lines(d, f)
  {
    assert SameFile(d', Current, d, Origin(Current, maxFiles));
    assert SameFile(d', Next(f), d, Origin(Next(f), maxFiles));
  }

  lemma NextReopened(l: Log, maxFiles: nat, files: Directory, line: string, f: LogFile)
    requires maxFiles >= 1
    ensures Next(f) in Reopen(l, maxFiles, files, line).reopened <==> f in l.reopened
  {
  }

  /** After a rotation, one file further back shows what was shown before, and the current one shows nothing. */
  lemma {:induction false} ReopenShifts(l: Log, maxFiles: nat, files: Directory, line: string, n: nat)
    requires n < maxFiles && Rotates(l.files, maxFiles, files)
    ensures Read(Reopen(l, maxFiles, files, line), n + 1) == Read(l, n)
  {
    ReopenShiftsOne(l, maxFiles, files, line, n);
    if n > 0 {
      ReopenShifts(l, maxFiles, files, line, n - 1);
    }
  }

  lemma ReopenShiftsOne(l: Log, maxFiles: nat, files: Directory, line: string, n: nat)
    requires n < maxFiles && Rotates(l.files, maxFiles, files)
    ensures var l' := Reopen(l, maxFiles, files, line);
      && Fresh(l', Archive(n)) == Fresh(l, if n == 0 then Current else Archive(n - 1))
      && Fresh(l', Current) == []
  {
    var f := if n == 0 then Current else Archive(n - 1);
    RotatedLines(l.files, maxFiles, files, f);
    NextReopened(l, maxFiles, files, line, f);
  }

  lemma ReopenKeepsInv(l: Log, maxFiles: nat, files: Directory, line: string)
    requires maxFiles >= 1 && Inv(l, maxFiles) && Rotates(l.files, maxFiles, files)
    requires var lines := Lines(l.files, Current); lines != [] && lines[|lines| - 1] == line
    ensures Inv(Reopen(l, maxFiles, files, line), maxFiles)
  {
    var l' := Reopen(l, maxFiles, files, line);
    ReopenShifts(l, maxFiles, files, line, maxFiles - 1);
    assert Read(l, maxFiles) == Fresh(l, Archive(maxFiles - 1)) + Read(l', maxFiles);
    assert l'.accepted == l'.dropped + Read(l', maxFiles);
    forall f
      ensures Repeats(l', maxFiles, f)
    {
      ReopenRepeats(l, maxFiles, files, line, f);
    }
  }

  lemma ReopenRepeats(l: Log, maxFiles: nat, files: Directory, line: string, f: LogFile)
    requires maxFiles >= 1 && Inv(l, maxFiles) && Rotates(l.files, maxFiles, files)
    requires var lines := Lines(l.files, Current); lines != [] && lines[|lines| - 1] == line
    ensures Repeats(Reopen(l, maxFiles, files, line), maxFiles, f)
  {
    RotatedLines(l.files, maxFiles, files, Current);
    if f.Archive? && FileWithin(f, maxFiles) {
      var g := if f.i == 0 then Current else Archive(f.i - 1);
      assert Next(g) == f && Repeats(l, maxFiles, g);
      NextReopened(l, maxFiles, files, line, g);
      RotatedLines(l.files, maxFiles, files, g);
      RotatedLines(l.files, maxFiles, files, f);
    }
  }

  lemma StepKeepsInv(l: Log, c: Call, maxFiles: nat, l': Log)
    requires maxFiles >= 1 && Inv(l, maxFiles) && Step(l, c, maxFiles, l')
    ensures Inv(l', maxFiles)
    ensures l'.accepted == l.accepted + AcceptedLine(c)
  {
    if Rank(c.entry.level) >= Rank(c.minLevel) {
      var line := Line(c.entry);
      AppendKeepsInv(l, line, maxFiles);
      var l1 := Append(l, line);
      if NeedsRotation(l1.files[Current], c.limit) {
        var files :| Rotates(l1.files, maxFiles, files) && l' == Reopen(l1, maxFiles, files, line);
        ReopenKeepsInv(l1, maxFiles, files, line);
      }
    }
  }

  function AcceptedLine(c: Call): seq<string> {
    if Rank(c.entry.level) < Rank(c.minLevel) then [] else [Line(c.entry)]
  }

  /** The lines of the calls that pass the level filter. */
  function Accepted(calls: seq<Call>): seq<string> {
    if calls == [] then [] else Accepted(calls[..|calls| - 1]) + AcceptedLine(calls[|calls| - 1])
  }

  lemma AcceptedGrows(calls: seq<Call>, k: nat)
    requires 0 < k <= |calls|
    ensures Accepted(calls[..k]) == Accepted(calls[..k - 1]) + AcceptedLine(calls[k - 1])
  {
    assert calls[..k][..k - 1] == calls[..k - 1];
  }

  lemma StepOfRun(states: seq<Log>, calls: seq<Call>, maxFiles: nat, i: nat)
    requires IsRun(states, calls, maxFiles) && i < |calls|
    ensures Step(states[i], calls[i], maxFiles, states[i + 1])
  {
  }

  lemma {:induction false} RunKeepsInv(states: seq<Log>, calls: seq<Call>, maxFiles: nat, k: nat)
    requires maxFiles >= 1 && IsRun(states, calls, maxFiles) && Inv(states[0], maxFiles) && k <= |calls|
    ensures Inv(states[k], maxFiles) && states[k].accepted == states[0].accepted + Accepted(calls[..k])
  {
    if k > 0 {
      RunKeepsInv(states, calls, maxFiles, k - 1);
      StepOfRun(states, calls, maxFiles, k - 1);
      StepKeepsInv(states[k - 1], calls[k - 1], maxFiles, states[k]);
      AcceptedGrows(calls, k);
      assert states[0].accepted + Accepted(calls[..k - 1]) + AcceptedLine(calls[k - 1])
          == states[0].accepted + (Accepted(calls[..k - 1]) + AcceptedLine(calls[k - 1]));
    }
  }

  ghost predicate SuffixOf(s: seq<string>, t: seq<string>) {
    |s| <= |t| && t[|t| - |s|..] == s
  }

  /**
    Start from any directory. After any run of write, reading the files oldest to newest and
    skipping each repeated first line gives the newest part of everything there was and
    everything accepted, with nothing missing in between.
   */
  lemma FilesHoldTheNewestLines(files: Directory, states: seq<Log>, calls: seq<Call>, maxFiles: nat, k: nat)
    requires maxFiles >= 1 && IsRun(states, calls, maxFiles) && k <= |calls|
    requires var start := Log(files, {}, [], []); states[0] == start.(accepted := Read(start, maxFiles))
    ensures SuffixOf(Read(states[k], maxFiles), Read(Log(files, {}, [], []), maxFiles) + Accepted(calls[..k]))
  {
    var start := Log(files, {}, [], []);
    AcceptedIsGhost(start, states[0], maxFiles);
    RunKeepsInv(states, calls, maxFiles, k);
    assert states[k].accepted == states[k].dropped + Read(states[k], maxFiles);
  }

  lemma {:induction false} AcceptedIsGhost(l: Log, m: Log, n: nat)
    requires l.files == m.files && l.reopened == m.reopened
    ensures Read(l, n) == Read(m, n)
  {
    if n > 0 {
      AcceptedIsGhost(l, m, n - 1);
    }
  }

  // ---------------------------------------------------------------- file sizes

  predicate Small(lines: seq<string>, limit: int) {
    Size(lines) < limit || |lines| <= 1
  }

  predicate SmallButLast(lines: seq<string>, limit: int) {
    lines == [] || Small(lines[..|lines| - 1], limit)
  }

  /** A rotation of the run moved this archive out: the file after it was opened by a rotation. */
  predicate RotatedOut(l: Log, i: nat) {
    (if i == 0 then Current else Archive(i - 1)) in l.reopened
  }

  ghost predicate Sized(l: Log, maxFiles: nat, limit: int) {
    && Small(Lines(l.files, Current), limit)
    && forall i: nat :: i < maxFiles && RotatedOut(l, i) ==> SmallButLast(Lines(l.files, Archive(i)), limit)
  }

  lemma AppendKeepsSized(l: Log, line: string, limit: int)
    requires Small(Lines(l.files, Current), limit)
    ensures var lines := Append(l, line).files[Current];
      SmallButLast(lines, limit) && (!NeedsRotation(lines, limit) && line != [] ==> Small(lines, limit))
  {
    var lines := Append(l, line).files[Current];
    assert lines[..|lines| - 1] == Lines(l.files, Current);
  }

  lemma ReopenKeepsSized(l: Log, maxFiles: nat, limit: int, files: Directory, line: string)
    requires maxFiles >= 1 && Rotates(l.files, maxFiles, files)
    requires SmallButLast(Lines(l.files, Current), limit)
    requires forall i: nat :: i < maxFiles && RotatedOut(l, i) ==> SmallButLast(Lines(l.files, Archive(i)), limit)
    ensures Sized(Reopen(l, maxFiles, files, line), maxFiles, limit)
  {
    var l' := Reopen(l, maxFiles, files, line);
    RotatedLines(l.files, maxFiles, files, Current);
    forall i: nat | i < maxFiles && RotatedOut(l', i)
      ensures SmallButLast(Lines(l'.files, Archive(i)), limit)
    {
      if i > 0 {
        NextReopened(l, maxFiles, files, line, if i == 1 then Current else Archive(i - 2));
        assert RotatedOut(l, i - 1);
        RotatedLines(l.files, maxFiles, files, Archive(i - 1));
      }
    }
  }

  lemma StepKeepsSized(l: Log, c: Call, maxFiles: nat, l': Log)
    requires maxFiles >= 1 && Sized(l, maxFiles, c.limit) && Step(l, c, maxFiles, l')
    ensures Sized(l', maxFiles, c.limit)
  {
    if Rank(c.entry.level) >= Rank(c.minLevel) {
      var line := Line(c.entry);
      var l1 := Append(l, line);
      AppendKeepsSized(l, line, c.limit);
      assert forall i: nat :: Lines(l1.files, Archive(i)) == Lines(l.files, Archive(i));
      if NeedsRotation(l1.files[Current], c.limit) {
        var files :| Rotates(l1.files, maxFiles, files) && l' == Reopen(l1, maxFiles, files, line);
        ReopenKeepsSized(l1, maxFiles, c.limit, files, line);
      }
    }
  }

  /**
    With a fixed limit and a base file that starts empty or small, whatever the archives hold, the
    current file is at every moment under the limit or a single line, and each archive that the run
    rotated out is so once its last line is taken off.
   */
  lemma {:induction false} FilesStaySmall(states: seq<Log>, calls: seq<Call>, maxFiles: nat, limit: int, k: nat)
    requires maxFiles >= 1 && IsRun(states, calls, maxFiles) && k <= |calls|
    requires Small(Lines(states[0].files, Current), limit) && states[0].reopened == {}
    requires forall i :: 0 <= i < |calls| ==> calls[i].limit == limit
    ensures Sized(states[k], maxFiles, limit)
  {
    if k == 0 {
      StartIsSized(states[0], maxFiles, limit);
    } else {
      FilesStaySmall(states, calls, maxFiles, limit, k - 1);
      RunStepKeepsSized(states, calls, maxFiles, limit, k - 1);
    }
  }

  lemma StartIsSized(l: Log, maxFiles: nat, limit: int)
    requires Small(Lines(l.files, Current), limit) && l.reopened == {}
    ensures Sized(l, maxFiles, limit)
  {
  }

  lemma RunStepKeepsSized(states: seq<Log>, calls: seq<Call>, maxFiles: nat, limit: int, i: nat)
    requires maxFiles >= 1 && IsRun(states, calls, maxFiles) && i < |calls| && calls[i].limit == limit
    requires Sized(states[i], maxFiles, limit)
    ensures Sized(states[i + 1], maxFiles, limit)
  {
    StepOfRun(states, calls, maxFiles, i);
    StepKeepsSized(states[i], calls[i], maxFiles, states[i + 1]);
  }

  // ---------------------------------------------------------------- when a rotation is due

  /** The bytes of the lines, one after the other. */
  function Joined(lines: seq<string>): string {
    if lines == [] then "" else Joined(lines[..|lines| - 1]) + lines[|lines| - 1]
  }

  lemma {:induction false} SizeIsBytes(lines: seq<string>)
    ensures Size(lines) == |Joined(lines)|
  {
    if lines != [] {
      SizeIsBytes(lines[..|lines| - 1]);
    }
  }

  lemma SizeAfter(lines: seq<string>, line: string)
    ensures Size(lines + [line]) == Size(lines) + |line|
  {
    assert (lines + [line])[..|lines|] == lines;
  }

  /** Below the limit a line is appended and nothing else happens; a line below the level does nothing at all. */
  lemma QuietWrite(l: Log, c: Call, maxFiles: nat, l': Log)
    requires Step(l, c, maxFiles, l')
    ensures !Passes(c.entry.level, c.minLevel) ==> l' == l
    ensures Passes(c.entry.level, c.minLevel) && Size(Lines(l.files, Current)) + |Line(c.entry)| < c.limit ==>
      && l'.files == l.files[Current := Lines(l.files, Current) + [Line(c.entry)]]
      && l'.reopened == l.reopened && l'.dropped == l.dropped
  {
    PassesByRank(c.entry.level, c.minLevel);
    SizeAfter(Lines(l.files, Current), Line(c.entry));
  }

  /** At the limit the file is rotated out whole, and the line opens the new one. */
  lemma DueWrite(l: Log, c: Call, maxFiles: nat, l': Log)
    requires maxFiles >= 1 && Step(l, c, maxFiles, l') && Passes(c.entry.level, c.minLevel)
    requires Size(Lines(l.files, Current)) + |Line(c.entry)| >= c.limit
    ensures Lines(l'.files, Current) == [Line(c.entry)]
    ensures Lines(l'.files, Archive(0)) == Lines(l.files, Current) + [Line(c.entry)]
    ensures Current in l'.reopened
  {
    var line := Line(c.entry);
    PassesByRank(c.entry.level, c.minLevel);
    SizeAfter(Lines(l.files, Current), line);
    var l1 := Append(l, line);
    var files :| Rotates(l1.files, maxFiles, files) && l' == Reopen(l1, maxFiles, files, line);
    RotatedLines(l1.files, maxFiles, files, Current);
  }

  /** Every archive that the run rotated out is full. */
  ghost predicate Filled(l: Log, maxFiles: nat, limit: int) {
    forall i: nat :: i < maxFiles && RotatedOut(l, i) ==> Size(Lines(l.files, Archive(i))) >= limit
  }

  lemma ReopenKeepsFilled(l: Log, maxFiles: nat, limit: int, files: Directory, line: string)
    requires maxFiles >= 1 && Rotates(l.files, maxFiles, files)
    requires Size(Lines(l.files, Current)) >= limit && Filled(l, maxFiles, limit)
    ensures Filled(Reopen(l, maxFiles, files, line), maxFiles, limit)
  {
    var l' := Reopen(l, maxFiles, files, line);
    RotatedLines(l.files, maxFiles, files, Current);
    forall i: nat | i < maxFiles && RotatedOut(l', i)
      ensures Size(Lines(l'.files, Archive(i))) >= limit
    {
      if i > 0 {
        NextReopened(l, maxFiles, files, line, if i == 1 then Current else Archive(i - 2));
        assert RotatedOut(l, i - 1);
        RotatedLines(l.files, maxFiles, files, Archive(i - 1));
      }
    }
  }

  lemma StepKeepsFilled(l: Log, c: Call, maxFiles: nat, l': Log)
    requires maxFiles >= 1 && Filled(l, maxFiles, c.limit) && Step(l, c, maxFiles, l')
    ensures Filled(l', maxFiles, c.limit)
  {
    var line := Line(c.entry);
    var l1 := Append(l, line);
    assert forall i: nat :: Lines(l1.files, Archive(i)) == Lines(l.files, Archive(i));
    assert forall i: nat :: RotatedOut(l1, i) <==> RotatedOut(l, i);
    if Rank(c.entry.level) >= Rank(c.minLevel) && NeedsRotation(l1.files[Current], c.limit) {
      var files :| Rotates(l1.files, maxFiles, files) && l' == Reopen(l1, maxFiles, files, line);
      ReopenKeepsFilled(l1, maxFiles, c.limit, files, line);
    }
  }

  /** With a fixed limit no file is rotated out before it has reached it. */
  lemma {:induction false} RotatedFilesAreFull(states: seq<Log>, calls: seq<Call>, maxFiles: nat, limit: int, k: nat)
    requires maxFiles >= 1 && IsRun(states, calls, maxFiles) && k <= |calls| && states[0].reopened == {}
    requires forall i :: 0 <= i < |calls| ==> calls[i].limit == limit
    ensures Filled(states[k], maxFiles, limit)
  {
    if k == 0 {
      StartIsFilled(states[0], maxFiles, limit);
    } else {
      RotatedFilesAreFull(states, calls, maxFiles, limit, k - 1);
      RunStepKeepsFilled(states, calls, maxFiles, limit, k - 1);
    }
  }

  lemma StartIsFilled(l: Log, maxFiles: nat, limit: int)
    requires l.reopened == {}
    ensures Filled(l, maxFiles, limit)
  {
  }

  lemma RunStepKeepsFilled(states: seq<Log>, calls: seq<Call>, maxFiles: nat, limit: int, i: nat)
    requires maxFiles >= 1 && IsRun(states, calls, maxFiles) && i < |calls| && calls[i].limit == limit
    requires Filled(states[i], maxFiles, limit)
    ensures Filled(states[i + 1], maxFiles, limit)
  {
    StepOfRun(states, calls, maxFiles, i);
    StepKeepsFilled(states[i], calls[i], maxFiles, states[i + 1]);
  }

  // ---------------------------------------------------------------- the manager

  /** How many archives a setting keeps: never fewer than one, since .0 is always left. */
  function Kept(maxFiles: int): (n: nat)
    ensures n >= 1
  {
    if maxFiles < 1 then 1 else maxFiles
  }

  /** With the base file there, keeping no archives replaces .0, which is what keeping one does. */
  lemma ReplacingIsRotating(d: Directory)
    requires Current in d
    ensures Rotates(d, 1, BaseToZero(d))
  {
  }

  class LogManager {
    const store: LogStore
    var minLevel: Level
    var limit: int
    const maxFiles: int

    constructor (store: LogStore, minLevel: Level, sizeMb: int, maxFiles: int)
      ensures this.store == store && this.minLevel == minLevel
      ensures limit == sizeMb * 1024 * 1024 && this.maxFiles == maxFiles
    {
      this.store, this.minLevel, this.maxFiles := store, minLevel, maxFiles;
      limit := sizeMb * 1024 * 1024;
    }

    method AppendLine(line: string)
      modifies store
      ensures store.files == old(store.files)[Current := Lines(old(store.files), Current) + [line]]
    {
      store.files := store.files[Current := Lines(store.files, Current) + [line]];
    }

    /** write(): the ghost log is carried along to state the step. */
    method Write(entry: Entry, ghost l: Log) returns (ghost l': Log)
      requires l.files == store.files
      modifies store
      ensures l'.files == store.files
      ensures Step(l, Call(entry, minLevel, limit), Kept(maxFiles), l')
    {
      if Rank(entry.level) < Rank(minLevel) {
        return l;
      }
      var line := Line(entry);
      AppendLine(line);
      ghost var l1 := Append(l, line);
      var position := Size(store.files[Current]);
      if position > 0 && position >= limit {
        var replaced := store.Rotate(maxFiles);
        ghost var rotated := store.files;
        AppendLine(line);
        if maxFiles <= 0 {
          ReplacingIsRotating(l1.files);
        }
        assert Rotates(l1.files, Kept(maxFiles), rotated);
        return Reopen(l1, Kept(maxFiles), rotated, line);
      }
      return l1;
    }
  }
}

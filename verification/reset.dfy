/** The reset: for every shell in enumeration order, cut the lines the setup
    added out of the shell's configuration file and delete its setup script.
    A failed line removal aborts the reset; a failed deletion only leaves a
    note in the log. The deletion is made directly on the file system, not
    through the port, so it happens in the test port's mode as well. */
module Reset {
  import opened Wrappers
  import opened Text
  import opened Shells
  import opened Ports
  import opened SetupScript

  const Opening: string := "Resetting hey-cli setup for all shells..."
  const Completed: string := "Reset completed successfully"
  const OpenNewSessionForChanges: string := OpenNewSession + " for changes to take effect"

  const ZshSetupRelative: Path := ".config/zsh/functions/setup_hey_cli.zsh"
  const ZshrcRelative: Path := ".zshrc"
  const ZshFpathLine: string := "fpath=(~/.config/zsh/functions $fpath)"
  const ZshSourceLine: string := "source ~/" + ZshSetupRelative
  const ZshAutoloadLine: string := "autoload -Uz hey"

  /** The lines cut out of `.zshrc`, in the order they are cut. */
  const ZshLines: seq<string> := [ZshFpathLine, ZshSourceLine, ZshAutoloadLine]

  const CleanupPrefix: string := "Cleaning up "

  function CleaningUp(n: ShellName): string
  {
    CleanupPrefix + Name(n) + " shell configuration..."
  }

  function NoCleanupNeeded(n: ShellName): string
  {
    "No cleanup needed for " + Name(n) + " shell"
  }

  function CouldNotRemove(path: Path, kind: IoErrorKind): string
  {
    "Note: Could not remove setup file (" + path + "): " + IoErrorText(kind)
  }

  // ---------------------------------------------------------------------
  // The "Cleaning up" lines of a log
  // ---------------------------------------------------------------------

  /** The lines of `logs` that announce a shell's cleanup, in order. */
  function Cleanups(logs: seq<string>): seq<string>
  {
    if |logs| == 0 then []
    else
      var last := logs[|logs| - 1];
      Cleanups(logs[..|logs| - 1]) + (if StartsWith(last, CleanupPrefix) then [last] else [])
  }

  lemma CleanupsSnoc(logs: seq<string>, line: string)
    ensures Cleanups(logs + [line]) == Cleanups(logs) + (if StartsWith(line, CleanupPrefix) then [line] else [])
  {
    assert (logs + [line])[..|logs|] == logs;
  }

  /** A line that does not begin with `C` is not a cleanup announcement. */
  lemma NotAnnouncement(line: string)
    requires |line| > 0 && line[0] != 'C'
    ensures !StartsWith(line, CleanupPrefix)
  {
    if |CleanupPrefix| <= |line| {
      assert line[..|CleanupPrefix|][0] == line[0];
    }
  }

  /** Notes and "no cleanup" lines are not announcements. */
  lemma NotesAreNotAnnouncements(path: Path, kind: IoErrorKind, n: ShellName)
    ensures !StartsWith(CouldNotRemove(path, kind), CleanupPrefix)
    ensures !StartsWith(NoCleanupNeeded(n), CleanupPrefix)
  {
    var head := "Note: Could not remove setup file (";
    assert CouldNotRemove(path, kind)[0] == head[0];
    NotAnnouncement(CouldNotRemove(path, kind));
    var head' := "No cleanup needed for ";
    assert NoCleanupNeeded(n)[0] == head'[0];
    NotAnnouncement(NoCleanupNeeded(n));
  }

  /** The announcements for `shells`, in order. */
  function CleaningUpAll(shells: seq<ShellName>): (lines: seq<string>)
    ensures |lines| == |shells|
    ensures forall i | 0 <= i < |shells| :: lines[i] == CleaningUp(shells[i])
  {
    if |shells| == 0 then [] else [CleaningUp(shells[0])] + CleaningUpAll(shells[1..])
  }

  // ---------------------------------------------------------------------
  // Paths
  // ---------------------------------------------------------------------

  /** The files a shell's cleanup may change. */
  function CleanupPaths(home: Path, n: ShellName): set<Path>
  {
    match n
    case Fish => {JoinPath(home, FishConfigRelative), JoinPath(home, FishSetupRelative)}
    case Zsh => {JoinPath(home, ZshrcRelative), JoinPath(home, ZshSetupRelative)}
    case _ => {}
  }

  function AllCleanupPaths(home: Path, shells: seq<ShellName>): set<Path>
  {
    if |shells| == 0 then {} else CleanupPaths(home, shells[0]) + AllCleanupPaths(home, shells[1..])
  }

  /** The four paths the reset works on are pairwise different. */
  lemma ResetPathsDistinct(home: Path)
    ensures JoinPath(home, FishConfigRelative) != JoinPath(home, FishSetupRelative)
    ensures JoinPath(home, ZshrcRelative) != JoinPath(home, ZshSetupRelative)
    ensures JoinPath(home, FishConfigRelative) !in CleanupPaths(home, Zsh)
    ensures JoinPath(home, FishSetupRelative) !in CleanupPaths(home, Zsh)
  {
    SetupDistinctFromConfig(home);
    ZshPathsDistinct(home);
    FishRelativesAreNotZsh();
    JoinPathInjective(home, FishConfigRelative, ZshrcRelative);
    JoinPathInjective(home, FishConfigRelative, ZshSetupRelative);
    JoinPathInjective(home, FishSetupRelative, ZshrcRelative);
    JoinPathInjective(home, FishSetupRelative, ZshSetupRelative);
  }

  lemma FishRelativesAreNotZsh()
    ensures FishConfigRelative != ZshrcRelative && FishConfigRelative != ZshSetupRelative
    ensures FishSetupRelative != ZshrcRelative && FishSetupRelative != ZshSetupRelative
  {
    assert FishConfigRelative[1] != ZshrcRelative[1];
    assert FishConfigRelative[8] != ZshSetupRelative[8];
    assert FishSetupRelative[1] != ZshrcRelative[1];
    assert FishSetupRelative[8] != ZshSetupRelative[8];
  }

  // ---------------------------------------------------------------------
  // Cleanup steps
  // ---------------------------------------------------------------------

  /** The content left after cutting each of `lines` out in turn. */
  function RemoveEach(s: string, lines: seq<string>): (r: string)
    ensures |r| <= |s|
    decreases |lines|
  {
    if |lines| == 0 then s else RemoveEach(RemoveAll(s, lines[0]), lines[1..])
  }

  /** Content holding none of the lines is left as it is. */
  lemma {:induction false} RemoveEachAbsent(s: string, lines: seq<string>)
    requires forall k | 0 <= k < |lines| :: !Contains(s, lines[k])
    ensures RemoveEach(s, lines) == s
    decreases |lines|
  {
    if |lines| > 0 {
      assert !Contains(s, lines[0]);
      assert RemoveAll(s, lines[0]) == s;
      RemoveEachAbsent(s, lines[1..]);
    }
  }

  /** The loop over the lines to cut from one file: the first failure stops
      it; since every iteration writes the same file, only the first can
      fail. */
  function RemoveLines(p: Port, path: Path, lines: seq<string>): (r: Step<()>)
    ensures r.port.logs == p.logs && r.port.finalPrompt == p.finalPrompt && r.port.mode == p.mode
    ensures FramedBy(p.fs, r.port.fs, {path})
    ensures p.mode.Recording? || |lines| == 0 ==> r == Step(p, Ok(()))
    ensures p.mode.Production? && |lines| > 0 ==>
      (r.result.Ok? <==> path !in p.fs.readOnly)
    ensures r.result.Err? ==> r.port == p && r.result.error == Io(path, PermissionDenied)
    ensures p.mode.Production? && |lines| > 0 && r.result.Ok? ==>
      path in r.port.fs.files && r.port.fs.files[path] == RemoveEach(ContentOrEmpty(p.fs, path), lines)
    decreases |lines|
  {
    if |lines| == 0 then Step(p, Ok(()))
    else
      var s := RemoveMatchesFromFile(p, path, lines[0]);
      if s.result.Err? then s
      else RemoveLines(s.port, path, lines[1..])
  }

  /** `std::fs::remove_file` of a setup script, logging a note when it fails. */
  function DeleteSetupFile(p: Port, path: Path): (r: Port)
    ensures r.finalPrompt == p.finalPrompt && r.mode == p.mode
    ensures FramedBy(p.fs, r.fs, {path})
    ensures path in r.fs.files <==> path in p.fs.files && path in p.fs.readOnly
    ensures path in r.fs.files ==> r.fs.files[path] == p.fs.files[path]
    ensures r.logs == p.logs <==> path in p.fs.files && path !in p.fs.readOnly
    ensures r.logs != p.logs ==>
      r.logs == p.logs + [CouldNotRemove(path, if path in p.fs.files then PermissionDenied else NotFound)]
    ensures Cleanups(r.logs) == Cleanups(p.logs)
  {
    match DeleteFile(p.fs, path)
    case Ok(fs) => p.(fs := fs)
    case Err(kind) =>
      NotesAreNotAnnouncements(path, kind, Fish);
      NoteKeepsCleanups(p.logs, CouldNotRemove(path, kind));
      Log(p, CouldNotRemove(path, kind))
  }

  /** A fish or zsh cleanup: cut the lines out of the configuration file,
      then delete the setup script. */
  function CleanConfig(p: Port, config: Path, lines: seq<string>, setup: Path): (r: Step<()>)
    requires config != setup && |lines| > 0
    ensures r.port.finalPrompt == p.finalPrompt && r.port.mode == p.mode
    ensures FramedBy(p.fs, r.port.fs, {config, setup})
    ensures p.mode.Recording? ==> r.result.Ok? && Unchanged(p.fs, r.port.fs, config)
    ensures p.mode.Production? ==> (r.result.Ok? <==> config !in p.fs.readOnly)
    ensures r.result.Err? ==> r.port == p
    ensures |p.logs| <= |r.port.logs| <= |p.logs| + 1 && r.port.logs[..|p.logs|] == p.logs
    ensures Cleanups(r.port.logs) == Cleanups(p.logs)
    ensures p.mode.Production? && r.result.Ok? ==>
      config in r.port.fs.files && r.port.fs.files[config] == RemoveEach(ContentOrEmpty(p.fs, config), lines)
    ensures r.result.Ok? ==>
      && (setup in r.port.fs.files <==> setup in p.fs.files && setup in p.fs.readOnly)
      && (r.port.logs == p.logs <==> setup in p.fs.files && setup !in p.fs.readOnly)
      && (r.port.logs != p.logs ==>
            r.port.logs == p.logs + [CouldNotRemove(setup, if setup in p.fs.files then PermissionDenied else NotFound)])
  {
    var s := RemoveLines(p, config, lines);
    if s.result.Err? then s
    else
      assert Unchanged(p.fs, s.port.fs, setup);
      Step(DeleteSetupFile(s.port, setup), Ok(()))
  }

  /** Whether a shell's cleanup can succeed: its line removals need its
      configuration file to be writable, unless the port only records. */
  predicate CanClean(p: Port, home: Path, n: ShellName)
  {
    || p.mode.Recording?
    || ((n == Fish ==> JoinPath(home, FishConfigRelative) !in p.fs.readOnly)
        && (n == Zsh ==> JoinPath(home, ZshrcRelative) !in p.fs.readOnly))
  }

  /** One iteration of the reset loop: announce the shell, then clean it. */
  function CleanShell(p: Port, home: Path, n: ShellName): (r: Step<()>)
    ensures r.port.finalPrompt == p.finalPrompt && r.port.mode == p.mode
    ensures |p.logs| < |r.port.logs| && r.port.logs[..|p.logs| + 1] == p.logs + [CleaningUp(n)]
    ensures Cleanups(r.port.logs) == Cleanups(p.logs) + [CleaningUp(n)]
    ensures FramedBy(p.fs, r.port.fs, CleanupPaths(home, n))
    ensures r.result.Ok? <==> CanClean(p, home, n)
  {
    var p1 := Log(p, CleaningUp(n));
    CleanupsSnoc(p.logs, CleaningUp(n));
    assert StartsWith(CleaningUp(n), CleanupPrefix);
    SetupDistinctFromConfig(home);
    ZshPathsDistinct(home);
    var r := match n
      case Fish => CleanConfig(p1, JoinPath(home, FishConfigRelative), [FishSourceLine], JoinPath(home, FishSetupRelative))
      case Zsh => CleanConfig(p1, JoinPath(home, ZshrcRelative), ZshLines, JoinPath(home, ZshSetupRelative))
      case _ => NothingToClean(p1, n);
    assert r.port.logs[..|p.logs| + 1] == r.port.logs[..|p1.logs|];
    r
  }

  /** Bash and PowerShell have no setup files: their cleanup only says so. */
  function NothingToClean(p: Port, n: ShellName): (r: Step<()>)
    ensures r.result.Ok? && r.port.fs == p.fs && r.port.finalPrompt == p.finalPrompt && r.port.mode == p.mode
    ensures r.port.logs == p.logs + [NoCleanupNeeded(n)]
    ensures Cleanups(r.port.logs) == Cleanups(p.logs)
  {
    NotesAreNotAnnouncements("", NotFound, n);
    CleanupsSnoc(p.logs, NoCleanupNeeded(n));
    Step(Log(p, NoCleanupNeeded(n)), Ok(()))
  }

  /** A cleanup of bash or PowerShell touches no file and succeeds. */
  lemma NoFilesForOtherShells(p: Port, home: Path, n: ShellName)
    requires n != Fish && n != Zsh
    ensures CleanShell(p, home, n) == Step(Log(Log(p, CleaningUp(n)), NoCleanupNeeded(n)), Ok(()))
  {
  }

  lemma ZshPathsDistinct(home: Path)
    ensures JoinPath(home, ZshrcRelative) != JoinPath(home, ZshSetupRelative)
  {
    assert ZshrcRelative[1] != ZshSetupRelative[1];
    JoinPathInjective(home, ZshrcRelative, ZshSetupRelative);
  }

  /** A line that is not an announcement leaves the announcements as they
      were. */
  lemma NoteKeepsCleanups(before: seq<string>, note: string)
    requires !StartsWith(note, CleanupPrefix)
    ensures Cleanups(before + [note]) == Cleanups(before)
  {
    CleanupsSnoc(before, note);
  }

  /** The reset loop over `shells`; the first failed cleanup stops it. */
  function CleanShells(p: Port, home: Path, shells: seq<ShellName>): (r: Step<()>)
    ensures r.port.finalPrompt == p.finalPrompt && r.port.mode == p.mode
    ensures |p.logs| <= |r.port.logs| && r.port.logs[..|p.logs|] == p.logs
    ensures FramedBy(p.fs, r.port.fs, AllCleanupPaths(home, shells))
    ensures r.result.Ok? <==> forall k | 0 <= k < |shells| :: CanClean(p, home, shells[k])
    ensures r.result.Ok? ==> Cleanups(r.port.logs) == Cleanups(p.logs) + CleaningUpAll(shells)
    decreases |shells|
  {
    if |shells| == 0 then Step(p, Ok(()))
    else
      var s := CleanShell(p, home, shells[0]);
      if s.result.Err? then
        assert !CanClean(p, home, shells[0]);
        s
      else
        var r := CleanShells(s.port, home, shells[1..]);
        PrefixTrans(p.logs, s.port.logs, r.port.logs);
        FramedTrans(p.fs, s.port.fs, r.port.fs, CleanupPaths(home, shells[0]), AllCleanupPaths(home, shells[1..]));
        CanCleanShift(p, s.port, home, shells);
        if r.result.Ok? then
          AnnouncementsShift(Cleanups(p.logs), Cleanups(s.port.logs), Cleanups(r.port.logs), shells);
          r
        else r
  }

  /** Once the first shell can be cleaned, the loop's success over the rest
      is its success over all. */
  lemma CanCleanShift(p: Port, q: Port, home: Path, shells: seq<ShellName>)
    requires |shells| > 0 && CanClean(p, home, shells[0])
    requires q.mode == p.mode && q.fs.readOnly == p.fs.readOnly
    ensures (forall k | 0 <= k < |shells[1..]| :: CanClean(q, home, shells[1..][k]))
        <==> (forall k | 0 <= k < |shells| :: CanClean(p, home, shells[k]))
  {
    if forall k | 0 <= k < |shells[1..]| :: CanClean(q, home, shells[1..][k]) {
      forall k | 0 <= k < |shells| ensures CanClean(p, home, shells[k]) {
        if k > 0 {
          assert shells[k] == shells[1..][k - 1];
          assert CanClean(q, home, shells[1..][k - 1]);
        }
      }
    }
  }

  lemma AnnouncementsShift(a: seq<string>, b: seq<string>, c: seq<string>, shells: seq<ShellName>)
    requires |shells| > 0
    requires b == a + [CleaningUp(shells[0])]
    requires c == b + CleaningUpAll(shells[1..])
    ensures c == a + CleaningUpAll(shells)
  {
    var x, rest := [CleaningUp(shells[0])], CleaningUpAll(shells[1..]);
    assert CleaningUpAll(shells) == x + rest;
    AppendAssoc(a, x, rest);
  }

  lemma SnocTwice(a: seq<string>, x: string, y: string)
    ensures a + [x] + [y] == a + [x, y]
  {
  }

  lemma AppendAssoc(a: seq<string>, b: seq<string>, c: seq<string>)
    ensures (a + b) + c == a + (b + c)
  {
  }

  /** `Reset::next`: the opening line, then the loop over every shell in
      enumeration order, then, if every cleanup went through, the two
      closing lines. Without a home directory nothing is cleaned. */
  function Next(p: Port, home: Option<Path>): (r: Step<()>)
    ensures r.port.finalPrompt == p.finalPrompt && r.port.mode == p.mode
    ensures |p.logs| < |r.port.logs| && r.port.logs[..|p.logs| + 1] == p.logs + [Opening]
    ensures home.None? ==> r == Step(Log(p, Opening), Err(Msg(NoHomeDirectory)))
  {
    var p1 := Log(p, Opening);
    match home
    case None => Step(p1, Err(Msg(NoHomeDirectory)))
    case Some(h) =>
      var s := CleanShells(p1, h, AllShells);
      var r := Conclude(s);
      PrefixTrans(p1.logs, s.port.logs, r.port.logs);
      assert p1.logs == p.logs + [Opening];
      PrefixTrans(p.logs + [Opening], p1.logs, r.port.logs);
      r
  }

  /** The reset changes no file but the configuration files and setup
      scripts of the shells. */
  lemma ResetFrames(p: Port, home: Path)
    ensures FramedBy(p.fs, Next(p, Some(home)).port.fs, AllCleanupPaths(home, AllShells))
  {
  }

  /** The reset completes exactly when every shell's cleanup can succeed. */
  lemma ResetSucceedsIff(p: Port, home: Path)
    ensures Next(p, Some(home)).result.Ok? <==> forall n: ShellName :: CanClean(p, home, n)
  {
    var p1 := Log(p, Opening);
    var s := CleanShells(p1, home, AllShells);
    assert Next(p, Some(home)).result == s.result;
    CanCleanEveryShell(p1, home);
    assert forall n: ShellName :: CanClean(p1, home, n) == CanClean(p, home, n);
  }

  lemma CanCleanEveryShell(p: Port, home: Path)
    ensures (forall k | 0 <= k < |AllShells| :: CanClean(p, home, AllShells[k]))
        <==> forall n: ShellName :: CanClean(p, home, n)
  {
    AllShellsEnumerates();
    if forall k | 0 <= k < |AllShells| :: CanClean(p, home, AllShells[k]) {
      forall n: ShellName ensures CanClean(p, home, n) {
        var k :| 0 <= k < |AllShells| && AllShells[k] == n;
      }
    }
  }

  /** A completed reset announced every shell, in enumeration order, and
      ended with the two closing lines. */
  lemma ResetAnnouncesEveryShell(p: Port, home: Path)
    requires Next(p, Some(home)).result.Ok?
    ensures var logs := Next(p, Some(home)).port.logs;
      && |logs| >= |p.logs| + 2
      && logs[|logs| - 2..] == [Completed, OpenNewSessionForChanges]
      && Cleanups(logs) == Cleanups(p.logs) + [CleaningUp(Fish), CleaningUp(Bash), CleaningUp(Zsh), CleaningUp(PowerShell)]
  {
    var p1 := Log(p, Opening);
    FramingLinesKeepAnnouncements(p.logs, []);
    AllAnnouncements();
  }

  /** The end of the reset: a completed loop is followed by the two closing
      lines; a failed one is passed on as it is. */
  function Conclude(s: Step<()>): (r: Step<()>)
    ensures r.result == s.result
    ensures r.port.fs == s.port.fs && r.port.finalPrompt == s.port.finalPrompt && r.port.mode == s.port.mode
    ensures |s.port.logs| <= |r.port.logs| && r.port.logs[..|s.port.logs|] == s.port.logs
    ensures s.result.Err? ==> r == s
    ensures s.result.Ok? ==>
      && r.port.logs == s.port.logs + [Completed, OpenNewSessionForChanges]
      && Cleanups(r.port.logs) == Cleanups(s.port.logs)
  {
    if s.result.Err? then s
    else
      FramingLinesKeepAnnouncements([], s.port.logs);
      SnocTwice(s.port.logs, Completed, OpenNewSessionForChanges);
      Step(Log(Log(s.port, Completed), OpenNewSessionForChanges), s.result)
  }

  /** The opening and closing lines of the reset are not announcements. */
  lemma FramingLinesKeepAnnouncements(before: seq<string>, after: seq<string>)
    ensures Cleanups(before + [Opening]) == Cleanups(before)
    ensures Cleanups(after + [Completed, OpenNewSessionForChanges]) == Cleanups(after)
  {
    NotAnnouncement(Opening);
    NoteKeepsCleanups(before, Opening);
    NotAnnouncement(Completed);
    NoteKeepsCleanups(after, Completed);
    assert OpenNewSessionForChanges[0] == OpenNewSession[0] == 'P';
    NotAnnouncement(OpenNewSessionForChanges);
    NoteKeepsCleanups(after + [Completed], OpenNewSessionForChanges);
    SnocTwice(after, Completed, OpenNewSessionForChanges);
  }

  /** The reset announces every shell, in enumeration order. */
  lemma AllAnnouncements()
    ensures CleaningUpAll(AllShells) ==
      [CleaningUp(Fish), CleaningUp(Bash), CleaningUp(Zsh), CleaningUp(PowerShell)]
  {
    var all := AllShells;
    assert all[1..] == [Bash, Zsh, PowerShell] && all[1..][1..] == [Zsh, PowerShell];
    assert all[1..][1..][1..] == [PowerShell] && all[1..][1..][1..][1..] == [];
  }

  // ---------------------------------------------------------------------
  // Reset undoes the fish install
  // ---------------------------------------------------------------------

  /** Cutting the source line out of a config the install appended it to
      gives the config back. */
  lemma CutAppendedSourceLine(before: string)
    requires EndsWith(before, "\n") && !Contains(before, FishSourceLine)
    ensures RemoveEach(before + FishSourceLine, [FishSourceLine]) == before
  {
    NewlineOutsideSourceLine();
    assert before[|before| - 1] == '\n';
    SplitAppendedPattern(before, FishSourceLine);
    assert [FishSourceLine][1..] == [];
  }

  /** The fish cleanup on a config the install wrote. */
  lemma FishCleanupRestores(p: Port, home: Path, before: string)
    requires p.mode.Production?
    requires EndsWith(before, "\n") && !Contains(before, FishSourceLine)
    requires JoinPath(home, FishConfigRelative) in p.fs.files
    requires p.fs.files[JoinPath(home, FishConfigRelative)] == before + FishSourceLine
    requires JoinPath(home, FishConfigRelative) !in p.fs.readOnly
    requires JoinPath(home, FishSetupRelative) !in p.fs.readOnly
    ensures var s := CleanShell(p, home, Fish);
      && s.result.Ok?
      && JoinPath(home, FishConfigRelative) in s.port.fs.files
      && s.port.fs.files[JoinPath(home, FishConfigRelative)] == before
      && JoinPath(home, FishSetupRelative) !in s.port.fs.files
  {
    var config := JoinPath(home, FishConfigRelative);
    var setup := JoinPath(home, FishSetupRelative);
    SetupDistinctFromConfig(home);
    CutAppendedSourceLine(before);
    var p1 := Log(p, CleaningUp(Fish));
    assert CleanShell(p, home, Fish) == CleanConfig(p1, config, [FishSourceLine], setup);
  }

  /** A reset on a config holding the source line the install appended
      gives back the config before the line and removes the script. */
  lemma ResetCutsFishInstall(q: Port, home: Path, before: string)
    requires q.mode.Production?
    requires EndsWith(before, "\n") && !Contains(before, FishSourceLine)
    requires JoinPath(home, FishConfigRelative) in q.fs.files
    requires q.fs.files[JoinPath(home, FishConfigRelative)] == before + FishSourceLine
    requires JoinPath(home, FishConfigRelative) !in q.fs.readOnly
    requires JoinPath(home, FishSetupRelative) !in q.fs.readOnly
    ensures var r := Next(q, Some(home)).port.fs.files;
      && JoinPath(home, FishConfigRelative) in r
      && r[JoinPath(home, FishConfigRelative)] == before
      && JoinPath(home, FishSetupRelative) !in r
  {
    var config := JoinPath(home, FishConfigRelative);
    var setup := JoinPath(home, FishSetupRelative);
    var p1 := Log(q, Opening);
    FishCleanupRestores(p1, home, before);
    var s1 := CleanShell(p1, home, Fish);
    var rest := CleanShells(s1.port, home, AllShells[1..]);
    assert CleanShells(p1, home, AllShells) == rest;
    assert Next(q, Some(home)).port.fs == rest.port.fs;
    LaterShellsSpareFish(home);
    assert Unchanged(s1.port.fs, rest.port.fs, config) && Unchanged(s1.port.fs, rest.port.fs, setup);
  }

  /** The shells cleaned after fish never touch fish's files. */
  lemma LaterShellsSpareFish(home: Path)
    ensures JoinPath(home, FishConfigRelative) !in AllCleanupPaths(home, AllShells[1..])
    ensures JoinPath(home, FishSetupRelative) !in AllCleanupPaths(home, AllShells[1..])
  {
    var later := AllShells[1..];
    assert later == [Bash, Zsh, PowerShell];
    assert later[1..] == [Zsh, PowerShell] && later[1..][1..] == [PowerShell] && later[1..][1..][1..] == [];
    var zsh := AllCleanupPaths(home, later[1..]);
    assert zsh == CleanupPaths(home, Zsh) + AllCleanupPaths(home, [PowerShell]);
    assert AllCleanupPaths(home, [PowerShell]) == {};
    ResetPathsDistinct(home);
  }

  /** Installing the fish setup on a config that ends with a newline and has
      no source line, then resetting, gives the config back as it was and
      leaves no setup script behind, whatever happens to the other shells. */
  lemma InstallThenResetRestoresFish(p: Port, home: Path, asset: string)
    requires p.mode.Production?
    requires JoinPath(home, FishConfigRelative) in p.fs.files
    requires EndsWith(p.fs.files[JoinPath(home, FishConfigRelative)], "\n")
    requires !Contains(p.fs.files[JoinPath(home, FishConfigRelative)], FishSourceLine)
    requires InstallFish(p, Some(home), asset).result.Ok?
    ensures var r := Next(InstallFish(p, Some(home), asset).port, Some(home)).port.fs.files;
      && JoinPath(home, FishConfigRelative) in r
      && r[JoinPath(home, FishConfigRelative)] == p.fs.files[JoinPath(home, FishConfigRelative)]
      && JoinPath(home, FishSetupRelative) !in r
  {
    var before := p.fs.files[JoinPath(home, FishConfigRelative)];
    InstallOnCleanConfig(before);
    ResetCutsFishInstall(InstallFish(p, Some(home), asset).port, home, before);
  }
}

/** The setup-script installer. Only fish is supported: its script is written
    to the fish functions directory and `config.fish` is made to source it
    on a line of its own, exactly once. Every other shell is refused. */
module SetupScript {
  import opened Wrappers
  import opened Text
  import opened Shells
  import opened Ports
  import opened WhatToDo

  const FishSetupRelative: Path := ".config/fish/functions/setup_hey_cli.fish"
  const FishConfigRelative: Path := ".config/fish/config.fish"

  /** The line `config.fish` sources the setup script with. */
  const FishSourceLine: string := "source ~/" + FishSetupRelative

  const Installed: string := "Setup script installed successfully"
  const OpenNewSession: string := "Please open new terminal session"

  function InstallingFor(n: ShellName): string
  {
    "Installing setup script for shell: " + Name(n)
  }

  function NotSupported(n: ShellName): string
  {
    Name(n) + " shell is not yet supported"
  }

  /** The shell to install for: the one given, else what detection reports. */
  function ChosenShell(st: SetupScriptState, env: Env): (r: Result<ShellName, Error>)
    ensures st.shell.Some? ==> r == Ok(st.shell.value)
    ensures st.shell.None? ==> r == env.detected
  {
    match st.shell
    case Some(n) => Ok(n)
    case None => env.detected
  }

  /** `config.fish` after the install: the old source lines cut out, then
      the source line appended on a fresh line. */
  function ConfigAfterInstall(before: string): (after: string)
    ensures StartsWith(after, RemoveAll(before, FishSourceLine))
    ensures EndsWith(after, FishSourceLine)
    ensures EndsWith(after[..|after| - |FishSourceLine|], "\n")
  {
    var kept := RemoveAll(before, FishSourceLine);
    var sep := if EndsWith(kept, "\n") then "" else "\n";
    assert (kept + sep + FishSourceLine)[..|kept + sep|] == kept + sep;
    kept + sep + FishSourceLine
  }

  /** The three file effects of the fish install, in order: overwrite the
      setup file with the asset, cut the source line out of `config.fish`,
      append it again. The first failure stops the sequence. */
  function InstallFish(p: Port, home: Option<Path>, asset: string): (r: Step<()>)
    ensures r.port.logs == p.logs && r.port.finalPrompt == p.finalPrompt && r.port.mode == p.mode
    ensures home.None? ==> r == Step(p, Err(Msg(NoHomeDirectory)))
    ensures p.mode.Recording? ==> r.port == p
    ensures p.mode.Production? && home.Some? ==>
      var setup := JoinPath(home.value, FishSetupRelative);
      var config := JoinPath(home.value, FishConfigRelative);
      && FramedBy(p.fs, r.port.fs, {setup, config})
      && (r.result.Ok? <==> setup !in p.fs.readOnly && config !in p.fs.readOnly)
      && (r.result.Ok? ==>
            && setup in r.port.fs.files && r.port.fs.files[setup] == asset
            && config in r.port.fs.files
            && r.port.fs.files[config] == ConfigAfterInstall(ContentOrEmpty(p.fs, config)))
  {
    match home
    case None => Step(p, Err(Msg(NoHomeDirectory)))
    case Some(h) =>
      var setup := JoinPath(h, FishSetupRelative);
      var config := JoinPath(h, FishConfigRelative);
      var s1 := OverwriteFile(p, setup, asset);
      if s1.result.Err? then s1
      else
        var s2 := RemoveMatchesFromFile(s1.port, config, FishSourceLine);
        if s2.result.Err? then s2
        else
          if p.mode.Production? then
            SetupDistinctFromConfig(h);
            assert setup != config;
            AppendToFile(s2.port, config, FishSourceLine)
          else
            AppendToFile(s2.port, config, FishSourceLine)
  }

  lemma SetupDistinctFromConfig(home: Path)
    ensures JoinPath(home, FishSetupRelative) != JoinPath(home, FishConfigRelative)
  {
    assert FishSetupRelative[13] != FishConfigRelative[13];
    JoinPathInjective(home, FishSetupRelative, FishConfigRelative);
  }

  /** `SetupScript::next`. A shell that cannot be chosen fails with nothing
      logged; a shell other than fish (zsh included) is announced and
      refused with no file effect and no success line. The final prompt is
      never touched. The fish install is stated by `NextInstallsFish`. */
  function Next(p: Port, st: SetupScriptState, env: Env): (r: Step<()>)
    ensures r.port.finalPrompt == p.finalPrompt && r.port.mode == p.mode
    ensures ChosenShell(st, env).Err? ==> r == Step(p, Err(ChosenShell(st, env).error))
    ensures ChosenShell(st, env).Ok? && ChosenShell(st, env).value != Fish ==>
      var n := ChosenShell(st, env).value;
      r == Step(Log(p, InstallingFor(n)), Err(Msg(NotSupported(n))))
  {
    match ChosenShell(st, env)
    case Err(e) => Step(p, Err(e))
    case Ok(n) =>
      var p1 := Log(p, InstallingFor(n));
      if n != Fish then Step(p1, Err(Msg(NotSupported(n))))
      else InstallAndReport(p1, env)
  }

  /** For fish, the announcement is followed by the install, whose file
      effects and outcome are those of the bare install; a completed install
      ends with the two success lines, a failed one logs nothing more. */
  lemma NextInstallsFish(p: Port, st: SetupScriptState, env: Env)
    requires ChosenShell(st, env) == Ok(Fish)
    ensures var r, install := Next(p, st, env), InstallFish(p, env.home, env.assets.fish);
      && r.result == install.result
      && r.port.fs == install.port.fs
      && (r.result.Ok? ==> r.port.logs == p.logs + [InstallingFor(Fish), Installed, OpenNewSession])
      && (r.result.Err? ==> r.port.logs == p.logs + [InstallingFor(Fish)])
  {
    var p1 := Log(p, InstallingFor(Fish));
    InstallIgnoresLogs(p, InstallingFor(Fish), env.home, env.assets.fish);
    assert p1.logs + [Installed, OpenNewSession] == p.logs + [InstallingFor(Fish), Installed, OpenNewSession];
  }

  /** Whenever a shell is chosen, it is announced before anything else is
      logged. */
  lemma NextAnnouncesShell(p: Port, st: SetupScriptState, env: Env)
    requires ChosenShell(st, env).Ok?
    ensures var r, n := Next(p, st, env), ChosenShell(st, env).value;
      && |r.port.logs| > |p.logs|
      && r.port.logs[..|p.logs| + 1] == p.logs + [InstallingFor(n)]
  {
    var n := ChosenShell(st, env).value;
    var announced := p.logs + [InstallingFor(n)];
    if n == Fish {
      NextInstallsFish(p, st, env);
      var full := announced + [Installed, OpenNewSession];
      assert full == p.logs + [InstallingFor(Fish), Installed, OpenNewSession];
      assert full[..|p.logs| + 1] == announced;
    } else {
      assert announced[..|p.logs| + 1] == announced;
    }
  }

  /** The fish install followed, when it succeeds, by the two success lines. */
  function InstallAndReport(p: Port, env: Env): (r: Step<()>)
    ensures r.port.finalPrompt == p.finalPrompt && r.port.mode == p.mode
    ensures r.result == InstallFish(p, env.home, env.assets.fish).result
    ensures r.port.fs == InstallFish(p, env.home, env.assets.fish).port.fs
    ensures r.result.Ok? ==> r.port.logs == p.logs + [Installed, OpenNewSession]
    ensures r.result.Err? ==> r.port.logs == p.logs
  {
    var s := InstallFish(p, env.home, env.assets.fish);
    if s.result.Err? then s
    else Step(Log(Log(s.port, Installed), OpenNewSession), Ok(()))
  }

  /** Through the recording port, with a home directory, the fish install
      succeeds and changes nothing. */
  lemma RecordingInstallSucceeds(p: Port, home: Path, asset: string)
    requires p.mode.Recording?
    ensures InstallFish(p, Some(home), asset) == Step(p, Ok(()))
  {
  }

  /** The install's file effects do not depend on the log. */
  lemma InstallIgnoresLogs(p: Port, message: string, home: Option<Path>, asset: string)
    ensures InstallFish(Log(p, message), home, asset).port.fs == InstallFish(p, home, asset).port.fs
    ensures InstallFish(Log(p, message), home, asset).result == InstallFish(p, home, asset).result
  {
  }

  /** After a fish install, `config.fish` holds the source line exactly once,
      at its end, provided cutting the old source lines out did not itself
      leave one behind (cutting is not idempotent in general). */
  lemma {:induction false} InstallLeavesOneSourceLine(before: string)
    requires !Contains(RemoveAll(before, FishSourceLine), FishSourceLine)
    ensures Count(ConfigAfterInstall(before), FishSourceLine) == 1
    ensures RemoveAll(ConfigAfterInstall(before), FishSourceLine) == RemoveAll(before, FishSourceLine) + (if EndsWith(RemoveAll(before, FishSourceLine), "\n") then "" else "\n")
  {
    var kept := RemoveAll(before, FishSourceLine);
    var a := kept + (if EndsWith(kept, "\n") then "" else "\n");
    NewlineOutsideSourceLine();
    if EndsWith(kept, "\n") {
      assert a == kept;
    } else {
      AppendForeignChar(kept, '\n', FishSourceLine);
    }
    assert a[|a| - 1] == '\n';
    SplitAppendedPattern(a, FishSourceLine);
  }

  lemma NewlineOutsideSourceLine()
    ensures '\n' !in FishSourceLine && |FishSourceLine| > 0
  {
    assert '\n' !in "source ~/";
    assert '\n' !in FishSetupRelative;
  }

  /** Installing again changes nothing: the second run cuts out the one
      source line the first wrote and writes it back. */
  lemma {:induction false} ReinstallKeepsConfig(before: string)
    requires !Contains(RemoveAll(before, FishSourceLine), FishSourceLine)
    ensures ConfigAfterInstall(ConfigAfterInstall(before)) == ConfigAfterInstall(before)
  {
    var kept := RemoveAll(before, FishSourceLine);
    var a := kept + (if EndsWith(kept, "\n") then "" else "\n");
    InstallLeavesOneSourceLine(before);
    assert RemoveAll(ConfigAfterInstall(before), FishSourceLine) == a;
    assert EndsWith(a, "\n");
  }

  /** On a config that already ends with a newline and has no source line,
      the install only appends the line. */
  lemma InstallOnCleanConfig(before: string)
    requires EndsWith(before, "\n") && !Contains(before, FishSourceLine)
    ensures ConfigAfterInstall(before) == before + FishSourceLine
  {
  }

  /** A production fish install that succeeds and is run again on its own
      result leaves every file as the first run left it. */
  lemma InstallTwiceSameFiles(p: Port, home: Path, asset: string)
    requires p.mode.Production?
    requires !Contains(RemoveAll(ContentOrEmpty(p.fs, JoinPath(home, FishConfigRelative)), FishSourceLine), FishSourceLine)
    requires InstallFish(p, Some(home), asset).result.Ok?
    ensures var once := InstallFish(p, Some(home), asset).port;
      InstallFish(once, Some(home), asset) == Step(once, Ok(()))
  {
    var setup := JoinPath(home, FishSetupRelative);
    var config := JoinPath(home, FishConfigRelative);
    var once := InstallFish(p, Some(home), asset).port;
    var files := once.fs.files;
    assert setup !in once.fs.readOnly && config !in once.fs.readOnly;
    var before := ContentOrEmpty(p.fs, config);
    var kept := RemoveAll(before, FishSourceLine);
    var a := kept + (if EndsWith(kept, "\n") then "" else "\n");
    ReinstallKeepsConfig(before);
    InstallLeavesOneSourceLine(before);
    assert files[config] == a + FishSourceLine;
    assert EndsWith(a, "\n");

    var s1 := OverwriteFile(once, setup, asset);
    assert setup in files && files[setup] == asset;
    UpdateSame(files, setup, asset);
    assert s1 == Step(once, Ok(()));
    var s2 := RemoveMatchesFromFile(once, config, FishSourceLine);
    assert s2 == Step(once.(fs := once.fs.(files := files[config := a])), Ok(()));
    var s3 := AppendToFile(s2.port, config, FishSourceLine);
    UpdateTwice(files, config, a, a + FishSourceLine);
    UpdateSame(files, config, a + FishSourceLine);
    assert s3 == Step(once, Ok(()));
  }
}

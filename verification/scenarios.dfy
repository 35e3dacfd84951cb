/** Whole runs through the recording port, one per end-to-end scenario of the
    command: the version flag, a served ask, the two rejected asks, and the
    installer reached with an outdated or a missing setup. The recording
    port answers an ask with `echo "<ask>"` and changes no file. */
module Scenarios {
  import opened Wrappers
  import opened Text
  import opened Shells
  import opened Ports
  import opened WhatToDo
  import ParseArgs
  import CheckSetup
  import SetupScript
  import CheckAsk
  import Cli

  /** The positional words of the served ask. */
  const PrintWorkingDirectory: seq<string> := ["print", "working", "directory"]

  /** The flags of a normal run that reports fish at `setupVersion`. */
  function FishAsk(setupVersion: string, words: seq<string>): ParseArgs.Args
  {
    ParseArgs.NoArgs.(shellName := Some("fish"), setupVersion := Some(setupVersion), ask := words)
  }

  /** The version flag without a complete shell report prints one line. */
  lemma VersionFlagAlone(env: Env, fs: FileSystem, server: Server, shellName: Option<string>, setupVersion: Option<string>)
    requires shellName.None? || setupVersion.None?
    ensures var a := ParseArgs.NoArgs.(version := true, shellName := shellName, setupVersion := setupVersion);
      var r := Cli.Run(a, NewPort(Recording, fs), env, server);
      && r.result == Ok(())
      && ToStdout(r.port) == "hey-cli " + env.cliVersion
  {
    var a := ParseArgs.NoArgs.(version := true, shellName := shellName, setupVersion := setupVersion);
    Cli.RunVersion(a, NewPort(Recording, fs), env, server);
  }

  /** With a shell name and a setup version, a second line shows both. */
  lemma VersionFlagWithShell(env: Env, fs: FileSystem, server: Server)
    ensures var a := ParseArgs.NoArgs.(version := true, shellName := Some("fish"), setupVersion := Some("1.0.0"));
      var r := Cli.Run(a, NewPort(Recording, fs), env, server);
      && r.result == Ok(())
      && ToStdout(r.port) == "hey-cli " + env.cliVersion + "\n" + "setup-script fish@1.0.0"
  {
    var a := ParseArgs.NoArgs.(version := true, shellName := Some("fish"), setupVersion := Some("1.0.0"));
    Cli.RunVersion(a, NewPort(Recording, fs), env, server);
    var second := "setup-script " + ("fish" + "@" + "1.0.0");
    SecondVersionLine(second);
    TwoLines("hey-cli " + env.cliVersion, second);
  }

  lemma SecondVersionLine(line: string)
    requires line == "setup-script " + ("fish" + "@" + "1.0.0")
    ensures line == "setup-script fish@1.0.0"
  {
  }

  lemma TwoLines(first: string, second: string)
    ensures Join([first, second], "\n") == first + "\n" + second
  {
    assert [first, second][1..] == [second];
  }

  /** The fish flags report fish at the given version and take the normal
      flow. */
  lemma FishAskReportsFish(setupVersion: string, words: seq<string>)
    ensures ParseArgs.ReportedShell(FishAsk(setupVersion, words)) == Ok(Some(Shell(setupVersion, Fish)))
    ensures Cli.NormalFlow(FishAsk(setupVersion, words))
  {
  }

  /** With the fish asset at version 0.1.0, the fish flags at 0.1.0 go
      straight to the ask path. */
  lemma UpToDateFishAsk(env: Env, p: Port, server: Server, words: seq<string>)
    requires FishSetupVersion(env.assets.fish) == Ok("0.1.0")
    ensures Cli.Run(FishAsk("0.1.0", words), p, env, server)
         == Cli.AskFlow(p, CheckAskState(Join(words, " ")), server)
  {
    var a := FishAsk("0.1.0", words);
    FishAskReportsFish("0.1.0", words);
    assert Cli.UpToDate(CheckSetupState(Some(Shell("0.1.0", Fish)), Join(words, " ")), env.assets);
    Cli.RunServesUpToDateAsk(a, p, env, server);
  }

  /** An up-to-date fish setup and a valid ask: nothing is logged, no file
      changes, and the printed text is the sentinel line followed by the
      echoed ask. */
  lemma ServedAsk(env: Env, fs: FileSystem, server: Server, words: seq<string>, ask: string)
    requires FishSetupVersion(env.assets.fish) == Ok("0.1.0")
    requires Join(words, " ") == ask
    requires '\n' !in ask && Utf8Length(ask) <= CheckAsk.MaxAskLength
    ensures var r := Cli.Run(FishAsk("0.1.0", words), NewPort(Recording, fs), env, server);
      && r.result == Ok(())
      && r.port.fs == fs
      && ToStdout(r.port) == "\n" + PromptSentinel + "\n" + EchoPrompt(ask)
  {
    var p := NewPort(Recording, fs);
    UpToDateFishAsk(env, p, server, words);
    var r := Cli.AskFlow(p, CheckAskState(ask), server);
    assert r.port.logs == [] && r.port.finalPrompt == Some(EchoPrompt(ask));
    assert ToStdout(r.port) == "" + ("\n" + PromptSentinel + "\n" + EchoPrompt(ask));
  }

  /** The served scenario: `print working directory` comes back as
      `echo "print working directory"` after the sentinel line. */
  lemma AskWithShell(env: Env, fs: FileSystem, server: Server)
    requires FishSetupVersion(env.assets.fish) == Ok("0.1.0")
    ensures var r := Cli.Run(FishAsk("0.1.0", PrintWorkingDirectory), NewPort(Recording, fs), env, server);
      && r.result == Ok(())
      && ToStdout(r.port) == "\n" + PromptSentinel + "\n" + "echo \"print working directory\""
  {
    var ask := "print working directory";
    JoinedPrintWorkingDirectory();
    AsciiAskFits(ask);
    EchoedAsk(ask);
    ServedAsk(env, fs, server, PrintWorkingDirectory, ask);
  }

  lemma JoinedPrintWorkingDirectory()
    ensures Join(PrintWorkingDirectory, " ") == "print working directory"
  {
    JoinCons("print", ["working", "directory"], " ");
  }

  lemma EchoedAsk(ask: string)
    requires ask == "print working directory"
    ensures EchoPrompt(ask) == "echo \"print working directory\""
  {
  }

  lemma AsciiAskFits(ask: string)
    requires ask == "print working directory"
    ensures '\n' !in ask && Utf8Length(ask) <= CheckAsk.MaxAskLength
  {
  }

  /** With an up-to-date fish setup, an invalid ask fails the run with the
      validation message and leaves the fresh port as it was. */
  lemma RejectedAsk(env: Env, fs: FileSystem, server: Server, words: seq<string>, ask: string)
    requires FishSetupVersion(env.assets.fish) == Ok("0.1.0")
    requires Join(words, " ") == ask
    ensures var r := Cli.Run(FishAsk("0.1.0", words), NewPort(Recording, fs), env, server);
      && ('\n' in ask ==> r == Step(NewPort(Recording, fs), Err(Msg(CheckAsk.NewLineNotAllowed))))
      && ('\n' !in ask && Utf8Length(ask) > CheckAsk.MaxAskLength ==>
            r == Step(NewPort(Recording, fs), Err(Msg(CheckAsk.MaxLengthReached()))))
  {
    UpToDateFishAsk(env, NewPort(Recording, fs), server, words);
  }

  /** An ask with newlines is refused with the newline message, before the
      server is asked. */
  lemma AskWithNewline(env: Env, fs: FileSystem, server: Server)
    requires FishSetupVersion(env.assets.fish) == Ok("0.1.0")
    ensures var r := Cli.Run(FishAsk("0.1.0", ["print\nworking\ndirectory"]), NewPort(Recording, fs), env, server);
      && r.result == Err(Msg("Invalid ask: new line character is not allowed"))
      && r.port == NewPort(Recording, fs)
  {
    var ask := "print\nworking\ndirectory";
    NewlineAsk(ask);
    RejectedAsk(env, fs, server, [ask], ask);
  }

  lemma NewlineAsk(ask: string)
    requires ask == "print\nworking\ndirectory"
    ensures Join([ask], " ") == ask && '\n' in ask
  {
    assert ask[5] == '\n';
  }

  /** Twenty-one words "fish" make an ask of 104 bytes, over the limit. */
  lemma AskTooLong(env: Env, fs: FileSystem, server: Server)
    requires FishSetupVersion(env.assets.fish) == Ok("0.1.0")
    ensures var r := Cli.Run(FishAsk("0.1.0", seq(21, _ => "fish")), NewPort(Recording, fs), env, server);
      && r.result == Err(Msg("Invalid ask: max length of 100 characters reached"))
      && r.port == NewPort(Recording, fs)
  {
    var words := seq(21, _ => "fish");
    LongAsk(words);
    CheckAsk.MaxLengthMessage();
    RejectedAsk(env, fs, server, words, Join(words, " "));
  }

  lemma LongAsk(words: seq<string>)
    requires words == seq(21, _ => "fish")
    ensures '\n' !in Join(words, " ") && Utf8Length(Join(words, " ")) > CheckAsk.MaxAskLength
  {
    RepeatedWordLength(21);
    JoinLength(words, " ");
    JoinAvoidsChar(words, " ", '\n');
  }

  lemma {:induction false} RepeatedWordLength(n: nat)
    ensures TotalLength(seq(n, _ => "fish")) == 4 * n
  {
    if n > 0 {
      RepeatedWordLength(n - 1);
      assert seq(n, _ => "fish")[1..] == seq(n - 1, _ => "fish");
    }
  }

  /** The fish install through the recording port after the line `first`:
      the three installer lines follow it, and nothing else changes. */
  lemma RecordedFishInstall(p: Port, first: string, st: SetupScriptState, env: Env)
    requires p.mode.Recording? && env.home.Some?
    requires SetupScript.ChosenShell(st, env) == Ok(Fish)
    ensures SetupScript.Next(Log(p, first), st, env)
         == Step(p.(logs := p.logs + [first, SetupScript.InstallingFor(Fish), SetupScript.Installed, SetupScript.OpenNewSession]), Ok(()))
  {
    var p1 := Log(p, first);
    SetupScript.RecordingInstallSucceeds(p1, env.home.value, env.assets.fish);
    SetupScript.NextInstallsFish(p1, st, env);
    var lines := [SetupScript.InstallingFor(Fish), SetupScript.Installed, SetupScript.OpenNewSession];
    assert p1.logs + lines == p.logs + ([first] + lines);
  }

  /** A reported fish setup older or newer than the asset's reinstalls fish
      only: the outdated line, then the three installer lines. */
  lemma OutdatedFishReinstalls(env: Env, fs: FileSystem, server: Server, setupVersion: string, words: seq<string>)
    requires FishSetupVersion(env.assets.fish).Ok? && FishSetupVersion(env.assets.fish).value != setupVersion
    requires env.home.Some?
    ensures Cli.Run(FishAsk(setupVersion, words), NewPort(Recording, fs), env, server)
         == Step(NewPort(Recording, fs).(logs := [CheckSetup.Outdated, SetupScript.InstallingFor(Fish),
                                                   SetupScript.Installed, SetupScript.OpenNewSession]), Ok(()))
  {
    var st := CheckSetupState(Some(Shell(setupVersion, Fish)), Join(words, " "));
    FishAskReportsFish(setupVersion, words);
    Cli.RunNormalFlow(FishAsk(setupVersion, words), NewPort(Recording, fs), env, server);
    OutdatedFishFlow(NewPort(Recording, fs), st, env, server);
  }

  lemma OutdatedFishFlow(p: Port, st: CheckSetupState, env: Env, server: Server)
    requires p.mode.Recording? && env.home.Some?
    requires st.shell.Some? && st.shell.value.name == Fish
    requires FishSetupVersion(env.assets.fish).Ok? && FishSetupVersion(env.assets.fish).value != st.shell.value.setupVersion
    ensures Cli.CheckSetupFlow(p, st, env, server)
         == Step(p.(logs := p.logs + [CheckSetup.Outdated, SetupScript.InstallingFor(Fish),
                                       SetupScript.Installed, SetupScript.OpenNewSession]), Ok(()))
  {
    Cli.SetupFlowOutdated(p, st, env, server);
    RecordedFishInstall(p, CheckSetup.Outdated, SetupScriptState(Some(Fish)), env);
  }

  /** Without a reported shell the detected shell is installed, and only it. */
  lemma NoShellInstallsDetected(env: Env, fs: FileSystem, server: Server, words: seq<string>)
    requires env.detected == Ok(Fish) && env.home.Some?
    ensures Cli.Run(ParseArgs.NoArgs.(ask := words), NewPort(Recording, fs), env, server)
         == Step(NewPort(Recording, fs).(logs := [CheckSetup.NotInstalled, SetupScript.InstallingFor(Fish),
                                                   SetupScript.Installed, SetupScript.OpenNewSession]), Ok(()))
  {
    var p := NewPort(Recording, fs);
    var a := ParseArgs.NoArgs.(ask := words);
    Cli.RunNormalFlow(a, p, env, server);
    Cli.SetupFlowWithoutShell(p, CheckSetupState(None, Join(words, " ")), env, server);
    RecordedFishInstall(p, CheckSetup.NotInstalled, SetupScriptState(None), env);
  }

  /** Without a reported shell, a detected shell other than fish is refused
      after being announced. */
  lemma NoShellRefusesOtherShells(env: Env, fs: FileSystem, server: Server, words: seq<string>, n: ShellName)
    requires env.detected == Ok(n) && n != Fish
    ensures Cli.Run(ParseArgs.NoArgs.(ask := words), NewPort(Recording, fs), env, server)
         == Step(NewPort(Recording, fs).(logs := [CheckSetup.NotInstalled, SetupScript.InstallingFor(n)]),
                 Err(Msg(SetupScript.NotSupported(n))))
  {
    var p := NewPort(Recording, fs);
    var a := ParseArgs.NoArgs.(ask := words);
    Cli.RunNormalFlow(a, p, env, server);
  }
}

/** The top level: `run` dispatches on the argument decision and drives the
    stages in order; the two internal sub-queries read back the text a
    previous run printed. The first failing stage ends the run, and what it
    already logged or wrote stays. */
module Cli {
  import opened Wrappers
  import opened Text
  import opened Shells
  import opened Ports
  import opened WhatToDo
  import ParseArgs
  import CheckSetup
  import SetupScript
  import CheckAsk
  import GenerateContext
  import CallServer
  import Prompt
  import Reset

  // ---------------------------------------------------------------------
  // The internal sub-queries
  // ---------------------------------------------------------------------

  /** `--get-stdout`: what came before the first sentinel (all of the input
      when there is none), trimmed. */
  function StdoutBeforePrompt(input: string): (r: string)
    ensures !Contains(input, PromptSentinel) ==> r == Trim(input)
    ensures Contains(input, PromptSentinel) ==>
      r == Trim(input[..FindFirst(input, PromptSentinel).value])
  {
    Trim(Split(input, PromptSentinel)[0])
  }

  /** `--get-prompt`: what comes after the last sentinel, trimmed; nothing
      when there is no sentinel. */
  function PromptAfterSentinel(input: string): (r: string)
    ensures !Contains(input, PromptSentinel) ==> r == ""
  {
    TrimmedLastPiece(input, PromptSentinel)
  }

  /** The last piece of `input` split at `pat`, trimmed; nothing when `pat`
      does not occur. */
  function TrimmedLastPiece(input: string, pat: string): (r: string)
    requires |pat| > 0
    ensures !Contains(input, pat) ==> r == ""
  {
    if Contains(input, pat) then Trim(LastPiece(input, pat)) else ""
  }

  /** With a sentinel, the prompt query reads what follows its last
      occurrence: the sentinel at `i`, with no other after it. */
  lemma PromptFollowsLastSentinel(input: string) returns (i: nat)
    requires Contains(input, PromptSentinel)
    ensures OccursAt(input, PromptSentinel, i)
    ensures !Contains(input[i + |PromptSentinel|..], PromptSentinel)
    ensures PromptAfterSentinel(input) == Trim(input[i + |PromptSentinel|..])
  {
    i := SplitLastPiece(input, PromptSentinel);
    LastPieceMatchFree(input, PromptSentinel);
    PromptIsLastPiece(input);
  }

  lemma PromptIsLastPiece(input: string)
    requires Contains(input, PromptSentinel)
    ensures PromptAfterSentinel(input) == Trim(LastPiece(input, PromptSentinel))
  {
    TrimmedLastPieceIs(input, PromptSentinel);
  }

  lemma TrimmedLastPieceIs(input: string, pat: string)
    requires |pat| > 0 && Contains(input, pat)
    ensures TrimmedLastPiece(input, pat) == Trim(LastPiece(input, pat))
  {
  }

  lemma NewlineOutsideSentinel()
    ensures '\n' !in PromptSentinel && |PromptSentinel| > 0
  {
  }

  /** What a run prints splits back at the sentinel: the sub-queries recover
      the trimmed log and the trimmed final prompt, provided neither holds
      the sentinel itself. */
  lemma StdoutRoundTrip(p: Port)
    requires p.finalPrompt.Some?
    requires !Contains(Join(p.logs, "\n"), PromptSentinel)
    requires !Contains(p.finalPrompt.value, PromptSentinel)
    ensures StdoutBeforePrompt(ToStdout(p)) == Trim(Join(p.logs, "\n"))
    ensures PromptAfterSentinel(ToStdout(p)) == Trim(p.finalPrompt.value)
  {
    PrintedShape(p);
    PrintedPieces(Join(p.logs, "\n"), p.finalPrompt.value);
  }

  /** The printed text regrouped around the sentinel. */
  lemma PrintedShape(p: Port)
    requires p.finalPrompt.Some?
    ensures ToStdout(p)
      == (Join(p.logs, "\n") + "\n") + (PromptSentinel + ("\n" + p.finalPrompt.value))
  {
    var logs := Join(p.logs, "\n");
    var v := p.finalPrompt.value;
    Regroup5(logs, "\n", PromptSentinel, "\n", v);
  }

  /** The round trip on the printed text itself. */
  lemma PrintedPieces(logs: string, v: string)
    requires !Contains(logs, PromptSentinel) && !Contains(v, PromptSentinel)
    ensures var out := (logs + "\n") + (PromptSentinel + ("\n" + v));
      && StdoutBeforePrompt(out) == Trim(logs)
      && PromptAfterSentinel(out) == Trim(v)
  {
    var a := logs + "\n";
    var c := "\n" + v;
    var out := a + (PromptSentinel + c);
    NewlineOutsideSentinel();
    AppendForeignChar(logs, '\n', PromptSentinel);
    PrependForeignChar('\n', v, PromptSentinel);
    assert ['\n'] + v == c;
    SentinelPieces(a, c);
    assert |Split(out, PromptSentinel)| == 2;
    assert StdoutBeforePrompt(out) == Trim(a);
    assert PromptAfterSentinel(out) == Trim(c);
    assert Trim(a) == Trim(logs) by {
      TrimAbsorbsWhitespace("", logs, "\n");
      assert "" + logs == logs;
    }
    assert Trim(c) == Trim(v) by {
      TrimAbsorbsWhitespace("\n", v, "");
      assert c + "" == c;
    }
  }

  /** `a + sentinel + c` splits into `a` and `c` when neither holds the
      sentinel and `a` ends with a newline. */
  lemma SentinelPieces(a: string, c: string)
    requires |a| > 0 && a[|a| - 1] == '\n'
    requires !Contains(a, PromptSentinel) && !Contains(c, PromptSentinel)
    ensures Split(a + (PromptSentinel + c), PromptSentinel) == [a, c]
  {
    NewlineOutsideSentinel();
    var b := PromptSentinel + c;
    NoOccurrenceBeforeSeparator(a, b, PromptSentinel);
    SplitShift(a, b, PromptSentinel);
    OccursAtSlice(b, PromptSentinel, 0);
    FirstOccurrence(b, PromptSentinel, 0);
    SplitStep(b, PromptSentinel, 0);
    assert b[..0] == "" && b[|PromptSentinel|..] == c;
    assert Split(c, PromptSentinel) == [c];
  }

  // ---------------------------------------------------------------------
  // The stages after the argument decision
  // ---------------------------------------------------------------------

  /** The ask path: validation, context, server, final prompt. A failure
      leaves the port as it was; only success fills the final prompt. */
  function AskFlow(p: Port, st: CheckAskState, server: Server): (r: Step<()>)
    ensures r.port.logs == p.logs && r.port.fs == p.fs && r.port.mode == p.mode
    ensures '\n' in st.ask ==> r == Step(p, Err(Msg(CheckAsk.NewLineNotAllowed)))
    ensures '\n' !in st.ask && Utf8Length(st.ask) > CheckAsk.MaxAskLength ==>
      r == Step(p, Err(Msg(CheckAsk.MaxLengthReached())))
    ensures r.result.Ok? <==>
      && '\n' !in st.ask && Utf8Length(st.ask) <= CheckAsk.MaxAskLength
      && AskServerForPrompt(p, Request(st.ask, map[]), server).Ok?
    ensures r.result.Err? ==> r.port == p
    ensures r.result.Ok? ==>
      r.port.finalPrompt == Some(AskServerForPrompt(p, Request(st.ask, map[]), server).value.prompt.value)
    ensures ('\n' !in st.ask && Utf8Length(st.ask) <= CheckAsk.MaxAskLength
             && AskServerForPrompt(p, Request(st.ask, map[]), server).Err?) ==>
      r == Step(p, Err(AskServerForPrompt(p, Request(st.ask, map[]), server).error))
  {
    match CheckAsk.Next(st)
    case Err(e) => Step(p, Err(e))
    case Ok(g) =>
      match GenerateContext.Next(g)
      case Err(e) => Step(p, Err(e))
      case Ok(c) =>
        match CallServer.Next(p, c, server)
        case Err(e) => Step(p, Err(e))
        case Ok(prompt) => Prompt.Next(p, prompt)
  }

  /** Whether the reported shell's setup version is the one its asset
      carries: the only case in which the ask is served. */
  predicate UpToDate(st: CheckSetupState, assets: Assets)
  {
    st.shell.Some? && ExpectedSetupVersion(st.shell.value.name, assets) == Ok(st.shell.value.setupVersion)
  }

  /** The normal flow after the argument decision: the setup check, then
      either the installer or the ask path. */
  function CheckSetupFlow(p: Port, st: CheckSetupState, env: Env, server: Server): (r: Step<()>)
    ensures r.port.mode == p.mode
    ensures UpToDate(st, env.assets) ==> r == AskFlow(p, CheckAskState(st.ask), server)
    ensures !UpToDate(st, env.assets) ==> r.port.finalPrompt == p.finalPrompt
  {
    CheckSetup.ProceedsIffUpToDate(p, st, env.assets);
    var s := CheckSetup.Next(p, st, env.assets);
    match s.result
    case Err(e) => Step(s.port, Err(e))
    case Ok(DoSetupScript(install)) => SetupScript.Next(s.port, install, env)
    case Ok(DoCheckAsk(ask)) => AskFlow(s.port, ask, server)
  }

  /** An up-to-date setup goes straight to the ask path with nothing logged;
      any other setup never reaches it, so the final prompt stays unset. */
  lemma SetupFlowAsksIffUpToDate(p: Port, st: CheckSetupState, env: Env, server: Server)
    ensures UpToDate(st, env.assets) ==>
      CheckSetupFlow(p, st, env, server) == AskFlow(p, CheckAskState(st.ask), server)
    ensures !UpToDate(st, env.assets) ==>
      CheckSetupFlow(p, st, env, server).port.finalPrompt == p.finalPrompt
  {
    CheckSetup.ProceedsIffUpToDate(p, st, env.assets);
  }

  /** The final prompt changes only when the ask path was taken and succeeded. */
  lemma SetupFlowPromptOnlyOnSuccess(p: Port, st: CheckSetupState, env: Env, server: Server)
    ensures var r := CheckSetupFlow(p, st, env, server);
      r.port.finalPrompt != p.finalPrompt ==> UpToDate(st, env.assets) && r.result.Ok?
  {
    SetupFlowAsksIffUpToDate(p, st, env, server);
  }

  /** Files change only through the installer, so only when the setup is not
      up to date, and only through the production port. */
  lemma SetupFlowFiles(p: Port, st: CheckSetupState, env: Env, server: Server)
    ensures var r := CheckSetupFlow(p, st, env, server);
      r.port.fs != p.fs ==> !UpToDate(st, env.assets) && p.mode.Production?
  {
    var s := CheckSetup.Next(p, st, env.assets);
    CheckSetup.ProceedsIffUpToDate(p, st, env.assets);
    if s.result.Ok? && s.result.value.DoSetupScript? && p.mode.Recording? {
      InstallKeepsRecordingFiles(s.port, s.result.value.setupScript, env);
    }
  }

  /** Without a reported shell the run logs that nothing is installed and
      hands the choice of shell to the installer. */
  lemma SetupFlowWithoutShell(p: Port, st: CheckSetupState, env: Env, server: Server)
    requires st.shell.None?
    ensures var r := CheckSetupFlow(p, st, env, server);
      && r == SetupScript.Next(Log(p, CheckSetup.NotInstalled), SetupScriptState(None), env)
      && |r.port.logs| > |p.logs|
      && r.port.logs[..|p.logs| + 1] == p.logs + [CheckSetup.NotInstalled]
  {
    var r := CheckSetupFlow(p, st, env, server);
    var p1 := Log(p, CheckSetup.NotInstalled);
    assert r == SetupScript.Next(p1, SetupScriptState(None), env);
    if env.detected.Ok? {
      SetupScript.NextAnnouncesShell(p1, SetupScriptState(None), env);
      var q := p1.logs + [SetupScript.InstallingFor(env.detected.value)];
      assert q[..|p1.logs|] == p1.logs;
      PrefixTrans(p1.logs, q, r.port.logs);
    }
  }

  /** A reported setup whose version differs from the asset's logs that it
      is outdated and reinstalls the reported shell. */
  lemma SetupFlowOutdated(p: Port, st: CheckSetupState, env: Env, server: Server)
    requires st.shell.Some? && ExpectedSetupVersion(st.shell.value.name, env.assets).Ok?
    requires ExpectedSetupVersion(st.shell.value.name, env.assets).value != st.shell.value.setupVersion
    ensures CheckSetupFlow(p, st, env, server)
         == SetupScript.Next(Log(p, CheckSetup.Outdated), SetupScriptState(Some(st.shell.value.name)), env)
  {
  }

  /** The installer changes no file through the recording port. */
  lemma InstallKeepsRecordingFiles(p: Port, st: SetupScriptState, env: Env)
    requires p.mode.Recording?
    ensures SetupScript.Next(p, st, env).port.fs == p.fs
  {
    if SetupScript.ChosenShell(st, env) == Ok(Fish) {
      SetupScript.NextInstallsFish(p, st, env);
    }
  }

  // ---------------------------------------------------------------------
  // run
  // ---------------------------------------------------------------------

  /** The version lines: the crate version, then the reported shell when
      both its name and its setup version were given. */
  function VersionLines(cliVersion: string, setupVersion: Option<string>): (lines: seq<string>)
    ensures |lines| >= 1 && lines[0] == "hey-cli " + cliVersion
    ensures |lines| == 2 <==> setupVersion.Some?
    ensures |lines| == 2 ==> lines[1] == "setup-script " + setupVersion.value
  {
    match setupVersion
    case Some(v) => ["hey-cli " + cliVersion, "setup-script " + v]
    case None => ["hey-cli " + cliVersion]
  }

  /** The flags that leave the normal flow. */
  predicate NormalFlow(a: ParseArgs.Args)
  {
    !a.reset && !a.version && !a.getStdout && !a.getPrompt
  }

  /** `run`: the argument decision, then the one path it chose. What each
      path does is stated by the lemmas below. */
  function Run(a: ParseArgs.Args, p: Port, env: Env, server: Server): (r: Step<()>)
    ensures r.port.mode == p.mode
    ensures ParseArgs.ReportedShell(a).Err? ==> r == Step(p, Err(Msg(VariantNotFound)))
    ensures ParseArgs.ReportedShell(a).Ok? && a.reset ==> r == Reset.Next(p, env.home)
    ensures r.port.fs != p.fs ==> a.reset || NormalFlow(a)
    ensures r.port.finalPrompt != p.finalPrompt ==> NormalFlow(a)
  {
    match ParseArgs.Next(a, env.cliVersion)
    case Err(e) => Step(p, Err(e))
    case Ok(DoReset) => Reset.Next(p, env.home)
    case Ok(DoPrintVersion(cliVersion, setupVersion)) => PrintVersion(p, VersionLines(cliVersion, setupVersion))
    case Ok(DoInternal(input, GetStdout)) => Step(Log(p, StdoutBeforePrompt(input)), Ok(()))
    case Ok(DoInternal(input, GetPrompt)) => Step(Log(p, PromptAfterSentinel(input)), Ok(()))
    case Ok(DoCheckSetup(st)) => CheckSetupFlow(p, st, env, server)
  }

  /** The version lines, logged in order; nothing else changes. */
  function PrintVersion(p: Port, lines: seq<string>): (r: Step<()>)
    requires 1 <= |lines| <= 2
    ensures r == Step(p.(logs := p.logs + lines), Ok(()))
  {
    var p1 := Log(p, lines[0]);
    if |lines| == 2 then
      assert p1.logs + [lines[1]] == p.logs + lines;
      Step(Log(p1, lines[1]), Ok(()))
    else
      Step(p1, Ok(()))
  }

  /** A bad shell name fails the run before anything is logged, whatever
      the other flags say. */
  lemma RunRejectsUnknownShell(a: ParseArgs.Args, p: Port, env: Env, server: Server)
    requires ParseArgs.ReportedShell(a).Err?
    ensures Run(a, p, env, server) == Step(p, Err(Msg(VariantNotFound)))
  {
  }

  /** Reset beats every other flag. */
  lemma RunReset(a: ParseArgs.Args, p: Port, env: Env, server: Server)
    requires ParseArgs.ReportedShell(a).Ok? && a.reset
    ensures Run(a, p, env, server) == Reset.Next(p, env.home)
  {
  }

  /** The version flag logs the version lines and succeeds; with a shell
      name and a setup version the second line shows `<name>@<version>`. */
  lemma RunVersion(a: ParseArgs.Args, p: Port, env: Env, server: Server)
    requires ParseArgs.ReportedShell(a).Ok? && !a.reset && a.version
    ensures var r := Run(a, p, env, server);
      && r.result == Ok(()) && r.port.fs == p.fs && r.port.finalPrompt == p.finalPrompt
      && r.port.logs == p.logs + VersionLines(env.cliVersion,
           if a.shellName.Some? && a.setupVersion.Some?
           then Some(a.shellName.value + "@" + a.setupVersion.value) else None)
  {
  }

  /** The internal queries log what they read back from the joined words,
      get-stdout first. */
  lemma RunInternalQueries(a: ParseArgs.Args, p: Port, env: Env, server: Server)
    requires ParseArgs.ReportedShell(a).Ok? && !a.reset && !a.version
    ensures a.getStdout ==>
      Run(a, p, env, server) == Step(Log(p, StdoutBeforePrompt(Join(a.ask, " "))), Ok(()))
    ensures !a.getStdout && a.getPrompt ==>
      Run(a, p, env, server) == Step(Log(p, PromptAfterSentinel(Join(a.ask, " "))), Ok(()))
  {
  }

  /** Without those flags the run is the setup check on the reported shell
      and the joined words. */
  lemma RunNormalFlow(a: ParseArgs.Args, p: Port, env: Env, server: Server)
    requires ParseArgs.ReportedShell(a).Ok? && NormalFlow(a)
    ensures Run(a, p, env, server)
         == CheckSetupFlow(p, CheckSetupState(ParseArgs.ReportedShell(a).value, Join(a.ask, " ")), env, server)
  {
  }

  /** Only the normal flow sets a final prompt, and only when it succeeds. */
  lemma RunPromptOnlyOnSuccess(a: ParseArgs.Args, p: Port, env: Env, server: Server)
    ensures var r := Run(a, p, env, server);
      r.port.finalPrompt != p.finalPrompt ==> NormalFlow(a) && r.result.Ok?
  {
    if ParseArgs.ReportedShell(a).Ok? && NormalFlow(a) {
      var st := CheckSetupState(ParseArgs.ReportedShell(a).value, Join(a.ask, " "));
      RunNormalFlow(a, p, env, server);
      SetupFlowPromptOnlyOnSuccess(p, st, env, server);
    }
  }

  /** Only reset and the normal flow (through the installer) write files. */
  lemma RunFilesOnlyResetOrInstall(a: ParseArgs.Args, p: Port, env: Env, server: Server)
    ensures var r := Run(a, p, env, server);
      r.port.fs != p.fs ==> a.reset || NormalFlow(a)
  {
  }

  /** A normal run whose reported setup is up to date is exactly the ask
      path on the joined words. */
  lemma RunServesUpToDateAsk(a: ParseArgs.Args, p: Port, env: Env, server: Server)
    requires ParseArgs.ReportedShell(a).Ok? && NormalFlow(a)
    requires UpToDate(CheckSetupState(ParseArgs.ReportedShell(a).value, Join(a.ask, " ")), env.assets)
    ensures Run(a, p, env, server) == AskFlow(p, CheckAskState(Join(a.ask, " ")), server)
  {
    RunNormalFlow(a, p, env, server);
    SetupFlowAsksIffUpToDate(p, CheckSetupState(ParseArgs.ReportedShell(a).value, Join(a.ask, " ")), env, server);
  }
}

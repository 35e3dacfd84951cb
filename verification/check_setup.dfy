/** The setup check: compares the setup-script version the shell reported
    against the version marker of that shell's asset, by exact string
    equality, and decides between (re)installing and going on to the ask. */
module CheckSetup {
  import opened Wrappers
  import opened Shells
  import opened Ports
  import opened WhatToDo

  const NotInstalled: string := "Setup script not installed"
  const Outdated: string := "Setup script outdated"

  /** `CheckSetup::next`. Without a reported shell the script is installed
      with detection; with a reported version other than the asset's the
      script is reinstalled for that shell; with the same version the ask is
      passed on unchanged. A shell without an asset or marker panics. */
  function Next(p: Port, st: CheckSetupState, assets: Assets): (r: Step<AfterCheckSetup>)
    ensures r.port.finalPrompt == p.finalPrompt && r.port.fs == p.fs && r.port.mode == p.mode
    ensures r.port == p || r.port.logs == p.logs + [NotInstalled] || r.port.logs == p.logs + [Outdated]
    ensures st.shell.None? ==>
      r == Step(Log(p, NotInstalled), Ok(DoSetupScript(SetupScriptState(None))))
    ensures st.shell.Some? && ExpectedSetupVersion(st.shell.value.name, assets).Err? ==>
      r == Step(p, Err(ExpectedSetupVersion(st.shell.value.name, assets).error))
    ensures st.shell.Some? && ExpectedSetupVersion(st.shell.value.name, assets).Ok? ==>
      var expected := ExpectedSetupVersion(st.shell.value.name, assets).value;
      && (st.shell.value.setupVersion != expected ==>
            r == Step(Log(p, Outdated), Ok(DoSetupScript(SetupScriptState(Some(st.shell.value.name))))))
      && (st.shell.value.setupVersion == expected ==>
            r == Step(p, Ok(DoCheckAsk(CheckAskState(st.ask)))))
  {
    match st.shell
    case None => Step(Log(p, NotInstalled), Ok(DoSetupScript(SetupScriptState(None))))
    case Some(shell) =>
      match ExpectedSetupVersion(shell.name, assets)
      case Err(e) => Step(p, Err(e))
      case Ok(expected) =>
        if shell.setupVersion != expected then
          Step(Log(p, Outdated), Ok(DoSetupScript(SetupScriptState(Some(shell.name)))))
        else
          Step(p, Ok(DoCheckAsk(CheckAskState(st.ask))))
  }

  /** The ask goes on exactly when the reported version equals the asset's
      marker, and then nothing is logged; in every other successful case the
      installer is chosen and exactly one line is logged. */
  lemma ProceedsIffUpToDate(p: Port, st: CheckSetupState, assets: Assets)
    ensures (Next(p, st, assets).result.Ok? && Next(p, st, assets).result.value.DoCheckAsk?)
        <==> (st.shell.Some? && ExpectedSetupVersion(st.shell.value.name, assets) == Ok(st.shell.value.setupVersion))
    ensures Next(p, st, assets).result.Ok? && Next(p, st, assets).result.value.DoCheckAsk? ==>
      Next(p, st, assets) == Step(p, Ok(DoCheckAsk(CheckAskState(st.ask))))
    ensures Next(p, st, assets).result.Ok? && Next(p, st, assets).result.value.DoSetupScript? ==>
      |Next(p, st, assets).port.logs| == |p.logs| + 1
  {
  }

  /** Any version string other than the marker, older, newer, empty or
      garbled, counts as outdated, and the installer gets the reported shell. */
  lemma AnyOtherVersionIsOutdated(p: Port, name: ShellName, reported: string, ask: string, assets: Assets)
    requires ExpectedSetupVersion(name, assets).Ok?
    requires reported != ExpectedSetupVersion(name, assets).value
    ensures Next(p, CheckSetupState(Some(Shell(reported, name)), ask), assets)
         == Step(Log(p, Outdated), Ok(DoSetupScript(SetupScriptState(Some(name)))))
  {
  }
}

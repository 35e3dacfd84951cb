/** The records each stage carries and the closed branch enums a stage hands
    to the dispatcher. The stage records live here, beside the enums that
    wrap them, so that each stage's module can both consume its own record
    and produce the next one without a cycle between modules. Because the
    enums are datatypes, "exactly one branch holds" is true by construction. */
module WhatToDo {
  import opened Wrappers
  import opened Shells
  import opened Ports

  /** The input of the setup check: the shell the invoking process reported,
      if both its name and its setup version were given, and the joined ask. */
  datatype CheckSetupState = CheckSetupState(shell: Option<Shell>, ask: string)

  /** The installer's input: the shell to install for, or None to detect it. */
  datatype SetupScriptState = SetupScriptState(shell: Option<ShellName>)

  datatype CheckAskState = CheckAskState(ask: string)

  datatype GenerateContextState = GenerateContextState(ask: string, context: Context)

  datatype CallServerState = CallServerState(ask: string, context: Context)

  datatype PromptState = PromptState(value: string)

  /** The two internal sub-queries the shell integration makes on the text a
      previous run printed. */
  datatype InternalAction = GetStdout | GetPrompt

  /** `WhatToDoAfterParseArgs`. */
  datatype AfterParseArgs =
    | DoReset
    | DoPrintVersion(cliVersion: string, setupVersion: Option<string>)
    | DoInternal(input: string, action: InternalAction)
    | DoCheckSetup(checkSetup: CheckSetupState)

  /** `WhatToDoAfterCheckSetup`. */
  datatype AfterCheckSetup =
    | DoSetupScript(setupScript: SetupScriptState)
    | DoCheckAsk(checkAsk: CheckAskState)
}

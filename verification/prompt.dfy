/** Final-prompt publication, the last stage of the normal flow. */
module Prompt {
  import opened Wrappers
  import opened Ports
  import opened WhatToDo

  /** `Prompt::next`: fills the final-prompt slot with the command; always
      succeeds and leaves the log and the files alone. */
  function Next(p: Port, st: PromptState): (r: Step<()>)
    ensures r.result == Ok(())
    ensures r.port.finalPrompt == Some(st.value)
    ensures r.port.logs == p.logs && r.port.fs == p.fs && r.port.mode == p.mode
  {
    Step(SetFinalPrompt(p, st.value), Ok(()))
  }
}

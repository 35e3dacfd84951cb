/** Context generation: for now the context stays empty and the ask passes
    through unchanged. */
module GenerateContext {
  import opened Wrappers
  import opened Ports
  import opened WhatToDo

  /** `GenerateContext::new`: keeps the ask, starts with no context. */
  function New(ask: string): (g: GenerateContextState)
    ensures g.ask == ask && |g.context| == 0
  {
    GenerateContextState(ask, map[])
  }

  /** `GenerateContext::next`: never fails, uses no port, and hands the ask
      and the context on unchanged. */
  function Next(g: GenerateContextState): (r: Result<CallServerState, Error>)
    ensures r.Ok?
    ensures r.value.ask == g.ask && r.value.context == g.context
  {
    Ok(CallServerState(g.ask, g.context))
  }
}

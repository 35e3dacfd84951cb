/** The server stage: sends the ask and its context and keeps the command the
    response carries. */
module CallServer {
  import opened Wrappers
  import opened Ports
  import opened WhatToDo

  /** The request body: the stage's ask and context, unchanged. */
  function RequestOf(c: CallServerState): (q: Request)
    ensures q.ask == c.ask && q.context == c.context
  {
    Request(c.ask, c.context)
  }

  /** `CallServer::next`: a failed server call is passed on and no prompt is
      produced; otherwise the prompt is the response's command. */
  function Next(p: Port, c: CallServerState, server: Server): (r: Result<PromptState, Error>)
    ensures AskServerForPrompt(p, RequestOf(c), server).Err? ==>
      r == Err(AskServerForPrompt(p, RequestOf(c), server).error)
    ensures AskServerForPrompt(p, RequestOf(c), server).Ok? ==>
      r == Ok(PromptState(AskServerForPrompt(p, RequestOf(c), server).value.prompt.value))
    ensures p.mode.Recording? ==> r == Ok(PromptState(EchoPrompt(c.ask)))
  {
    match AskServerForPrompt(p, RequestOf(c), server)
    case Err(e) => Err(e)
    case Ok(response) => Ok(PromptState(response.prompt.value))
  }
}

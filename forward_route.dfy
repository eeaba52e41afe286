/**
 * The `forward` request handler (src/route/forward.rs): it passes the
 * request's id and the configured target URL to the client and turns the
 * client's answer into the HTTP response.
 */
module ForwardRoute {
  import opened Wrappers
  import opened Http

  /** The id used when a request carries none (src/request_id.rs). */
  const UNKNOWN_REQUEST_ID: string := "unknown"

  /** The incoming request as the handler sees it: the value of its RequestId extension, if any. */
  datatype IncomingRequest = IncomingRequest(requestId: Option<HeaderValue>)

  /** The boxed error an AlphaClient returns. */
  datatype SendError = SendError(message: string)

  /** `AlphaClient::send(url, request_id)`, which answers with the body text or an error. */
  type AlphaClient = (string, string) -> Result<string, SendError>

  datatype ServerState = ServerState(client: AlphaClient, targetServersBaseUrl: string)

  /** The response produced by the handler. */
  datatype HttpResponse = HttpResponse(status: nat, body: string)

  /**
   * The request id: the RequestId extension when it is present and its value
   * is a valid string, "unknown" otherwise.
   */
  function RequestIdOf(request: IncomingRequest, rules: HeaderRules): (id: string)
    ensures request.requestId.Some? && rules.valueToStr(request.requestId.value) ==> id == request.requestId.value
    ensures request.requestId.None? || !rules.valueToStr(request.requestId.value) ==> id == UNKNOWN_REQUEST_ID
  {
    match request.requestId
    case Some(value) => if rules.valueToStr(value) then value else UNKNOWN_REQUEST_ID
    case None => UNKNOWN_REQUEST_ID
  }

  /**
   * The handler: the client is asked once, with the configured URL and the
   * request id. A body is relayed as a 200 response carrying exactly that
   * body; any error becomes 502 Bad Gateway with an empty body.
   */
  function Forward(state: ServerState, request: IncomingRequest, rules: HeaderRules): (response: HttpResponse)
    ensures response.status == OK || response.status == BAD_GATEWAY
    ensures var answer := state.client(state.targetServersBaseUrl, RequestIdOf(request, rules));
      && (answer.Ok? <==> response.status == OK)
      && (answer.Ok? ==> response.body == answer.value)
      && (answer.Err? ==> response.body == "")
  {
    match state.client(state.targetServersBaseUrl, RequestIdOf(request, rules))
    case Ok(body) => HttpResponse(OK, body)
    case Err(_) => HttpResponse(BAD_GATEWAY, "")
  }

  /**
   * The response depends on the client only through its answer to the one
   * call (configured URL, request id): whatever it would answer to other
   * arguments makes no difference.
   */
  lemma ForwardAsksOnlyOnce(state: ServerState, other: AlphaClient, request: IncomingRequest, rules: HeaderRules)
    requires other(state.targetServersBaseUrl, RequestIdOf(request, rules))
          == state.client(state.targetServersBaseUrl, RequestIdOf(request, rules))
    ensures Forward(state.(client := other), request, rules) == Forward(state, request, rules)
  {
  }
}

/**
 * The forward_service layer: its request and response types, its error
 * enums, and the conversions between them and the `http`/reqwest types
 * (src/forward_service/forward_service_request.rs,
 * forward_service_response.rs, reqwest_forward_service.rs).
 */
module ForwardService {
  import opened Wrappers
  import opened Http
  import opened HeaderConversions

  /** The five methods the layer supports. */
  datatype ForwardServiceRequestHttpMethod = Get | Post | Put | Delete | Patch

  /** `Display` for ForwardServiceRequestHttpMethod. */
  function MethodText(m: ForwardServiceRequestHttpMethod): (s: string)
    ensures s in {"GET", "POST", "PUT", "DELETE", "PATCH"}
  {
    match m
    case Get => "GET"
    case Post => "POST"
    case Put => "PUT"
    case Delete => "DELETE"
    case Patch => "PATCH"
  }

  /** Distinct variants display as distinct strings. */
  lemma MethodTextInjective(a: ForwardServiceRequestHttpMethod, b: ForwardServiceRequestHttpMethod)
    requires MethodText(a) == MethodText(b)
    ensures a == b
  {
  }

  /** The request error. */
  datatype ForwardServiceRequestError = UnsupportedMethod(methodName: string)

  /** `Display` for ForwardServiceRequestError, from its `#[error(...)]` format. */
  function RequestErrorText(e: ForwardServiceRequestError): (s: string)
    ensures |s| == |e.methodName| + 29
    ensures s[..12] == "HTTP method " && s[|s| - 17..] == " is not supported"
    ensures s[12..|s| - 17] == e.methodName
  {
    "HTTP method " + e.methodName + " is not supported"
  }

  /** The message names the unsupported method, so distinct errors read differently. */
  lemma RequestErrorTextInjective(a: ForwardServiceRequestError, b: ForwardServiceRequestError)
    requires RequestErrorText(a) == RequestErrorText(b)
    ensures a == b
  {
    var s := RequestErrorText(a);
    assert a.methodName == s[12..|s| - 17];
  }

  datatype ForwardServiceRequest = ForwardServiceRequest(verb: ForwardServiceRequestHttpMethod, url: string, headers: Headers, body: seq<bv8>)

  /** The response; `status` is a u16. */
  datatype ForwardServiceResponse = ForwardServiceResponse(status: nat, headers: Headers, body: seq<bv8>)

  /** The transport error enum, declared beside the response. */
  datatype ForwardServiceError = Network(message: string) | InvalidRequest(message: string) | Timeout

  /**
   * `From<T: ForwardServiceErrorChecker> for ForwardServiceError`: a timeout wins over every
   * other flag, then a connect or request failure is a network error, and
   * anything else an invalid request; both carry the error's message.
   */
  function FromTransportError(e: TransportError): (r: ForwardServiceError)
    ensures r.Timeout? <==> e.isTimeout
    ensures r.Network? <==> !e.isTimeout && (e.isConnect || e.isRequest)
    ensures r.InvalidRequest? <==> !e.isTimeout && !e.isConnect && !e.isRequest
    ensures !r.Timeout? ==> r.message == e.message
  {
    if e.isTimeout then Timeout
    else if e.isConnect || e.isRequest then Network(e.message)
    else InvalidRequest(e.message)
  }

  /** `IntoResponse` for the request error: always 500 Internal Server Error. */
  function RequestErrorStatus(e: ForwardServiceRequestError): (status: nat)
    ensures status == INTERNAL_SERVER_ERROR
  {
    INTERNAL_SERVER_ERROR
  }

  /** `From<ForwardServiceRequestHttpMethod> for reqwest::Method`. */
  function IntoMethod(m: ForwardServiceRequestHttpMethod): (r: Method)
    ensures r.name == MethodText(m)
  {
    match m
    case Get => GET
    case Post => POST
    case Put => PUT
    case Delete => DELETE
    case Patch => PATCH
  }

  /**
   * `TryFrom<&Method> for ForwardServiceRequestHttpMethod`: the five supported methods map to
   * their variant, any other method is reported by name.
   */
  function TryFromMethod(m: Method): (r: Result<ForwardServiceRequestHttpMethod, ForwardServiceRequestError>)
    ensures r.Ok? <==> m in {GET, POST, PUT, DELETE, PATCH}
    ensures r.Ok? ==> IntoMethod(r.value) == m
    ensures r.Err? ==> r.error == UnsupportedMethod(m.name)
  {
    if m == GET then Ok(Get)
    else if m == POST then Ok(Post)
    else if m == PUT then Ok(Put)
    else if m == DELETE then Ok(Delete)
    else if m == PATCH then Ok(Patch)
    else Err(UnsupportedMethod(m.name))
  }

  /** Converting a variant out to a Method and back gives the same variant. */
  lemma MethodRoundTrip(m: ForwardServiceRequestHttpMethod)
    ensures TryFromMethod(IntoMethod(m)) == Ok(m)
  {
  }
}

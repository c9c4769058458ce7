/** What becomes of one effect request: the checks before sn/http.ts sends it, the answer, and what
    sn/errors.ts makes of the answer; judged by isPostSendUnknown of sn/rpc.ts. */
module SendPath {
  import opened MutationGuard
  import opened Wrappers

  /** Why a request was not sent. Untyped: an unsafe path, a failed token call, an unusable key. */
  datatype Refusal = OutboundCap | RequestCap | QueryTooLong | Reauthenticate | NotConnected | Untyped

  /** NoResponse: the fetch was rejected or aborted, or its body broke off. readable: a result can be made
      of the body of a success. */
  datatype Sent =
    | NotSent(refusal: Refusal)
    | NoResponse
    | Answered(status: int, error: Option<string>, readable: bool)

  function Coded(code: ErrorCode): Option<Thrown> { Some(ToolError(code, None)) }

  /** mapServiceNowError: None is success. */
  function Mapped(status: int, error: Option<string>): Option<Thrown> {
    if 200 <= status < 300 then None
    else if status == 401 then Coded(ReauthRequired)
    else if status == 404 then Coded(TableNotFound)
    else if status == 403 then Coded(ActorPolicyDenied)
    else if status == 429 then Coded(BudgetExceeded)
    else if status == 413 && error == Some("code_size") then Coded(CodeSize)
    else if status == 503 && (error == Some("executor_disabled") || error == Some("run_server_script_disabled")) then
      Coded(CapabilityDenied)
    else if status >= 500 then Coded(InstanceHibernating)
    else if 400 <= status < 500 then Coded(PathDenied)
    else Coded(InternalError)
  }

  /** What the effect throws, if anything. A redirect is refused before its answer is mapped. */
  function Throws(s: Sent): Option<Thrown> {
    match s
    case NotSent(OutboundCap) => Some(ToolError(BudgetExceeded, Some("outboundBytesSent")))
    case NotSent(RequestCap) => Some(ToolError(BudgetExceeded, Some("serviceNowRequests")))
    case NotSent(QueryTooLong) => Some(ToolError(PathDenied, Some("queryStringBytes")))
    case NotSent(Reauthenticate) => Coded(ReauthRequired)
    case NotSent(NotConnected) => Coded(ReauthRequired)
    case NotSent(Untyped) => Some(OtherThrow)
    case NoResponse => Some(OtherThrow)
    case Answered(status, error, readable) =>
      if 300 <= status < 400 then Some(OtherThrow)
      else if Mapped(status, error).Some? then Mapped(status, error)
      else if readable then None
      else Some(OtherThrow)
  }

  /** The server will not have done it: a client error other than the rate limit, or the kill switch. */
  predicate RefusedByServer(s: Sent) {
    s.Answered? &&
      ((400 <= s.status <= 499 && s.status != 429) ||
       (s.status == 503 && s.error in {Some("executor_disabled"), Some("run_server_script_disabled")}))
  }

  predicate Succeeded(s: Sent) { s.Answered? && 200 <= s.status <= 299 && s.readable }

  /** A throw is called clean exactly when the server refused, or when nothing was sent and the refusal has a
      type. So a clean throw never left an effect in doubt; an untyped refusal before sending is taken
      for one that may have. */
  lemma CleanExactly(s: Sent)
    ensures Throws(s).None? <==> Succeeded(s)
    ensures Throws(s).Some? ==>
      (!IsPostSendUnknown(Throws(s).value) <==> RefusedByServer(s) || (s.NotSent? && s.refusal != Untyped))
  {
  }

  /** Which answers each code stands for. */
  lemma CodeTellsStatus(status: int, error: Option<string>)
    ensures var m := Mapped(status, error);
      && (m == None <==> 200 <= status <= 299)
      && (m == Coded(ReauthRequired) <==> status == 401)
      && (m == Coded(ActorPolicyDenied) <==> status == 403)
      && (m == Coded(TableNotFound) <==> status == 404)
      && (m == Coded(BudgetExceeded) <==> status == 429)
      && (m == Coded(CodeSize) <==> status == 413 && error == Some("code_size"))
      && (m == Coded(CapabilityDenied) <==> status == 503 && error in {Some("executor_disabled"), Some("run_server_script_disabled")})
      && (m == Coded(InstanceHibernating) <==> status >= 500 && m != Coded(CapabilityDenied))
      && (m == Coded(PathDenied) <==> 400 <= status <= 499 && status !in {401, 403, 404, 429} && m != Coded(CodeSize))
      && (m == Coded(InternalError) <==> status < 200 || 300 <= status <= 399)
  {
  }
}

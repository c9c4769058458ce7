/** One request to the in-instance executor: x_mcp_executor.js and execute of x_mcp_verify.js, in the
    order of the code, and what the host makes of the answer. */
module Executor {
  import opened Utf8
  import opened Wrappers
  import MG = MutationGuard
  import SendPath

  type Text = string

  /** What evaluating the script yields: a thrown value as text, the serialized result (absent for
      null or undefined), and what JSON.stringify threw. */
  datatype ScriptRun = ScriptRun(thrown: Option<Text>, serialized: Option<Utf16>, unserializable: Option<Text>)

  /** What the instance answers on the way. A property that is not a number is None. */
  datatype Instance = Instance(
    auditInserted: bool, enabled: bool, runServerScriptEnabled: bool,
    maxBytes: Option<int>, maxOutputBytes: Option<int>,
    verifyThrows: bool, verified: bool, nonceInserted: bool, claimInserted: bool,
    verifiedAgain: bool, proofRows: bool, script: ScriptRun)

  datatype AuditStatus = NoRow | Killed | Rejected | Errored | Ok | Truncated

  datatype Response = Response(status: int, error: Option<Text>, result: Option<Utf16>, sample: Option<Utf16>)

  /** The answer, the status and error class of the closed audit row, and whether the script ran. */
  datatype Processed = Processed(response: Response, audit: AuditStatus, errorClass: Text, evaluated: bool)

  function Failure(status: int, error: Text): Response { Response(status, Some(error), None, None) }

  /** The error text of execute: an empty text counts as no error. */
  function ScriptError(run: ScriptRun): Option<Text> {
    if run.thrown.Some? && run.thrown.value != "" then run.thrown
    else if run.unserializable.Some? then Some("unserializable: " + run.unserializable.value)
    else None
  }

  /** The two error texts by which the wrapper recognises a refusal of execute. */
  predicate Sentinel(error: Option<Text>) {
    error == Some("actor_signature_invalid") || error == Some("capability_required")
  }

  function Limit(property: Option<int>, default: int): int { if property.Some? then property.value else default }

  /** No unit fits below one byte, so a negative cap slices like 0. */
  function AtLeast0(n: int): nat { if n < 0 then 0 else n }

  predicate SizeOk(code: Utf16, env: Instance) { 0 < WidthSum(code) <= Limit(env.maxBytes, 32768) }

  /** The audit row exists and both switches are on. */
  predicate Switched(env: Instance) { env.auditInserted && env.enabled && env.runServerScriptEnabled }

  /** Every gate before evaluation. */
  predicate Evaluates(code: Utf16, nonce: Utf16, env: Instance) {
    && Switched(env) && SizeOk(code, env)
    && !env.verifyThrows && env.verified && nonce != [] && env.nonceInserted && env.claimInserted
    && env.verifiedAgain && env.proofRows
  }

  /** The error class of a request that is well sized but not evaluated: why it was not. */
  function WhyRefused(nonce: Utf16, env: Instance): Text {
    if env.verifyThrows then "verify_failed"
    else if env.verified && nonce != [] && !env.nonceInserted then "nonce_replay"
    else if env.verified && nonce != [] && (!env.claimInserted || (env.verifiedAgain && !env.proofRows)) then "capability_required"
    else "actor_signature_invalid"
  }

  /** err.split(':')[0] */
  function BeforeColon(s: Text): Text { if s == "" || s[0] == ':' then "" else [s[0]] + BeforeColon(s[1..]) }

  /** The answer for a script that was evaluated. */
  predicate AnswersRun(run: ScriptRun, maxOutput: int, r: Response, audit: AuditStatus, errorClass: Text) {
    var err := ScriptError(run);
    var text := if run.unserializable.Some? then None else run.serialized;
    if Sentinel(err) then
      r == Failure(401, "actor_signature_invalid") && audit == Rejected && errorClass == err.value
    else if text.Some? && text.value != [] && WidthSum(text.value) > maxOutput then
      && r == Response(200, err, None, Some(text.value[..UnitsFitting(text.value, AtLeast0(maxOutput))]))
      && audit == (if err.None? then Truncated else Errored)
      && errorClass == ClassOf(err)
    else
      && r == Response(if err.None? then 200 else 500, err, if err.None? then text else None, None)
      && audit == (if err.None? then Ok else Errored)
      && errorClass == ClassOf(err)
  }

  function ClassOf(err: Option<Text>): Text { if err.Some? then BeforeColon(err.value) else "" }

  lemma UnserializableIsNoSentinel(run: ScriptRun)
    ensures run.unserializable.Some? ==> !Sentinel(Some("unserializable: " + run.unserializable.value))
  {
    if run.unserializable.Some? {
      assert ("unserializable: " + run.unserializable.value)[0] == 'u';
    }
  }

  method Execute(env: Instance) returns (serialized: Option<Utf16>, err: Option<Text>, evaluated: bool)
    ensures evaluated <==> env.verifiedAgain && env.proofRows
    ensures !evaluated ==> err == Some(if env.verifiedAgain then "capability_required" else "actor_signature_invalid")
    ensures evaluated ==> err == ScriptError(env.script) && serialized == if env.script.unserializable.Some? then None else env.script.serialized
  {
    if !env.verifiedAgain {
      return None, Some("actor_signature_invalid"), false;
    }
    if !env.proofRows {
      return None, Some("capability_required"), false;
    }
    err := if env.script.thrown.Some? && env.script.thrown.value != "" then env.script.thrown else None;
    serialized := env.script.serialized;
    if env.script.unserializable.Some? {
      if err.None? {
        err := Some("unserializable: " + env.script.unserializable.value);
      }
      serialized := None;
    }
    evaluated := true;
  }

  /** The script is evaluated exactly when every gate passed; otherwise the closed audit row says which
      gate did not, though every gate from verification on answers alike. */
  method Process(code: Utf16, nonce: Utf16, env: Instance) returns (p: Processed)
    ensures p.evaluated <==> Evaluates(code, nonce, env)
    ensures !env.auditInserted ==> p == Processed(Failure(500, "audit_unavailable"), NoRow, "", false)
    ensures env.auditInserted && !env.enabled ==> p == Processed(Failure(503, "executor_disabled"), Killed, "", false)
    ensures env.auditInserted && env.enabled && !env.runServerScriptEnabled ==>
      p == Processed(Failure(503, "run_server_script_disabled"), Killed, "egress_disabled", false)
    ensures Switched(env) && !SizeOk(code, env) ==> p == Processed(Failure(413, "code_size"), Errored, "code_size", false)
    ensures Switched(env) && SizeOk(code, env) && !Evaluates(code, nonce, env) ==>
      p == Processed(Failure(401, "actor_signature_invalid"), Rejected, WhyRefused(nonce, env), false)
    ensures p.evaluated ==> AnswersRun(env.script, Limit(env.maxOutputBytes, 65536), p.response, p.audit, p.errorClass)
    ensures p.evaluated <==>
      && env.auditInserted && env.enabled && env.runServerScriptEnabled
      && 0 < WidthSum(code) <= (if env.maxBytes.Some? then env.maxBytes.value else 32_768)
      && !env.verifyThrows && env.verified && nonce != [] && env.nonceInserted && env.claimInserted && env.verifiedAgain && env.proofRows
    ensures p.evaluated && env.script.thrown in {Some("actor_signature_invalid"), Some("capability_required")} ==>
      p.response == Failure(401, "actor_signature_invalid") && p.audit == Rejected && p.errorClass == env.script.thrown.value
    ensures p.evaluated && env.script.thrown in {None, Some("")} && env.script.unserializable.None? ==>
      var cap := if env.maxOutputBytes.Some? then env.maxOutputBytes.value else 65_536;
      && p.errorClass == ""
      && if env.script.serialized.Some? && env.script.serialized.value != [] && WidthSum(env.script.serialized.value) > cap then
           && p.response.status == 200 && p.response.error == None && p.response.result == None && p.audit == Truncated
           && p.response.sample == Some(env.script.serialized.value[..UnitsFitting(env.script.serialized.value, if cap < 0 then 0 else cap)])
         else p.response == Response(200, None, env.script.serialized, None) && p.audit == Ok
    ensures p.evaluated && env.script.thrown !in {None, Some(""), Some("actor_signature_invalid"), Some("capability_required")} ==>
      && p.response.error == env.script.thrown && p.response.result == None && p.audit == Errored
      && (p.response.status == 500 <==> p.response.sample == None) && p.response.status in {200, 500}
    ensures p.evaluated && env.script.thrown in {None, Some("")} && env.script.unserializable.Some? ==>
      p.response == Failure(500, "unserializable: " + env.script.unserializable.value) && p.audit == Errored
  {
    UnserializableIsNoSentinel(env.script);
    var codeBytes := Utf8Len(code);
    if !env.auditInserted {
      return Processed(Failure(500, "audit_unavailable"), NoRow, "", false);
    }
    if !env.enabled {
      return Processed(Failure(503, "executor_disabled"), Killed, "", false);
    }
    if !env.runServerScriptEnabled {
      return Processed(Failure(503, "run_server_script_disabled"), Killed, "egress_disabled", false);
    }
    var maxB := if env.maxBytes.Some? then env.maxBytes.value else 32768;
    if codeBytes == 0 || codeBytes > maxB {
      return Processed(Failure(413, "code_size"), Errored, "code_size", false);
    }
    var unauthorized := Failure(401, "actor_signature_invalid");
    if env.verifyThrows {
      return Processed(unauthorized, Rejected, "verify_failed", false);
    }
    if !env.verified || nonce == [] {
      return Processed(unauthorized, Rejected, "actor_signature_invalid", false);
    }
    if !env.nonceInserted {
      return Processed(unauthorized, Rejected, "nonce_replay", false);
    }
    if !env.claimInserted {
      return Processed(unauthorized, Rejected, "capability_required", false);
    }
    var serialized, err, evaluated := Execute(env);
    if err == Some("actor_signature_invalid") || err == Some("capability_required") {
      return Processed(unauthorized, Rejected, err.value, evaluated);
    }
    var errorClass := ClassOf(err);
    var status := if err.Some? then Errored else Ok;
    var maxOut := if env.maxOutputBytes.Some? then env.maxOutputBytes.value else 65536;
    if serialized.Some? && serialized.value != [] {
      var bytes := Utf8Len(serialized.value);
      if bytes > maxOut {
        var sample := Utf8Slice(serialized.value, AtLeast0(maxOut));
        return Processed(Response(200, err, None, Some(sample)), if status == Ok then Truncated else status, errorClass, evaluated);
      }
    }
    p := Processed(Response(if err.Some? then 500 else 200, err, if err.Some? then None else serialized, None), status, errorClass, evaluated);
  }

  const REFUSALS := [
    Failure(500, "audit_unavailable"), Failure(503, "executor_disabled"), Failure(503, "run_server_script_disabled"),
    Failure(413, "code_size"), Failure(401, "actor_signature_invalid")]

  // ---------------------------------------------------------------- what the host makes of it

  function Mapped(r: Response): Option<MG.Thrown> { SendPath.Mapped(r.status, r.error) }

  /** The host takes the answer for a failure that certainly had no effect. */
  predicate ReadAsClean(r: Response) { Mapped(r).Some? && !MG.IsPostSendUnknown(Mapped(r).value) }

  /** A clean answer means the script was not evaluated, with exactly one exception: a script that
      itself throws one of the two refusal texts. */
  lemma CleanUnlessSentinelThrown(run: ScriptRun, maxOutput: int, r: Response, audit: AuditStatus, errorClass: Text)
    requires AnswersRun(run, maxOutput, r, audit, errorClass)
    ensures ReadAsClean(r) <==> run.thrown == Some("actor_signature_invalid") || run.thrown == Some("capability_required")
  {
    UnserializableIsNoSentinel(run);
  }

  /** Every refusal but the failed audit insert is read as clean, so a retry is not blocked. */
  lemma RefusalsAreClean(r: Response)
    requires r in REFUSALS
    ensures ReadAsClean(r) <==> r != Failure(500, "audit_unavailable")
  {
  }
}

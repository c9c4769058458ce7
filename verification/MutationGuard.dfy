/** sn/mutation-guard.ts: guardMutation as a machine that waits at each await, and as the ordered
    code itself, proved to follow that machine. sn/rpc.ts: isPostSendUnknown. */
module MutationGuard {
  import opened ReplayPayload
  import opened MutationLedger
  import opened Wrappers

  datatype ErrorCode =
    | CapabilityDenied | ModeNotPermitted | ActorPolicyDenied | TableNotFound | BudgetExceeded
    | PathDenied | PreconditionRequired | IdempotencyConflict | InstanceHibernating | ReauthRequired
    | ExecutorDisabled | RunServerScriptDisabled | ActorSignatureInvalid | CodeSize | TranspileError
    | Timeout | RunError | InternalError

  /** A thrown value: a typed tool error with its detail.dimension, or anything else. */
  datatype Thrown = ToolError(code: ErrorCode, dimension: Option<string>) | OtherThrow

  /** Whether an effect that threw this may still have been applied. */
  predicate IsPostSendUnknown(err: Thrown) {
    match err
    case OtherThrow => true
    case ToolError(code, dimension) =>
      if code == BudgetExceeded && (dimension == Some("outboundBytesSent") || dimension == Some("serviceNowRequests"))
      then false
      else match code
        case ReauthRequired | ActorPolicyDenied | CapabilityDenied | TableNotFound
           | PathDenied | PreconditionRequired | CodeSize => false
        case _ => true
  }

  datatype Config = Config(durabilityRequired: bool, mutationFreeze: bool, hasRunKey: bool, hasLedger: bool, hasAudit: bool)

  datatype Outcome = Executed(result: Json) | Replayed(stored: Option<Json>) | Threw(err: Thrown)

  /** Where one call of guardMutation waits. */
  datatype Pc =
    | Fresh
    | BeginSent
    | ReplayGate(stored: Option<Json>)
    | Preflight
    | Snapshot
    | IntentWrite
    | EffectSent
    | DenyFail(err: Thrown)          // ledger.fail() on a denial path
    | DenialWrite(err: Thrown)       // best-effort denied row
    | CloseSent(close: Close, reported: Outcome)
    | OutcomeWrite(reported: Outcome)    // best-effort ok or error row
    | Finished(out: Outcome)

  /** What an await resolves to. */
  datatype Event =
    | Begun                          // the call starts
    | BeginAnswered(answer: BeginResult)
    | LedgerAnswered                 // fail, complete or markIndeterminate resolved
    | LedgerThrew(err: Thrown)       // any ledger call rejected
    | GateOk
    | GateThrew(err: Thrown)         // preflight, replayPreflight or snapshot
    | AuditOk
    | AuditThrew
    | EffectOk(result: Json)
    | EffectThrew(err: Thrown)

  const AUDIT_FAILED := ToolError(InternalError, None)

  /** Denials leave a row only when a sink is configured. */
  function Deny(cfg: Config, err: Thrown): Pc {
    if cfg.hasAudit then DenialWrite(err) else Finished(Threw(err))
  }

  function CleanAndDeny(cfg: Config, err: Thrown): Pc {
    if cfg.hasLedger then DenyFail(err) else Deny(cfg, err)
  }

  function Settle(cfg: Config, close: Close, out: Outcome): Pc {
    if cfg.hasLedger then CloseSent(close, out) else AfterClose(cfg, out)
  }

  function AfterClose(cfg: Config, out: Outcome): Pc {
    if cfg.hasAudit then OutcomeWrite(out) else Finished(out)
  }

  function Checked(cfg: Config): Pc {
    if cfg.durabilityRequired && !cfg.hasAudit then Finished(Threw(ToolError(InternalError, None)))
    else if cfg.mutationFreeze || !cfg.hasRunKey then Deny(cfg, ToolError(CapabilityDenied, None))
    else if cfg.durabilityRequired && !cfg.hasLedger then Finished(Threw(ToolError(InternalError, None)))
    else if cfg.hasLedger then BeginSent
    else Preflight
  }

  function SnapshotError(err: Thrown): Thrown {
    if err.ToolError? then err else ToolError(InternalError, None)
  }

  /** The machine: from an await and its answer to the next await. None: that answer cannot arrive. */
  function Advance(cfg: Config, pc: Pc, ev: Event): Option<Pc> {
    match pc
    case Fresh => if ev.Begun? then Some(Checked(cfg)) else None
    case BeginSent =>
      if ev.LedgerThrew? then Some(Finished(Threw(ev.err)))
      else if !ev.BeginAnswered? then None
      else if ev.answer.New? then Some(Preflight)
      else if ev.answer.Replay? then Some(ReplayGate(ev.answer.result))
      else Some(Deny(cfg, ToolError(IdempotencyConflict, None)))
    case ReplayGate(r) =>
      if ev.GateOk? then Some(Finished(Replayed(r)))
      else if ev.GateThrew? then Some(Deny(cfg, ev.err)) else None
    case Preflight =>
      if ev.GateOk? then Some(Snapshot)
      else if ev.GateThrew? then Some(CleanAndDeny(cfg, ev.err)) else None
    case Snapshot =>
      if ev.GateOk? then Some(if cfg.hasAudit then IntentWrite else EffectSent)
      else if ev.GateThrew? then Some(CleanAndDeny(cfg, SnapshotError(ev.err))) else None
    case IntentWrite =>
      if ev.AuditOk? then Some(EffectSent)
      else if ev.AuditThrew? then Some(CleanAndDeny(cfg, AUDIT_FAILED)) else None
    case EffectSent =>
      if ev.EffectOk? then Some(Settle(cfg, Complete(ev.result), Executed(ev.result)))
      else if ev.EffectThrew? then
        Some(Settle(cfg, if IsPostSendUnknown(ev.err) then MarkIndeterminate else Fail, Threw(ev.err)))
      else None
    case DenyFail(e) =>
      if ev.LedgerAnswered? then Some(Deny(cfg, e))
      else if ev.LedgerThrew? then Some(Finished(Threw(ev.err))) else None
    case DenialWrite(e) => if ev.AuditOk? || ev.AuditThrew? then Some(Finished(Threw(e))) else None
    case CloseSent(_, out) => if ev.LedgerAnswered? || ev.LedgerThrew? then Some(AfterClose(cfg, out)) else None
    case OutcomeWrite(out) => if ev.AuditOk? || ev.AuditThrew? then Some(Finished(out)) else None
    case Finished(_) => None
  }

  /** Where a call stands after these answers. */
  function Run(cfg: Config, trace: seq<Event>): Option<Pc> {
    if trace == [] then Some(Fresh)
    else
      match Run(cfg, trace[..|trace| - 1])
      case None => None
      case Some(pc) => Advance(cfg, pc, trace[|trace| - 1])
  }

  // ---------------------------------------------------------------- the code in its own order

  datatype Answer<T> = Resolved(value: T) | Rejected(err: Thrown)

  /** What the callbacks of one call do when they are reached. An absent callback resolves. */
  datatype Callbacks = Callbacks(
    begin: Answer<BeginResult>,
    replayPreflight: Answer<()>,
    preflight: Answer<()>,
    snapshot: Answer<()>,
    intentWritten: bool,
    effect: Answer<Json>,
    closed: Answer<()>,
    rowWritten: bool)

  /** What the callbacks answer where the machine waits. */
  function AnswerAt(cb: Callbacks, pc: Pc): Event {
    match pc
    case Fresh => Begun
    case BeginSent => if cb.begin.Resolved? then BeginAnswered(cb.begin.value) else LedgerThrew(cb.begin.err)
    case ReplayGate(_) => if cb.replayPreflight.Resolved? then GateOk else GateThrew(cb.replayPreflight.err)
    case Preflight => if cb.preflight.Resolved? then GateOk else GateThrew(cb.preflight.err)
    case Snapshot => if cb.snapshot.Resolved? then GateOk else GateThrew(cb.snapshot.err)
    case IntentWrite => if cb.intentWritten then AuditOk else AuditThrew
    case EffectSent => if cb.effect.Resolved? then EffectOk(cb.effect.value) else EffectThrew(cb.effect.err)
    case DenyFail(_) => if cb.closed.Resolved? then LedgerAnswered else LedgerThrew(cb.closed.err)
    case CloseSent(_, _) => if cb.closed.Resolved? then LedgerAnswered else LedgerThrew(cb.closed.err)
    case _ => if cb.rowWritten then AuditOk else AuditThrew
  }

  /** The answer that comes next after these. */
  function Script(cfg: Config, cb: Callbacks): seq<Event> -> Option<Event> {
    trace => if Run(cfg, trace).Some? then Some(AnswerAt(cb, Run(cfg, trace).value)) else None
  }

  /** Every answer came from its own callback. */
  predicate Played(next: seq<Event> -> Option<Event>, trace: seq<Event>) {
    trace == [] || (Played(next, trace[..|trace| - 1]) && next(trace[..|trace| - 1]) == Some(trace[|trace| - 1]))
  }

  lemma {:induction false} PlayedPrefix(next: seq<Event> -> Option<Event>, trace: seq<Event>, k: nat)
    requires Played(next, trace) && k < |trace|
    ensures next(trace[..k]) == Some(trace[k])
  {
    var front := trace[..|trace| - 1];
    if k < |front| {
      PlayedPrefix(next, front, k);
      assert front[..k] == trace[..k];
    }
  }

  lemma {:induction false} PlayedAgree(next: seq<Event> -> Option<Event>, s: seq<Event>, t: seq<Event>)
    requires Played(next, s) && Played(next, t) && |s| <= |t|
    ensures s == t[..|s|]
  {
    if s != [] {
      var n := |s| - 1;
      PlayedAgree(next, s[..n], t);
      PlayedPrefix(next, t, n);
      assert t[..n + 1] == t[..n] + [t[n]] && s == s[..n] + [s[n]];
    }
  }

  /** With given callbacks a call can end in one way only. */
  lemma {:induction false} OutcomeIsDetermined(cfg: Config, cb: Callbacks, s: seq<Event>, t: seq<Event>, a: Outcome, b: Outcome)
    requires Played(Script(cfg, cb), s) && Run(cfg, s) == Some(Finished(a))
    requires Played(Script(cfg, cb), t) && Run(cfg, t) == Some(Finished(b))
    ensures s == t && a == b
  {
    if |s| <= |t| {
      PlayedAgree(Script(cfg, cb), s, t);
      FinishedIsLast(cfg, s, t);
    } else {
      PlayedAgree(Script(cfg, cb), t, s);
      FinishedIsLast(cfg, t, s);
    }
  }

  lemma {:induction false} FinishedIsLast(cfg: Config, s: seq<Event>, t: seq<Event>)
    requires |s| <= |t| && s == t[..|s|] && Run(cfg, s).Some? && Run(cfg, s).value.Finished? && Run(cfg, t).Some?
    ensures s == t
  {
    if |s| < |t| {
      var front := t[..|t| - 1];
      assert front[..|s|] == s && front[..|front|] == front;
      if |s| < |front| {
        FinishedIsLast(cfg, s, front);
      }
    } else {
      assert t[..|s|] == t;
    }
  }

  // ---------------------------------------------------------------- how a call ends

  /** The ledger granted the claim, or none is configured. */
  predicate Granted(cfg: Config, cb: Callbacks) { cfg.hasLedger ==> cb.begin == Resolved(New) }

  /** A denial closes the ledger first, and a rejection of that call is what the caller sees. */
  predicate Denied(cfg: Config, cb: Callbacks, err: Thrown, out: Outcome) {
    out == Threw(if cfg.hasLedger && cb.closed.Rejected? then cb.closed.err else err)
  }

  /** A configuration that admits no call. */
  predicate Refuses(cfg: Config) {
    cfg.mutationFreeze || !cfg.hasRunKey || (cfg.durabilityRequired && !(cfg.hasAudit && cfg.hasLedger))
  }

  /** The outcome of a call by what its callbacks answer. */
  predicate EndsAs(cfg: Config, cb: Callbacks, out: Outcome) {
    && (Refuses(cfg) ==>
          out == Threw(ToolError(
            if cfg.durabilityRequired && (!cfg.hasAudit || (!cfg.mutationFreeze && cfg.hasRunKey)) then InternalError else CapabilityDenied, None)))
    && (!Refuses(cfg) && cfg.hasLedger ==>
          && (cb.begin.Rejected? ==> out == Threw(cb.begin.err))
          && (cb.begin.Resolved? && cb.begin.value.Blocked? ==> out == Threw(ToolError(IdempotencyConflict, None)))
          && (cb.begin.Resolved? && cb.begin.value.Replay? ==>
                out == if cb.replayPreflight.Resolved? then Replayed(cb.begin.value.result) else Threw(cb.replayPreflight.err)))
    && (!Refuses(cfg) && Granted(cfg, cb) ==> EndsMutating(cfg, cb, out))
  }

  predicate EndsMutating(cfg: Config, cb: Callbacks, out: Outcome) {
    && (cb.preflight.Rejected? ==> Denied(cfg, cb, cb.preflight.err, out))
    && (cb.preflight.Resolved? && cb.snapshot.Rejected? ==>
          Denied(cfg, cb, if cb.snapshot.err.ToolError? then cb.snapshot.err else ToolError(InternalError, None), out))
    && (cb.preflight.Resolved? && cb.snapshot.Resolved? ==>
          && (cfg.hasAudit && !cb.intentWritten ==> Denied(cfg, cb, ToolError(InternalError, None), out))
          && (!cfg.hasAudit || cb.intentWritten ==>
                out == if cb.effect.Resolved? then Executed(cb.effect.value) else Threw(cb.effect.err)))
  }

  /** What is known of the callbacks where a call waits. */
  predicate Known(cfg: Config, cb: Callbacks, pc: Pc) {
    match pc
    case Fresh => true
    case BeginSent => !Refuses(cfg) && cfg.hasLedger
    case ReplayGate(r) => !Refuses(cfg) && cfg.hasLedger && cb.begin == Resolved(Replay(r))
    case Preflight => !Refuses(cfg) && Granted(cfg, cb)
    case Snapshot => !Refuses(cfg) && Granted(cfg, cb) && cb.preflight.Resolved?
    case IntentWrite => !Refuses(cfg) && Granted(cfg, cb) && cb.preflight.Resolved? && cb.snapshot.Resolved? && cfg.hasAudit
    case EffectSent =>
      && !Refuses(cfg) && Granted(cfg, cb) && cb.preflight.Resolved? && cb.snapshot.Resolved?
      && (cfg.hasAudit ==> cb.intentWritten)
    case DenyFail(err) => cfg.hasLedger && EndsAs(cfg, cb, Threw(if cb.closed.Rejected? then cb.closed.err else err))
    case DenialWrite(err) => EndsAs(cfg, cb, Threw(err))
    case CloseSent(_, out) => EndsAs(cfg, cb, out)
    case OutcomeWrite(out) => EndsAs(cfg, cb, out)
    case Finished(out) => EndsAs(cfg, cb, out)
  }

  lemma AnswerIsKnown(cfg: Config, cb: Callbacks, pc: Pc)
    requires Known(cfg, cb, pc) && Advance(cfg, pc, AnswerAt(cb, pc)).Some?
    ensures Known(cfg, cb, Advance(cfg, pc, AnswerAt(cb, pc)).value)
  {
  }

  lemma {:induction false} PlayedIsKnown(cfg: Config, cb: Callbacks, trace: seq<Event>)
    requires Played(Script(cfg, cb), trace) && Run(cfg, trace).Some?
    ensures Known(cfg, cb, Run(cfg, trace).value)
  {
    if trace != [] {
      PlayedIsKnown(cfg, cb, trace[..|trace| - 1]);
      AnswerIsKnown(cfg, cb, Run(cfg, trace[..|trace| - 1]).value);
    }
  }

  class GuardedCall {
    const cfg: Config
    const cb: Callbacks
    var trace: seq<Event>
    ghost var pc: Pc

    ghost predicate Valid()
      reads this
    {
      Run(cfg, trace) == Some(pc) && Played(Script(cfg, cb), trace)
    }

    constructor (cfg: Config, cb: Callbacks)
      ensures Valid() && trace == [] && pc == Fresh && this.cfg == cfg && this.cb == cb
    {
      this.cfg, this.cb := cfg, cb;
      trace, pc := [], Fresh;
    }

    /** One await resolves with the answer of its callback; the machine must be waiting for it. */
    method Await(ev: Event)
      requires Valid() && Advance(cfg, pc, ev).Some? && ev == AnswerAt(cb, pc)
      modifies this
      ensures Valid() && Some(pc) == Advance(cfg, old(pc), ev) && trace == old(trace) + [ev]
    {
      assert (trace + [ev])[..|trace|] == trace;
      trace := trace + [ev];
      pc := Advance(cfg, pc, ev).value;
    }

    method EmitRow()
      requires Valid() && (cfg.hasAudit ==> pc.DenialWrite? || pc.OutcomeWrite?)
      modifies this
      ensures Valid()
      ensures if cfg.hasAudit then
          pc == Finished(if old(pc).DenialWrite? then Threw(old(pc).err) else old(pc).reported)
        else pc == old(pc)
    {
      if !cfg.hasAudit { return; }
      Await(if cb.rowWritten then AuditOk else AuditThrew);
    }

    method DenyAndThrow(err: Thrown) returns (out: Outcome)
      requires Valid() && pc == CleanAndDeny(cfg, err)
      modifies this
      ensures Valid() && pc == Finished(out)
      ensures out == Threw(if cfg.hasLedger && cb.closed.Rejected? then cb.closed.err else err)
    {
      if cfg.hasLedger {
        if cb.closed.Rejected? {
          Await(LedgerThrew(cb.closed.err));
          return Threw(cb.closed.err);
        }
        Await(LedgerAnswered);
      }
      EmitRow();
      out := Threw(err);
    }

    /** guardMutation, branch by branch. */
    method GuardMutation() returns (out: Outcome)
      requires Valid() && pc == Fresh
      modifies this
      ensures Valid() && pc == Finished(out)
      ensures cfg.durabilityRequired && !cfg.hasAudit ==> out == Threw(ToolError(InternalError, None))
      ensures (cfg.durabilityRequired ==> cfg.hasAudit) && (cfg.mutationFreeze || !cfg.hasRunKey) ==>
        out == Threw(ToolError(CapabilityDenied, None))
      ensures cfg.durabilityRequired && !cfg.hasLedger && cfg.hasAudit && !cfg.mutationFreeze && cfg.hasRunKey ==>
        out == Threw(ToolError(InternalError, None))
      ensures out.Executed? ==>
        && !cfg.mutationFreeze && cfg.hasRunKey && (cfg.durabilityRequired ==> cfg.hasAudit && cfg.hasLedger)
        && (cfg.hasLedger ==> cb.begin == Resolved(New)) && cb.preflight.Resolved? && cb.snapshot.Resolved?
        && (cfg.hasAudit ==> cb.intentWritten) && cb.effect == Resolved(out.result)
      ensures out.Replayed? ==> cfg.hasLedger && cb.begin == Resolved(Replay(out.stored)) && cb.replayPreflight.Resolved?
      ensures !Refuses(cfg) && cfg.hasLedger && cb.begin.Rejected? ==> out == Threw(cb.begin.err)
      ensures !Refuses(cfg) && cfg.hasLedger && cb.begin.Resolved? && cb.begin.value.Blocked? ==>
        out == Threw(ToolError(IdempotencyConflict, None))
      ensures !Refuses(cfg) && cfg.hasLedger && cb.begin.Resolved? && cb.begin.value.Replay? && cb.replayPreflight.Rejected? ==>
        out == Threw(cb.replayPreflight.err)
      ensures out.Threw? && !Refuses(cfg) && Granted(cfg, cb) && (!cfg.hasLedger || cb.closed.Resolved?) ==>
        if cb.preflight.Rejected? then out.err == cb.preflight.err
        else if cb.snapshot.Rejected? then
          out.err == if cb.snapshot.err.ToolError? then cb.snapshot.err else ToolError(InternalError, None)
        else if cfg.hasAudit && !cb.intentWritten then out.err == ToolError(InternalError, None)
        else cb.effect == Rejected(out.err)
      ensures out.Threw? && !Refuses(cfg) && Granted(cfg, cb) && cfg.hasLedger && cb.closed.Rejected? ==>
        if cb.preflight.Resolved? && cb.snapshot.Resolved? && (cfg.hasAudit ==> cb.intentWritten) then cb.effect == Rejected(out.err)
        else out.err == cb.closed.err
    {
      out := Guarded();
      PlayedIsKnown(cfg, cb, trace);
    }

    method Guarded() returns (out: Outcome)
      requires Valid() && pc == Fresh
      modifies this
      ensures Valid() && pc == Finished(out)
    {
      Await(Begun);
      if cfg.durabilityRequired && !cfg.hasAudit {
        return Threw(ToolError(InternalError, None));
      }
      if cfg.mutationFreeze {
        EmitRow();
        return Threw(ToolError(CapabilityDenied, None));
      }
      if !cfg.hasRunKey {
        EmitRow();
        return Threw(ToolError(CapabilityDenied, None));
      }
      if cfg.durabilityRequired && !cfg.hasLedger {
        return Threw(ToolError(InternalError, None));
      }
      if cfg.hasLedger {
        if cb.begin.Rejected? {
          Await(LedgerThrew(cb.begin.err));
          return Threw(cb.begin.err);
        }
        var claim := cb.begin.value;
        Await(BeginAnswered(claim));
        if claim.Replay? {
          if cb.replayPreflight.Rejected? {
            Await(GateThrew(cb.replayPreflight.err));
            EmitRow();
            return Threw(cb.replayPreflight.err);
          }
          Await(GateOk);
          return Replayed(claim.result);
        }
        if claim.Blocked? {
          EmitRow();
          return Threw(ToolError(IdempotencyConflict, None));
        }
      }
      out := MutateClaimed();
    }

    /** Steps 2 to 6: the claim is held. */
    method MutateClaimed() returns (out: Outcome)
      requires Valid() && pc == Preflight
      modifies this
      ensures Valid() && pc == Finished(out)
      ensures cb.preflight.Rejected? ==> Denied(cfg, cb, cb.preflight.err, out)
      ensures cb.preflight.Resolved? && cb.snapshot.Rejected? ==>
        Denied(cfg, cb, if cb.snapshot.err.ToolError? then cb.snapshot.err else ToolError(InternalError, None), out)
      ensures cb.preflight.Resolved? && cb.snapshot.Resolved? && cfg.hasAudit && !cb.intentWritten ==>
        Denied(cfg, cb, ToolError(InternalError, None), out)
      ensures cb.preflight.Resolved? && cb.snapshot.Resolved? && (cfg.hasAudit ==> cb.intentWritten) ==>
        out == if cb.effect.Resolved? then Executed(cb.effect.value) else Threw(cb.effect.err)
    {
      if cb.preflight.Rejected? {
        Await(GateThrew(cb.preflight.err));
        out := DenyAndThrow(cb.preflight.err);
        return;
      }
      Await(GateOk);
      if cb.snapshot.Rejected? {
        Await(GateThrew(cb.snapshot.err));
        out := DenyAndThrow(SnapshotError(cb.snapshot.err));
        return;
      }
      Await(GateOk);
      if cfg.hasAudit {
        if !cb.intentWritten {
          Await(AuditThrew);
          out := DenyAndThrow(AUDIT_FAILED);
          return;
        }
        Await(AuditOk);
      }
      if cb.effect.Rejected? {
        Await(EffectThrew(cb.effect.err));
        AwaitClose();
        EmitRow();
        return Threw(cb.effect.err);
      }
      Await(EffectOk(cb.effect.value));
      AwaitClose();
      EmitRow();
      out := Executed(cb.effect.value);
    }

    /** The closing call after an effect: its rejection is logged and swallowed. */
    method AwaitClose()
      requires Valid() && (cfg.hasLedger ==> pc.CloseSent?)
      modifies this
      ensures Valid() && pc == if cfg.hasLedger then AfterClose(cfg, old(pc).reported) else old(pc)
    {
      if cfg.hasLedger {
        Await(if cb.closed.Resolved? then LedgerAnswered else LedgerThrew(cb.closed.err));
      }
    }
  }

  // ---------------------------------------------------------------- order within one call

  /** The call gets past its configuration checks. */
  predicate Wired(cfg: Config) {
    !cfg.mutationFreeze && cfg.hasRunKey && (cfg.durabilityRequired ==> cfg.hasAudit && cfg.hasLedger)
  }

  /** The one way to the preflight gate: checks passed, and a claim granted when there is a ledger. */
  function ToPreflight(cfg: Config): seq<Event> {
    if cfg.hasLedger then [Begun, BeginAnswered(New)] else [Begun]
  }

  /** The one way to the effect. */
  function ToEffect(cfg: Config): seq<Event> {
    if cfg.hasAudit then ToPreflight(cfg) + [GateOk] + [GateOk] + [AuditOk]
    else ToPreflight(cfg) + [GateOk] + [GateOk]
  }

  lemma LastStep(cfg: Config, trace: seq<Event>, ev: Event)
    ensures Run(cfg, trace + [ev]) ==
      match Run(cfg, trace) case None => None case Some(pc) => Advance(cfg, pc, ev)
  {
    assert (trace + [ev])[..|trace|] == trace;
  }

  lemma Unfold(cfg: Config, trace: seq<Event>) returns (front: seq<Event>, ev: Event)
    requires trace != []
    ensures trace == front + [ev]
    ensures Run(cfg, trace) == match Run(cfg, front) case None => None case Some(pc) => Advance(cfg, pc, ev)
  {
    front, ev := trace[..|trace| - 1], trace[|trace| - 1];
  }

  lemma FreshReached(cfg: Config, trace: seq<Event>)
    ensures Run(cfg, trace) == Some(Fresh) <==> trace == []
  {
    if trace != [] {
      var _, _ := Unfold(cfg, trace);
    }
  }

  lemma BeginReached(cfg: Config, trace: seq<Event>)
    ensures Run(cfg, trace) == Some(BeginSent) <==> Wired(cfg) && cfg.hasLedger && trace == [Begun]
  {
    LastStep(cfg, [], Begun);
    if trace != [] {
      var front, _ := Unfold(cfg, trace);
      FreshReached(cfg, front);
    }
  }

  lemma ToPreflightReaches(cfg: Config)
    requires Wired(cfg)
    ensures Run(cfg, ToPreflight(cfg)) == Some(Preflight)
  {
    LastStep(cfg, [], Begun);
    LastStep(cfg, [Begun], BeginAnswered(New));
  }

  lemma PreflightReached(cfg: Config, trace: seq<Event>)
    ensures Run(cfg, trace) == Some(Preflight) <==> Wired(cfg) && trace == ToPreflight(cfg)
  {
    if Wired(cfg) && trace == ToPreflight(cfg) {
      ToPreflightReaches(cfg);
    } else if trace != [] {
      var front, _ := Unfold(cfg, trace);
      FreshReached(cfg, front);
      BeginReached(cfg, front);
    }
  }

  lemma ToSnapshotReaches(cfg: Config)
    requires Wired(cfg)
    ensures Run(cfg, ToPreflight(cfg) + [GateOk]) == Some(Snapshot)
  {
    ToPreflightReaches(cfg);
    LastStep(cfg, ToPreflight(cfg), GateOk);
  }

  lemma SnapshotReached(cfg: Config, trace: seq<Event>)
    ensures Run(cfg, trace) == Some(Snapshot) <==> Wired(cfg) && trace == ToPreflight(cfg) + [GateOk]
  {
    if Wired(cfg) && trace == ToPreflight(cfg) + [GateOk] {
      ToSnapshotReaches(cfg);
    } else if trace != [] {
      var front, _ := Unfold(cfg, trace);
      PreflightReached(cfg, front);
    }
  }

  lemma IntentReached(cfg: Config, trace: seq<Event>)
    ensures Run(cfg, trace) == Some(IntentWrite)
       <==> Wired(cfg) && cfg.hasAudit && trace == ToPreflight(cfg) + [GateOk] + [GateOk]
  {
    if Wired(cfg) && cfg.hasAudit && trace == ToPreflight(cfg) + [GateOk] + [GateOk] {
      ToSnapshotReaches(cfg);
      LastStep(cfg, ToPreflight(cfg) + [GateOk], GateOk);
    } else if trace != [] {
      var front, _ := Unfold(cfg, trace);
      SnapshotReached(cfg, front);
    }
  }

  lemma ToEffectReaches(cfg: Config)
    requires Wired(cfg)
    ensures Run(cfg, ToEffect(cfg)) == Some(EffectSent)
  {
    var gate := ToPreflight(cfg) + [GateOk];
    ToSnapshotReaches(cfg);
    LastStep(cfg, gate, GateOk);
    if cfg.hasAudit {
      LastStep(cfg, gate + [GateOk], AuditOk);
    }
  }

  /** The effect is invoked exactly after: the configuration admits the call, the ledger granted
      the claim, preflight and snapshot passed, and the intent row was written; in that order. */
  lemma EffectReachedExactlyAfter(cfg: Config, trace: seq<Event>)
    ensures Run(cfg, trace) == Some(EffectSent) <==> Wired(cfg) && trace == ToEffect(cfg)
  {
    if Wired(cfg) && trace == ToEffect(cfg) {
      ToEffectReaches(cfg);
    } else if trace != [] {
      var front, _ := Unfold(cfg, trace);
      SnapshotReached(cfg, front);
      IntentReached(cfg, front);
    }
  }

  // ---------------------------------------------------------------- what a call returns

  /** The closing call is answered, either way, and the outcome row too. */
  predicate Closes(cfg: Config, tail: seq<Event>) {
    && |tail| == (if cfg.hasLedger then 1 else 0) + (if cfg.hasAudit then 1 else 0)
    && (cfg.hasLedger ==> tail[0].LedgerAnswered? || tail[0].LedgerThrew?)
    && (cfg.hasAudit ==> tail[|tail| - 1].AuditOk? || tail[|tail| - 1].AuditThrew?)
  }

  /** The trace up to the effect, its answer, and the closing. */
  predicate EffectAnswered(cfg: Config, trace: seq<Event>, ev: Event) {
    Through(cfg, trace, ev) && Closes(cfg, trace[|ToEffect(cfg)| + 1..])
  }

  /** Where a call stands that will return this result. */
  predicate Returning(pc: Pc, v: Json) {
    pc == Finished(Executed(v)) || pc == OutcomeWrite(Executed(v)) || (pc.CloseSent? && pc.reported == Executed(v))
  }

  /** How far the closing has come. */
  predicate ClosedUpTo(cfg: Config, tail: seq<Event>, pc: Pc) {
    match pc
    case CloseSent(_, _) => cfg.hasLedger && tail == []
    case OutcomeWrite(_) => cfg.hasAudit && Closes(cfg.(hasAudit := false), tail)
    case _ => Closes(cfg, tail)
  }

  lemma ReturningBefore(cfg: Config, pc: Pc, ev: Event, v: Json)
    requires Advance(cfg, pc, ev).Some? && Returning(Advance(cfg, pc, ev).value, v)
    ensures (pc.EffectSent? && ev == EffectOk(v) && ClosedUpTo(cfg, [], Advance(cfg, pc, ev).value)) || Returning(pc, v)
  {
  }

  lemma ClosedOneMore(cfg: Config, pc: Pc, ev: Event, v: Json, tail: seq<Event>)
    requires Returning(pc, v) && ClosedUpTo(cfg, tail, pc) && Advance(cfg, pc, ev).Some?
    ensures ClosedUpTo(cfg, tail + [ev], Advance(cfg, pc, ev).value)
  {
  }

  /** The trace goes up to the effect and on with this answer. */
  predicate Through(cfg: Config, trace: seq<Event>, ev: Event) {
    |ToEffect(cfg)| < |trace| && trace[..|ToEffect(cfg)|] == ToEffect(cfg) && trace[|ToEffect(cfg)|] == ev
  }

  lemma ThroughExtends(cfg: Config, trace: seq<Event>, ev: Event, last: Event)
    requires Through(cfg, trace, ev)
    ensures Through(cfg, trace + [last], ev)
    ensures (trace + [last])[|ToEffect(cfg)| + 1..] == trace[|ToEffect(cfg)| + 1..] + [last]
  {
    var n := |ToEffect(cfg)|;
    assert (trace + [last])[..n] == trace[..n];
  }

  lemma {:induction false} ReturningReached(cfg: Config, trace: seq<Event>, v: Json)
    requires Run(cfg, trace).Some? && Returning(Run(cfg, trace).value, v)
    ensures Wired(cfg) && Through(cfg, trace, EffectOk(v))
    ensures ClosedUpTo(cfg, trace[|ToEffect(cfg)| + 1..], Run(cfg, trace).value)
  {
    var front, ev := Unfold(cfg, trace);
    var pc := Run(cfg, front).value;
    ReturningBefore(cfg, pc, ev, v);
    if Returning(pc, v) {
      ReturningReached(cfg, front, v);
      ClosedOneMore(cfg, pc, ev, v, front[|ToEffect(cfg)| + 1..]);
      ThroughExtends(cfg, front, EffectOk(v), ev);
    } else {
      EffectReachedExactlyAfter(cfg, front);
      assert trace[..|ToEffect(cfg)|] == front && trace[|ToEffect(cfg)| + 1..] == [];
    }
  }

  /** What an answered closing makes of a call that has its result. */
  lemma ClosingReturns(cfg: Config, sent: seq<Event>, tail: seq<Event>, v: Json)
    requires Run(cfg, sent) == Some(Settle(cfg, Complete(v), Executed(v))) && Closes(cfg, tail)
    ensures Run(cfg, sent + tail) == Some(Finished(Executed(v)))
  {
    if tail == [] {
      assert sent + tail == sent;
    } else {
      LastStep(cfg, sent, tail[0]);
      if |tail| == 1 {
        assert tail == [tail[0]];
      } else {
        LastStep(cfg, sent + [tail[0]], tail[1]);
        assert sent + tail == sent + [tail[0]] + [tail[1]];
      }
    }
  }

  lemma EffectReturns(cfg: Config, trace: seq<Event>, v: Json)
    requires Wired(cfg) && EffectAnswered(cfg, trace, EffectOk(v))
    ensures Run(cfg, trace) == Some(Finished(Executed(v)))
  {
    var n := |ToEffect(cfg)|;
    ToEffectReaches(cfg);
    LastStep(cfg, ToEffect(cfg), EffectOk(v));
    assert trace == (ToEffect(cfg) + [EffectOk(v)]) + trace[n + 1..];
    ClosingReturns(cfg, ToEffect(cfg) + [EffectOk(v)], trace[n + 1..], v);
  }

  /** A call returns a result of its own exactly when it reached the effect and the effect returned that. */
  lemma ExecutedExactly(cfg: Config, trace: seq<Event>, v: Json)
    ensures Run(cfg, trace) == Some(Finished(Executed(v))) <==> Wired(cfg) && EffectAnswered(cfg, trace, EffectOk(v))
  {
    if Run(cfg, trace) == Some(Finished(Executed(v))) {
      ReturningReached(cfg, trace, v);
    } else if Wired(cfg) && EffectAnswered(cfg, trace, EffectOk(v)) {
      EffectReturns(cfg, trace, v);
    }
  }

  lemma ToGateReaches(cfg: Config, r: Option<Json>)
    requires Wired(cfg) && cfg.hasLedger
    ensures Run(cfg, [Begun] + [BeginAnswered(Replay(r))]) == Some(ReplayGate(r))
  {
    LastStep(cfg, [], Begun);
    LastStep(cfg, [Begun], BeginAnswered(Replay(r)));
  }

  lemma GateReached(cfg: Config, trace: seq<Event>, r: Option<Json>)
    ensures Run(cfg, trace) == Some(ReplayGate(r)) <==> Wired(cfg) && cfg.hasLedger && trace == [Begun] + [BeginAnswered(Replay(r))]
  {
    if Wired(cfg) && cfg.hasLedger && trace == [Begun] + [BeginAnswered(Replay(r))] {
      ToGateReaches(cfg, r);
    } else if trace != [] {
      var front, _ := Unfold(cfg, trace);
      BeginReached(cfg, front);
    }
  }

  /** It returns a stored result exactly when begin replayed that and the replay gate passed. */
  lemma ReplayedExactly(cfg: Config, trace: seq<Event>, r: Option<Json>)
    ensures Run(cfg, trace) == Some(Finished(Replayed(r))) <==>
      Wired(cfg) && cfg.hasLedger && trace == [Begun, BeginAnswered(Replay(r)), GateOk]
  {
    var gate := [Begun] + [BeginAnswered(Replay(r))];
    assert [Begun, BeginAnswered(Replay(r)), GateOk] == gate + [GateOk];
    if Wired(cfg) && cfg.hasLedger && trace == gate + [GateOk] {
      ToGateReaches(cfg, r);
      LastStep(cfg, gate, GateOk);
    } else if trace != [] {
      var front, _ := Unfold(cfg, trace);
      GateReached(cfg, front, r);
      NeverReplayedLater(cfg, front, r);
    }
  }

  /** No wait but the replay gate reports a replay. */
  lemma {:induction false} NeverReplayedLater(cfg: Config, trace: seq<Event>, r: Option<Json>)
    ensures Run(cfg, trace).Some? ==>
      && Run(cfg, trace).value != OutcomeWrite(Replayed(r))
      && (Run(cfg, trace).value.CloseSent? ==> Run(cfg, trace).value.reported != Replayed(r))
  {
    if trace != [] {
      var front, _ := Unfold(cfg, trace);
      NeverReplayedLater(cfg, front, r);
    }
  }

  /** Where a wait before the effect can be. */
  predicate BeforeEffect(pc: Pc) {
    pc.Fresh? || pc.BeginSent? || pc.Preflight? || pc.Snapshot? || pc.IntentWrite?
  }
}

/** Any number of guarded attempts share one ledger object. Attempts may crash at any await, ledger
    calls may be lost or land late, and an effect whose outcome is unknown may be applied late.

    Each attempt follows the machine of MutationGuard and the ledger applies the operations of
    MutationLedger. Hypotheses: the transport delivers a message at most once; an effect request is
    applied at most once, and not after it was answered with its result or with an error that
    isPostSendUnknown calls clean. That such an error means the effect was not applied is not assumed:
    an effect that was applied although its error was called clean is misclassified. */
module Attempts {
  import opened ReplayPayload
  import opened MutationLedger
  import opened MutationGuard
  import opened Wrappers

  type Id = nat

  datatype Attempt = Attempt(requestHash: string, cfg: Config, pc: Pc, day: int, alive: bool)

  datatype Msg = BeginMsg(id: Id) | CloseMsg(id: Id, close: Close)

  datatype RowStatus = IntentRow | OkRow | ErrorRow | DeniedRow

  /** The audit key is (day, request id, ordinal); one attempt is one request id and ordinal. */
  datatype Row = Row(id: Id, day: int, status: RowStatus)

  /** A completed record that was dropped: whose it was, when it completed, when it was dropped. */
  datatype Expiry = Expiry(owner: Id, completedAt: int, at: int)

  datatype World = World(
    rec: Option<Stored>,
    attempts: map<Id, Attempt>,
    mail: set<Msg>,
    replies: map<Id, BeginResult>,
    inFlight: set<Id>,            // effect requests that may still be applied
    applied: seq<Id>,             // effects applied, in order
    audit: seq<Row>,              // rows written, in order
    // history
    owner: Option<Id>,            // whose begin created the current record
    landed: set<Id>,              // attempts whose closing call reached the ledger
    invoked: set<Id>,
    returned: map<Id, Json>,
    threw: set<Id>,
    completedAt: map<Id, int>,
    expiries: seq<Expiry>,
    misclassified: set<Id>)

  const INIT := World(None, map[], {}, map[], {}, [], [], None, {}, {}, map[], {}, map[], [], {})

  datatype Step =
    | Spawn(id: Id, requestHash: string, cfg: Config, day: int)
    | Resume(id: Id, ev: Event, rowLanded: bool, today: int)
    | Deliver(msg: Msg, at: int)
    | Lose(msg: Msg)
    | Read(at: int)               // status or alarm
    | Apply(id: Id)
    | Crash(id: Id)

  /** What the surroundings can answer. */
  predicate Answerable(w: World, id: Id, ev: Event) {
    match ev
    case BeginAnswered(r) => id in w.replies && w.replies[id] == r
    case EffectOk(r) => id in w.applied && IsReplaySafeWrapper(r)
    case _ => true
  }

  predicate Enabled(w: World, step: Step) {
    match step
    case Spawn(id, _, cfg, _) => id !in w.attempts && (cfg.durabilityRequired || cfg.hasLedger)
    case Resume(id, ev, _, _) =>
      id in w.attempts && w.attempts[id].alive &&
      Advance(w.attempts[id].cfg, w.attempts[id].pc, ev).Some? && Answerable(w, id, ev)
    case Deliver(msg, _) => msg in w.mail && msg.id in w.attempts
    case Lose(msg) => msg in w.mail
    case Read(_) => true
    case Apply(id) => id in w.inFlight && id !in w.applied
    case Crash(id) => id in w.attempts
  }

  function Issued(id: Id, pc: Pc): set<Msg> {
    match pc
    case BeginSent => {BeginMsg(id)}
    case DenyFail(_) => {CloseMsg(id, Fail)}
    case CloseSent(close, _) => {CloseMsg(id, close)}
    case _ => {}
  }

  /** The row a wait writes. Intent and outcome rows carry the pinned day, denials the current one. */
  function RowOf(id: Id, a: Attempt, today: int): Row {
    match a.pc
    case IntentWrite => Row(id, a.day, IntentRow)
    case OutcomeWrite(out) => Row(id, a.day, if out.Executed? then OkRow else ErrorRow)
    case _ => Row(id, today, DeniedRow)
  }

  /** An error called clean, of an effect that was applied. */
  predicate Misclassifies(w: World, id: Id, ev: Event) { ev.EffectThrew? && !IsPostSendUnknown(ev.err) && id in w.applied }

  /** The effect request is settled: it will not be applied after this answer. */
  predicate Settles(ev: Event) {
    ev.EffectOk? || (ev.EffectThrew? && !IsPostSendUnknown(ev.err))
  }

  function Resumed(w: World, id: Id, ev: Event, rowLanded: bool, today: int): World
    requires Enabled(w, Resume(id, ev, rowLanded, today))
  {
    var a := w.attempts[id];
    var pc := Advance(a.cfg, a.pc, ev).value;
    w.(attempts := w.attempts[id := a.(pc := pc)],
       mail := w.mail + Issued(id, pc),
       inFlight := if pc.EffectSent? then w.inFlight + {id} else if Settles(ev) then w.inFlight - {id} else w.inFlight,
       invoked := if pc.EffectSent? then w.invoked + {id} else w.invoked,
       returned := if ev.EffectOk? then w.returned[id := ev.result] else w.returned,
       threw := if ev.EffectThrew? then w.threw + {id} else w.threw,
       misclassified := if Misclassifies(w, id, ev) then w.misclassified + {id} else w.misclassified,
       audit := if ev.AuditOk? || (ev.AuditThrew? && rowLanded) then w.audit + [RowOf(id, a, today)] else w.audit)
  }

  /** Reading at this time drops a completed record that is past its retention. */
  predicate Drops(w: World, at: int, lib: JsonText) {
    HasStatus(w.rec, Completed) && AfterRead(w.rec, at, lib).None?
  }

  function Dropped(w: World, at: int, lib: JsonText): seq<Expiry> {
    if Drops(w, at, lib) && w.owner.Some? && w.owner.value in w.completedAt then
      w.expiries + [Expiry(w.owner.value, w.completedAt[w.owner.value], at)]
    else w.expiries
  }

  function Delivered(w: World, msg: Msg, at: int, lib: JsonText): World
    requires Enabled(w, Deliver(msg, at))
  {
    match msg
    case BeginMsg(id) =>
      var (rec, reply) := Begin(w.rec, w.attempts[id].requestHash, at, lib);
      w.(rec := rec, mail := w.mail - {msg}, replies := w.replies[id := reply],
         owner := if reply.New? then Some(id) else w.owner, expiries := Dropped(w, at, lib))
    case CloseMsg(id, close) =>
      w.(rec := Closed(w.rec, close, at, lib), mail := w.mail - {msg}, landed := w.landed + {id},
         completedAt := if close.Complete? then w.completedAt[id := at] else w.completedAt,
         expiries := Dropped(w, at, lib))
  }

  function Next(w: World, step: Step, lib: JsonText): World
    requires Enabled(w, step)
  {
    match step
    case Spawn(id, h, cfg, day) => w.(attempts := w.attempts[id := Attempt(h, cfg, Fresh, day, true)])
    case Resume(id, ev, rowLanded, today) => Resumed(w, id, ev, rowLanded, today)
    case Deliver(msg, at) => Delivered(w, msg, at, lib)
    case Lose(msg) => w.(mail := w.mail - {msg})
    case Read(at) => w.(rec := AfterRead(w.rec, at, lib), expiries := Dropped(w, at, lib))
    case Apply(id) => w.(applied := w.applied + [id])
    case Crash(id) => w.(attempts := w.attempts[id := w.attempts[id].(alive := false)])
  }

  // ---------------------------------------------------------------- invariant

  predicate Claims(w: World, id: Id) { id in w.replies && w.replies[id].New? }

  /** Granted the claim and its closing call has not reached the ledger. */
  predicate Unclosed(w: World, id: Id) { Claims(w, id) && id !in w.landed }

  predicate Open(w: World) { HasStatus(w.rec, Started) || HasStatus(w.rec, Indeterminate) }

  predicate BeforeClose(pc: Pc) {
    BeforeEffect(pc) || pc.ReplayGate? || pc.EffectSent?
  }

  predicate PcOk(w: World, id: Id)
    requires id in w.attempts
  {
    var a := w.attempts[id];
    (a.cfg.durabilityRequired || a.cfg.hasLedger) &&
    (a.pc.Fresh? ==> BeginMsg(id) !in w.mail && id !in w.replies) &&
    (BeforeClose(a.pc) ==> id !in w.landed && id !in w.misclassified && id !in w.returned && forall m :: m in w.mail && m.CloseMsg? ==> m.id != id) &&
    (a.pc.Preflight? || a.pc.Snapshot? || a.pc.IntentWrite? || a.pc.EffectSent? ==> Claims(w, id)) &&
    (BeforeEffect(a.pc) || a.pc.ReplayGate? || a.pc.DenyFail? || a.pc.DenialWrite? ==> id !in w.invoked) &&
    (a.pc.EffectSent? || a.pc.CloseSent? || a.pc.OutcomeWrite? ==> id in w.invoked)
  }

  ghost predicate PcInv(w: World) { forall id: Id :: id in w.attempts ==> PcOk(w, id) }

  /** Nothing refers to an attempt that does not exist; effects follow claims. */
  ghost predicate KnownInv(w: World) { RefersInv(w) && AnswersInv(w) }

  ghost predicate RefersInv(w: World) {
    (forall m :: m in w.mail ==> m.id in w.attempts) &&
    (forall id: Id :: id in w.replies ==> id in w.attempts) &&
    (forall id: Id :: id in w.invoked ==> id in w.attempts && Claims(w, id)) &&
    (forall id: Id :: id in w.landed ==> Claims(w, id)) &&
    (forall id: Id :: id in w.inFlight ==> id in w.invoked) &&
    (forall id: Id :: id in w.applied ==> id in w.invoked)
  }

  ghost predicate AnswersInv(w: World) {
    (forall id: Id :: id in w.returned ==> id in w.invoked) &&
    (forall id: Id :: id in w.misclassified ==> id in w.applied && id !in w.returned)
  }

  predicate MailOk(w: World, m: Msg) {
    match m
    case BeginMsg(id) => id !in w.replies
    case CloseMsg(id, close) =>
      Unclosed(w, id) &&
      (close.Fail? ==> (id in w.applied ==> id in w.misclassified) && id !in w.inFlight) &&
      (close.Complete? ==> id in w.applied && id !in w.inFlight && id in w.returned && w.returned[id] == close.result)
  }

  /** At most one closing call per attempt is ever under way. */
  ghost predicate MailInv(w: World) {
    (forall m :: m in w.mail ==> MailOk(w, m)) &&
    OneClosePerId(w.mail)
  }

  ghost predicate OneClosePerId(mail: set<Msg>) {
    forall m, n :: m in mail && n in mail && m.CloseMsg? && n.CloseMsg? && m.id == n.id ==> m == n
  }

  /** A record is started exactly while one claim is unclosed, and that claim owns it. */
  ghost predicate OwnerInv(w: World) {
    (Open(w) ==> w.owner.Some? && Claims(w, w.owner.value)) &&
    (HasStatus(w.rec, Started) ==> Unclosed(w, w.owner.value)) &&
    (forall id: Id :: id in w.replies && Unclosed(w, id) ==> HasStatus(w.rec, Started) && w.owner == Some(id)) &&
    (forall id: Id :: id in w.inFlight ==> Open(w) && w.owner == Some(id))
  }

  predicate RecordInv(w: World) {
    w.rec.Some? ==>
      w.rec.value.status.Some? && w.rec.value.requestHash.Some? && w.rec.value.expiresAt.Some? &&
      (w.rec.value.status.value == Completed ==>
        w.owner.Some? && w.owner.value in w.completedAt &&
        w.rec.value.expiresAt.value == w.completedAt[w.owner.value] + MUTATION_LEDGER_RETENTION_MS)
  }

  /** One application at most is not paid for by a dropped completion or a misclassified error: the
      current record's. */
  function Uncovered(w: World): nat {
    if HasStatus(w.rec, Completed) || (Open(w) && w.owner.Some? && w.owner.value in w.applied && w.owner.value !in w.misclassified) then 1 else 0
  }

  ghost predicate CountInv(w: World) {
    |w.applied| <= |w.expiries| + |w.misclassified| + Uncovered(w) &&
    (forall i, j :: 0 <= i < j < |w.applied| ==> w.applied[i] != w.applied[j]) &&
    (forall i :: 0 <= i < |w.expiries| ==>
      w.expiries[i].at >= w.expiries[i].completedAt + MUTATION_LEDGER_RETENTION_MS)
  }

  ghost predicate Inv(w: World) {
    PcInv(w) && KnownInv(w) && MailInv(w) && OwnerInv(w) && RecordInv(w) && CountInv(w)
  }

  /** What an answer can do to the position of a call. */
  lemma AdvanceShape(cfg: Config, pc: Pc, ev: Event)
    requires Advance(cfg, pc, ev).Some?
    ensures var to := Advance(cfg, pc, ev).value;
      !to.Fresh? && (BeforeClose(to) ==> BeforeClose(pc)) &&
      (to.BeginSent? ==> pc.Fresh?) && (to.EffectSent? ==> pc.Snapshot? || pc.IntentWrite?) &&
      (to.Snapshot? ==> pc.Preflight?) && (to.IntentWrite? ==> pc.Snapshot?) &&
      (to.Preflight? ==> ev == BeginAnswered(New) || (pc.Fresh? && !cfg.durabilityRequired && !cfg.hasLedger)) &&
      (to.CloseSent? ==> pc.EffectSent?) && (to.OutcomeWrite? ==> pc.CloseSent? || (pc.EffectSent? && !cfg.hasLedger)) &&
      (BeforeEffect(to) || to.ReplayGate? || to.DenyFail? || to.DenialWrite? ==>
        BeforeEffect(pc) || pc.ReplayGate? || pc.DenyFail?) &&
      (to.DenyFail? ==> pc.Preflight? || pc.Snapshot? || pc.IntentWrite?)
  {
  }

  lemma ResumeKeepsPcSelf(w: World, id: Id, ev: Event, rowLanded: bool, today: int)
    requires PcInv(w) && KnownInv(w) && Enabled(w, Resume(id, ev, rowLanded, today))
    ensures PcOk(Resumed(w, id, ev, rowLanded, today), id)
  {
    assert PcOk(w, id);
    AdvanceShape(w.attempts[id].cfg, w.attempts[id].pc, ev);
  }

  lemma {:induction false} ResumeKeepsPc(w: World, id: Id, ev: Event, rowLanded: bool, today: int)
    requires PcInv(w) && KnownInv(w) && Enabled(w, Resume(id, ev, rowLanded, today))
    ensures PcInv(Resumed(w, id, ev, rowLanded, today))
  {
    var w' := Resumed(w, id, ev, rowLanded, today);
    ResumeKeepsPcSelf(w, id, ev, rowLanded, today);
    forall i | i in w'.attempts && i != id ensures PcOk(w', i) {
      assert PcOk(w, i) && w'.attempts[i] == w.attempts[i];
      assert forall m :: m in w'.mail && m.id == i ==> m in w.mail;
    }
  }

  lemma ResumeKeepsAnswers(w: World, id: Id, ev: Event, rowLanded: bool, today: int)
    requires id in w.attempts && PcOk(w, id) && AnswersInv(w) && Enabled(w, Resume(id, ev, rowLanded, today))
    ensures AnswersInv(Resumed(w, id, ev, rowLanded, today))
  {
    assert ev.EffectOk? || ev.EffectThrew? ==> w.attempts[id].pc.EffectSent?;
  }

  lemma ResumeKeepsRefers(w: World, id: Id, ev: Event, rowLanded: bool, today: int)
    requires id in w.attempts && PcOk(w, id) && RefersInv(w) && Enabled(w, Resume(id, ev, rowLanded, today))
    ensures RefersInv(Resumed(w, id, ev, rowLanded, today))
  {
  }

  lemma ResumeKeepsOldMail(w: World, id: Id, ev: Event, rowLanded: bool, today: int, m: Msg)
    requires PcInv(w) && MailInv(w) && Enabled(w, Resume(id, ev, rowLanded, today)) && m in w.mail
    ensures MailOk(Resumed(w, id, ev, rowLanded, today), m)
  {
    assert MailOk(w, m) && PcOk(w, id);
    AdvanceShape(w.attempts[id].cfg, w.attempts[id].pc, ev);
  }

  /** Which closing call an answer makes the attempt issue. */
  lemma IssuedShape(cfg: Config, pc: Pc, ev: Event, id: Id, m: Msg)
    requires Advance(cfg, pc, ev).Some? && m in Issued(id, Advance(cfg, pc, ev).value)
    ensures m == BeginMsg(id) ==> pc.Fresh?
    ensures m != BeginMsg(id) ==>
      (pc.EffectSent? && ev.EffectOk? && m == CloseMsg(id, Complete(ev.result))) ||
      (pc.EffectSent? && ev.EffectThrew? && m == CloseMsg(id, if IsPostSendUnknown(ev.err) then MarkIndeterminate else Fail)) ||
      ((pc.Preflight? || pc.Snapshot? || pc.IntentWrite?) && m == CloseMsg(id, Fail) && !ev.EffectOk? && !ev.EffectThrew?)
  {
  }

  lemma ResumeIssuesOkMail(w: World, id: Id, ev: Event, rowLanded: bool, today: int, m: Msg)
    requires PcInv(w) && KnownInv(w) && Enabled(w, Resume(id, ev, rowLanded, today))
    requires m in Issued(id, Advance(w.attempts[id].cfg, w.attempts[id].pc, ev).value)
    ensures MailOk(Resumed(w, id, ev, rowLanded, today), m)
    ensures m.CloseMsg? ==> BeforeClose(w.attempts[id].pc)
  {
    assert PcOk(w, id);
    IssuedShape(w.attempts[id].cfg, w.attempts[id].pc, ev, id, m);
    AdvanceShape(w.attempts[id].cfg, w.attempts[id].pc, ev);
  }

  lemma IssuingKeepsOneClose(mail: set<Msg>, id: Id, pc: Pc)
    requires OneClosePerId(mail)
    requires pc.DenyFail? || pc.CloseSent? ==> forall m :: m in mail && m.CloseMsg? ==> m.id != id
    ensures OneClosePerId(mail + Issued(id, pc))
  {
  }

  lemma {:induction false} ResumeKeepsMail(w: World, id: Id, ev: Event, rowLanded: bool, today: int)
    requires PcInv(w) && KnownInv(w) && MailInv(w) && Enabled(w, Resume(id, ev, rowLanded, today))
    ensures MailInv(Resumed(w, id, ev, rowLanded, today))
  {
    assert PcOk(w, id);
    var w' := Resumed(w, id, ev, rowLanded, today);
    var pc := w'.attempts[id].pc;
    AdvanceShape(w.attempts[id].cfg, w.attempts[id].pc, ev);
    IssuingKeepsOneClose(w.mail, id, pc);
    forall m | m in w'.mail ensures MailOk(w', m) {
      if m in w.mail {
        ResumeKeepsOldMail(w, id, ev, rowLanded, today, m);
      } else {
        ResumeIssuesOkMail(w, id, ev, rowLanded, today, m);
      }
    }
  }

  lemma ResumeKeepsOwner(w: World, id: Id, ev: Event, rowLanded: bool, today: int)
    requires PcInv(w) && KnownInv(w) && OwnerInv(w) && Enabled(w, Resume(id, ev, rowLanded, today))
    ensures OwnerInv(Resumed(w, id, ev, rowLanded, today))
  {
    assert PcOk(w, id);
    AdvanceShape(w.attempts[id].cfg, w.attempts[id].pc, ev);
  }

  lemma ResumeKeepsRecord(w: World, id: Id, ev: Event, rowLanded: bool, today: int)
    requires PcInv(w) && RecordInv(w) && CountInv(w) && Enabled(w, Resume(id, ev, rowLanded, today))
    ensures RecordInv(Resumed(w, id, ev, rowLanded, today)) && CountInv(Resumed(w, id, ev, rowLanded, today))
  {
    assert PcOk(w, id);
  }

  lemma BeginKeepsParties(w: World, id: Id, at: int, lib: JsonText)
    requires PcInv(w) && KnownInv(w) && MailInv(w) && Enabled(w, Deliver(BeginMsg(id), at))
    ensures PcInv(Delivered(w, BeginMsg(id), at, lib)) && KnownInv(Delivered(w, BeginMsg(id), at, lib))
    ensures MailInv(Delivered(w, BeginMsg(id), at, lib))
  {
  }

  lemma BeginKeepsOwner(w: World, id: Id, at: int, lib: JsonText)
    requires KnownInv(w) && MailInv(w) && OwnerInv(w) && RecordInv(w) && Enabled(w, Deliver(BeginMsg(id), at))
    ensures OwnerInv(Delivered(w, BeginMsg(id), at, lib))
  {
  }

  lemma BeginKeepsRecord(w: World, id: Id, at: int, lib: JsonText)
    requires KnownInv(w) && MailInv(w) && OwnerInv(w) && RecordInv(w) && CountInv(w) && Enabled(w, Deliver(BeginMsg(id), at))
    ensures RecordInv(Delivered(w, BeginMsg(id), at, lib)) && CountInv(Delivered(w, BeginMsg(id), at, lib))
  {
  }

  lemma CloseKeepsParties(w: World, id: Id, close: Close, at: int, lib: JsonText)
    requires PcInv(w) && KnownInv(w) && MailInv(w) && Enabled(w, Deliver(CloseMsg(id, close), at))
    ensures PcInv(Delivered(w, CloseMsg(id, close), at, lib)) && KnownInv(Delivered(w, CloseMsg(id, close), at, lib))
    ensures MailInv(Delivered(w, CloseMsg(id, close), at, lib))
  {
    assert MailOk(w, CloseMsg(id, close));
  }

  lemma CloseKeepsOwner(w: World, id: Id, close: Close, at: int, lib: JsonText)
    requires KnownInv(w) && MailInv(w) && OwnerInv(w) && Enabled(w, Deliver(CloseMsg(id, close), at))
    ensures OwnerInv(Delivered(w, CloseMsg(id, close), at, lib))
  {
    assert MailOk(w, CloseMsg(id, close));
  }

  lemma CloseKeepsRecord(w: World, id: Id, close: Close, at: int, lib: JsonText)
    requires MailInv(w) && OwnerInv(w) && RecordInv(w) && CountInv(w) && Enabled(w, Deliver(CloseMsg(id, close), at))
    ensures RecordInv(Delivered(w, CloseMsg(id, close), at, lib)) && CountInv(Delivered(w, CloseMsg(id, close), at, lib))
  {
    assert MailOk(w, CloseMsg(id, close));
  }

  lemma ReadKeepsParties(w: World, at: int, lib: JsonText)
    requires PcInv(w) && KnownInv(w) && MailInv(w)
    ensures PcInv(Next(w, Read(at), lib)) && KnownInv(Next(w, Read(at), lib)) && MailInv(Next(w, Read(at), lib))
  {
  }

  lemma ReadKeepsLedger(w: World, at: int, lib: JsonText)
    requires OwnerInv(w) && RecordInv(w) && CountInv(w)
    ensures OwnerInv(Next(w, Read(at), lib)) && RecordInv(Next(w, Read(at), lib)) && CountInv(Next(w, Read(at), lib))
  {
  }

  lemma SpawnKeeps(w: World, id: Id, requestHash: string, cfg: Config, day: int, lib: JsonText)
    requires Inv(w) && Enabled(w, Spawn(id, requestHash, cfg, day))
    ensures Inv(Next(w, Spawn(id, requestHash, cfg, day), lib))
  {
    SpawnKeepsPc(w, id, requestHash, cfg, day, lib);
  }

  lemma SpawnKeepsPc(w: World, id: Id, requestHash: string, cfg: Config, day: int, lib: JsonText)
    requires PcInv(w) && KnownInv(w) && Enabled(w, Spawn(id, requestHash, cfg, day))
    ensures PcInv(Next(w, Spawn(id, requestHash, cfg, day), lib))
  {
    forall i: Id | i in w.attempts ensures PcOk(Next(w, Spawn(id, requestHash, cfg, day), lib), i) {
      assert PcOk(w, i);
    }
  }

  lemma LoseKeeps(w: World, msg: Msg, lib: JsonText)
    requires Inv(w) && Enabled(w, Lose(msg))
    ensures Inv(Next(w, Lose(msg), lib))
  {
  }

  lemma ApplyKeeps(w: World, id: Id, lib: JsonText)
    requires Inv(w) && Enabled(w, Apply(id))
    ensures Inv(Next(w, Apply(id), lib))
  {
  }

  lemma CrashKeeps(w: World, id: Id, lib: JsonText)
    requires Inv(w) && Enabled(w, Crash(id))
    ensures Inv(Next(w, Crash(id), lib))
  {
    CrashKeepsPc(w, id, lib);
  }

  lemma CrashKeepsPc(w: World, id: Id, lib: JsonText)
    requires PcInv(w) && Enabled(w, Crash(id))
    ensures PcInv(Next(w, Crash(id), lib))
  {
    forall i: Id | i in w.attempts ensures PcOk(Next(w, Crash(id), lib), i) {
      assert PcOk(w, i);
    }
  }

  lemma {:induction false} StepKeepsInv(w: World, step: Step, lib: JsonText)
    requires Inv(w) && Enabled(w, step)
    ensures Inv(Next(w, step, lib))
  {
    match step
    case Spawn(id, h, cfg, day) => SpawnKeeps(w, id, h, cfg, day, lib);
    case Lose(msg) => LoseKeeps(w, msg, lib);
    case Apply(id) => ApplyKeeps(w, id, lib);
    case Crash(id) => CrashKeeps(w, id, lib);
    case Resume(id, ev, landed, today) =>
      ResumeKeepsPc(w, id, ev, landed, today);
      assert PcOk(w, id);
      ResumeKeepsRefers(w, id, ev, landed, today);
      ResumeKeepsAnswers(w, id, ev, landed, today);
      ResumeKeepsMail(w, id, ev, landed, today);
      ResumeKeepsOwner(w, id, ev, landed, today);
      ResumeKeepsRecord(w, id, ev, landed, today);
    case Read(at) =>
      ReadKeepsParties(w, at, lib);
      ReadKeepsLedger(w, at, lib);
    case Deliver(BeginMsg(id), at) =>
      BeginKeepsParties(w, id, at, lib);
      BeginKeepsOwner(w, id, at, lib);
      BeginKeepsRecord(w, id, at, lib);
    case Deliver(CloseMsg(id, close), at) =>
      CloseKeepsParties(w, id, close, at, lib);
      CloseKeepsOwner(w, id, close, at, lib);
      CloseKeepsRecord(w, id, close, at, lib);
  }
}

/** The audit rows that attempts write. */
module AuditTrail {
  import opened ReplayPayload
  import opened MutationLedger
  import opened MutationGuard
  import opened Attempts
  import opened ExactlyOnce

  predicate AuditPcOk(w: World, id: Id)
    requires id in w.attempts
  {
    var a := w.attempts[id];
    (a.cfg.hasAudit && id in w.invoked ==> Row(id, a.day, IntentRow) in w.audit) &&
    (a.pc.CloseSent? || a.pc.OutcomeWrite? ==>
      (a.pc.reported.Executed? && id in w.returned) || (a.pc.reported.Threw? && id in w.threw))
  }

  predicate RowOk(w: World, r: Row) {
    r.id in w.attempts &&
    match r.status
    case IntentRow => r.day == w.attempts[r.id].day
    case OkRow => r.day == w.attempts[r.id].day && r.id in w.returned
    case ErrorRow => r.day == w.attempts[r.id].day && r.id in w.threw
    case DeniedRow => r.id !in w.invoked && w.attempts[r.id].pc.Finished?
  }

  ghost predicate AuditInv(w: World) {
    (forall id: Id :: id in w.attempts ==> AuditPcOk(w, id)) &&
    (forall r :: r in w.audit ==> RowOk(w, r))
  }

  lemma ResumeKeepsAuditPc(w: World, id: Id, ev: Event, rowLanded: bool, today: int)
    requires PcInv(w) && AuditInv(w) && Enabled(w, Resume(id, ev, rowLanded, today))
    ensures AuditPcOk(Resumed(w, id, ev, rowLanded, today), id)
  {
    assert PcOk(w, id) && AuditPcOk(w, id);
    AdvanceShape(w.attempts[id].cfg, w.attempts[id].pc, ev);
  }

  lemma ResumeKeepsRow(w: World, id: Id, ev: Event, rowLanded: bool, today: int, r: Row)
    requires PcInv(w) && AuditInv(w) && Enabled(w, Resume(id, ev, rowLanded, today))
    requires r in Resumed(w, id, ev, rowLanded, today).audit
    ensures RowOk(Resumed(w, id, ev, rowLanded, today), r)
  {
    assert PcOk(w, id) && AuditPcOk(w, id);
    if r in w.audit {
      assert RowOk(w, r);
    }
  }

  lemma {:induction false} StepKeepsAudit(w: World, step: Step, lib: JsonText)
    requires PcInv(w) && KnownInv(w) && AuditInv(w) && Enabled(w, step)
    ensures AuditInv(Next(w, step, lib))
  {
    var w' := Next(w, step, lib);
    forall id: Id | id in w'.attempts ensures AuditPcOk(w', id) {
      if step.Resume? && step.id == id {
        ResumeKeepsAuditPc(w, id, step.ev, step.rowLanded, step.today);
      } else if id in w.attempts {
        assert AuditPcOk(w, id);
      }
    }
    StepKeepsRows(w, step, lib);
  }

  lemma StepKeepsRows(w: World, step: Step, lib: JsonText)
    requires PcInv(w) && AuditInv(w) && Enabled(w, step)
    ensures forall r :: r in Next(w, step, lib).audit ==> RowOk(Next(w, step, lib), r)
  {
    var w' := Next(w, step, lib);
    forall r | r in w'.audit ensures RowOk(w', r) {
      if step.Resume? {
        ResumeKeepsRow(w, step.id, step.ev, step.rowLanded, step.today, r);
      } else {
        assert RowOk(w, r);
      }
    }
  }

  lemma {:induction false} ExecKeepsAudit(w: World, steps: seq<Step>, lib: JsonText)
    requires Inv(w) && AuditInv(w) && Exec(w, steps, lib).Some?
    ensures AuditInv(Exec(w, steps, lib).value)
    decreases |steps|
  {
    if steps != [] {
      StepKeepsInv(w, steps[0], lib);
      StepKeepsAudit(w, steps[0], lib);
      ExecKeepsAudit(Next(w, steps[0], lib), steps[1..], lib);
    }
  }

  /** Over all runs: with a sink, an effect was invoked only after its intent row was written; an
      ok row means the effect returned, an error row that it threw, a denied row that this attempt
      never invoked it; intent and outcome rows of an attempt share one key, whatever the day. */
  lemma AuditOrder(steps: seq<Step>, lib: JsonText)
    requires Exec(INIT, steps, lib).Some?
    ensures var w := Exec(INIT, steps, lib).value;
      (forall id: Id :: id in w.invoked && id in w.attempts && w.attempts[id].cfg.hasAudit ==>
        Row(id, w.attempts[id].day, IntentRow) in w.audit) &&
      (forall r :: r in w.audit && r.status == OkRow ==> r.id in w.returned) &&
      (forall r :: r in w.audit && r.status == ErrorRow ==> r.id in w.threw) &&
      (forall r :: r in w.audit && r.status == DeniedRow ==> r.id !in w.invoked) &&
      (forall r, q :: r in w.audit && q in w.audit && r.id == q.id && !r.status.DeniedRow? && !q.status.DeniedRow?
        ==> r.day == q.day)
  {
    ExecKeepsInv(INIT, steps, lib);
    ExecKeepsAudit(INIT, steps, lib);
    var w := Exec(INIT, steps, lib).value;
    forall id: Id | id in w.invoked && id in w.attempts && w.attempts[id].cfg.hasAudit
      ensures Row(id, w.attempts[id].day, IntentRow) in w.audit
    {
      assert AuditPcOk(w, id);
    }
    assert forall r :: r in w.audit ==> RowOk(w, r);
  }
}

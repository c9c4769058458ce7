/** Over all runs: an effect that may have been applied is never taken back and never granted again. */
module UnknownOutcome {
  import opened MutationLedger
  import opened MutationGuard
  import opened ReplayPayload
  import opened Attempts
  import opened ExactlyOnce
  import opened SendPath
  import opened Wrappers

  /** It was sent, and neither a success nor a refusal of the server came back. */
  predicate InDoubt(s: Sent) { !s.NotSent? && !Succeeded(s) && !RefusedByServer(s) }

  /** The effect of this attempt threw what such a request throws. */
  predicate ThrewInDoubt(step: Step, id: Id, s: Sent) {
    InDoubt(s) && Throws(s).Some? && step.Resume? && step.id == id && step.ev == EffectThrew(Throws(s).value)
  }

  ghost predicate OnlyMarks(mail: set<Msg>, id: Id) {
    forall m :: m in mail && m.CloseMsg? && m.id == id ==> m.close == MarkIndeterminate
  }

  /** Past its effect, with nothing but markIndeterminate under way or landed. */
  ghost predicate Doubted(w: World, id: Id) {
    && id in w.attempts && !BeforeClose(w.attempts[id].pc) && Claims(w, id)
    && OnlyMarks(w.mail, id)
    && (id in w.landed ==> HasStatus(w.rec, Indeterminate))
  }

  predicate MarkSent(w: World, id: Id) {
    id in w.attempts && w.attempts[id].cfg.hasLedger ==> CloseMsg(id, MarkIndeterminate) in w.mail
  }

  lemma InDoubtIsUnknown(s: Sent)
    requires InDoubt(s)
    ensures Throws(s).Some? && IsPostSendUnknown(Throws(s).value)
  {
    CleanExactly(s);
  }

  lemma ThrowingDoubts(w: World, id: Id, e: Thrown, rowLanded: bool, today: int)
    requires PcInv(w) && MailInv(w) && IsPostSendUnknown(e) && Enabled(w, Resume(id, EffectThrew(e), rowLanded, today))
    ensures Doubted(Resumed(w, id, EffectThrew(e), rowLanded, today), id)
    ensures MarkSent(Resumed(w, id, EffectThrew(e), rowLanded, today), id)
  {
    assert PcOk(w, id);
  }

  lemma MarkLands(w: World, id: Id, at: int, lib: JsonText)
    requires Inv(w) && Enabled(w, Deliver(CloseMsg(id, MarkIndeterminate), at))
    ensures HasStatus(Delivered(w, CloseMsg(id, MarkIndeterminate), at, lib).rec, Indeterminate)
  {
    assert MailOk(w, CloseMsg(id, MarkIndeterminate));
  }

  lemma ReadsKeepDoubt(rec: Option<Stored>, at: int, lib: JsonText)
    requires HasStatus(rec, Indeterminate) && rec.value.requestHash.Some?
    ensures HasStatus(AfterRead(rec, at, lib), Indeterminate)
    ensures forall close: Close :: HasStatus(Closed(rec, close, at, lib), Indeterminate)
    ensures forall h: string :: HasStatus(Begin(rec, h, at, lib).0, Indeterminate) && Begin(rec, h, at, lib).1 == Blocked(Indeterminate)
  {
  }

  lemma DeliveryKeepsDoubt(w: World, msg: Msg, at: int, lib: JsonText, id: Id)
    requires Inv(w) && Doubted(w, id) && Enabled(w, Deliver(msg, at))
    ensures Doubted(Delivered(w, msg, at, lib), id)
  {
    if HasStatus(w.rec, Indeterminate) {
      ReadsKeepDoubt(w.rec, at, lib);
    }
    if msg.CloseMsg? && msg.id == id {
      MarkLands(w, id, at, lib);
    }
    assert MailOk(w, msg);
  }

  lemma ResumeKeepsDoubt(w: World, step: Step, lib: JsonText, id: Id)
    requires Doubted(w, id) && step.Resume? && Enabled(w, step)
    ensures Doubted(Next(w, step, lib), id)
  {
    AdvanceShape(w.attempts[step.id].cfg, w.attempts[step.id].pc, step.ev);
  }

  lemma StepKeepsDoubt(w: World, step: Step, lib: JsonText, id: Id)
    requires Inv(w) && Doubted(w, id) && Enabled(w, step)
    ensures Doubted(Next(w, step, lib), id)
  {
    match step
    case Resume(_, _, _, _) => ResumeKeepsDoubt(w, step, lib, id);
    case Deliver(msg, at) => DeliveryKeepsDoubt(w, msg, at, lib, id);
    case Read(at) =>
      if HasStatus(w.rec, Indeterminate) {
        ReadsKeepDoubt(w.rec, at, lib);
      }
    case _ =>
  }

  lemma {:induction false} ExecKeepsDoubt(w: World, steps: seq<Step>, lib: JsonText, id: Id)
    requires Inv(w) && Doubted(w, id) && Exec(w, steps, lib).Some?
    ensures Inv(Exec(w, steps, lib).value) && Doubted(Exec(w, steps, lib).value, id)
    decreases |steps|
  {
    if steps != [] {
      StepKeepsInv(w, steps[0], lib);
      StepKeepsDoubt(w, steps[0], lib, id);
      ExecKeepsDoubt(Next(w, steps[0], lib), steps[1..], lib, id);
    }
  }

  lemma {:induction false} ExecDoubts(w: World, steps: seq<Step>, lib: JsonText, i: nat, id: Id, s: Sent)
    requires Inv(w) && Exec(w, steps, lib).Some? && i < |steps| && ThrewInDoubt(steps[i], id, s)
    ensures Inv(Exec(w, steps, lib).value) && Doubted(Exec(w, steps, lib).value, id)
    ensures i == |steps| - 1 ==> MarkSent(Exec(w, steps, lib).value, id)
    decreases |steps|
  {
    StepKeepsInv(w, steps[0], lib);
    if i == 0 {
      InDoubtIsUnknown(s);
      ThrowingDoubts(w, id, Throws(s).value, steps[0].rowLanded, steps[0].today);
      ExecKeepsDoubt(Next(w, steps[0], lib), steps[1..], lib, id);
    } else {
      ExecDoubts(Next(w, steps[0], lib), steps[1..], lib, i - 1, id, s);
    }
  }

  lemma {:induction false} OpenBlocks(w: World, id: Id, h: string, at: int, lib: JsonText)
    requires Inv(w) && Doubted(w, id)
    ensures Begin(w.rec, h, at, lib).1 == Blocked(if id in w.landed then Indeterminate else Started)
  {
  }

  /** An effect that threw in doubt makes its attempt send markIndeterminate. Whatever happens then: no closing call of the attempt but markIndeterminate is
      ever under way, and no request is granted: begin is blocked for every hash at every clock reading,
      as started until the closing call lands and as indeterminate from then on. */
  lemma {:induction false} DoubtIsNeverRetried(steps: seq<Step>, lib: JsonText, i: nat, id: Id, s: Sent)
    requires Exec(INIT, steps, lib).Some? && i < |steps| && ThrewInDoubt(steps[i], id, s)
    ensures i == |steps| - 1 ==> MarkSent(Exec(INIT, steps, lib).value, id)
    ensures var w := Exec(INIT, steps, lib).value;
      && (forall m :: m in w.mail && m.CloseMsg? && m.id == id ==> m.close == MarkIndeterminate)
      && forall h: string, at: int :: Begin(w.rec, h, at, lib).1 == Blocked(if id in w.landed then Indeterminate else Started)
  {
    ExecDoubts(INIT, steps, lib, i, id, s);
    var w := Exec(INIT, steps, lib).value;
    forall h: string, at: int ensures Begin(w.rec, h, at, lib).1 == Blocked(if id in w.landed then Indeterminate else Started) {
      OpenBlocks(w, id, h, at, lib);
    }
  }
}

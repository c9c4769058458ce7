/** Whose result the ledger replays to an attempt. */
module Replays {
  import opened ReplayPayload
  import opened MutationLedger
  import opened MutationGuard
  import opened Attempts
  import opened ExactlyOnce
  import opened Wrappers

  /** The completed record holds its owner's request hash and result. */
  predicate RecordOf(w: World) {
    (HasStatus(w.rec, Started) && w.owner.Some? && w.owner.value in w.attempts ==>
      w.rec.value.requestHash.value == w.attempts[w.owner.value].requestHash) &&
    (HasStatus(w.rec, Completed) ==>
      w.owner.Some? && w.owner.value in w.attempts && w.owner.value in w.returned &&
      w.rec.value.requestHash.value == w.attempts[w.owner.value].requestHash &&
      w.rec.value.result == Some(w.returned[w.owner.value]))
  }

  predicate ReplayOf(w: World, id: Id, o: Id) {
    id in w.attempts && id in w.replies && w.replies[id].Replay? &&
    o in w.attempts && o in w.returned && o in w.applied &&
    w.attempts[o].requestHash == w.attempts[id].requestHash && w.replies[id].result == Some(w.returned[o])
  }

  ghost predicate ReplayInv(w: World) {
    ReturnedOk(w) && RecordOf(w) && RepliesOk(w)
  }

  ghost predicate ReturnedOk(w: World) {
    forall id: Id :: id in w.returned ==> id in w.attempts && id in w.applied && IsReplaySafeWrapper(w.returned[id])
  }

  /** What a read, a begin and a closing call leave of a completed or started record. */
  lemma ReadKeepsRecordOf(w: World, at: int, lib: JsonText)
    requires RecordInv(w) && ReplayInv(w)
    ensures RecordOf(w.(rec := AfterRead(w.rec, at, lib)))
    ensures HasStatus(w.rec, Completed) && ActiveRecord(w.rec, at, lib).Some? ==>
      ActiveRecord(w.rec, at, lib).value.result == Some(w.returned[w.owner.value])
  {
    if HasStatus(w.rec, Completed) {
      ReplaySafeIsWrapperAndIdempotent(lib, w.returned[w.owner.value]);
    }
  }

  /** The facts a replay rests on only grow. */
  ghost predicate Grows(w: World, w': World) {
    (forall id: Id :: id in w.attempts ==>
      id in w'.attempts && w'.attempts[id].requestHash == w.attempts[id].requestHash) &&
    (forall id: Id :: id in w.returned ==> id in w'.returned && w'.returned[id] == w.returned[id]) &&
    (forall id: Id :: id in w.applied ==> id in w'.applied)
  }

  ghost predicate RepliesOk(w: World) {
    forall id: Id :: id in w.replies && w.replies[id].Replay? ==> exists o: Id :: ReplayOf(w, id, o)
  }

  lemma ReplayPersists(w: World, w': World, id: Id)
    requires RepliesOk(w) && Grows(w, w')
    requires id in w.replies && w.replies[id].Replay? && id in w'.replies && w'.replies[id] == w.replies[id]
    ensures exists o: Id :: ReplayOf(w', id, o)
  {
    var o: Id :| ReplayOf(w, id, o);
    assert ReplayOf(w', id, o);
  }

  lemma StepGrows(w: World, step: Step, lib: JsonText)
    requires PcInv(w) && Enabled(w, step)
    ensures Grows(w, Next(w, step, lib))
  {
    assert step.Resume? ==> PcOk(w, step.id);
  }

  /** A replay answer quotes the completed record. */
  lemma BeginReplies(w: World, id: Id, at: int, lib: JsonText)
    requires RecordInv(w) && ReplayInv(w) && Enabled(w, Deliver(BeginMsg(id), at))
    requires Begin(w.rec, w.attempts[id].requestHash, at, lib).1.Replay?
    ensures ReplayOf(Delivered(w, BeginMsg(id), at, lib), id, w.owner.value)
  {
    ReadKeepsRecordOf(w, at, lib);
  }

  /** Only the delivery of its own begin gives an attempt a new answer. */
  lemma AnswerStays(w: World, step: Step, lib: JsonText, id: Id)
    requires Enabled(w, step) && id in Next(w, step, lib).replies
    requires step.Deliver? ==> step.msg != BeginMsg(id)
    ensures id in w.replies && Next(w, step, lib).replies[id] == w.replies[id]
  {
  }

  lemma StepKeepsReplies(w: World, step: Step, lib: JsonText)
    requires PcInv(w) && RecordInv(w) && ReplayInv(w) && Enabled(w, step)
    ensures RepliesOk(Next(w, step, lib))
  {
    var w' := Next(w, step, lib);
    StepGrows(w, step, lib);
    forall id: Id | id in w'.replies && w'.replies[id].Replay? ensures exists o: Id :: ReplayOf(w', id, o) {
      if step.Deliver? && step.msg == BeginMsg(id) {
        BeginReplies(w, id, step.at, lib);
      } else {
        AnswerStays(w, step, lib, id);
        ReplayPersists(w, w', id);
      }
    }
  }

  lemma {:induction false} BeginKeepsRecordOf(w: World, id: Id, at: int, lib: JsonText)
    requires RecordInv(w) && ReplayInv(w) && Enabled(w, Deliver(BeginMsg(id), at))
    ensures RecordOf(Delivered(w, BeginMsg(id), at, lib))
  {
    ReadKeepsRecordOf(w, at, lib);
  }

  lemma {:induction false} CloseKeepsRecordOf(w: World, id: Id, close: Close, at: int, lib: JsonText)
    requires MailInv(w) && OwnerInv(w) && RecordInv(w) && ReplayInv(w) && Enabled(w, Deliver(CloseMsg(id, close), at))
    ensures RecordOf(Delivered(w, CloseMsg(id, close), at, lib))
  {
    assert MailOk(w, CloseMsg(id, close));
    if close.Complete? {
      ReplaySafeIsWrapperAndIdempotent(lib, close.result);
    }
  }

  lemma {:induction false} StepKeepsRecordOf(w: World, step: Step, lib: JsonText)
    requires Inv(w) && ReplayInv(w) && Enabled(w, step)
    ensures RecordOf(Next(w, step, lib))
  {
    match step
    case Deliver(BeginMsg(id), at) => BeginKeepsRecordOf(w, id, at, lib);
    case Deliver(CloseMsg(id, close), at) => CloseKeepsRecordOf(w, id, close, at, lib);
    case Read(at) => ReadKeepsRecordOf(w, at, lib);
    case _ => StepGrows(w, step, lib);
  }

  lemma {:induction false} StepKeepsReplay(w: World, step: Step, lib: JsonText)
    requires Inv(w) && ReplayInv(w) && Enabled(w, step)
    ensures ReplayInv(Next(w, step, lib))
  {
    StepKeepsRecordOf(w, step, lib);
    StepKeepsReplies(w, step, lib);
  }

  lemma {:induction false} ExecKeepsReplay(w: World, steps: seq<Step>, lib: JsonText)
    requires Inv(w) && ReplayInv(w) && Exec(w, steps, lib).Some?
    ensures ReplayInv(Exec(w, steps, lib).value)
    decreases |steps|
  {
    if steps != [] {
      StepKeepsInv(w, steps[0], lib);
      StepKeepsReplay(w, steps[0], lib);
      ExecKeepsReplay(Next(w, steps[0], lib), steps[1..], lib);
    }
  }

  /** Over all runs: whatever begin replays to an attempt is the result that an earlier attempt with
      the same request hash got back from its applied effect. */
  lemma {:induction false} ReplayIsTheFirstResult(steps: seq<Step>, lib: JsonText, id: Id)
    requires Exec(INIT, steps, lib).Some?
    requires id in Exec(INIT, steps, lib).value.replies && Exec(INIT, steps, lib).value.replies[id].Replay?
    ensures exists o: Id :: ReplayOf(Exec(INIT, steps, lib).value, id, o)
  {
    ExecKeepsReplay(INIT, steps, lib);
  }
}

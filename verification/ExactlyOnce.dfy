/** How often the effect of one ledger object is applied, over all runs of its attempts. */
module ExactlyOnce {
  import opened ReplayPayload
  import opened MutationLedger
  import opened MutationGuard
  import opened Attempts
  import opened Wrappers

  // ---------------------------------------------------------------- whose completions were dropped

  /** Dropped completions belong to distinct attempts whose effect was applied and returned; the completed
      record belongs to another. */
  ghost predicate ExpiryInv(w: World) {
    (forall i :: 0 <= i < |w.expiries| ==>
      w.expiries[i].owner in w.applied && w.expiries[i].owner in w.landed && w.expiries[i].owner in w.returned) &&
    (forall i, j :: 0 <= i < j < |w.expiries| ==> w.expiries[i].owner != w.expiries[j].owner) &&
    (HasStatus(w.rec, Completed) && w.owner.Some? ==>
      w.owner.value in w.applied && w.owner.value in w.landed && w.owner.value in w.returned && NotDropped(w, w.owner.value))
  }

  ghost predicate NotDropped(w: World, id: Id) { forall i :: 0 <= i < |w.expiries| ==> w.expiries[i].owner != id }

  lemma DropKeepsExpiries(w: World, at: int, lib: JsonText, w': World)
    requires ExpiryInv(w) && w'.expiries == Dropped(w, at, lib)
    requires (forall id: Id :: id in w.landed ==> id in w'.landed) && w'.applied == w.applied && w'.returned == w.returned
    ensures forall i :: 0 <= i < |w'.expiries| ==>
      w'.expiries[i].owner in w'.applied && w'.expiries[i].owner in w'.landed && w'.expiries[i].owner in w'.returned
    ensures forall i, j :: 0 <= i < j < |w'.expiries| ==> w'.expiries[i].owner != w'.expiries[j].owner
    ensures !Drops(w, at, lib) ==> w'.expiries == w.expiries
  {
  }

  lemma CloseKeepsExpiries(w: World, id: Id, close: Close, at: int, lib: JsonText)
    requires MailInv(w) && OwnerInv(w) && ExpiryInv(w) && Enabled(w, Deliver(CloseMsg(id, close), at))
    ensures ExpiryInv(Delivered(w, CloseMsg(id, close), at, lib))
  {
    assert MailOk(w, CloseMsg(id, close));
    DropKeepsExpiries(w, at, lib, Delivered(w, CloseMsg(id, close), at, lib));
  }

  lemma StepKeepsExpiries(w: World, step: Step, lib: JsonText)
    requires MailInv(w) && OwnerInv(w) && RecordInv(w) && ExpiryInv(w) && Enabled(w, step)
    ensures ExpiryInv(Next(w, step, lib))
  {
    match step
    case Deliver(BeginMsg(id), at) => DropKeepsExpiries(w, at, lib, Next(w, step, lib));
    case Deliver(CloseMsg(id, close), at) => CloseKeepsExpiries(w, id, close, at, lib);
    case Read(at) => DropKeepsExpiries(w, at, lib, Next(w, step, lib));
    case _ =>
  }

  // ---------------------------------------------------------------- whole runs

  /** The world after these steps; None when one of them was not possible. */
  function Exec(w: World, steps: seq<Step>, lib: JsonText): Option<World>
    decreases |steps|
  {
    if steps == [] then Some(w)
    else if !Enabled(w, steps[0]) then None
    else Exec(Next(w, steps[0], lib), steps[1..], lib)
  }

  lemma {:induction false} ExecKeepsInv(w: World, steps: seq<Step>, lib: JsonText)
    requires Inv(w) && Exec(w, steps, lib).Some?
    ensures Inv(Exec(w, steps, lib).value)
    decreases |steps|
  {
    if steps != [] {
      StepKeepsInv(w, steps[0], lib);
      ExecKeepsInv(Next(w, steps[0], lib), steps[1..], lib);
    }
  }

  lemma {:induction false} ExecKeepsExpiries(w: World, steps: seq<Step>, lib: JsonText)
    requires Inv(w) && ExpiryInv(w) && Exec(w, steps, lib).Some?
    ensures ExpiryInv(Exec(w, steps, lib).value)
    decreases |steps|
  {
    if steps != [] {
      StepKeepsInv(w, steps[0], lib);
      StepKeepsExpiries(w, steps[0], lib);
      ExecKeepsExpiries(Next(w, steps[0], lib), steps[1..], lib);
    }
  }

  /** An answer of this run called the attempt's effect clean. */
  ghost predicate CalledClean(steps: seq<Step>, id: Id) {
    exists i :: 0 <= i < |steps| && IsCleanError(steps[i], id)
  }

  predicate IsCleanError(step: Step, id: Id) {
    step.Resume? && step.id == id && step.ev.EffectThrew? && !IsPostSendUnknown(step.ev.err)
  }

  lemma {:induction false} MisclassifiedWasCalledClean(w: World, steps: seq<Step>, lib: JsonText, id: Id)
    requires Exec(w, steps, lib).Some? && id in Exec(w, steps, lib).value.misclassified && id !in w.misclassified
    ensures CalledClean(steps, id)
    decreases |steps|
  {
    if steps != [] {
      if IsCleanError(steps[0], id) {
      } else {
        MisclassifiedWasCalledClean(Next(w, steps[0], lib), steps[1..], lib, id);
        var i :| 0 <= i < |steps[1..]| && IsCleanError(steps[1..][i], id);
        assert IsCleanError(steps[i + 1], id);
      }
    }
  }

  /** Answered with an error called clean before it was applied. */
  predicate Done(w: World, id: Id) {
    id in w.attempts && !BeforeClose(w.attempts[id].pc) && id !in w.inFlight && id !in w.applied
  }

  lemma {:induction false} ExecKeepsDone(w: World, steps: seq<Step>, lib: JsonText, id: Id)
    requires Done(w, id) || id in w.misclassified
    requires Exec(w, steps, lib).Some?
    ensures Done(Exec(w, steps, lib).value, id) || id in Exec(w, steps, lib).value.misclassified
    decreases |steps|
  {
    if steps != [] {
      if Done(w, id) {
        var step := steps[0];
        if step.Resume? {
          AdvanceShape(w.attempts[step.id].cfg, w.attempts[step.id].pc, step.ev);
        }
      }
      ExecKeepsDone(Next(w, steps[0], lib), steps[1..], lib, id);
    }
  }

  lemma {:induction false} CalledCleanIsMisclassified(w: World, steps: seq<Step>, lib: JsonText, id: Id)
    requires Exec(w, steps, lib).Some? && CalledClean(steps, id) && id in Exec(w, steps, lib).value.applied
    ensures id in Exec(w, steps, lib).value.misclassified
    decreases |steps|
  {
    var i :| 0 <= i < |steps| && IsCleanError(steps[i], id);
    if i == 0 {
      ExecKeepsDone(Next(w, steps[0], lib), steps[1..], lib, id);
    } else {
      assert IsCleanError(steps[1..][i - 1], id);
      CalledCleanIsMisclassified(Next(w, steps[0], lib), steps[1..], lib, id);
    }
  }

  /** In every run each application of the effect but one is matched by a misclassified error or by a
      completed record that was dropped. They belong to distinct attempts whose own effect was applied;
      each record was dropped only after its full retention, and each misclassified effect was applied
      although its error was called clean. */
  lemma AtMostOncePerRetention(steps: seq<Step>, lib: JsonText)
    requires Exec(INIT, steps, lib).Some?
    ensures var w := Exec(INIT, steps, lib).value;
      |w.applied| <= 1 + |w.expiries| + |w.misclassified| &&
      (forall i, j :: 0 <= i < j < |w.applied| ==> w.applied[i] != w.applied[j]) &&
      (forall i :: 0 <= i < |w.expiries| ==>
        w.expiries[i].owner in w.applied &&
        w.expiries[i].at >= w.expiries[i].completedAt + MUTATION_LEDGER_RETENTION_MS) &&
      (forall i, j :: 0 <= i < j < |w.expiries| ==> w.expiries[i].owner != w.expiries[j].owner) &&
      (forall i :: 0 <= i < |w.expiries| ==> w.expiries[i].owner !in w.misclassified) &&
      (forall id: Id :: id in w.misclassified <==> id in w.applied && CalledClean(steps, id))
  {
    ExecKeepsInv(INIT, steps, lib);
    ExecKeepsExpiries(INIT, steps, lib);
    var w := Exec(INIT, steps, lib).value;
    forall id: Id ensures id in w.misclassified <==> id in w.applied && CalledClean(steps, id) {
      if id in w.misclassified {
        MisclassifiedWasCalledClean(INIT, steps, lib, id);
      } else if id in w.applied && CalledClean(steps, id) {
        CalledCleanIsMisclassified(INIT, steps, lib, id);
      }
    }
  }

  /** A record is started exactly while some claim is unclosed; that claim is unique, it owns the
      record, and every closing call under way is its own. */
  lemma LedgerOwnership(steps: seq<Step>, lib: JsonText)
    requires Exec(INIT, steps, lib).Some?
    ensures var w := Exec(INIT, steps, lib).value;
      (HasStatus(w.rec, Started) <==> exists id: Id :: id in w.replies && Unclosed(w, id)) &&
      (forall id: Id :: id in w.replies && Unclosed(w, id) ==> w.owner == Some(id)) &&
      (forall m :: m in w.mail && m.CloseMsg? ==> HasStatus(w.rec, Started) && w.owner == Some(m.id))
  {
    ExecKeepsInv(INIT, steps, lib);
    var w := Exec(INIT, steps, lib).value;
    forall m | m in w.mail && m.CloseMsg? ensures HasStatus(w.rec, Started) && w.owner == Some(m.id) {
      assert MailOk(w, m);
    }
  }

  // ---------------------------------------------------------------- within one retention period

  predicate ReadsWithin(step: Step, lo: int) {
    step.Deliver? || step.Read? ==> lo <= step.at < lo + MUTATION_LEDGER_RETENTION_MS
  }

  ghost predicate NothingDropped(w: World, lo: int) {
    w.expiries == [] && forall id :: id in w.completedAt ==> lo <= w.completedAt[id]
  }

  lemma StepDropsNothing(w: World, step: Step, lib: JsonText, lo: int)
    requires RecordInv(w) && NothingDropped(w, lo) && Enabled(w, step) && ReadsWithin(step, lo)
    ensures NothingDropped(Next(w, step, lib), lo)
  {
  }

  lemma {:induction false} ExecDropsNothing(w: World, steps: seq<Step>, lib: JsonText, lo: int)
    requires Inv(w) && NothingDropped(w, lo) && Exec(w, steps, lib).Some?
    requires forall i :: 0 <= i < |steps| ==> ReadsWithin(steps[i], lo)
    ensures NothingDropped(Exec(w, steps, lib).value, lo)
    decreases |steps|
  {
    if steps != [] {
      StepDropsNothing(w, steps[0], lib, lo);
      StepKeepsInv(w, steps[0], lib);
      ExecDropsNothing(Next(w, steps[0], lib), steps[1..], lib, lo);
    }
  }

  /** If every clock reading of the ledger falls within one retention period, the effect is applied at
      most once plus once for each applied effect whose error was called clean, whatever the
      interleaving. */
  lemma AtMostOnceWithinRetention(steps: seq<Step>, lib: JsonText, lo: int)
    requires Exec(INIT, steps, lib).Some?
    requires forall i :: 0 <= i < |steps| ==> ReadsWithin(steps[i], lo)
    ensures var w := Exec(INIT, steps, lib).value;
      |w.applied| <= 1 + |w.misclassified| && ((forall id <- w.applied :: !CalledClean(steps, id)) ==> |w.applied| <= 1)
  {
    AtMostOncePerRetention(steps, lib);
    ExecDropsNothing(INIT, steps, lib, lo);
    var w := Exec(INIT, steps, lib).value;
    assert (forall id <- w.applied :: !CalledClean(steps, id)) ==> w.misclassified == {};
  }
}

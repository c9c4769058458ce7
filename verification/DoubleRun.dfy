/** What a clean error after an applied effect leads to: the claim is released and the same request is
    granted again. The executor answers so for a script that throws one of its two refusal texts. */
module DoubleRun {
  import opened Attempts
  import opened ExactlyOnce
  import opened MutationGuard
  import opened MutationLedger
  import opened ReplayPayload
  import opened Wrappers
  import Executor

  const DURABLE := Config(true, false, true, true, true)

  lemma {:induction false} Then(from: World, steps: seq<Step>, w: World, step: Step, lib: JsonText)
    requires Exec(from, steps, lib) == Some(w) && Enabled(w, step)
    ensures Exec(from, steps + [step], lib) == Some(Next(w, step, lib))
    decreases |steps|
  {
    if steps == [] {
      assert [step][1..] == [];
    } else {
      Then(Next(from, steps[0], lib), steps[1..], w, step, lib);
      assert (steps + [step])[1..] == steps[1..] + [step];
    }
  }

  lemma StillIn(step: Step, s: seq<Step>, t: seq<Step>)
    requires step in s && s <= t
    ensures step in t
  {
    assert s == t[..|s|];
  }

  /** A new attempt asks the ledger for the claim. */
  lemma GetsClaim(steps0: seq<Step>, w0: World, id: Id, h: string, at: int, lib: JsonText) returns (steps: seq<Step>, w: World)
    requires Exec(INIT, steps0, lib) == Some(w0) && id !in w0.attempts && BeginMsg(id) !in w0.mail
    requires Begin(w0.rec, h, at, lib).1.New?
    ensures Exec(INIT, steps, lib) == Some(w) && steps0 <= steps
    ensures w == w0.(rec := Begin(w0.rec, h, at, lib).0, replies := w0.replies[id := New], owner := Some(id),
                     attempts := w0.attempts[id := Attempt(h, DURABLE, BeginSent, 0, true)],
                     expiries := Dropped(w0, at, lib))
  {
    var s1, s2, s3 := Spawn(id, h, DURABLE, 0), Resume(id, Begun, false, 0), Deliver(BeginMsg(id), at);
    var w1 := Next(w0, s1, lib);
    Then(INIT, steps0, w0, s1, lib);
    var w2 := Next(w1, s2, lib);
    Then(INIT, steps0 + [s1], w1, s2, lib);
    w := Next(w2, s3, lib);
    Then(INIT, steps0 + [s1] + [s2], w2, s3, lib);
    steps := steps0 + [s1] + [s2] + [s3];
    assert w.attempts == w0.attempts[id := Attempt(h, DURABLE, BeginSent, 0, true)];
    assert w.mail == w0.mail;
  }

  /** A granted attempt passes its gates. */
  lemma PassesGates(steps0: seq<Step>, w0: World, id: Id, h: string, lib: JsonText) returns (steps: seq<Step>, w: World)
    requires Exec(INIT, steps0, lib) == Some(w0) && id in w0.replies && w0.replies[id] == New
    requires id in w0.attempts && w0.attempts[id] == Attempt(h, DURABLE, BeginSent, 0, true)
    ensures Exec(INIT, steps, lib) == Some(w) && steps0 <= steps
    ensures w == w0.(attempts := w0.attempts[id := Attempt(h, DURABLE, IntentWrite, 0, true)])
  {
    var s1, s2 := Resume(id, BeginAnswered(New), false, 0), Resume(id, GateOk, false, 0);
    var w1 := Next(w0, s1, lib);
    Then(INIT, steps0, w0, s1, lib);
    var w2 := Next(w1, s2, lib);
    Then(INIT, steps0 + [s1], w1, s2, lib);
    w := Next(w2, s2, lib);
    Then(INIT, steps0 + [s1] + [s2], w2, s2, lib);
    steps := steps0 + [s1] + [s2] + [s2];
    assert w.attempts == w0.attempts[id := Attempt(h, DURABLE, IntentWrite, 0, true)];
  }

  /** Its effect is applied. */
  lemma AppliesEffect(steps0: seq<Step>, w0: World, id: Id, h: string, lib: JsonText) returns (steps: seq<Step>, w: World)
    requires Exec(INIT, steps0, lib) == Some(w0) && id !in w0.applied
    requires id in w0.attempts && w0.attempts[id] == Attempt(h, DURABLE, IntentWrite, 0, true)
    ensures Exec(INIT, steps, lib) == Some(w) && steps0 <= steps
    ensures w.rec == w0.rec && w.mail == w0.mail && w.applied == w0.applied + [id]
    ensures w.expiries == w0.expiries && w.misclassified == w0.misclassified
    ensures w.attempts == w0.attempts[id := Attempt(h, DURABLE, EffectSent, 0, true)]
  {
    var s1, s2 := Resume(id, AuditOk, false, 0), Apply(id);
    var w1 := Next(w0, s1, lib);
    Then(INIT, steps0, w0, s1, lib);
    w := Next(w1, s2, lib);
    Then(INIT, steps0 + [s1], w1, s2, lib);
    steps := steps0 + [s1] + [s2];
  }

  /** Its error is called clean, so the closing call releases the claim. */
  lemma FailsClean(steps0: seq<Step>, w0: World, id: Id, h: string, e: Thrown, at: int, lib: JsonText) returns (steps: seq<Step>, w: World)
    requires Exec(INIT, steps0, lib) == Some(w0) && id in w0.applied && !IsPostSendUnknown(e) && w0.mail == {}
    requires id in w0.attempts && w0.attempts[id] == Attempt(h, DURABLE, EffectSent, 0, true)
    requires w0.rec == NewRow(Started, h, None, at)
    ensures Exec(INIT, steps, lib) == Some(w) && Resume(id, EffectThrew(e), false, 0) in steps
    ensures w.rec == NewRow(Failed, h, None, at) && w.mail == {} && w.applied == w0.applied
    ensures w.expiries == w0.expiries && w.misclassified == w0.misclassified + {id}
    ensures id in w.attempts && w.attempts.Keys == w0.attempts.Keys && w.attempts[id].requestHash == h
  {
    var s1, s2 := Resume(id, EffectThrew(e), false, 0), Deliver(CloseMsg(id, Fail), at);
    var w1 := Next(w0, s1, lib);
    Then(INIT, steps0, w0, s1, lib);
    w := Next(w1, s2, lib);
    Then(INIT, steps0 + [s1], w1, s2, lib);
    steps := steps0 + [s1] + [s2];
  }

  /** Whatever error is called clean: if an effect that was applied throws it, the same request is granted
      again at the same clock reading and its effect is applied a second time. */
  lemma CleanErrorRunsTwice(e: Thrown, h: string, at: int, lib: JsonText) returns (steps: seq<Step>)
    requires !IsPostSendUnknown(e)
    ensures Exec(INIT, steps, lib).Some? && Resume(0, EffectThrew(e), false, 0) in steps
    ensures var w := Exec(INIT, steps, lib).value;
      && w.applied == [0, 1] && w.misclassified == {0} && w.expiries == []
      && w.attempts.Keys == {0, 1} && w.attempts[0].requestHash == w.attempts[1].requestHash == h
  {
    var w: World;
    steps, w := GetsClaim([], INIT, 0, h, at, lib);
    steps, w := PassesGates(steps, w, 0, h, lib);
    steps, w := AppliesEffect(steps, w, 0, h, lib);
    steps, w := FailsClean(steps, w, 0, h, e, at, lib);
    var first := steps;
    steps, w := GetsClaim(steps, w, 1, h, at, lib);
    steps, w := PassesGates(steps, w, 1, h, lib);
    steps, w := AppliesEffect(steps, w, 1, h, lib);
    StillIn(Resume(0, EffectThrew(e), false, 0), first, steps);
  }

  /** A script that throws one of the two refusal texts: it was evaluated, its answer is read as clean,
      and a retry of the same request runs it again. */
  lemma SentinelRunsTwice(run: Executor.ScriptRun, maxOutput: int, r: Executor.Response, audit: Executor.AuditStatus,
                          errorClass: Executor.Text, h: string, at: int, lib: JsonText) returns (steps: seq<Step>)
    requires Executor.AnswersRun(run, maxOutput, r, audit, errorClass)
    requires run.thrown == Some("actor_signature_invalid") || run.thrown == Some("capability_required")
    ensures Executor.Mapped(r).Some? && Exec(INIT, steps, lib).Some?
    ensures Resume(0, EffectThrew(Executor.Mapped(r).value), false, 0) in steps
    ensures var w := Exec(INIT, steps, lib).value;
      w.applied == [0, 1] && w.attempts.Keys == {0, 1} && w.attempts[0].requestHash == w.attempts[1].requestHash == h
  {
    Executor.CleanUnlessSentinelThrown(run, maxOutput, r, audit, errorClass);
    steps := CleanErrorRunsTwice(Executor.Mapped(r).value, h, at, lib);
  }
}

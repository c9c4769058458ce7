/** index.ts: the response stream that renews its admission lease while it is open and releases it
    when it ends.

    Every code segment between two awaits is one event; events of the stream, the renewal loop and
    the admission object interleave freely, and calls to the object may be late or lost. */
module AdmissionStream {
  import opened McpAdmission

  /** Where the renewal loop stands: in its delay, in a renew call, or returned. */
  datatype Loop = Waiting | Calling | Stopped

  datatype Call = RenewCall(now: int) | ReleaseCall

  /** cancelling counts the cancel handlers that await reader.cancel; sent lists the calls issued. */
  datatype Stream = Stream(released: bool, aborted: bool, loop: Loop, cancelling: nat, sent: seq<Call>)

  const OPENED := Stream(false, false, Waiting, 0, [])

  /** What a pull meets: a chunk that is enqueued, one that the controller refuses, the end, or an
      error of the reader. At the end close may throw; both ways release. */
  datatype PullOutcome = Chunk | ChunkRefused | Ended | CloseRefused | ReadFailed

  datatype Answer = StillHeld | LeaseLost | CallFailed

  datatype Event =
    | DelayOver(now: int)
    | Answered(answer: Answer)
    | Pulled(outcome: PullOutcome)
    | CancelBegins
    | CancelSettles

  predicate Enabled(s: Stream, ev: Event) {
    match ev
    case DelayOver(_) => s.loop == Waiting
    case Answered(_) => s.loop == Calling
    case Pulled(_) => true
    case CancelBegins => true
    case CancelSettles => s.cancelling > 0
  }

  function ReleasedOnce(s: Stream): Stream {
    if s.released then s else s.(released := true, aborted := true, sent := s.sent + [ReleaseCall])
  }

  function After(s: Stream, ev: Event): Stream
    requires Enabled(s, ev)
  {
    match ev
    case DelayOver(now) => if s.aborted then s.(loop := Stopped) else s.(loop := Calling, sent := s.sent + [RenewCall(now)])
    case Answered(a) =>
      if a == LeaseLost then ReleasedOnce(s).(loop := Stopped)
      else s.(loop := if s.aborted then Stopped else Waiting)
    case Pulled(outcome) => if outcome == Chunk then s else ReleasedOnce(s)
    case CancelBegins => s.(cancelling := s.cancelling + 1)
    case CancelSettles => ReleasedOnce(s.(cancelling := s.cancelling - 1))
  }

  class ResponseWithAdmissionRelease {
    var released: bool
    var aborted: bool
    var loop: Loop
    var cancelling: nat
    var sent: seq<Call>

    ghost function Contents(): Stream
      reads this
    {
      Stream(released, aborted, loop, cancelling, sent)
    }

    /** A response without a body is released at once and has neither loop nor handlers. */
    constructor (hasBody: bool)
      ensures Contents() == if hasBody then OPENED else Stream(false, false, Stopped, 0, [ReleaseCall])
    {
      released, aborted, cancelling := false, false, 0;
      loop := if hasBody then Waiting else Stopped;
      sent := if hasBody then [] else [ReleaseCall];
    }

    method ReleaseOnce()
      modifies this
      ensures Contents() == ReleasedOnce(old(Contents()))
      ensures released && loop == old(loop) && cancelling == old(cancelling)
      ensures old(released) ==> aborted == old(aborted) && sent == old(sent)
      ensures !old(released) ==> aborted && sent == old(sent) + [ReleaseCall]
    {
      if released {
        return;
      }
      released := true;
      aborted := true;
      sent := sent + [ReleaseCall];
    }

    /** The loop after its delay. */
    method RenewalDelayOver(now: int)
      requires Enabled(Contents(), DelayOver(now))
      modifies this
      ensures Contents() == After(old(Contents()), DelayOver(now))
      ensures released == old(released) && aborted == old(aborted)
      ensures if aborted then loop == Stopped && sent == old(sent) else loop == Calling && sent == old(sent) + [RenewCall(now)]
    {
      if aborted {
        loop := Stopped;
        return;
      }
      sent := sent + [RenewCall(now)];
      loop := Calling;
    }

    /** The loop after its renew call. */
    method RenewalAnswered(answer: Answer)
      requires Enabled(Contents(), Answered(answer))
      modifies this
      ensures Contents() == After(old(Contents()), Answered(answer))
      ensures answer == LeaseLost ==> released && loop == Stopped && sent == old(sent) + (if old(released) then [] else [ReleaseCall])
      ensures answer != LeaseLost ==>
        released == old(released) && sent == old(sent) && loop == if old(aborted) then Stopped else Waiting
    {
      if answer == LeaseLost {
        ReleaseOnce();
        loop := Stopped;
        return;
      }
      loop := if aborted then Stopped else Waiting;
    }

    method Pull(outcome: PullOutcome)
      modifies this
      ensures Contents() == After(old(Contents()), Pulled(outcome))
      ensures outcome == Chunk ==> Contents() == old(Contents())
      ensures outcome != Chunk ==> released && sent == old(sent) + (if old(released) then [] else [ReleaseCall])
    {
      match outcome
      case Chunk =>
      case Ended => ReleaseOnce();
      case ChunkRefused => ReleaseOnce();
      case CloseRefused => ReleaseOnce();
      case ReadFailed => ReleaseOnce();
    }

    method Cancel()
      modifies this
      ensures Contents() == After(old(Contents()), CancelBegins)
    {
      cancelling := cancelling + 1;
    }

    /** The finally block of cancel. */
    method CancelSettled()
      requires Enabled(Contents(), CancelSettles)
      modifies this
      ensures Contents() == After(old(Contents()), CancelSettles)
      ensures released && sent == old(sent) + (if old(released) then [] else [ReleaseCall])
    {
      cancelling := cancelling - 1;
      ReleaseOnce();
    }
  }

  // ---------------------------------------------------------------- one release

  predicate Terminal(ev: Event) {
    match ev
    case Pulled(outcome) => outcome != Chunk
    case CancelSettles => true
    case Answered(a) => a == LeaseLost
    case _ => false
  }

  ghost predicate Possible(s: Stream, evs: seq<Event>)
    decreases |evs|
  {
    evs == [] || (Enabled(s, evs[0]) && Possible(After(s, evs[0]), evs[1..]))
  }

  function Run(s: Stream, evs: seq<Event>): Stream
    requires Possible(s, evs)
    decreases |evs|
  {
    if evs == [] then s else Run(After(s, evs[0]), evs[1..])
  }

  function Releases(sent: seq<Call>): nat {
    if sent == [] then 0 else (if sent[0] == ReleaseCall then 1 else 0) + Releases(sent[1..])
  }

  lemma {:induction false} ReleasesAppend(sent: seq<Call>, c: Call)
    ensures Releases(sent + [c]) == Releases(sent) + if c == ReleaseCall then 1 else 0
  {
    if sent != [] {
      assert (sent + [c])[1..] == sent[1..] + [c];
      ReleasesAppend(sent[1..], c);
    }
  }

  /** The flags agree, and a release, once issued, is the last call. */
  predicate Inv(s: Stream) {
    && s.aborted == s.released
    && Releases(s.sent) == (if s.released then 1 else 0)
    && (s.released ==> s.sent != [] && s.sent[|s.sent| - 1] == ReleaseCall)
  }

  lemma EventKeepsInv(s: Stream, ev: Event)
    requires Inv(s) && Enabled(s, ev)
    ensures Inv(After(s, ev))
    ensures After(s, ev).released <==> s.released || Terminal(ev)
  {
    ReleasesAppend(s.sent, ReleaseCall);
    if ev.DelayOver? {
      ReleasesAppend(s.sent, RenewCall(ev.now));
    }
  }

  lemma {:induction false} RunKeepsInv(s: Stream, evs: seq<Event>)
    requires Inv(s) && Possible(s, evs)
    ensures Inv(Run(s, evs))
    ensures Run(s, evs).released <==> s.released || exists i :: 0 <= i < |evs| && Terminal(evs[i])
    decreases |evs|
  {
    if evs != [] {
      EventKeepsInv(s, evs[0]);
      RunKeepsInv(After(s, evs[0]), evs[1..]);
      if i :| 0 <= i < |evs[1..]| && Terminal(evs[1..][i]) {
        assert Terminal(evs[i + 1]);
      }
      if i :| 0 <= i < |evs| && Terminal(evs[i]) {
        assert i > 0 ==> Terminal(evs[1..][i - 1]);
      }
    }
  }

  /** In every interleaving the release is issued exactly once when some terminal event has happened,
      and never otherwise; no renewal is issued after it. */
  lemma ReleasedExactlyOnce(evs: seq<Event>)
    requires Possible(OPENED, evs)
    ensures Releases(Run(OPENED, evs).sent) == if exists i :: 0 <= i < |evs| && Terminal(evs[i]) then 1 else 0
    ensures forall i :: 0 <= i < |Run(OPENED, evs).sent| && Run(OPENED, evs).sent[i] == ReleaseCall ==>
      i == |Run(OPENED, evs).sent| - 1
  {
    RunKeepsInv(OPENED, evs);
    LastOnly(Run(OPENED, evs).sent);
  }

  /** The renewals a stream owes: one for each delay that ended. */
  function Owed(evs: seq<Event>): seq<Call> {
    if evs == [] then [] else Owed(evs[..|evs| - 1]) + if evs[|evs| - 1].DelayOver? then [RenewCall(evs[|evs| - 1].now)] else []
  }

  lemma {:induction false} RunAppend(s: Stream, evs: seq<Event>, ev: Event)
    requires Possible(s, evs + [ev])
    ensures Possible(s, evs) && Enabled(Run(s, evs), ev) && Run(s, evs + [ev]) == After(Run(s, evs), ev)
    decreases |evs|
  {
    if evs == [] {
      assert [] + [ev] == [ev] && [ev][1..] == [];
    } else {
      assert (evs + [ev])[1..] == evs[1..] + [ev];
      RunAppend(After(s, evs[0]), evs[1..], ev);
    }
  }

  /** While nothing has ended it the stream goes on renewing, whatever the renewals answer short of a lost
      lease: its calls are exactly one renewal for each delay that ended, at that time. */
  lemma {:induction false} OpenStreamRenews(evs: seq<Event>)
    requires Possible(OPENED, evs) && forall i :: 0 <= i < |evs| ==> !Terminal(evs[i])
    ensures var s := Run(OPENED, evs); !s.released && !s.aborted && s.loop != Stopped && s.sent == Owed(evs)
  {
    if evs != [] {
      var front, ev := evs[..|evs| - 1], evs[|evs| - 1];
      assert evs == front + [ev];
      RunAppend(OPENED, front, ev);
      OpenStreamRenews(front);
    }
  }

  lemma {:induction false} LastOnly(sent: seq<Call>)
    requires Releases(sent) <= 1 && (Releases(sent) == 1 ==> sent[|sent| - 1] == ReleaseCall)
    ensures forall i :: 0 <= i < |sent| - 1 ==> sent[i] != ReleaseCall
  {
    if |sent| > 1 {
      NoReleaseIn(sent[1..]);
      LastOnly(sent[1..]);
      forall i | 0 <= i < |sent| - 1 ensures sent[i] != ReleaseCall {
        assert i > 0 ==> sent[i] == sent[1..][i - 1];
      }
    }
  }

  lemma {:induction false} NoReleaseIn(sent: seq<Call>)
    ensures Releases(sent) == 0 ==> forall i :: 0 <= i < |sent| ==> sent[i] != ReleaseCall
  {
    if sent != [] {
      NoReleaseIn(sent[1..]);
      forall i | 0 <= i < |sent| && Releases(sent) == 0 ensures sent[i] != ReleaseCall {
        assert i > 0 ==> sent[i] == sent[1..][i - 1];
      }
    }
  }

  // ---------------------------------------------------------------- the lease in the object

  /** The stream, its calls under way, the leases stored, and whether the release has landed. */
  datatype World = World(stream: Stream, pending: seq<Call>, leases: LeaseMap, landed: bool)

  datatype Step =
    | StreamEvent(event: Event)
    | Deliver(index: nat)
    | Lose(index: nat)
    | Elsewhere

  function Without(calls: seq<Call>, i: nat): seq<Call>
    requires i < |calls|
  {
    calls[..i] + calls[i + 1..]
  }

  /** Calls for other leases: they may prune this one but never create or extend it. */
  ghost predicate ForOthers(id: Id, before: LeaseMap, after: LeaseMap) {
    id in after ==> id in before && after[id] == before[id]
  }

  /** Each operation of the object under another id is such a call. */
  lemma OthersOnly(id: Id, other: Id, s: Stored, now: int, t: Stored, r: AdmissionResult)
    requires id != other
    ensures Admitting(s, now, other, t, r) ==> ForOthers(id, s.leases, t.leases)
    ensures ForOthers(id, s.leases, Released(s.leases, other)) && ForOthers(id, s.leases, Renewed(s.leases, other, now))
  {
    if Admitting(s, now, other, t, r) && Counts(s, now) {
      assert t.leases == Live(s.leases, now) || t.leases == Live(s.leases, now)[other := now + STALE_LEASE_MS];
    }
  }

  ghost predicate Next(id: Id, w: World, step: Step, v: World) {
    match step
    case StreamEvent(ev) =>
      && Enabled(w.stream, ev)
      && v == World(After(w.stream, ev), w.pending + After(w.stream, ev).sent[|w.stream.sent|..], w.leases, w.landed)
    case Deliver(i) =>
      && i < |w.pending|
      && v == World(w.stream, Without(w.pending, i),
                    (match w.pending[i] case RenewCall(now) => Renewed(w.leases, id, now) case ReleaseCall => Released(w.leases, id)),
                    w.landed || w.pending[i] == ReleaseCall)
    case Lose(i) => i < |w.pending| && v == w.(pending := Without(w.pending, i))
    case Elsewhere => ForOthers(id, w.leases, v.leases) && v == w.(leases := v.leases)
  }

  ghost predicate History(id: Id, worlds: seq<World>, steps: seq<Step>) {
    && |worlds| == |steps| + 1
    && worlds[0].stream == OPENED && worlds[0].pending == [] && !worlds[0].landed
    && forall i :: 0 <= i < |steps| ==> Next(id, worlds[i], steps[i], worlds[i + 1])
  }

  /** Once the release has landed the lease is gone, and a renewal that arrives late, in whatever
      order calls are delivered, does not bring it back. */
  lemma {:induction false} LateRenewalNeverRecreates(id: Id, worlds: seq<World>, steps: seq<Step>, k: nat, n: nat)
    requires History(id, worlds, steps) && k <= n < |worlds| && worlds[k].landed
    ensures worlds[n].landed && id !in worlds[n].leases
  {
    if n == k {
      LandedIsGone(id, worlds, steps, k);
    } else {
      LateRenewalNeverRecreates(id, worlds, steps, k, n - 1);
      assert Next(id, worlds[n - 1], steps[n - 1], worlds[n]);
    }
  }

  lemma {:induction false} LandedIsGone(id: Id, worlds: seq<World>, steps: seq<Step>, k: nat)
    requires History(id, worlds, steps) && k < |worlds| && worlds[k].landed
    ensures id !in worlds[k].leases
  {
    if k > 0 {
      assert Next(id, worlds[k - 1], steps[k - 1], worlds[k]);
      if worlds[k - 1].landed {
        LandedIsGone(id, worlds, steps, k - 1);
      }
    }
  }

  predicate PendingIsSent(w: World) {
    && (forall c <- w.pending :: c in w.stream.sent)
    && (w.landed ==> ReleaseCall in w.stream.sent)
  }

  /** The lease is only ever taken back by its own stream: a release lands only after a terminal
      event. */
  lemma {:induction false} LandsOnlyAfterTheEnd(id: Id, worlds: seq<World>, steps: seq<Step>, k: nat)
    requires History(id, worlds, steps) && k < |worlds|
    ensures Inv(worlds[k].stream) && PendingIsSent(worlds[k])
    ensures worlds[k].landed ==> worlds[k].stream.released
  {
    if k > 0 {
      LandsOnlyAfterTheEnd(id, worlds, steps, k - 1);
      var w, v := worlds[k - 1], worlds[k];
      assert Next(id, w, steps[k - 1], v);
      if steps[k - 1].StreamEvent? {
        EventKeepsInv(w.stream, steps[k - 1].event);
      }
    }
    NoReleaseIn(worlds[k].stream.sent);
  }
}

/** Any number of executor requests, interleaved with one another and with the purge job: the nonce
    table of x_mcp_executor.js, the checks of x_mcp_verify.js and the job of x_mcp.now.ts. */
module ExecutorRuns {
  import opened CanonicalActor
  import opened Executor
  import opened ExecutorVerify
  import opened Utf8
  import opened Wrappers

  const HOUR_MS := 60 * 60 * 1000

  datatype Incoming = Incoming(script: Utf16, actor: Received, sig: Utf16)

  /** What a request is judged by: verification at a time, its nonce, and the digest in claim keys. */
  datatype Site = Site(accepts: (Incoming, int) -> bool, nonceOf: Incoming -> Utf16, digest: Utf16 -> Utf16)

  /** The site of an installed verifier. */
  function SiteOf(inst: Installation, digest: Utf16 -> Utf16): Site {
    Site((r: Incoming, now: int) => Accepts(inst, r.script, r.actor, r.sig, now), (r: Incoming) => Field(inst.keys, r.actor, NONCE), digest)
  }

  datatype Pc = Arrived | Verified | NonceIn | Claimed | Reverified | Proven | Evaluated | Refused(errorClass: Text)

  /** verifiedAt and recheckedAt: when the two verifications passed; insertedAt: when the nonce row was
      inserted; stampedAt: the clock reading it carries, taken at any time from the verification on. */
  datatype Request = Request(
    incoming: Incoming, auditId: Utf16, pc: Pc,
    verifiedAt: Option<int>, stampedAt: Option<int>, insertedAt: Option<int>, recheckedAt: Option<int>)

  /** rows is the nonce table: unique value, creation time in whole seconds. */
  datatype World = World(now: int, rows: map<Utf16, int>, requests: seq<Request>)

  /** GlideDateTime keeps whole seconds. */
  function Stamp(now: int): int { now - now % 1000 }

  function ClaimKey(site: Site, r: Request): Utf16 {
    [0x78, COLON] + r.auditId + [COLON] + site.digest(site.nonceOf(r.incoming))
  }

  datatype Event =
    | ClockMoves(now: int)
    | Arrive(incoming: Incoming, auditId: Utf16)
    | Verify(i: nat)
    | InsertNonce(i: nat, readAt: int)
    | InsertClaim(i: nat, readAt: int)
    | InsertFails(i: nat)
    | Reverify(i: nat)
    | CheckProofs(i: nat)
    | Evaluate(i: nat)
    | Purge(gone: set<Utf16>)

  predicate At(w: World, i: nat, pc: Pc) { i < |w.requests| && w.requests[i].pc == pc }

  function Moved(w: World, i: nat, r: Request): World
    requires i < |w.requests|
  {
    w.(requests := w.requests[i := r])
  }

  function Verdict(site: Site, w: World, i: nat): World
    requires i < |w.requests|
  {
    var r := w.requests[i];
    Moved(w, i, if site.accepts(r.incoming, w.now) then r.(pc := Verified, verifiedAt := Some(w.now))
                else r.(pc := Refused("actor_signature_invalid")))
  }

  function NonceInserted(site: Site, w: World, i: nat, readAt: int): World
    requires i < |w.requests|
  {
    var r, n := w.requests[i], site.nonceOf(w.requests[i].incoming);
    if n in w.rows then Moved(w, i, r.(pc := Refused("nonce_replay")))
    else Moved(w, i, r.(pc := NonceIn, stampedAt := Some(readAt), insertedAt := Some(w.now))).(rows := w.rows[n := Stamp(readAt)])
  }

  function ClaimInserted(site: Site, w: World, i: nat, readAt: int): World
    requires i < |w.requests|
  {
    var r, k := w.requests[i], ClaimKey(site, w.requests[i]);
    if k in w.rows then Moved(w, i, r.(pc := Refused("capability_required")))
    else Moved(w, i, r.(pc := Claimed)).(rows := w.rows[k := Stamp(readAt)])
  }

  function SecondVerdict(site: Site, w: World, i: nat): World
    requires i < |w.requests|
  {
    var r := w.requests[i];
    Moved(w, i, if site.accepts(r.incoming, w.now) then r.(pc := Reverified, recheckedAt := Some(w.now))
                else r.(pc := Refused("actor_signature_invalid")))
  }

  function ProofsChecked(site: Site, w: World, i: nat): World
    requires i < |w.requests|
  {
    var r := w.requests[i];
    Moved(w, i, r.(pc := if site.nonceOf(r.incoming) in w.rows && ClaimKey(site, r) in w.rows then Proven
                         else Refused("capability_required")))
  }

  ghost predicate Next(site: Site, w: World, ev: Event, v: World) {
    match ev
    case ClockMoves(now) => w.now <= now && v == w.(now := now)
    case Arrive(incoming, auditId) =>
      v == w.(requests := w.requests + [Request(incoming, auditId, Arrived, None, None, None, None)])
    case Verify(i) => At(w, i, Arrived) && v == Verdict(site, w, i)
    case InsertNonce(i, readAt) =>
      && At(w, i, Verified)
      && w.requests[i].verifiedAt.Some? && w.requests[i].verifiedAt.value <= readAt <= w.now
      && v == NonceInserted(site, w, i, readAt)
    case InsertClaim(i, readAt) => At(w, i, NonceIn) && readAt <= w.now && v == ClaimInserted(site, w, i, readAt)
    case InsertFails(i) =>
      (At(w, i, Verified) && v == Moved(w, i, w.requests[i].(pc := Refused("nonce_replay")))) ||
      (At(w, i, NonceIn) && v == Moved(w, i, w.requests[i].(pc := Refused("capability_required"))))
    case Reverify(i) => At(w, i, Claimed) && v == SecondVerdict(site, w, i)
    case CheckProofs(i) => At(w, i, Reverified) && v == ProofsChecked(site, w, i)
    case Evaluate(i) => At(w, i, Proven) && v == Moved(w, i, w.requests[i].(pc := Evaluated))
    case Purge(gone) =>
      && (forall k <- gone :: k in w.rows && w.rows[k] < w.now - HOUR_MS)
      && v == w.(rows := w.rows - gone)
  }

  ghost predicate History(site: Site, worlds: seq<World>, events: seq<Event>) {
    && |worlds| == |events| + 1 && worlds[0].rows == map[] && worlds[0].requests == []
    && forall i :: 0 <= i < |events| ==> Next(site, worlds[i], events[i], worlds[i + 1])
  }

  // ---------------------------------------------------------------- single use

  /** What the times of one request say. */
  predicate Timed(site: Site, now: int, r: Request) {
    && (r.verifiedAt.Some? ==> site.accepts(r.incoming, r.verifiedAt.value) && r.verifiedAt.value <= now)
    && (r.stampedAt.Some? <==> r.insertedAt.Some?)
    && (r.insertedAt.Some? ==> r.verifiedAt.Some? && r.verifiedAt.value <= r.stampedAt.value <= r.insertedAt.value <= now)
    && (r.recheckedAt.Some? ==>
          r.insertedAt.Some? && r.insertedAt.value <= r.recheckedAt.value && site.accepts(r.incoming, r.recheckedAt.value))
    && match r.pc
       case Arrived => r.insertedAt.None?
       case Verified => r.verifiedAt.Some? && r.insertedAt.None?
       case NonceIn => r.insertedAt.Some?
       case Claimed => r.insertedAt.Some?
       case Reverified => r.recheckedAt.Some?
       case Proven => r.recheckedAt.Some?
       case Evaluated => r.recheckedAt.Some?
       case Refused(_) => true
  }

  /** The row a request inserted is still there, or the purge has had almost an hour. */
  predicate RowKept(site: Site, now: int, rows: map<Utf16, int>, r: Request) {
    r.stampedAt.Some? ==>
      var n := site.nonceOf(r.incoming);
      (n in rows && rows[n] > r.stampedAt.value - 1000) || now - r.stampedAt.value > HOUR_MS - 1000
  }

  /** Of two inserts of one nonce, one comes almost an hour after the other was stamped. */
  predicate Apart(site: Site, q: Request, r: Request) {
    q.insertedAt.Some? && q.stampedAt.Some? && r.insertedAt.Some? && r.stampedAt.Some? && site.nonceOf(q.incoming) == site.nonceOf(r.incoming) ==>
      q.insertedAt.value - r.stampedAt.value > HOUR_MS - 1000 || r.insertedAt.value - q.stampedAt.value > HOUR_MS - 1000
  }

  ghost predicate AllTimed(site: Site, w: World) {
    forall i :: 0 <= i < |w.requests| ==> Timed(site, w.now, w.requests[i])
  }

  ghost predicate AllKept(site: Site, w: World) {
    forall i :: 0 <= i < |w.requests| ==> RowKept(site, w.now, w.rows, w.requests[i])
  }

  ghost predicate AllApart(site: Site, w: World) {
    forall i, j :: 0 <= i < |w.requests| && 0 <= j < |w.requests| && i != j ==> Apart(site, w.requests[i], w.requests[j])
  }

  lemma StaysTimed(site: Site, w: World, ev: Event, v: World, i: nat)
    requires i < |w.requests| && Timed(site, w.now, w.requests[i]) && Next(site, w, ev, v)
    ensures i < |v.requests| && Timed(site, v.now, v.requests[i])
  {
  }

  lemma StepKeepsTimes(site: Site, w: World, ev: Event, v: World)
    requires AllTimed(site, w) && Next(site, w, ev, v)
    ensures AllTimed(site, v)
  {
    forall i | 0 <= i < |v.requests| ensures Timed(site, v.now, v.requests[i]) {
      if i < |w.requests| {
        StaysTimed(site, w, ev, v, i);
      }
    }
  }

  lemma StaysKept(site: Site, w: World, ev: Event, v: World, i: nat)
    requires i < |w.requests| && RowKept(site, w.now, w.rows, w.requests[i]) && Next(site, w, ev, v)
    ensures i < |v.requests| && RowKept(site, v.now, v.rows, v.requests[i])
  {
  }

  lemma StepKeepsRows(site: Site, w: World, ev: Event, v: World)
    requires AllKept(site, w) && Next(site, w, ev, v)
    ensures AllKept(site, v)
  {
    forall i | 0 <= i < |v.requests| ensures RowKept(site, v.now, v.rows, v.requests[i]) {
      if i < |w.requests| {
        StaysKept(site, w, ev, v, i);
      }
    }
  }

  /** Only its own successful insert sets the insert times of a request. */
  lemma InsertTimes(site: Site, w: World, ev: Event, v: World, i: nat)
    requires i < |w.requests| && Next(site, w, ev, v)
    ensures i < |v.requests| && v.requests[i].incoming == w.requests[i].incoming
    ensures
      || (v.requests[i].insertedAt == w.requests[i].insertedAt && v.requests[i].stampedAt == w.requests[i].stampedAt)
      || (ev.InsertNonce? && ev.i == i && v.requests[i].insertedAt == Some(w.now) && site.nonceOf(w.requests[i].incoming) !in w.rows)
  {
  }

  lemma StayApart(site: Site, w: World, ev: Event, v: World, i: nat, j: nat)
    requires i < |w.requests| && j < |w.requests| && i != j && Next(site, w, ev, v)
    requires Apart(site, w.requests[i], w.requests[j])
    requires RowKept(site, w.now, w.rows, w.requests[i]) && RowKept(site, w.now, w.rows, w.requests[j])
    ensures i < |v.requests| && j < |v.requests| && Apart(site, v.requests[i], v.requests[j])
  {
    InsertTimes(site, w, ev, v, i);
    InsertTimes(site, w, ev, v, j);
  }

  lemma StepKeepsApart(site: Site, w: World, ev: Event, v: World)
    requires AllKept(site, w) && AllApart(site, w) && Next(site, w, ev, v)
    ensures AllApart(site, v)
  {
    forall i, j | 0 <= i < |v.requests| && 0 <= j < |v.requests| && i != j ensures Apart(site, v.requests[i], v.requests[j]) {
      if i < |w.requests| && j < |w.requests| {
        StayApart(site, w, ev, v, i, j);
      }
    }
  }

  lemma {:induction false} HistoryKeepsInv(site: Site, worlds: seq<World>, events: seq<Event>, k: nat)
    requires History(site, worlds, events) && k < |worlds|
    ensures AllTimed(site, worlds[k]) && AllKept(site, worlds[k]) && AllApart(site, worlds[k])
  {
    if k > 0 {
      HistoryKeepsInv(site, worlds, events, k - 1);
      StepKeepsTimes(site, worlds[k - 1], events[k - 1], worlds[k]);
      StepKeepsRows(site, worlds[k - 1], events[k - 1], worlds[k]);
      StepKeepsApart(site, worlds[k - 1], events[k - 1], worlds[k]);
    }
  }

  /** The two requests are only ever accepted within a short while. */
  ghost predicate Brief(site: Site, q: Incoming, r: Incoming) {
    forall t: int, u: int :: site.accepts(q, t) && site.accepts(r, u) ==> -2 * FRESHNESS_MS <= t - u <= 2 * FRESHNESS_MS
  }

  lemma BriefMeansOnce(site: Site, worlds: seq<World>, events: seq<Event>, k: nat, i: nat, j: nat)
    requires History(site, worlds, events) && k < |worlds|
    requires At(worlds[k], i, Evaluated) && At(worlds[k], j, Evaluated)
    requires site.nonceOf(worlds[k].requests[i].incoming) == site.nonceOf(worlds[k].requests[j].incoming)
    requires Brief(site, worlds[k].requests[i].incoming, worlds[k].requests[j].incoming)
    ensures i == j
  {
    HistoryKeepsInv(site, worlds, events, k);
    var q, r := worlds[k].requests[i], worlds[k].requests[j];
    assert Timed(site, worlds[k].now, q) && Timed(site, worlds[k].now, r);
    assert q.insertedAt.value - r.stampedAt.value <= 2 * FRESHNESS_MS by {
      assert site.accepts(q.incoming, q.recheckedAt.value) && site.accepts(r.incoming, r.verifiedAt.value);
    }
    assert r.insertedAt.value - q.stampedAt.value <= 2 * FRESHNESS_MS by {
      assert site.accepts(r.incoming, r.recheckedAt.value) && site.accepts(q.incoming, q.verifiedAt.value);
    }
    assert i != j ==> Apart(site, q, r);
  }

  lemma {:induction false} GenuineIsBrief(inst: Installation, digest: Utf16 -> Utf16, signed: iset<SignedActorPayload>, q: Incoming, r: Incoming)
    requires Genuine(inst, signed, q.actor, q.sig) && Genuine(inst, signed, r.actor, r.sig)
    requires StampsReadBack(inst, signed) && DistinctNonces(signed)
    requires Field(inst.keys, q.actor, NONCE) == Field(inst.keys, r.actor, NONCE)
    ensures Brief(SiteOf(inst, digest), q, r)
  {
    var site := SiteOf(inst, digest);
    forall t: int, u: int | site.accepts(q, t) && site.accepts(r, u) ensures -2 * FRESHNESS_MS <= t - u <= 2 * FRESHNESS_MS {
      AcceptedBriefly(inst, signed, q.script, q.actor, q.sig, t, r.script, r.actor, r.sig, u);
      AcceptedBriefly(inst, signed, r.script, r.actor, r.sig, u, q.script, q.actor, q.sig, t);
    }
  }

  /** Over all time, all interleavings and any purging, two genuine requests with one nonce, in particular
      two with one signed actor, are never both evaluated: each insert falls within the freshness
      window of the one payload that has the nonce, and the purge waits an hour. */
  lemma EvaluatedOnce(inst: Installation, digest: Utf16 -> Utf16, signed: iset<SignedActorPayload>,
                      worlds: seq<World>, events: seq<Event>, k: nat, i: nat, j: nat)
    requires History(SiteOf(inst, digest), worlds, events) && k < |worlds|
    requires At(worlds[k], i, Evaluated) && At(worlds[k], j, Evaluated)
    requires var q, r := worlds[k].requests[i].incoming, worlds[k].requests[j].incoming;
      && Genuine(inst, signed, q.actor, q.sig) && Genuine(inst, signed, r.actor, r.sig)
      && Field(inst.keys, q.actor, NONCE) == Field(inst.keys, r.actor, NONCE)
    requires StampsReadBack(inst, signed) && DistinctNonces(signed)
    ensures i == j
  {
    GenuineIsBrief(inst, digest, signed, worlds[k].requests[i].incoming, worlds[k].requests[j].incoming);
    BriefMeansOnce(SiteOf(inst, digest), worlds, events, k, i, j);
  }

  /** In every history a request that was evaluated ran a script whose digest the host signed for this
      instance, verified twice within two minutes of the signing. */
  lemma EvaluatedIsSigned(inst: Installation, digest: Utf16 -> Utf16, signed: iset<SignedActorPayload>,
                          worlds: seq<World>, events: seq<Event>, k: nat, i: nat) returns (p: SignedActorPayload)
    requires History(SiteOf(inst, digest), worlds, events) && k < |worlds| && At(worlds[k], i, Evaluated)
    requires Genuine(inst, signed, worlds[k].requests[i].incoming.actor, worlds[k].requests[i].incoming.sig)
    requires StampsReadBack(inst, signed)
    ensures var r := worlds[k].requests[i];
      && p in signed && Carries(inst, r.incoming.actor, r.incoming.sig, p)
      && inst.lib.sha256Base64(r.incoming.script) == p.script_sha256
      && r.verifiedAt.Some? && BindsTo(inst, p, r.incoming.script, r.verifiedAt.value)
      && r.recheckedAt.Some? && BindsTo(inst, p, r.incoming.script, r.recheckedAt.value)
  {
    HistoryKeepsInv(SiteOf(inst, digest), worlds, events, k);
    var r := worlds[k].requests[i];
    assert Timed(SiteOf(inst, digest), worlds[k].now, r);
    var q := AcceptedIsBound(inst, signed, r.incoming.script, r.incoming.actor, r.incoming.sig, r.recheckedAt.value);
    p := AcceptedIsBound(inst, signed, r.incoming.script, r.incoming.actor, r.incoming.sig, r.verifiedAt.value);
    TextsOf(p);
    TextsOf(q);
    SameStamp(inst, signed, p, q);
  }

  lemma SameStamp(inst: Installation, signed: iset<SignedActorPayload>, p: SignedActorPayload, q: SignedActorPayload)
    requires StampsReadBack(inst, signed) && p in signed && q in signed && Texts(p) == Texts(q)
    ensures p.issued_at == q.issued_at
  {
    TextsOf(p);
    TextsOf(q);
  }

  /** The proof rows were both there when they were looked up. */
  ghost predicate Proved(site: Site, worlds: seq<World>, events: seq<Event>, k: nat, i: nat)
    requires k <= |events| < |worlds|
  {
    exists j: nat :: j < k && events[j] == CheckProofs(i) && i < |worlds[j].requests|
      && site.nonceOf(worlds[j].requests[i].incoming) in worlds[j].rows && ClaimKey(site, worlds[j].requests[i]) in worlds[j].rows
  }

  lemma OnlyChecksProve(site: Site, w: World, ev: Event, v: World, i: nat)
    requires Next(site, w, ev, v) && (At(v, i, Proven) || At(v, i, Evaluated))
    ensures At(w, i, Proven) || At(w, i, Evaluated) ||
      (ev == CheckProofs(i) && i < |w.requests| && site.nonceOf(w.requests[i].incoming) in w.rows && ClaimKey(site, w.requests[i]) in w.rows)
  {
  }

  /** In every history an evaluated request found its nonce row and its claim row in the table, so one whose
      rows were purged in between was refused. */
  lemma {:induction false} EvaluatedFoundItsRows(site: Site, worlds: seq<World>, events: seq<Event>, k: nat, i: nat)
    requires History(site, worlds, events) && k < |worlds| && (At(worlds[k], i, Proven) || At(worlds[k], i, Evaluated))
    ensures Proved(site, worlds, events, k, i)
  {
    assert k > 0;
    var w := worlds[k - 1];
    assert Next(site, w, events[k - 1], worlds[k]);
    OnlyChecksProve(site, w, events[k - 1], worlds[k], i);
    if At(w, i, Proven) || At(w, i, Evaluated) {
      EvaluatedFoundItsRows(site, worlds, events, k - 1, i);
    }
  }

  // ---------------------------------------------------------------- one request among the steps

  ghost predicate EndsIn(site: Site, worlds: seq<World>, events: seq<Event>, w: World) {
    History(site, worlds, events) && worlds[|worlds| - 1] == w
  }

  lemma Extend(site: Site, worlds: seq<World>, events: seq<Event>, w: World, ev: Event, v: World)
    requires EndsIn(site, worlds, events, w) && Next(site, w, ev, v)
    ensures EndsIn(site, worlds + [v], events + [ev], v)
  {
    var ws, es := worlds + [v], events + [ev];
    forall i | 0 <= i < |es| ensures Next(site, ws[i], es[i], ws[i + 1]) {
      assert i < |events| ==> ws[i] == worlds[i] && ws[i + 1] == worlds[i + 1] && es[i] == events[i];
    }
  }

  /** One request taken through all its steps at once, as far as it gets: up to the nonce, and on. */
  function Alone(site: Site, w: World, i: nat): World
    requires i < |w.requests|
  {
    var w1 := Verdict(site, w, i);
    if w1.requests[i].pc != Verified then w1 else
    var w2 := NonceInserted(site, w1, i, w.now);
    if w2.requests[i].pc != NonceIn then w2 else AfterNonce(site, w2, i)
  }

  function AfterNonce(site: Site, w: World, i: nat): World
    requires i < |w.requests|
  {
    var w3 := ClaimInserted(site, w, i, w.now);
    if w3.requests[i].pc != Claimed then w3 else
    var w4 := SecondVerdict(site, w3, i);
    if w4.requests[i].pc != Reverified then w4 else
    var w5 := ProofsChecked(site, w4, i);
    if w5.requests[i].pc != Proven then w5 else Moved(w5, i, w5.requests[i].(pc := Evaluated))
  }

  /** What the instance answers such a request. */
  predicate Answers(site: Site, w: World, r: Request, env: Instance) {
    var n := site.nonceOf(r.incoming);
    && Switched(env) && !env.verifyThrows && env.proofRows
    && env.verified == env.verifiedAgain == site.accepts(r.incoming, w.now)
    && env.nonceInserted == (n !in w.rows)
    && env.claimInserted == (ClaimKey(site, r) !in w.rows && ClaimKey(site, r) != n)
  }

  /** The steps follow the code of one request: with the answers the table and the verifier give, it ends
      evaluated exactly when Process evaluates it, and refused with the error class of Process. */
  lemma StepsFollowProcess(site: Site, w: World, i: nat, env: Instance)
    requires At(w, i, Arrived) && Answers(site, w, w.requests[i], env) && SizeOk(w.requests[i].incoming.script, env)
    requires site.accepts(w.requests[i].incoming, w.now) ==> site.nonceOf(w.requests[i].incoming) != []
    ensures Alone(site, w, i).requests[i].pc ==
      if Evaluates(w.requests[i].incoming.script, site.nonceOf(w.requests[i].incoming), env) then Evaluated
      else Refused(WhyRefused(site.nonceOf(w.requests[i].incoming), env))
  {
  }

  /** Taking a request through its steps at once is one of the interleavings. */
  lemma AloneIsARun(site: Site, worlds: seq<World>, events: seq<Event>, w: World, i: nat) returns (worlds2: seq<World>, events2: seq<Event>)
    requires EndsIn(site, worlds, events, w) && At(w, i, Arrived)
    ensures EndsIn(site, worlds2, events2, Alone(site, w, i))
  {
    var w1 := Verdict(site, w, i);
    Extend(site, worlds, events, w, Verify(i), w1);
    worlds2, events2 := worlds + [w1], events + [Verify(i)];
    if w1.requests[i].pc == Verified {
      var w2 := NonceInserted(site, w1, i, w.now);
      Extend(site, worlds2, events2, w1, InsertNonce(i, w.now), w2);
      worlds2, events2 := worlds2 + [w2], events2 + [InsertNonce(i, w.now)];
      if w2.requests[i].pc == NonceIn {
        worlds2, events2 := RestIsARun(site, worlds2, events2, w2, i);
      }
    }
  }

  lemma RestIsARun(site: Site, worlds: seq<World>, events: seq<Event>, w: World, i: nat) returns (worlds2: seq<World>, events2: seq<Event>)
    requires EndsIn(site, worlds, events, w) && At(w, i, NonceIn)
    ensures EndsIn(site, worlds2, events2, AfterNonce(site, w, i))
  {
    var w3 := ClaimInserted(site, w, i, w.now);
    Extend(site, worlds, events, w, InsertClaim(i, w.now), w3);
    worlds2, events2 := worlds + [w3], events + [InsertClaim(i, w.now)];
    if w3.requests[i].pc == Claimed {
      var w4 := SecondVerdict(site, w3, i);
      Extend(site, worlds2, events2, w3, Reverify(i), w4);
      worlds2, events2 := worlds2 + [w4], events2 + [Reverify(i)];
      if w4.requests[i].pc == Reverified {
        var w5 := ProofsChecked(site, w4, i);
        Extend(site, worlds2, events2, w4, CheckProofs(i), w5);
        worlds2, events2 := worlds2 + [w5], events2 + [CheckProofs(i)];
        if w5.requests[i].pc == Proven {
          var w6 := Moved(w5, i, w5.requests[i].(pc := Evaluated));
          Extend(site, worlds2, events2, w5, Evaluate(i), w6);
          worlds2, events2 := worlds2 + [w6], events2 + [Evaluate(i)];
        }
      }
    }
  }

  // ---------------------------------------------------------------- why execute verifies again

  /** A copy of a request, verified at this time. */
  function Copy(r: Incoming, auditId: Utf16, now: int): Request { Request(r, auditId, Verified, Some(now), None, None, None) }

  lemma CopyArrives(site: Site, worlds: seq<World>, events: seq<Event>, w: World, r: Incoming, auditId: Utf16)
    returns (worlds2: seq<World>, events2: seq<Event>)
    requires EndsIn(site, worlds, events, w) && site.accepts(r, w.now)
    ensures EndsIn(site, worlds2, events2, w.(requests := w.requests + [Copy(r, auditId, w.now)]))
  {
    var n := |w.requests|;
    var w1 := w.(requests := w.requests + [Request(r, auditId, Arrived, None, None, None, None)]);
    Extend(site, worlds, events, w, Arrive(r, auditId), w1);
    var w2 := Verdict(site, w1, n);
    Extend(site, worlds + [w1], events + [Arrive(r, auditId)], w1, Verify(n), w2);
    assert w2.requests == w.requests + [Copy(r, auditId, w.now)];
    worlds2, events2 := worlds + [w1] + [w2], events + [Arrive(r, auditId)] + [Verify(n)];
  }

  /** A verified request inserts its nonce when no row holds it. */
  lemma CopyInserts(site: Site, worlds: seq<World>, events: seq<Event>, w: World, i: nat)
    returns (worlds2: seq<World>, events2: seq<Event>)
    requires EndsIn(site, worlds, events, w) && At(w, i, Verified)
    requires w.requests[i].verifiedAt.Some? && w.requests[i].verifiedAt.value <= w.now
    ensures EndsIn(site, worlds2, events2, NonceInserted(site, w, i, w.now))
  {
    var v := NonceInserted(site, w, i, w.now);
    Extend(site, worlds, events, w, InsertNonce(i, w.now), v);
    worlds2, events2 := worlds + [v], events + [InsertNonce(i, w.now)];
  }

  lemma PurgeRuns(site: Site, worlds: seq<World>, events: seq<Event>, w: World, n: Utf16)
    returns (worlds2: seq<World>, events2: seq<Event>)
    requires EndsIn(site, worlds, events, w) && w.rows == map[n := Stamp(w.now)]
    ensures EndsIn(site, worlds2, events2, w.(now := w.now + HOUR_MS + 1, rows := map[]))
  {
    var late := w.now + HOUR_MS + 1;
    var w1 := w.(now := late);
    Extend(site, worlds, events, w, ClockMoves(late), w1);
    var w2 := w1.(rows := map[]);
    assert w1.rows - {n} == map[];
    Extend(site, worlds + [w1], events + [ClockMoves(late)], w1, Purge({n}), w2);
    worlds2, events2 := worlds + [w1] + [w2], events + [ClockMoves(late)] + [Purge({n})];
  }

  /** Inserting the nonce does not by itself make it single-use: for every request that is ever accepted
      there is a history in which a copy that was verified in time stalls until the purge has run and
      inserts the nonce again. Only the second verification stops it. */
  lemma InsertAloneIsNotSingleUse(site: Site, r: Incoming, now: int)
    returns (worlds: seq<World>, events: seq<Event>, w: World)
    requires site.accepts(r, now)
    ensures EndsIn(site, worlds, events, w)
    ensures At(w, 0, NonceIn) && At(w, 1, NonceIn) && w.requests[0].incoming == w.requests[1].incoming == r
  {
    var start := World(now, map[], []);
    worlds, events := [start], [];
    worlds, events := CopyArrives(site, worlds, events, start, r, [0x31]);
    var one := start.(requests := [] + [Copy(r, [0x31], now)]);
    worlds, events := CopyArrives(site, worlds, events, one, r, [0x32]);
    var both := one.(requests := one.requests + [Copy(r, [0x32], now)]);
    worlds, events := CopyInserts(site, worlds, events, both, 0);
    w := NonceInserted(site, both, 0, now);
    assert w.requests[1] == both.requests[1];
    worlds, events := PurgeRuns(site, worlds, events, w, site.nonceOf(r));
    w := worlds[|worlds| - 1];
    worlds, events := CopyInserts(site, worlds, events, w, 1);
    w := worlds[|worlds| - 1];
  }
}

/** The runs that share one day's budget object: tools/run_code.ts and tools/handlers.ts.

    A run reserves its per-run maximums, meters what it does, takes a snapshot of the meters at its end
    and reconciles by it. Nothing stops the calls that are still under way when the snapshot is taken:
    they go on counting, after the refund too. Reconcile calls may be lost, runs may crash, runs of
    another day may reconcile here, and the OAuth callback adds its own spend without reserving.
    Operations of any number of runs interleave freely. */
module BudgetRuns {
  import opened Budget
  import opened RunBudget
  import opened Wrappers

  datatype Kind = CodeRun | DiscoveryRun

  /** Of a run that is closing or reconciled, the snapshot its reconcile call carries. */
  datatype Phase = Running | Closing(snap: Meters) | Reconciled(snap: Meters) | Abandoned

  /** meters are the live ones; requests and rpcs are the counts that passed the per-run check. */
  datatype Entry =
    | Ran(user: User, kind: Kind, meters: Meters, requests: nat, rpcs: nat, phase: Phase)
    | Accrual(user: User, spent: Request)

  datatype Day = Day(book: Book, entries: seq<Entry>)

  // ---------------------------------------------------------------- what a run asks for

  function ReservedFor(kind: Kind, d: Dimension): nat {
    match d
    case UniqueWorkers => if kind == CodeRun then 1 else 0
    case SandboxRpcCalls => if kind == CodeRun then PER_RUN.rpcCallLimit else 0
    case ServiceNowRequests => PER_RUN.serviceNowRequestLimit
    case RowsReturned => 0
    case BytesReturned => 0
    case OutboundBytesSent => PER_RUN.maxOutboundBytes
  }

  function Reservation(kind: Kind): Request { map d: Dimension :: ReservedFor(kind, d) }

  function DeltaFor(kind: Kind, m: Meters, d: Dimension): int {
    match d
    case UniqueWorkers => 0
    case SandboxRpcCalls => if kind == CodeRun then m.rpcCalls - PER_RUN.rpcCallLimit else 0
    case ServiceNowRequests => m.serviceNowRequests - PER_RUN.serviceNowRequestLimit
    case RowsReturned => m.rowsReturned
    case BytesReturned => m.bytesReturned
    case OutboundBytesSent => m.outboundBytesSent - PER_RUN.maxOutboundBytes
  }

  function Delta(kind: Kind, m: Meters): Request { map d: Dimension :: DeltaFor(kind, m, d) }

  /** What a reconciled run has cost the day: its worker, and what its meters show. Discovery runs
      never account for their RPC calls. */
  function Cost(kind: Kind, m: Meters, d: Dimension): nat {
    match d
    case UniqueWorkers => if kind == CodeRun then 1 else 0
    case SandboxRpcCalls => if kind == CodeRun then m.rpcCalls else 0
    case ServiceNowRequests => m.serviceNowRequests
    case RowsReturned => m.rowsReturned
    case BytesReturned => m.bytesReturned
    case OutboundBytesSent => m.outboundBytesSent
  }

  // ---------------------------------------------------------------- the steps

  /** Foreign: the reconcile of a run that reserved on another day. A run of this day that reconciles
      on another one is abandoned here. */
  datatype Event =
    | Reserve(user: User, kind: Kind, result: ReserveResult)
    | Meter(run: nat, count: Count, caps: RunBudgetCaps)
    | Snapshot(run: nat)
    | Reconcile(run: nat)
    | Abandon(run: nat)
    | Accrue(user: User, spent: Request)
    | Foreign(user: User, kind: Kind, meters: Meters)

  predicate IsRun(s: Day, i: nat) { i < |s.entries| && s.entries[i].Ran? }

  predicate IsRunning(s: Day, i: nat) { IsRun(s, i) && s.entries[i].phase.Running? }

  predicate IsClosing(s: Day, i: nat) { IsRun(s, i) && s.entries[i].phase.Closing? }

  predicate IsReconciled(s: Day, i: nat) { IsRun(s, i) && s.entries[i].phase.Reconciled? }

  function Metered(e: Entry, c: Count, caps: RunBudgetCaps): Entry
    requires e.Ran?
  {
    var (m, passed) := Counted(e.meters, PER_RUN, caps, c);
    e.(meters := m,
       requests := if c.ServiceNowRequest? && passed then e.requests + 1 else e.requests,
       rpcs := if c.RpcCall? && passed then e.rpcs + 1 else e.rpcs)
  }

  function Started(user: User, kind: Kind): Entry { Ran(user, kind, ZERO, 0, 0, Running) }

  function Settle(e: Entry): Entry
    requires e.Ran? && e.phase.Closing?
  {
    e.(phase := Reconciled(e.phase.snap))
  }

  ghost predicate Next(caps: Caps, s: Day, ev: Event, t: Day) {
    match ev
    case Reserve(user, kind, r) =>
      && Reserving(s.book, caps, Reservation(kind), user, t.book, r)
      && t.entries == if r.Reserved? then s.entries + [Started(user, kind)] else s.entries
    case Meter(i, c, rowCaps) =>
      && IsRun(s, i) && t == Day(s.book, s.entries[i := Metered(s.entries[i], c, rowCaps)])
    case Snapshot(i) =>
      && IsRunning(s, i) && t == Day(s.book, s.entries[i := s.entries[i].(phase := Closing(s.entries[i].meters))])
    case Reconcile(i) =>
      && IsClosing(s, i)
      && Adjusted(s.book, Delta(s.entries[i].kind, s.entries[i].phase.snap), s.entries[i].user, t.book)
      && t.entries == s.entries[i := Settle(s.entries[i])]
    case Abandon(i) =>
      && (IsRunning(s, i) || IsClosing(s, i)) && t == Day(s.book, s.entries[i := s.entries[i].(phase := Abandoned)])
    case Accrue(user, spent) =>
      && Added(s.book, spent, user, t.book) && t.entries == s.entries + [Accrual(user, spent)]
    case Foreign(user, kind, m) =>
      && m.outboundBytesSent <= PER_RUN.maxOutboundBytes
      && Adjusted(s.book, Delta(kind, m), user, t.book) && t.entries == s.entries
  }

  const MIDNIGHT := Day(Book(map[], map[]), [])

  ghost predicate History(caps: Caps, days: seq<Day>, events: seq<Event>) {
    && |days| == |events| + 1 && days[0] == MIDNIGHT
    && forall i :: 0 <= i < |events| ==> Next(caps, days[i], events[i], days[i + 1])
  }

  // ---------------------------------------------------------------- sums over the entries

  function Sum(es: seq<Entry>, w: Entry -> nat): nat {
    if es == [] then 0 else Sum(es[..|es| - 1], w) + w(es[|es| - 1])
  }

  lemma SumAppend(es: seq<Entry>, e: Entry, w: Entry -> nat)
    ensures Sum(es + [e], w) == Sum(es, w) + w(e)
  {
    assert (es + [e])[..|es|] == es;
  }

  lemma {:induction false} SumUpdate(es: seq<Entry>, i: nat, e: Entry, w: Entry -> nat)
    requires i < |es|
    ensures Sum(es[i := e], w) == Sum(es, w) - w(es[i]) + w(e)
    ensures Sum(es, w) >= w(es[i])
  {
    var n := |es| - 1;
    if i == n {
      assert es[i := e][..n] == es[..n];
    } else {
      assert es[i := e][..n] == es[..n][i := e];
      SumUpdate(es[..n], i, e, w);
    }
  }

  lemma {:induction false} SumBelow(es: seq<Entry>, v: Entry -> nat, w: Entry -> nat)
    requires forall i :: 0 <= i < |es| ==> v(es[i]) <= w(es[i])
    ensures Sum(es, v) <= Sum(es, w)
  {
    if es != [] {
      SumBelow(es[..|es| - 1], v, w);
    }
  }

  lemma {:induction false} SumSplit(es: seq<Entry>, u: Entry -> nat, v: Entry -> nat, w: Entry -> nat)
    requires forall i :: 0 <= i < |es| ==> u(es[i]) == v(es[i]) + w(es[i])
    ensures Sum(es, u) == Sum(es, v) + Sum(es, w)
  {
    if es != [] {
      SumSplit(es[..|es| - 1], u, v, w);
    }
  }

  // ---------------------------------------------------------------- conservation

  /** The two views of the counters. No user has the empty id. */
  datatype View = Everyone | Only(user: User)

  predicate Sees(v: View, user: User) { v.Everyone? || (v.user == user && user != "") }

  function Counter(b: Book, v: View, d: Dimension): int { if v.Everyone? then b.Global(d) else b.Of(v.user, d) }

  /** Reservations of runs not reconciled, cost of reconciled runs by their snapshots, callback spend. */
  function Contribution(e: Entry, d: Dimension): nat {
    match e
    case Ran(_, kind, _, _, _, phase) => if phase.Reconciled? then Cost(kind, phase.snap, d) else ReservedFor(kind, d)
    case Accrual(_, spent) => Max(0, Read(spent, d))
  }

  function Weight(v: View, d: Dimension): Entry -> nat { (e: Entry) => if Sees(v, e.user) then Contribution(e, d) else 0 }

  /** What a counter holds beyond its entries. */
  function Drift(s: Day, v: View, d: Dimension): int { Counter(s.book, v, d) - Sum(s.entries, Weight(v, d)) }

  predicate Conserves(s: Day, v: View, d: Dimension) { Drift(s, v, d) == 0 }

  lemma DeltaIsCostLessReservation(kind: Kind, m: Meters, d: Dimension)
    ensures DeltaFor(kind, m, d) == Cost(kind, m, d) - ReservedFor(kind, d)
  {
  }

  /** What a step moves a counter by that no entry of the day accounts for: all that the reconcile of
      another day's run moves it by, and of an own reconcile what holding the counter at 0 adds. */
  function Astray(s: Day, ev: Event, v: View, d: Dimension): int {
    match ev
    case Reconcile(i) =>
      if IsClosing(s, i) && Sees(v, s.entries[i].user) then
        var delta := DeltaFor(s.entries[i].kind, s.entries[i].phase.snap, d);
        Held(Counter(s.book, v, d), delta) - Counter(s.book, v, d) - delta
      else 0
    case Foreign(user, kind, m) =>
      if Sees(v, user) then Held(Counter(s.book, v, d), DeltaFor(kind, m, d)) - Counter(s.book, v, d) else 0
    case _ => 0
  }

  function Strayed(days: seq<Day>, events: seq<Event>, k: nat, v: View, d: Dimension): int
    requires k <= |events| && k <= |days|
  {
    if k == 0 then 0 else Strayed(days, events, k - 1, v, d) + Astray(days[k - 1], events[k - 1], v, d)
  }

  lemma AddingDrift(s: Day, e: Entry, req: Request, t: Day, v: View, d: Dimension)
    requires Added(s.book, req, e.user, t.book) && t.entries == s.entries + [e]
    requires Contribution(e, d) == Max(0, Read(req, d))
    ensures Drift(t, v, d) == Drift(s, v, d)
  {
    SumAppend(s.entries, e, Weight(v, d));
  }

  lemma UpdatingDrift(s: Day, i: nat, e: Entry, t: Day, v: View, d: Dimension)
    requires i < |s.entries| && e.user == s.entries[i].user && Contribution(e, d) == Contribution(s.entries[i], d)
    requires t == Day(s.book, s.entries[i := e])
    ensures Drift(t, v, d) == Drift(s, v, d)
  {
    SumUpdate(s.entries, i, e, Weight(v, d));
  }

  lemma ReconcilingDrift(caps: Caps, s: Day, i: nat, t: Day, v: View, d: Dimension)
    requires Next(caps, s, Reconcile(i), t)
    ensures Drift(t, v, d) == Drift(s, v, d) + Astray(s, Reconcile(i), v, d)
  {
    var e := s.entries[i];
    DeltaIsCostLessReservation(e.kind, e.phase.snap, d);
    SumUpdate(s.entries, i, Settle(e), Weight(v, d));
  }

  lemma StepDrift(caps: Caps, s: Day, ev: Event, t: Day, v: View, d: Dimension)
    requires Next(caps, s, ev, t)
    ensures Drift(t, v, d) == Drift(s, v, d) + Astray(s, ev, v, d)
  {
    match ev
    case Reserve(user, kind, r) =>
      if r.Reserved? {
        AddingDrift(s, Started(user, kind), Reservation(kind), t, v, d);
      }
    case Meter(i, c, rowCaps) => UpdatingDrift(s, i, Metered(s.entries[i], c, rowCaps), t, v, d);
    case Snapshot(i) => UpdatingDrift(s, i, s.entries[i].(phase := Closing(s.entries[i].meters)), t, v, d);
    case Reconcile(i) => ReconcilingDrift(caps, s, i, t, v, d);
    case Abandon(i) => UpdatingDrift(s, i, s.entries[i].(phase := Abandoned), t, v, d);
    case Accrue(user, spent) => AddingDrift(s, Accrual(user, spent), spent, t, v, d);
    case Foreign(user, kind, m) => assert Read(Delta(kind, m), d) == DeltaFor(kind, m, d);
  }

  /** Over every history each counter is what its entries contribute plus what went astray. */
  lemma {:induction false} CounterIsEntriesAndStrays(caps: Caps, days: seq<Day>, events: seq<Event>, k: nat, v: View, d: Dimension)
    requires History(caps, days, events) && k < |days|
    ensures Counter(days[k].book, v, d) == Sum(days[k].entries, Weight(v, d)) + Strayed(days, events, k, v, d)
  {
    if k > 0 {
      CounterIsEntriesAndStrays(caps, days, events, k - 1, v, d);
      StepDrift(caps, days[k - 1], events[k - 1], days[k], v, d);
    }
  }

  /** While a counter accounts for its entries no own refund reaches below zero, so holding it at 0
      changes nothing. */
  lemma ClampNeverBites(s: Day, i: nat, v: View, d: Dimension)
    requires Conserves(s, v, d) && IsClosing(s, i) && Sees(v, s.entries[i].user)
    ensures Counter(s.book, v, d) + DeltaFor(s.entries[i].kind, s.entries[i].phase.snap, d) >= 0
  {
    var e := s.entries[i];
    SumUpdate(s.entries, i, e, Weight(v, d));
    DeltaIsCostLessReservation(e.kind, e.phase.snap, d);
  }

  /** The reconcile of another day's run finds its delta 0, or a refund meets a counter at 0. */
  predicate Spares(s: Day, ev: Event, v: View, d: Dimension) {
    ev.Foreign? && Sees(v, ev.user) ==>
      DeltaFor(ev.kind, ev.meters, d) == 0 || (Counter(s.book, v, d) == 0 && DeltaFor(ev.kind, ev.meters, d) < 0)
  }

  lemma StepConserves(caps: Caps, s: Day, ev: Event, t: Day, v: View, d: Dimension)
    requires Conserves(s, v, d) && Next(caps, s, ev, t)
    ensures Conserves(t, v, d) <==> Spares(s, ev, v, d)
  {
    StepDrift(caps, s, ev, t, v, d);
    if ev.Reconcile? && Sees(v, s.entries[ev.run].user) {
      ClampNeverBites(s, ev.run, v, d);
    }
  }

  /** A counter accounts for exactly its entries on every day up to the n-th if and only if each
      reconcile of another day's run spared it. */
  lemma {:induction false} ConservationExact(caps: Caps, days: seq<Day>, events: seq<Event>, n: nat, v: View, d: Dimension)
    requires History(caps, days, events) && n < |days|
    ensures (forall m :: 0 <= m <= n ==> Conserves(days[m], v, d)) <==> (forall i :: 0 <= i < n ==> Spares(days[i], events[i], v, d))
  {
    if n > 0 {
      ConservationExact(caps, days, events, n - 1, v, d);
      if Conserves(days[n - 1], v, d) {
        StepConserves(caps, days[n - 1], events[n - 1], days[n], v, d);
      }
    }
  }

  /** Without such reconciles, in every dimension, both views account for every run exactly. */
  lemma {:induction false} BudgetConservation(caps: Caps, days: seq<Day>, events: seq<Event>, k: nat, v: View, d: Dimension)
    requires History(caps, days, events) && k < |days|
    requires forall i :: 0 <= i < k ==> !events[i].Foreign?
    ensures Conserves(days[k], v, d)
  {
    ConservationExact(caps, days, events, k, v, d);
    assert forall i :: 0 <= i < k ==> Spares(days[i], events[i], v, d);
  }

  // ---------------------------------------------------------------- the per-user view

  predicate Distinct(roster: seq<User>) { forall i, j :: 0 <= i < j < |roster| ==> roster[i] != roster[j] }

  function RosterSum(b: Book, roster: seq<User>, d: Dimension): int {
    if roster == [] then 0 else b.Of(roster[0], d) + RosterSum(b, roster[1..], d)
  }

  function RosterWeight(roster: seq<User>, d: Dimension): Entry -> nat {
    (e: Entry) => if e.user in roster then Contribution(e, d) else 0
  }

  lemma {:induction false} RosterSumIsSum(s: Day, roster: seq<User>, d: Dimension)
    requires forall u <- roster :: Conserves(s, Only(u), d)
    requires Distinct(roster) && "" !in roster
    ensures RosterSum(s.book, roster, d) == Sum(s.entries, RosterWeight(roster, d))
  {
    if roster == [] {
      SumSplit(s.entries, RosterWeight(roster, d), RosterWeight(roster, d), RosterWeight(roster, d));
    } else {
      RosterSumIsSum(s, roster[1..], d);
      assert Conserves(s, Only(roster[0]), d);
      SumSplit(s.entries, RosterWeight(roster, d), Weight(Only(roster[0]), d), RosterWeight(roster[1..], d));
    }
  }

  /** When every entry names a user of the roster, the per-user counters add up to the global one. */
  lemma UsersAddUp(s: Day, roster: seq<User>, d: Dimension)
    requires Conserves(s, Everyone, d) && forall u <- roster :: Conserves(s, Only(u), d)
    requires Distinct(roster) && "" !in roster
    requires forall i :: 0 <= i < |s.entries| ==> s.entries[i].user in roster
    ensures RosterSum(s.book, roster, d) == s.book.Global(d)
  {
    RosterSumIsSum(s, roster, d);
    SumBelow(s.entries, RosterWeight(roster, d), Weight(Everyone, d));
    SumBelow(s.entries, Weight(Everyone, d), RosterWeight(roster, d));
  }

  // ---------------------------------------------------------------- what the runs pass

  /** The dimensions a run reserves its maximum of. */
  predicate Capped(d: Dimension) { d == ServiceNowRequests || d == SandboxRpcCalls || d == OutboundBytesSent }

  function Min(a: int, b: int): int { if a <= b then a else b }

  /** What passed the per-run check so far. */
  function Passed(e: Entry, d: Dimension): nat
    requires e.Ran?
  {
    match d
    case ServiceNowRequests => e.requests
    case SandboxRpcCalls => if e.kind == CodeRun then e.rpcs else 0
    case OutboundBytesSent => e.meters.outboundBytesSent
    case _ => 0
  }

  /** What had passed it according to a snapshot. */
  function PassedBy(kind: Kind, m: Meters, d: Dimension): nat {
    match d
    case ServiceNowRequests => Min(m.serviceNowRequests, PER_RUN.serviceNowRequestLimit)
    case SandboxRpcCalls => if kind == CodeRun then Min(m.rpcCalls, PER_RUN.rpcCallLimit) else 0
    case OutboundBytesSent => m.outboundBytesSent
    case _ => 0
  }

  /** Tries beyond the per-run limit. */
  function Refusals(kind: Kind, m: Meters, d: Dimension): nat {
    match d
    case ServiceNowRequests => Max(0, m.serviceNowRequests - PER_RUN.serviceNowRequestLimit)
    case SandboxRpcCalls => if kind == CodeRun then Max(0, m.rpcCalls - PER_RUN.rpcCallLimit) else 0
    case _ => 0
  }

  /** Full reservations of runs not reconciled, and what passed in reconciled ones, late counts included. */
  function Used(e: Entry, d: Dimension): nat {
    match e
    case Ran(_, kind, _, _, _, phase) => if phase.Reconciled? then Passed(e, d) else ReservedFor(kind, d)
    case Accrual(_, _) => 0
  }

  /** The same up to the snapshot. */
  function Settled(e: Entry, d: Dimension): nat {
    match e
    case Ran(_, kind, _, _, _, phase) => if phase.Reconciled? then PassedBy(kind, phase.snap, d) else ReservedFor(kind, d)
    case Accrual(_, _) => 0
  }

  /** What passed in a reconciled run after its snapshot. */
  function Late(e: Entry, d: Dimension): nat {
    if e.Ran? && e.phase.Reconciled? then Max(0, Passed(e, d) - PassedBy(e.kind, e.phase.snap, d)) else 0
  }

  /** Counted but not admitted: refused tries, and callback spend. */
  function Overshoot(e: Entry, d: Dimension): nat {
    match e
    case Ran(_, kind, _, _, _, phase) => if phase.Reconciled? then Refusals(kind, phase.snap, d) else 0
    case Accrual(_, spent) => Max(0, Read(spent, d))
  }

  function UsedWeight(d: Dimension): Entry -> nat { e => Used(e, d) }

  function SettledWeight(d: Dimension): Entry -> nat { e => Settled(e, d) }

  function LateWeight(d: Dimension): Entry -> nat { e => Late(e, d) }

  function OvershootWeight(d: Dimension): Entry -> nat { e => Overshoot(e, d) }

  predicate AtMost(m: Meters, n: Meters) {
    && m.rpcCalls <= n.rpcCalls && m.serviceNowRequests <= n.serviceNowRequests && m.rowsReturned <= n.rowsReturned
    && m.bytesReturned <= n.bytesReturned && m.outboundBytesSent <= n.outboundBytesSent
  }

  /** The meters of a run, what passed its checks, and its snapshot. */
  predicate MetersAgree(e: Entry) {
    e.Ran? ==>
      && e.requests == Min(e.meters.serviceNowRequests, PER_RUN.serviceNowRequestLimit)
      && e.rpcs == Min(e.meters.rpcCalls, PER_RUN.rpcCallLimit)
      && e.meters.outboundBytesSent <= PER_RUN.maxOutboundBytes
      && (e.phase.Closing? || e.phase.Reconciled? ==> AtMost(e.phase.snap, e.meters))
  }

  ghost predicate AllAgree(s: Day) { forall i :: 0 <= i < |s.entries| ==> MetersAgree(s.entries[i]) }

  lemma StepAgrees(caps: Caps, s: Day, ev: Event, t: Day)
    requires AllAgree(s) && Next(caps, s, ev, t)
    ensures AllAgree(t)
  {
    forall i | 0 <= i < |t.entries| ensures MetersAgree(t.entries[i]) {
      if i < |s.entries| {
        assert MetersAgree(s.entries[i]);
      }
    }
  }

  lemma {:induction false} MetersAlwaysAgree(caps: Caps, days: seq<Day>, events: seq<Event>, k: nat)
    requires History(caps, days, events) && k < |days|
    ensures AllAgree(days[k])
  {
    if k > 0 {
      MetersAlwaysAgree(caps, days, events, k - 1);
      StepAgrees(caps, days[k - 1], events[k - 1], days[k]);
    }
  }

  lemma UsedSplits(s: Day, d: Dimension)
    requires AllAgree(s) && Capped(d)
    ensures Sum(s.entries, UsedWeight(d)) == Sum(s.entries, SettledWeight(d)) + Sum(s.entries, LateWeight(d))
  {
    forall i | 0 <= i < |s.entries| ensures Used(s.entries[i], d) == Settled(s.entries[i], d) + Late(s.entries[i], d) {
      assert MetersAgree(s.entries[i]);
    }
    SumSplit(s.entries, UsedWeight(d), SettledWeight(d), LateWeight(d));
  }

  lemma WeightSplits(s: Day, d: Dimension)
    requires Capped(d)
    ensures Sum(s.entries, Weight(Everyone, d)) == Sum(s.entries, SettledWeight(d)) + Sum(s.entries, OvershootWeight(d))
  {
    SumSplit(s.entries, Weight(Everyone, d), SettledWeight(d), OvershootWeight(d));
  }

  /** The stored counter, split exactly: refused tries, callback spend and positive strays raise it above
      what is used; late counts and refunds of other days' runs keep it below. */
  lemma {:induction false} CounterSplits(caps: Caps, days: seq<Day>, events: seq<Event>, k: nat, d: Dimension)
    requires History(caps, days, events) && k < |days| && Capped(d)
    ensures var es := days[k].entries;
      days[k].book.Global(d) + Sum(es, LateWeight(d))
      == Sum(es, UsedWeight(d)) + Sum(es, OvershootWeight(d)) + Strayed(days, events, k, Everyone, d)
  {
    CounterIsEntriesAndStrays(caps, days, events, k, Everyone, d);
    MetersAlwaysAgree(caps, days, events, k);
    UsedSplits(days[k], d);
    WeightSplits(days[k], d);
  }

  // ---------------------------------------------------------------- the caps

  /** What the reconciles of other days' runs took from the counter. */
  function Lowered(days: seq<Day>, events: seq<Event>, k: nat, d: Dimension): nat
    requires k <= |events| && k <= |days|
  {
    if k == 0 then 0
    else Lowered(days, events, k - 1, d) + if events[k - 1].Foreign? then Max(0, -Astray(days[k - 1], events[k - 1], Everyone, d)) else 0
  }

  lemma {:induction false} StraysBelow(days: seq<Day>, events: seq<Event>, k: nat, d: Dimension)
    requires k <= |events| && k <= |days|
    ensures Strayed(days, events, k, Everyone, d) + Lowered(days, events, k, d) >= 0
  {
    if k > 0 {
      StraysBelow(days, events, k - 1, d);
    }
  }

  lemma ReservingSettles(caps: Caps, s: Day, user: User, kind: Kind, t: Day, d: Dimension)
    requires Next(caps, s, Reserve(user, kind, Reserved), t)
    ensures Sum(t.entries, SettledWeight(d)) == Sum(s.entries, SettledWeight(d)) + ReservedFor(kind, d)
    ensures ReservedFor(kind, d) == 0 || s.book.Global(d) + ReservedFor(kind, d) <= caps.For(d)
  {
    assert Fits(s.book, caps, Reservation(kind), d);
    SumAppend(s.entries, Started(user, kind), SettledWeight(d));
  }

  lemma UpdatingSettles(s: Day, i: nat, e: Entry, d: Dimension)
    requires i < |s.entries| && Settled(e, d) <= Settled(s.entries[i], d)
    ensures Sum(s.entries[i := e], SettledWeight(d)) <= Sum(s.entries, SettledWeight(d))
  {
    SumUpdate(s.entries, i, e, SettledWeight(d));
  }

  /** What is settled only grows by an admitted reserve, and then the counter had room. */
  lemma StepSettles(caps: Caps, s: Day, ev: Event, t: Day, d: Dimension)
    requires AllAgree(s) && Capped(d) && Next(caps, s, ev, t)
    ensures Sum(t.entries, SettledWeight(d)) <= Sum(s.entries, SettledWeight(d)) ||
      (&& ev.Reserve? && Sum(t.entries, SettledWeight(d)) == Sum(s.entries, SettledWeight(d)) + ReservedFor(ev.kind, d)
       && s.book.Global(d) + ReservedFor(ev.kind, d) <= caps.For(d))
  {
    match ev
    case Reserve(user, kind, r) =>
      if r.Reserved? {
        ReservingSettles(caps, s, user, kind, t, d);
      }
    case Meter(i, c, rowCaps) => UpdatingSettles(s, i, Metered(s.entries[i], c, rowCaps), d);
    case Snapshot(i) => UpdatingSettles(s, i, s.entries[i].(phase := Closing(s.entries[i].meters)), d);
    case Reconcile(i) =>
      assert MetersAgree(s.entries[i]);
      UpdatingSettles(s, i, Settle(s.entries[i]), d);
    case Abandon(i) => UpdatingSettles(s, i, s.entries[i].(phase := Abandoned), d);
    case Accrue(user, spent) => SumAppend(s.entries, Accrual(user, spent), SettledWeight(d));
    case Foreign(_, _, _) =>
  }

  lemma {:induction false} SettledStaysWithin(caps: Caps, days: seq<Day>, events: seq<Event>, k: nat, d: Dimension)
    requires History(caps, days, events) && k < |days| && Capped(d)
    ensures Sum(days[k].entries, SettledWeight(d)) <= caps.For(d) + Lowered(days, events, k, d)
  {
    if k > 0 {
      var s := days[k - 1];
      SettledStaysWithin(caps, days, events, k - 1, d);
      MetersAlwaysAgree(caps, days, events, k - 1);
      CounterIsEntriesAndStrays(caps, days, events, k - 1, Everyone, d);
      WeightSplits(s, d);
      StraysBelow(days, events, k - 1, d);
      StepSettles(caps, s, events[k - 1], days[k], d);
    }
  }

  /** Whatever interleaves, what passed in reconciled runs plus the full reservations of all others
      exceeds the daily cap at most by what passed after a snapshot and by the refunds of other days'
      runs. */
  lemma {:induction false} SpendStaysWithinCap(caps: Caps, days: seq<Day>, events: seq<Event>, k: nat, d: Dimension)
    requires History(caps, days, events) && k < |days| && Capped(d)
    ensures Sum(days[k].entries, UsedWeight(d))
      <= caps.For(d) + Sum(days[k].entries, LateWeight(d)) + Lowered(days, events, k, d)
  {
    SettledStaysWithin(caps, days, events, k, d);
    MetersAlwaysAgree(caps, days, events, k);
    UsedSplits(days[k], d);
  }

  ghost predicate WithinCap(caps: Caps, s: Day, d: Dimension) { Sum(s.entries, UsedWeight(d)) <= caps.For(d) }

  /** What a count adds to what passed. */
  function Gain(e: Entry, c: Count, d: Dimension): nat
    requires e.Ran?
  {
    match d
    case ServiceNowRequests => if c.ServiceNowRequest? && e.meters.serviceNowRequests < PER_RUN.serviceNowRequestLimit then 1 else 0
    case SandboxRpcCalls => if c.RpcCall? && e.kind == CodeRun && e.meters.rpcCalls < PER_RUN.rpcCallLimit then 1 else 0
    case OutboundBytesSent => if c.OutboundBytes? && e.meters.outboundBytesSent + c.sent <= PER_RUN.maxOutboundBytes then c.sent else 0
    case _ => 0
  }

  /** What an event asks of the day beyond what is used: an admitted reserve its maximum, a count in a
      reconciled run what passes. */
  function Asks(s: Day, ev: Event, d: Dimension): nat {
    match ev
    case Reserve(_, kind, r) => if r.Reserved? then ReservedFor(kind, d) else 0
    case Meter(i, c, _) => if IsReconciled(s, i) then Gain(s.entries[i], c, d) else 0
    case _ => 0
  }

  ghost predicate FindsRoom(caps: Caps, s: Day, ev: Event, d: Dimension) {
    Asks(s, ev, d) > 0 ==> Sum(s.entries, UsedWeight(d)) + Asks(s, ev, d) <= caps.For(d)
  }

  lemma MeteringUses(s: Day, i: nat, c: Count, rowCaps: RunBudgetCaps, d: Dimension)
    requires AllAgree(s) && Capped(d) && IsRun(s, i)
    ensures Sum(s.entries[i := Metered(s.entries[i], c, rowCaps)], UsedWeight(d))
      == Sum(s.entries, UsedWeight(d)) + Asks(s, Meter(i, c, rowCaps), d)
  {
    assert MetersAgree(s.entries[i]);
    SumUpdate(s.entries, i, Metered(s.entries[i], c, rowCaps), UsedWeight(d));
  }

  lemma UpdatingUses(s: Day, i: nat, e: Entry, d: Dimension)
    requires i < |s.entries| && Used(e, d) <= Used(s.entries[i], d)
    ensures Sum(s.entries[i := e], UsedWeight(d)) <= Sum(s.entries, UsedWeight(d))
    ensures Used(e, d) == Used(s.entries[i], d) ==> Sum(s.entries[i := e], UsedWeight(d)) == Sum(s.entries, UsedWeight(d))
  {
    SumUpdate(s.entries, i, e, UsedWeight(d));
  }

  lemma StepUses(caps: Caps, s: Day, ev: Event, t: Day, d: Dimension)
    requires AllAgree(s) && Capped(d) && Next(caps, s, ev, t)
    ensures Sum(t.entries, UsedWeight(d)) <= Sum(s.entries, UsedWeight(d)) + Asks(s, ev, d)
    ensures !ev.Reconcile? ==> Sum(t.entries, UsedWeight(d)) == Sum(s.entries, UsedWeight(d)) + Asks(s, ev, d)
  {
    match ev
    case Reserve(user, kind, r) =>
      if r.Reserved? {
        SumAppend(s.entries, Started(user, kind), UsedWeight(d));
      }
    case Meter(i, c, rowCaps) => MeteringUses(s, i, c, rowCaps, d);
    case Snapshot(i) => UpdatingUses(s, i, s.entries[i].(phase := Closing(s.entries[i].meters)), d);
    case Reconcile(i) =>
      assert MetersAgree(s.entries[i]);
      UpdatingUses(s, i, Settle(s.entries[i]), d);
    case Abandon(i) => UpdatingUses(s, i, s.entries[i].(phase := Abandoned), d);
    case Accrue(user, spent) => SumAppend(s.entries, Accrual(user, spent), UsedWeight(d));
    case Foreign(_, _, _) =>
  }

  /** What is used is within the cap on every day up to the n-th exactly when each admitted reserve and
      each count in a reconciled run found room for what it asked; nothing else can take it past. */
  lemma {:induction false} SpendWithinCapExact(caps: Caps, days: seq<Day>, events: seq<Event>, n: nat, d: Dimension)
    requires History(caps, days, events) && n < |days| && Capped(d)
    ensures (forall m :: 0 <= m <= n ==> WithinCap(caps, days[m], d)) <==>
      (forall i :: 0 <= i < n ==> FindsRoom(caps, days[i], events[i], d))
  {
    if n > 0 {
      SpendWithinCapExact(caps, days, events, n - 1, d);
      MetersAlwaysAgree(caps, days, events, n - 1);
      StepUses(caps, days[n - 1], events[n - 1], days[n], d);
    }
  }

  /** The reserve that breaks the cap: the counters admit it, and the late counts and the refunds that
      went astray hide more than its room. */
  lemma {:induction false} BreakingReserve(caps: Caps, days: seq<Day>, events: seq<Event>, k: nat, d: Dimension)
    requires History(caps, days, events) && k < |events| && Capped(d) && events[k].Reserve?
    requires WithinCap(caps, days[k], d)
    ensures !WithinCap(caps, days[k + 1], d) <==>
      && Admits(days[k].book, caps, Reservation(events[k].kind))
      && days[k].book.Global(d) + ReservedFor(events[k].kind, d)
         + Sum(days[k].entries, LateWeight(d)) - Sum(days[k].entries, OvershootWeight(d)) - Strayed(days, events, k, Everyone, d)
         > caps.For(d)
  {
    MetersAlwaysAgree(caps, days, events, k);
    StepUses(caps, days[k], events[k], days[k + 1], d);
    CounterSplits(caps, days, events, k, d);
  }

  /** A day on which no run counts after its snapshot and none of another day reconciles. */
  ghost predicate Punctual(s: Day, events: seq<Event>, k: nat, d: Dimension)
    requires k <= |events|
  {
    && (forall i :: 0 <= i < |s.entries| ==> Late(s.entries[i], d) == 0)
    && forall i :: 0 <= i < k ==> !events[i].Foreign?
  }

  lemma {:induction false} NothingLowered(days: seq<Day>, events: seq<Event>, k: nat, d: Dimension)
    requires k <= |events| && k <= |days| && forall i :: 0 <= i < k ==> !events[i].Foreign?
    ensures Lowered(days, events, k, d) == 0
  {
    if k > 0 {
      NothingLowered(days, events, k - 1, d);
    }
  }

  lemma {:induction false} SumZero(es: seq<Entry>, w: Entry -> nat)
    requires forall i :: 0 <= i < |es| ==> w(es[i]) == 0
    ensures Sum(es, w) == 0
  {
    if es != [] {
      SumZero(es[..|es| - 1], w);
    }
  }

  /** On such a day, whatever interleaves, what is used stays within the cap. */
  lemma {:induction false} PunctualDayWithinCap(caps: Caps, days: seq<Day>, events: seq<Event>, k: nat, d: Dimension)
    requires History(caps, days, events) && k < |days| && Capped(d) && Punctual(days[k], events, k, d)
    ensures WithinCap(caps, days[k], d)
  {
    SpendStaysWithinCap(caps, days, events, k, d);
    NothingLowered(days, events, k, d);
    SumZero(days[k].entries, LateWeight(d));
  }

  // ---------------------------------------------------------------- the workers bound what nothing else does

  function WorkerWeight(): Entry -> nat { (e: Entry) => if e.Ran? && e.kind == CodeRun then 1 else 0 }

  function CodeRunsUse(d: Dimension): Entry -> nat { (e: Entry) => if e.Ran? && e.kind == CodeRun then Used(e, d) else 0 }

  lemma WorkersStep(caps: Caps, s: Day, ev: Event, t: Day)
    requires Next(caps, s, ev, t) && Sum(s.entries, WorkerWeight()) <= Min(s.book.Global(UniqueWorkers), caps.uniqueWorkers)
    ensures Sum(t.entries, WorkerWeight()) <= Min(t.book.Global(UniqueWorkers), caps.uniqueWorkers)
  {
    match ev
    case Reserve(user, kind, r) =>
      if r.Reserved? {
        assert Fits(s.book, caps, Reservation(kind), UniqueWorkers);
        SumAppend(s.entries, Started(user, kind), WorkerWeight());
      }
    case Meter(i, c, rowCaps) => SumUpdate(s.entries, i, Metered(s.entries[i], c, rowCaps), WorkerWeight());
    case Snapshot(i) => SumUpdate(s.entries, i, s.entries[i].(phase := Closing(s.entries[i].meters)), WorkerWeight());
    case Reconcile(i) => SumUpdate(s.entries, i, Settle(s.entries[i]), WorkerWeight());
    case Abandon(i) => SumUpdate(s.entries, i, s.entries[i].(phase := Abandoned), WorkerWeight());
    case Accrue(user, spent) => SumAppend(s.entries, Accrual(user, spent), WorkerWeight());
    case Foreign(_, kind, m) => assert Read(Delta(kind, m), UniqueWorkers) == 0;
  }

  /** No refund gives a worker back. */
  lemma {:induction false} WorkersStayWithinCap(caps: Caps, days: seq<Day>, events: seq<Event>, k: nat)
    requires History(caps, days, events) && k < |days|
    ensures Sum(days[k].entries, WorkerWeight()) <= Min(days[k].book.Global(UniqueWorkers), caps.uniqueWorkers)
  {
    if k > 0 {
      WorkersStayWithinCap(caps, days, events, k - 1);
      WorkersStep(caps, days[k - 1], events[k - 1], days[k]);
    }
  }

  lemma {:induction false} SumScaled(es: seq<Entry>, v: Entry -> nat, factor: nat, w: Entry -> nat)
    requires forall i :: 0 <= i < |es| ==> v(es[i]) <= factor * w(es[i])
    ensures Sum(es, v) <= factor * Sum(es, w)
  {
    if es != [] {
      SumScaled(es[..|es| - 1], v, factor, w);
    }
  }

  /** Late counts and foreign refunds included, code runs use at most their maximum for each worker the
      day allows. */
  lemma {:induction false} WorkersBoundTheDay(caps: Caps, days: seq<Day>, events: seq<Event>, k: nat, d: Dimension)
    requires History(caps, days, events) && k < |days| && Capped(d)
    ensures Sum(days[k].entries, CodeRunsUse(d)) <= ReservedFor(CodeRun, d) * caps.uniqueWorkers
  {
    var es := days[k].entries;
    MetersAlwaysAgree(caps, days, events, k);
    WorkersStayWithinCap(caps, days, events, k);
    forall i | 0 <= i < |es| ensures CodeRunsUse(d)(es[i]) <= ReservedFor(CodeRun, d) * WorkerWeight()(es[i]) {
      assert MetersAgree(es[i]);
    }
    SumScaled(es, CodeRunsUse(d), ReservedFor(CodeRun, d), WorkerWeight());
  }

  // ---------------------------------------------------------------- the outbound counter

  /** The callback's spend still fits under the cap. */
  predicate Accommodates(caps: Caps, s: Day, ev: Event) {
    ev.Accrue? ==> s.book.Global(OutboundBytesSent) + Max(0, Read(ev.spent, OutboundBytesSent)) <= caps.For(OutboundBytesSent)
  }

  predicate OutboundWithin(caps: Caps, s: Day) { s.book.Global(OutboundBytesSent) <= caps.For(OutboundBytesSent) }

  lemma OutboundStep(caps: Caps, s: Day, ev: Event, t: Day)
    requires AllAgree(s) && OutboundWithin(caps, s) && Next(caps, s, ev, t)
    ensures OutboundWithin(caps, t) <==> Accommodates(caps, s, ev)
  {
    match ev
    case Reserve(user, kind, r) =>
      if r.Reserved? {
        assert Fits(s.book, caps, Reservation(kind), OutboundBytesSent);
      }
    case Meter(i, c, rowCaps) =>
    case Snapshot(i) =>
    case Reconcile(i) => assert MetersAgree(s.entries[i]);
    case Abandon(i) =>
    case Accrue(user, spent) =>
    case Foreign(_, kind, m) => assert Read(Delta(kind, m), OutboundBytesSent) <= 0;
  }

  /** The outbound counter is within its cap on every day up to the n-th exactly when each callback
      before it found room for its spend; nothing else can push it past. */
  lemma {:induction false} OutboundCounterExact(caps: Caps, days: seq<Day>, events: seq<Event>, n: nat)
    requires History(caps, days, events) && n < |days|
    ensures (forall m :: 0 <= m <= n ==> OutboundWithin(caps, days[m])) <==>
      (forall i :: 0 <= i < n ==> Accommodates(caps, days[i], events[i]))
  {
    if n > 0 {
      OutboundCounterExact(caps, days, events, n - 1);
      MetersAlwaysAgree(caps, days, events, n - 1);
      if OutboundWithin(caps, days[n - 1]) {
        OutboundStep(caps, days[n - 1], events[n - 1], days[n]);
      }
    }
  }

  predicate NoCallbackSpend(s: Day) {
    forall i :: 0 <= i < |s.entries| ==> s.entries[i].Accrual? ==> Read(s.entries[i].spent, OutboundBytesSent) <= 0
  }

  lemma AccrualsStay(caps: Caps, s: Day, ev: Event, t: Day)
    requires Next(caps, s, ev, t) && NoCallbackSpend(t)
    ensures NoCallbackSpend(s)
    ensures ev.Accrue? ==> Read(ev.spent, OutboundBytesSent) <= 0
  {
    forall i | 0 <= i < |s.entries| && s.entries[i].Accrual? ensures Read(s.entries[i].spent, OutboundBytesSent) <= 0 {
      assert t.entries[i] == s.entries[i];
    }
    if ev.Accrue? {
      assert t.entries[|s.entries|] == Accrual(ev.user, ev.spent);
    }
  }

  /** On a day without callback spend the outbound counter is within its cap. */
  lemma {:induction false} OutboundCounterWithinCap(caps: Caps, days: seq<Day>, events: seq<Event>, k: nat)
    requires History(caps, days, events) && k < |days| && NoCallbackSpend(days[k])
    ensures OutboundWithin(caps, days[k])
  {
    if k > 0 {
      AccrualsStay(caps, days[k - 1], events[k - 1], days[k]);
      OutboundCounterWithinCap(caps, days, events, k - 1);
      MetersAlwaysAgree(caps, days, events, k - 1);
      OutboundStep(caps, days[k - 1], events[k - 1], days[k]);
    }
  }

  /** One callback on a fresh day takes the counter past the configured cap. */
  lemma CallbackSpendPassesTheCap(user: User) returns (days: seq<Day>, events: seq<Event>)
    ensures History(DAILY, days, events) && |days| == 2 && !OutboundWithin(DAILY, days[1])
  {
    var spent: Request := map[OutboundBytesSent := DAILY.outboundBytesSent + 1];
    var users: map<(User, Dimension), int> := if user == "" then map[] else map[(user, OutboundBytesSent) := DAILY.outboundBytesSent + 1];
    var after := Day(Book(spent, users), [Accrual(user, spent)]);
    days, events := [MIDNIGHT, after], [Accrue(user, spent)];
    assert Added(MIDNIGHT.book, spent, user, after.book);
    assert [] + [Accrual(user, spent)] == after.entries;
  }

  // ---------------------------------------------------------------- two days that pass the cap

  const FULL := 500

  function Runs(user: User, n: nat): seq<Entry> { seq(n, i => Started(user, CodeRun)) }

  /** A counter after that many workers and reservations of code runs. */
  function Level(workers: nat, runs: nat, d: Dimension): nat {
    match d
    case UniqueWorkers => workers
    case SandboxRpcCalls => 200 * runs
    case ServiceNowRequests => 200 * runs
    case RowsReturned => 0
    case BytesReturned => 0
    case OutboundBytesSent => 262144 * runs
  }

  /** All of them are this user's. */
  ghost predicate Holds(b: Book, user: User, workers: nat, runs: nat) {
    && (forall d: Dimension :: b.Global(d) == Level(workers, runs, d))
    && (forall u: User, d: Dimension :: b.Of(u, d) == if u == user && user != "" then Level(workers, runs, d) else 0)
  }

  lemma Counters(user: User, workers: nat, runs: nat) returns (b: Book)
    ensures Holds(b, user, workers, runs)
  {
    var mine: map<(User, Dimension), int> := map d: Dimension | true :: (user, d) := Level(workers, runs, d);
    b := Book(map d: Dimension :: Level(workers, runs, d), if user == "" then map[] else mine);
  }

  lemma CodeRunReserves(d: Dimension)
    ensures Read(Reservation(CodeRun), d) == ReservedFor(CodeRun, d) == Level(1, 1, d)
    ensures Read(Delta(CodeRun, ZERO), d) == 0 - Level(0, 1, d)
  {
  }

  lemma RoomForOneMore(b: Book, user: User, workers: nat, runs: nat)
    requires Holds(b, user, workers, runs) && workers < DAILY.uniqueWorkers
    ensures Admits(b, DAILY, Reservation(CodeRun)) <==> runs < FULL
  {
    forall d: Dimension
      ensures Fits(b, DAILY, Reservation(CodeRun), d) <==> Level(1, 1, d) == 0 || Level(workers + 1, runs + 1, d) <= DAILY.For(d)
    {
      CodeRunReserves(d);
    }
    assert Fits(b, DAILY, Reservation(CodeRun), ServiceNowRequests) <==> runs < FULL;
  }

  lemma OneMore(b: Book, user: User, workers: nat, runs: nat, c: Book)
    requires Holds(b, user, workers, runs) && Holds(c, user, workers + 1, runs + 1)
    ensures Added(b, Reservation(CodeRun), user, c)
  {
    forall d: Dimension ensures Level(workers + 1, runs + 1, d) == Level(workers, runs, d) + Max(0, Read(Reservation(CodeRun), d)) {
      CodeRunReserves(d);
    }
  }

  /** The refund of a run that spent nothing. */
  lemma OneRefunded(b: Book, user: User, workers: nat, runs: nat, c: Book)
    requires Holds(b, user, workers, runs + 1) && Holds(c, user, workers, runs)
    ensures Adjusted(b, Delta(CodeRun, ZERO), user, c)
  {
    forall d: Dimension ensures Level(workers, runs, d) == Held(Level(workers, runs + 1, d), Read(Delta(CodeRun, ZERO), d)) {
      CodeRunReserves(d);
    }
  }

  lemma Extend(caps: Caps, days: seq<Day>, events: seq<Event>, ev: Event, t: Day)
    requires History(caps, days, events) && Next(caps, days[|days| - 1], ev, t)
    ensures History(caps, days + [t], events + [ev])
  {
    var ds, es := days + [t], events + [ev];
    forall i | 0 <= i < |es| ensures Next(caps, ds[i], es[i], ds[i + 1]) {
      assert i < |events| ==> ds[i] == days[i] && ds[i + 1] == days[i + 1] && es[i] == events[i];
    }
  }

  /** One more code run on a day with room. */
  lemma OneMoreRun(user: User, days0: seq<Day>, events0: seq<Event>, workers: nat, runs: nat) returns (days: seq<Day>, events: seq<Event>)
    requires History(DAILY, days0, events0) && Holds(days0[|days0| - 1].book, user, workers, runs)
    requires workers < DAILY.uniqueWorkers && runs < FULL
    ensures History(DAILY, days, events) && |days| == |days0| + 1 && events == events0 + [Reserve(user, CodeRun, Reserved)]
    ensures Holds(days[|days| - 1].book, user, workers + 1, runs + 1)
    ensures days[|days| - 1].entries == days0[|days0| - 1].entries + [Started(user, CodeRun)]
  {
    var s := days0[|days0| - 1];
    var b := Counters(user, workers + 1, runs + 1);
    var t := Day(b, s.entries + [Started(user, CodeRun)]);
    RoomForOneMore(s.book, user, workers, runs);
    OneMore(s.book, user, workers, runs, b);
    Extend(DAILY, days0, events0, Reserve(user, CodeRun, Reserved), t);
    days, events := days0 + [t], events0 + [Reserve(user, CodeRun, Reserved)];
  }

  /** n more of them. */
  lemma {:induction false} FillDay(user: User, days0: seq<Day>, events0: seq<Event>, workers: nat, n: nat)
    returns (days: seq<Day>, events: seq<Event>)
    requires History(DAILY, days0, events0) && Holds(days0[|days0| - 1].book, user, workers, 0)
    requires n <= FULL && workers + n <= DAILY.uniqueWorkers
    ensures History(DAILY, days, events) && events0 <= events && Holds(days[|days| - 1].book, user, workers + n, n)
    ensures days[|days| - 1].entries == days0[|days0| - 1].entries + Runs(user, n)
  {
    if n == 0 {
      days, events := days0, events0;
    } else {
      days, events := FillDay(user, days0, events0, workers, n - 1);
      assert Runs(user, n - 1) + [Started(user, CodeRun)] == Runs(user, n);
      days, events := OneMoreRun(user, days, events, workers + n - 1, n - 1);
    }
  }

  lemma RunsGrow(es: seq<Entry>, user: User, n: nat)
    ensures es + Runs(user, n + 1) == (es + Runs(user, n)) + [Started(user, CodeRun)]
  {
  }

  lemma {:induction false} UsedByRuns(es: seq<Entry>, user: User, n: nat)
    ensures Sum(es + Runs(user, n), UsedWeight(ServiceNowRequests)) == Sum(es, UsedWeight(ServiceNowRequests)) + 200 * n
  {
    if n == 0 {
      assert es + Runs(user, 0) == es;
    } else {
      UsedByRuns(es, user, n - 1);
      RunsGrow(es, user, n - 1);
      SumAppend(es + Runs(user, n - 1), Started(user, CodeRun), UsedWeight(ServiceNowRequests));
      assert Used(Started(user, CodeRun), ServiceNowRequests) == 200;
    }
  }

  /** At the configured caps: five hundred code runs fill the day; the full refund of one run of the day
      before admits the next, and 100200 requests are promised against a cap of 100000. */
  lemma MidnightRefundBreaksTheCap(user: User) returns (days: seq<Day>, events: seq<Event>)
    ensures History(DAILY, days, events) && |events| >= 2
    ensures events[|events| - 2..] == [Foreign(user, CodeRun, ZERO), Reserve(user, CodeRun, Reserved)]
    ensures Sum(days[|days| - 1].entries, UsedWeight(ServiceNowRequests)) == 100_200 > DAILY.For(ServiceNowRequests)
  {
    days, events := FillDay(user, [MIDNIGHT], [], 0, FULL);
    var s := days[|days| - 1];
    assert [] + Runs(user, FULL) == s.entries;
    UsedByRuns([], user, FULL);
    var b := Counters(user, FULL, FULL - 1);
    OneRefunded(s.book, user, FULL, FULL - 1, b);
    Extend(DAILY, days, events, Foreign(user, CodeRun, ZERO), Day(b, s.entries));
    days, events := days + [Day(b, s.entries)], events + [Foreign(user, CodeRun, ZERO)];
    SumAppend(s.entries, Started(user, CodeRun), UsedWeight(ServiceNowRequests));
    days, events := OneMoreRun(user, days, events, FULL, FULL - 1);
  }

  /** A run that has been refunded in full. */
  lemma RefundedRun(user: User) returns (days: seq<Day>, events: seq<Event>)
    ensures History(DAILY, days, events) && |days| == 4 && Holds(days[3].book, user, 1, 0)
    ensures days[3].entries == [Ran(user, CodeRun, ZERO, 0, 0, Reconciled(ZERO))]
    ensures events == [Reserve(user, CodeRun, Reserved), Snapshot(0), Reconcile(0)]
  {
    days, events := OneMoreRun(user, [MIDNIGHT], [], 0, 0);
    var s := days[1];
    var e := Started(user, CodeRun).(phase := Closing(ZERO));
    Extend(DAILY, days, events, Snapshot(0), Day(s.book, [e]));
    days, events := days + [Day(s.book, [e])], events + [Snapshot(0)];
    var b := Counters(user, 1, 0);
    OneRefunded(s.book, user, 1, 0, b);
    Extend(DAILY, days, events, Reconcile(0), Day(b, [Settle(e)]));
    days, events := days + [Day(b, [Settle(e)])], events + [Reconcile(0)];
  }

  /** At the configured caps: a run is refunded in full, five hundred others fill the day, and a call that
      the first run left under way is counted, admitted by the per-run check: 100001 requests against
      100000, and the counter never shows it. */
  lemma LateCountBreaksTheCap(user: User) returns (days: seq<Day>, events: seq<Event>)
    ensures History(DAILY, days, events) && |events| >= 4
    ensures events[..3] == [Reserve(user, CodeRun, Reserved), Snapshot(0), Reconcile(0)]
    ensures events[|events| - 1] == Meter(0, ServiceNowRequest, RunBudgetCaps(None, None))
    ensures Sum(days[|days| - 1].entries, UsedWeight(ServiceNowRequests)) == 100_001 > DAILY.For(ServiceNowRequests)
    ensures days[|days| - 1].book.Global(ServiceNowRequests) == DAILY.For(ServiceNowRequests)
  {
    var days0, events0 := RefundedRun(user);
    var e := days0[3].entries[0];
    days, events := FillDay(user, days0, events0, 1, FULL);
    var s := days[|days| - 1];
    var count := Meter(0, ServiceNowRequest, RunBudgetCaps(None, None));
    var f := Metered(e, ServiceNowRequest, RunBudgetCaps(None, None));
    assert s.entries[0 := f] == [f] + Runs(user, FULL);
    UsedByRuns([f], user, FULL);
    SumAppend([], f, UsedWeight(ServiceNowRequests));
    Extend(DAILY, days, events, count, Day(s.book, [f] + Runs(user, FULL)));
    days, events := days + [Day(s.book, [f] + Runs(user, FULL))], events + [count];
  }

}

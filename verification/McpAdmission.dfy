/** do/mcp-admission.ts: a fixed window of counted attempts and a map of expiring leases.

    Operations are specified as relations on the stored state; the Durable Object class, whose
    promise chain runs one operation at a time, is proved to satisfy them. */
module McpAdmission {
  import opened Wrappers

  const WINDOW_MS := 60_000
  const MAX_REQUESTS_PER_WINDOW := 60
  const MAX_IN_FLIGHT := 4
  const STALE_LEASE_MS := 75_000

  type Id = string

  datatype WindowState = WindowState(startAt: int, count: nat)

  type LeaseMap = map<Id, int>

  datatype Stored = Stored(window: Option<WindowState>, leases: LeaseMap)

  datatype Reason = Rate | Concurrency

  datatype AdmissionResult = Admitted(leaseId: Id) | Denied(reason: Reason, retryAfterMs: int)

  function Max(a: int, b: int): int { if a >= b then a else b }

  // ---------------------------------------------------------------- the operations

  function Live(leases: LeaseMap, now: int): LeaseMap {
    map id | id in leases && leases[id] > now :: leases[id]
  }

  /** The window an attempt at this time belongs to. */
  function Current(window: Option<WindowState>, now: int): WindowState {
    if window.None? || now >= window.value.startAt + WINDOW_MS then WindowState(now, 0) else window.value
  }

  predicate Counts(s: Stored, now: int) { Current(s.window, now).count < MAX_REQUESTS_PER_WINDOW }

  function Counted(w: WindowState): WindowState { w.(count := w.count + 1) }

  predicate IsEarliest(leases: LeaseMap, at: int) {
    (exists id <- leases :: leases[id] == at) && forall id <- leases :: at <= leases[id]
  }

  ghost predicate Admitting(s: Stored, now: int, id: Id, t: Stored, r: AdmissionResult) {
    var w := Current(s.window, now);
    var live := Live(s.leases, now);
    if !Counts(s, now) then
      t == s && r == Denied(Rate, Max(1, w.startAt + WINDOW_MS - now))
    else if |live| >= MAX_IN_FLIGHT then
      && t == Stored(Some(Counted(w)), live)
      && r.Denied? && r.reason == Concurrency
      && exists at :: IsEarliest(live, at) && r.retryAfterMs == Max(1, at - now)
    else
      t == Stored(Some(Counted(w)), live[id := now + STALE_LEASE_MS]) && r == Admitted(id)
  }

  function Released(leases: LeaseMap, id: Id): LeaseMap { leases - {id} }

  function Renewed(leases: LeaseMap, id: Id, now: int): LeaseMap {
    if id in Live(leases, now) then Live(leases, now)[id := now + STALE_LEASE_MS] else Live(leases, now)
  }

  class McpAdmissionDO {
    var window: Option<WindowState>
    var leases: LeaseMap

    ghost function Contents(): Stored
      reads this
    {
      Stored(window, leases)
    }

    constructor ()
      ensures Contents() == Stored(None, map[])
    {
      window, leases := None, map[];
    }

    static method PruneLeases(leases: LeaseMap, now: int) returns (live: LeaseMap)
      ensures live == Live(leases, now)
      ensures forall id :: id in live <==> id in leases && leases[id] > now
      ensures forall id <- live :: live[id] == leases[id]
    {
      live := map[];
      var todo := leases.Keys;
      while todo != {}
        invariant todo <= leases.Keys
        invariant live == map id | id in leases && id !in todo && leases[id] > now :: leases[id]
      {
        var id :| id in todo;
        todo := todo - {id};
        if leases[id] > now {
          live := live[id := leases[id]];
        }
      }
    }

    static method Earliest(leases: LeaseMap) returns (at: int)
      requires leases != map[]
      ensures IsEarliest(leases, at)
    {
      var first :| first in leases;
      at := leases[first];
      var todo := leases.Keys - {first};
      while todo != {}
        invariant todo <= leases.Keys
        invariant exists id <- leases :: leases[id] == at
        invariant forall id <- leases.Keys - todo :: at <= leases[id]
      {
        var id :| id in todo;
        todo := todo - {id};
        if leases[id] < at {
          at := leases[id];
        }
      }
    }

    method AdmitCritical(now: int, id: Id) returns (r: AdmissionResult)
      modifies this
      ensures Admitting(old(Contents()), now, id, Contents(), r)
      ensures var open := old(window).Some? && now < old(window).value.startAt + 60_000;
        if open && old(window).value.count >= 60 then
          Contents() == old(Contents()) && r == Denied(Rate, old(window).value.startAt + 60_000 - now)
        else
          && window == Some(if open then WindowState(old(window).value.startAt, old(window).value.count + 1) else WindowState(now, 1))
          && (forall x :: x in leases && x != id ==> x in old(leases) && old(leases)[x] > now && leases[x] == old(leases)[x])
          && (forall x <- old(leases) :: old(leases)[x] > now ==> x in leases)
          && (r.Admitted? ==> r.leaseId == id && id in leases && leases[id] == now + 75_000)
          && (r.Denied? ==> r.reason == Concurrency && |leases| >= 4 && forall x <- leases :: r.retryAfterMs <= leases[x] - now)
    {
      var w := if window.None? || now >= window.value.startAt + WINDOW_MS then WindowState(now, 0) else window.value;
      if w.count >= MAX_REQUESTS_PER_WINDOW {
        return Denied(Rate, Max(1, w.startAt + WINDOW_MS - now));
      }
      var live := PruneLeases(leases, now);
      if |live| >= MAX_IN_FLIGHT {
        var at := Earliest(live);
        window, leases := Some(w.(count := w.count + 1)), live;
        return Denied(Concurrency, Max(1, at - now));
      }
      window, leases := Some(w.(count := w.count + 1)), live[id := now + STALE_LEASE_MS];
      r := Admitted(id);
    }

    method Release(id: Id)
      modifies this`leases
      ensures leases == Released(old(leases), id) == old(leases) - {id}
    {
      if id !in leases {
        return;
      }
      leases := leases - {id};
    }

    method Renew(id: Id, now: int) returns (renewed: bool)
      modifies this`leases
      ensures leases == Renewed(old(leases), id, now)
      ensures renewed <==> id in old(leases) && old(leases)[id] > now
      ensures renewed ==> id in leases && leases[id] == now + 75_000
      ensures forall x :: x != id || !renewed ==> (x in leases <==> x in old(leases) && old(leases)[x] > now)
      ensures forall x <- leases :: x != id ==> leases[x] == old(leases)[x]
    {
      var live := PruneLeases(leases, now);
      if id !in live {
        leases := live;
        return false;
      }
      leases := live[id := now + STALE_LEASE_MS];
      renewed := true;
    }
  }

  // ---------------------------------------------------------------- never more than four leases

  lemma SubmapIsSmaller(small: LeaseMap, big: LeaseMap)
    requires small.Keys <= big.Keys
    ensures |small| <= |big|
  {
    var rest := big.Keys - small.Keys;
    assert big.Keys == small.Keys + rest && |small.Keys| == |small| && |big.Keys| == |big|;
  }

  lemma PutGrowsByOne(m: LeaseMap, id: Id, at: int)
    ensures |m[id := at]| == if id in m then |m| else |m| + 1
  {
    var n := m[id := at];
    assert n.Keys == m.Keys + {id} && |n.Keys| == |n| && |m.Keys| == |m|;
  }

  predicate Bounded(s: Stored) { |s.leases| <= MAX_IN_FLIGHT }

  /** Whatever the clock shows, forwards or backwards. */
  lemma AdmittingKeepsBound(s: Stored, now: int, id: Id, t: Stored, r: AdmissionResult)
    requires Bounded(s) && Admitting(s, now, id, t, r)
    ensures Bounded(t)
  {
    SubmapIsSmaller(Live(s.leases, now), s.leases);
    PutGrowsByOne(Live(s.leases, now), id, now + STALE_LEASE_MS);
  }

  lemma LeavingKeepsBound(s: Stored, id: Id, now: int)
    requires Bounded(s)
    ensures Bounded(s.(leases := Released(s.leases, id))) && Bounded(s.(leases := Renewed(s.leases, id, now)))
  {
    SubmapIsSmaller(Released(s.leases, id), s.leases);
    SubmapIsSmaller(Live(s.leases, now), s.leases);
    PutGrowsByOne(Live(s.leases, now), id, now + STALE_LEASE_MS);
  }

  // ---------------------------------------------------------------- the advice to retry

  /** With no call in between, an attempt meets the rate limit again exactly until retryAfterMs
      have passed. */
  lemma RateRetryIsExact(s: Stored, now: int, id: Id, t: Stored, r: AdmissionResult, later: int, id2: Id, u: Stored, r2: AdmissionResult)
    requires Admitting(s, now, id, t, r) && r.Denied? && r.reason == Rate
    requires Admitting(t, later, id2, u, r2)
    ensures (r2.Denied? && r2.reason == Rate) <==> later < now + r.retryAfterMs
  {
    assert r.retryAfterMs == s.window.value.startAt + WINDOW_MS - now;
  }

  /** A slot is free again exactly when retryAfterMs have passed: until then an attempt is denied,
      from then on never for concurrency. */
  lemma ConcurrencyRetryIsExact(s: Stored, now: int, id: Id, t: Stored, r: AdmissionResult, later: int, id2: Id, u: Stored, r2: AdmissionResult)
    requires Bounded(s) && Admitting(s, now, id, t, r) && r.Denied? && r.reason == Concurrency
    requires Admitting(t, later, id2, u, r2)
    ensures later < now + r.retryAfterMs ==> r2.Denied?
    ensures later >= now + r.retryAfterMs ==> !(r2.Denied? && r2.reason == Concurrency)
  {
    var live := Live(s.leases, now);
    var at :| IsEarliest(live, at) && r.retryAfterMs == Max(1, at - now);
    var first :| first in live && live[first] == at;
    assert at > now && t.leases == live;
    if later < at {
      assert Live(live, later) == live;
    } else {
      SubmapIsSmaller(live, s.leases);
      SubmapIsSmaller(Live(live, later), live - {first});
      assert |live - {first}| == |live| - 1 by {
        PutGrowsByOne(live - {first}, first, at);
        assert (live - {first})[first := at] == live;
      }
    }
  }

  // ---------------------------------------------------------------- attempts per minute

  datatype Op = Admit(now: int, id: Id) | Release(id: Id) | Renew(id: Id, now: int)

  /** A counted attempt and the window it fell in. */
  datatype Attempt = Attempt(at: int, win: int)

  /** The stored state with what has been counted so far: starts lists the windows opened, clock the
      time of the last admission. */
  datatype Log = Log(s: Stored, attempts: seq<Attempt>, starts: seq<int>, clock: Option<int>)

  const FRESH := Log(Stored(None, map[]), [], [], None)

  predicate Opens(s: Stored, now: int) { s.window.None? || now >= s.window.value.startAt + WINDOW_MS }

  ghost predicate Next(l: Log, op: Op, m: Log) {
    match op
    case Admit(now, id) =>
      && m.clock == Some(now)
      && (exists r :: Admitting(l.s, now, id, m.s, r))
      && m.starts == (if Counts(l.s, now) && Opens(l.s, now) then l.starts + [now] else l.starts)
      && m.attempts == if Counts(l.s, now) then l.attempts + [Attempt(now, |m.starts| - 1)] else l.attempts
    case Release(id) => m == l.(s := l.s.(leases := Released(l.s.leases, id)))
    case Renew(id, now) => m == l.(s := l.s.(leases := Renewed(l.s.leases, id, now)))
  }

  ghost predicate History(logs: seq<Log>, ops: seq<Op>) {
    && |logs| == |ops| + 1 && logs[0] == FRESH
    && forall i :: 0 <= i < |ops| ==> Next(logs[i], ops[i], logs[i + 1])
  }

  /** The clock the admissions read does not step back. */
  ghost predicate Forward(logs: seq<Log>, ops: seq<Op>)
    requires History(logs, ops)
  {
    forall i :: 0 <= i < |ops| && ops[i].Admit? ==> logs[i].clock.None? || logs[i].clock.value <= ops[i].now
  }

  ghost predicate WindowsApart(starts: seq<int>) {
    forall i, j :: 0 <= i < j < |starts| ==> starts[i] + WINDOW_MS <= starts[j]
  }

  predicate Placed(a: Attempt, starts: seq<int>) {
    0 <= a.win < |starts| && starts[a.win] <= a.at < starts[a.win] + WINDOW_MS
  }

  ghost predicate AttemptsPlaced(l: Log) { forall i :: 0 <= i < |l.attempts| ==> Placed(l.attempts[i], l.starts) }

  ghost predicate InOrder(l: Log) {
    forall i, j :: 0 <= i < j < |l.attempts| ==> l.attempts[i].win <= l.attempts[j].win
  }

  /** No window holds more than its limit. */
  ghost predicate WindowsFit(l: Log) {
    forall i :: 0 <= i < |l.attempts| - MAX_REQUESTS_PER_WINDOW ==> l.attempts[i].win < l.attempts[i + MAX_REQUESTS_PER_WINDOW].win
  }

  /** The stored window is the last one opened, and its count is that of the attempts in it. */
  ghost predicate WindowStored(l: Log) {
    if l.s.window.None? then l.starts == [] && l.attempts == [] else
      && l.starts != [] && l.starts[|l.starts| - 1] == l.s.window.value.startAt
      && l.clock.Some? && l.s.window.value.startAt <= l.clock.value
      && l.s.window.value.count <= |l.attempts|
      && l.s.window.value.count <= MAX_REQUESTS_PER_WINDOW
      && forall i :: 0 <= i < |l.attempts| ==>
           (l.attempts[i].win == |l.starts| - 1 <==> |l.attempts| - l.s.window.value.count <= i)
  }

  ghost predicate Inv(l: Log) {
    WindowsApart(l.starts) && AttemptsPlaced(l) && InOrder(l) && WindowsFit(l) && WindowStored(l)
  }

  /** A counted attempt that opens a window, and one that falls in the stored window. */
  ghost predicate Appended(l: Log, now: int, m: Log) {
    && m.attempts == l.attempts + [Attempt(now, |m.starts| - 1)]
    && m.starts == (if Opens(l.s, now) then l.starts + [now] else l.starts)
    && (l.clock.Some? ==> l.clock.value <= now) && m.clock == Some(now)
    && m.s.window == Some(Counted(Current(l.s.window, now)))
  }

  lemma StartsStayApart(l: Log, now: int, m: Log)
    requires WindowsApart(l.starts) && WindowStored(l) && Appended(l, now, m)
    ensures WindowsApart(m.starts)
  {
    if Opens(l.s, now) && l.starts != [] {
      forall i | 0 <= i < |l.starts| ensures l.starts[i] + WINDOW_MS <= now {
        var last := |l.starts| - 1;
        assert i < last ==> l.starts[i] + WINDOW_MS <= l.starts[last];
      }
    }
  }

  lemma AttemptsStayPlaced(l: Log, now: int, m: Log)
    requires AttemptsPlaced(l) && WindowStored(l) && Appended(l, now, m)
    ensures AttemptsPlaced(m)
  {
    forall i | 0 <= i < |m.attempts| ensures Placed(m.attempts[i], m.starts) {
      if i < |l.attempts| {
        assert m.attempts[i] == l.attempts[i] && Placed(l.attempts[i], l.starts);
        assert m.starts[l.attempts[i].win] == l.starts[l.attempts[i].win];
      }
    }
  }

  lemma AttemptsStayInOrder(l: Log, now: int, m: Log)
    requires AttemptsPlaced(l) && InOrder(l) && Appended(l, now, m)
    ensures InOrder(m)
  {
    var n := |l.attempts|;
    forall i, j | 0 <= i < j <= n ensures m.attempts[i].win <= m.attempts[j].win {
      assert m.attempts[i] == l.attempts[i] && Placed(l.attempts[i], l.starts);
      assert j < n ==> m.attempts[j] == l.attempts[j];
    }
  }

  /** The attempt sixty places back lies in an earlier window. */
  lemma WindowsStillFit(l: Log, now: int, m: Log)
    requires AttemptsPlaced(l) && WindowsFit(l) && WindowStored(l) && Appended(l, now, m) && Counts(l.s, now)
    ensures WindowsFit(m)
  {
    var n := |l.attempts|;
    forall i | 0 <= i < n + 1 - MAX_REQUESTS_PER_WINDOW
      ensures m.attempts[i].win < m.attempts[i + MAX_REQUESTS_PER_WINDOW].win
    {
      if i == n - MAX_REQUESTS_PER_WINDOW {
        assert m.attempts[i] == l.attempts[i];
        assert Placed(l.attempts[i], l.starts);
        assert !Opens(l.s, now) ==> i < n - l.s.window.value.count;
      } else {
        assert m.attempts[i] == l.attempts[i] && m.attempts[i + MAX_REQUESTS_PER_WINDOW] == l.attempts[i + MAX_REQUESTS_PER_WINDOW];
      }
    }
  }

  lemma WindowStaysStored(l: Log, now: int, m: Log)
    requires AttemptsPlaced(l) && WindowStored(l) && Appended(l, now, m) && Counts(l.s, now)
    ensures WindowStored(m)
  {
    var n := |l.attempts|;
    var count := m.s.window.value.count;
    forall i | 0 <= i <= n ensures m.attempts[i].win == |m.starts| - 1 <==> n + 1 - count <= i {
      assert i < n ==> m.attempts[i] == l.attempts[i] && Placed(l.attempts[i], l.starts);
    }
  }

  lemma {:induction false} StepKeepsInv(l: Log, op: Op, m: Log)
    requires Inv(l) && Next(l, op, m) && (op.Admit? && l.clock.Some? ==> l.clock.value <= op.now)
    ensures Inv(m)
  {
    if op.Admit? && Counts(l.s, op.now) {
      var r :| Admitting(l.s, op.now, op.id, m.s, r);
      StartsStayApart(l, op.now, m);
      AttemptsStayPlaced(l, op.now, m);
      AttemptsStayInOrder(l, op.now, m);
      WindowsStillFit(l, op.now, m);
      WindowStaysStored(l, op.now, m);
    }
  }

  lemma {:induction false} HistoryKeepsInv(logs: seq<Log>, ops: seq<Op>, k: nat)
    requires History(logs, ops) && Forward(logs, ops) && k < |logs|
    ensures Inv(logs[k])
  {
    if k > 0 {
      HistoryKeepsInv(logs, ops, k - 1);
      StepKeepsInv(logs[k - 1], ops[k - 1], logs[k]);
    }
  }

  lemma FarApart(l: Log, i: nat, j: nat)
    requires Inv(l) && i + 2 * MAX_REQUESTS_PER_WINDOW <= j < |l.attempts|
    ensures l.attempts[j].at - l.attempts[i].at > WINDOW_MS
  {
    var mid := i + MAX_REQUESTS_PER_WINDOW;
    var far := mid + MAX_REQUESTS_PER_WINDOW;
    var a, b, c := l.attempts[i].win, l.attempts[mid].win, l.attempts[j].win;
    assert Placed(l.attempts[i], l.starts) && Placed(l.attempts[mid], l.starts) && Placed(l.attempts[j], l.starts);
    assert a < b && b < l.attempts[far].win && l.attempts[far].win <= c;
    assert l.starts[a] + WINDOW_MS <= l.starts[b] && l.starts[b] + WINDOW_MS <= l.starts[c];
  }

  /** Under a clock that never steps back, any minute, ends included, has at most 120 counted attempts. */
  lemma AtMost120PerMinute(logs: seq<Log>, ops: seq<Op>, k: nat, i: nat, j: nat)
    requires History(logs, ops) && Forward(logs, ops) && k < |logs|
    requires i <= j < |logs[k].attempts| && logs[k].attempts[j].at - logs[k].attempts[i].at <= WINDOW_MS
    ensures j - i + 1 <= 2 * MAX_REQUESTS_PER_WINDOW
  {
    HistoryKeepsInv(logs, ops, k);
    if j - i >= 2 * MAX_REQUESTS_PER_WINDOW {
      FarApart(logs[k], i, j);
    }
  }

  /** In every run, whatever the clock shows at each operation. */
  lemma {:induction false} LeasesStayBounded(logs: seq<Log>, ops: seq<Op>, k: nat)
    requires History(logs, ops) && k < |logs|
    ensures Bounded(logs[k].s)
  {
    if k > 0 {
      LeasesStayBounded(logs, ops, k - 1);
      var l, m := logs[k - 1], logs[k];
      assert Next(l, ops[k - 1], m);
      match ops[k - 1]
      case Admit(now, id) =>
        var r :| Admitting(l.s, now, id, m.s, r);
        AdmittingKeepsBound(l.s, now, id, m.s, r);
      case Release(id) => LeavingKeepsBound(l.s, id, 0);
      case Renew(id, now) => LeavingKeepsBound(l.s, id, now);
    }
  }

  // ---------------------------------------------------------------- a denial is earned

  /** Under a clock that never steps back, an attempt denied for its rate finds sixty counted attempts in the
      minute that is still open. */
  lemma RateDenialIsEarned(logs: seq<Log>, ops: seq<Op>, k: nat, now: int, id: Id, t: Stored, r: AdmissionResult)
    requires History(logs, ops) && Forward(logs, ops) && k < |logs|
    requires Admitting(logs[k].s, now, id, t, r) && r.Denied? && r.reason == Rate
    ensures var n := |logs[k].attempts|;
      && n >= 60 && logs[k].starts != []
      && var start := logs[k].starts[|logs[k].starts| - 1];
         now < start + 60_000 && forall i :: n - 60 <= i < n ==> start <= logs[k].attempts[i].at < start + 60_000
  {
    HistoryKeepsInv(logs, ops, k);
    var l := logs[k];
    var n := |l.attempts|;
    forall i | n - 60 <= i < n ensures l.starts[|l.starts| - 1] <= l.attempts[i].at < l.starts[|l.starts| - 1] + 60_000 {
      assert l.attempts[i].win == |l.starts| - 1 && Placed(l.attempts[i], l.starts);
    }
  }

  /** An attempt is denied for concurrency exactly when it is counted and four leases are live. */
  lemma ConcurrencyDenialIsEarned(logs: seq<Log>, ops: seq<Op>, k: nat, now: int, id: Id, t: Stored, r: AdmissionResult)
    requires History(logs, ops) && k < |logs|
    requires Admitting(logs[k].s, now, id, t, r)
    ensures var held := map x | x in logs[k].s.leases && logs[k].s.leases[x] > now :: logs[k].s.leases[x];
      r.Denied? && r.reason == Concurrency <==> !(r.Denied? && r.reason == Rate) && |held| == 4
  {
    LeasesStayBounded(logs, ops, k);
    SubmapIsSmaller(Live(logs[k].s.leases, now), logs[k].s.leases);
  }

  // ---------------------------------------------------------------- a lease that is kept

  /** When this lease was last granted or renewed, from the i-th operation on. */
  function LastHeld(ops: seq<Op>, i: nat, k: nat, id: Id): int
    requires i < k <= |ops| && !ops[i].Release?
  {
    if k == i + 1 then ops[i].now
    else if ops[k - 1].Renew? && ops[k - 1].id == id then ops[k - 1].now
    else LastHeld(ops, i, k - 1, id)
  }

  /** The i-th operation granted the lease, or renewed it and said so. */
  ghost predicate Holds(logs: seq<Log>, ops: seq<Op>, i: nat, id: Id)
    requires |logs| == |ops| + 1 && i < |ops|
  {
    (ops[i].Admit? && ops[i].id == id && Admitting(logs[i].s, ops[i].now, id, logs[i + 1].s, Admitted(id))) ||
    (ops[i].Renew? && ops[i].id == id && id in logs[i].s.leases && logs[i].s.leases[id] > ops[i].now)
  }

  /** The operation leaves a lease alone that was last held at this time: it does not release it or draw its
      id again, and reads no clock at or past seventy-five seconds later. */
  predicate Leaves(op: Op, id: Id, last: int) {
    op != Release(id) && (op.Admit? ==> op.id != id) && (op.Release? || op.now < last + 75_000)
  }

  /** So does every operation between the i-th and the k-th. */
  predicate Kept(ops: seq<Op>, i: nat, k: nat, id: Id)
    requires i < k <= |ops| && !ops[i].Release?
  {
    k == i + 1 || (Kept(ops, i, k - 1, id) && Leaves(ops[k - 1], id, LastHeld(ops, i, k - 1, id)))
  }

  lemma OthersKeep(l: Log, op: Op, m: Log, id: Id)
    requires Next(l, op, m) && id in l.s.leases && op != Release(id) && (op.Admit? || op.Renew? ==> op.id != id)
    requires op.Release? || op.now < l.s.leases[id]
    ensures id in m.s.leases && m.s.leases[id] == l.s.leases[id]
  {
  }

  lemma RenewalSets(l: Log, id: Id, now: int, m: Log)
    requires Next(l, Renew(id, now), m) && id in l.s.leases && l.s.leases[id] > now
    ensures id in m.s.leases && m.s.leases[id] == now + 75_000
  {
  }

  lemma StepHolds(l: Log, op: Op, m: Log, id: Id, last: int)
    requires Next(l, op, m) && id in l.s.leases && l.s.leases[id] == last + 75_000
    requires Leaves(op, id, last)
    ensures id in m.s.leases && m.s.leases[id] == (if op.Renew? && op.id == id then op.now else last) + 75_000
  {
    if op.Renew? && op.id == id {
      RenewalSets(l, id, op.now, m);
    } else {
      OthersKeep(l, op, m, id);
    }
  }

  lemma HeldFrom(logs: seq<Log>, ops: seq<Op>, i: nat, id: Id)
    requires History(logs, ops) && i < |ops| && Holds(logs, ops, i, id)
    ensures id in logs[i + 1].s.leases && logs[i + 1].s.leases[id] == ops[i].now + 75_000
  {
    assert Next(logs[i], ops[i], logs[i + 1]);
    if ops[i].Renew? {
      RenewalSets(logs[i], id, ops[i].now, logs[i + 1]);
    }
  }

  /** Such a lease holds its slot throughout, and it expires exactly seventy-five seconds after it was last
      granted or renewed, whatever other operations come between. */
  lemma {:induction false} KeptLeaseHolds(logs: seq<Log>, ops: seq<Op>, i: nat, k: nat, id: Id)
    requires History(logs, ops) && i < k <= |ops| && Holds(logs, ops, i, id) && Kept(ops, i, k, id)
    ensures id in logs[k].s.leases && logs[k].s.leases[id] == LastHeld(ops, i, k, id) + 75_000
  {
    if k == i + 1 {
      HeldFrom(logs, ops, i, id);
    } else {
      KeptLeaseHolds(logs, ops, i, k - 1, id);
      assert Next(logs[k - 1], ops[k - 1], logs[k]);
      StepHolds(logs[k - 1], ops[k - 1], logs[k], id, LastHeld(ops, i, k - 1, id));
    }
  }

  /** Its next renewal is answered true exactly when it comes within seventy-five seconds. */
  lemma KeptLeaseIsRenewed(logs: seq<Log>, ops: seq<Op>, i: nat, k: nat, id: Id, now: int)
    requires History(logs, ops) && i < k < |ops| && Holds(logs, ops, i, id) && Kept(ops, i, k, id)
    requires ops[k] == Renew(id, now)
    ensures Holds(logs, ops, k, id) <==> now < LastHeld(ops, i, k, id) + 75_000
    ensures Holds(logs, ops, k, id) <==> id in logs[k + 1].s.leases
  {
    KeptLeaseHolds(logs, ops, i, k, id);
    assert Next(logs[k], ops[k], logs[k + 1]);
  }
}

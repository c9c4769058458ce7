/** do/mutation-ledger.ts: the idempotency record of one (actor, instance, key, ordinal).

    The operations are given first as functions on the stored record and a clock reading, then as
    the Durable Object that applies them to its storage. */
module MutationLedger {
  import opened ReplayPayload
  import opened Wrappers

  datatype Status = Started | Completed | Failed | Indeterminate

  const MUTATION_LEDGER_RETENTION_MS := 30 * 24 * 60 * 60 * 1000

  /** What storage may hold: older or damaged rows lack fields. status is None when it is absent
      or not one of the four names. */
  datatype Stored = Stored(status: Option<Status>, requestHash: Option<string>, expiresAt: Option<int>, result: Option<Json>)

  datatype LedgerRecord = LedgerRecord(status: Status, requestHash: string, expiresAt: int, result: Option<Json>)

  datatype Normalized =
    | Missing
    | Expired
    | Migrated(migrated: LedgerRecord)
    | Active(active: LedgerRecord)

  datatype BeginResult = New | Replay(result: Option<Json>) | Blocked(status: Status)

  /** The ledger stores replaySafeResult(result); an absent result serializes as null. */
  function Safe(lib: JsonText, result: Option<Json>): Json {
    ReplaySafeResult(lib, if result.Some? then result.value else Null)
  }

  function ToStored(rec: LedgerRecord): Stored {
    Stored(Some(rec.status), Some(rec.requestHash), Some(rec.expiresAt), rec.result)
  }

  function Normalize(rec: Option<Stored>, now: int, lib: JsonText): Normalized {
    if rec.None? || rec.value.status.None? || rec.value.requestHash.None? then Missing
    else
      var s, h := rec.value.status.value, rec.value.requestHash.value;
      if rec.value.expiresAt.Some? then
        var at := rec.value.expiresAt.value;
        if at <= now then
          if s == Started || s == Indeterminate then
            Migrated(LedgerRecord(s, h, now + MUTATION_LEDGER_RETENTION_MS, None))
          else Expired
        else if s == Completed then
          Migrated(LedgerRecord(Completed, h, at, Some(Safe(lib, rec.value.result))))
        else Active(LedgerRecord(s, h, at, rec.value.result))
      else if s == Failed then Expired
      else
        Migrated(LedgerRecord(s, h, now + MUTATION_LEDGER_RETENTION_MS,
          if s == Completed then Some(Safe(lib, rec.value.result)) else None))
  }

  /** The storage a read leaves behind: stale and damaged rows are deleted, migrated ones rewritten. */
  function AfterRead(rec: Option<Stored>, now: int, lib: JsonText): Option<Stored> {
    match Normalize(rec, now, lib)
    case Missing => None
    case Expired => None
    case Migrated(r) => Some(ToStored(r))
    case Active(_) => rec
  }

  function ActiveRecord(rec: Option<Stored>, now: int, lib: JsonText): Option<LedgerRecord> {
    match Normalize(rec, now, lib)
    case Missing => None
    case Expired => None
    case Migrated(r) => Some(r)
    case Active(r) => Some(r)
  }

  function NewRow(status: Status, requestHash: string, result: Option<Json>, now: int): Option<Stored> {
    Some(ToStored(LedgerRecord(status, requestHash, now + MUTATION_LEDGER_RETENTION_MS, result)))
  }

  datatype Close = Complete(result: Json) | Fail | MarkIndeterminate

  function Begin(rec: Option<Stored>, requestHash: string, now: int, lib: JsonText)
    : (Option<Stored>, BeginResult)
  {
    match ActiveRecord(rec, now, lib)
    case None => (NewRow(Started, requestHash, None, now), New)
    case Some(r) =>
      if r.requestHash != requestHash then (AfterRead(rec, now, lib), Blocked(r.status))
      else match r.status
        case Completed => (AfterRead(rec, now, lib), Replay(r.result))
        case Failed => (NewRow(Started, requestHash, None, now), New)
        case Started => (AfterRead(rec, now, lib), Blocked(Started))
        case Indeterminate => (AfterRead(rec, now, lib), Blocked(Indeterminate))
  }

  /** complete, fail and markIndeterminate: each moves a started record and nothing else. */
  function Closed(rec: Option<Stored>, close: Close, now: int, lib: JsonText): Option<Stored> {
    match ActiveRecord(rec, now, lib)
    case None => AfterRead(rec, now, lib)
    case Some(r) =>
      if r.status != Started then AfterRead(rec, now, lib)
      else match close
        case Complete(result) => NewRow(Completed, r.requestHash, Some(Safe(lib, Some(result))), now)
        case Fail => NewRow(Failed, r.requestHash, None, now)
        case MarkIndeterminate => NewRow(Indeterminate, r.requestHash, None, now)
  }

  /** The alarm after a read: only a rewritten row sets it, and deleting a row leaves it. */
  function AlarmAfterRead(rec: Option<Stored>, alarmAt: Option<int>, now: int, lib: JsonText): Option<int> {
    var n := Normalize(rec, now, lib);
    if n.Migrated? then Some(n.migrated.expiresAt) else alarmAt
  }

  predicate IsStarted(rec: Option<Stored>, now: int, lib: JsonText) {
    ActiveRecord(rec, now, lib).Some? && ActiveRecord(rec, now, lib).value.status == Started
  }

  /** The alarm after a closing call: one retention from now when it moved the record. */
  function AlarmAfterClose(rec: Option<Stored>, alarmAt: Option<int>, now: int, lib: JsonText): Option<int> {
    if IsStarted(rec, now, lib) then Some(now + MUTATION_LEDGER_RETENTION_MS) else AlarmAfterRead(rec, alarmAt, now, lib)
  }

  /** A stored row counts as a record: it has both fields, and it is open or its time has not come. A
      failure without an expiry is dropped, a completion without one is kept. */
  predicate Counts(s: Stored, now: int) {
    s.status.Some? && s.requestHash.Some? &&
    match s.status.value
    case Started => true
    case Indeterminate => true
    case Completed => s.expiresAt.None? || now < s.expiresAt.value
    case Failed => s.expiresAt.Some? && now < s.expiresAt.value
  }

  /** What a read finds and what it leaves in storage, said of the stored fields: status and hash as they
      are, the expiry if it is still ahead and thirty days from now otherwise. */
  lemma ReadExactly(rec: Option<Stored>, now: int, lib: JsonText)
    ensures ActiveRecord(rec, now, lib).Some? <==> rec.Some? && Counts(rec.value, now)
    ensures AfterRead(rec, now, lib).Some? <==> rec.Some? && Counts(rec.value, now)
    ensures rec.Some? && Counts(rec.value, now) ==>
      var r := ActiveRecord(rec, now, lib).value;
      && Some(r.status) == rec.value.status && Some(r.requestHash) == rec.value.requestHash
      && r.expiresAt == (if rec.value.expiresAt.Some? && now < rec.value.expiresAt.value then rec.value.expiresAt.value else now + 2_592_000_000)
      && AfterRead(rec, now, lib) == Some(Stored(Some(r.status), Some(r.requestHash), Some(r.expiresAt), r.result))
      && (r.status == Completed ==> r.result == Some(ReplaySafeResult(lib, if rec.value.result.Some? then rec.value.result.value else Null)))
      && (r.status != Completed && rec.value.expiresAt.Some? && now < rec.value.expiresAt.value ==> r.result == rec.value.result)
  {
  }

  // ---------------------------------------------------------------- the Durable Object

  class MutationLedgerDO {
    const lib: JsonText
    var rec: Option<Stored>
    /** The pending alarm, if any. */
    var alarmAt: Option<int>

    /** An alarm is set for the expiry of what is stored. */
    predicate AlarmSet()
      reads this
    {
      rec.Some? ==> rec.value.expiresAt.Some? && alarmAt == rec.value.expiresAt
    }

    constructor (lib: JsonText)
      ensures rec == None && alarmAt == None && this.lib == lib && AlarmSet()
    {
      this.lib := lib;
      rec, alarmAt := None, None;
    }

    method GetActiveRecord(now: int) returns (r: Option<LedgerRecord>)
      modifies this
      ensures r == ActiveRecord(old(rec), now, lib)
      ensures rec == AfterRead(old(rec), now, lib)
      ensures alarmAt == AlarmAfterRead(old(rec), old(alarmAt), now, lib)
      ensures r.Some? <==> old(rec).Some? && Counts(old(rec).value, now)
      ensures r.Some? ==> rec == Some(Stored(Some(r.value.status), Some(r.value.requestHash), Some(r.value.expiresAt), r.value.result))
      ensures r.Some? ==> Some(r.value.status) == old(rec).value.status && Some(r.value.requestHash) == old(rec).value.requestHash
      ensures r.None? ==> rec == None
      ensures old(AlarmSet()) ==> AlarmSet()
    {
      ReadExactly(rec, now, lib);
      var normalized := Normalize(rec, now, lib);
      match normalized {
        case Missing => rec, r := None, None;
        case Expired => rec, r := None, None;
        case Active(active) => r := Some(active);
        case Migrated(migrated) =>
          rec := Some(ToStored(migrated));
          alarmAt := Some(migrated.expiresAt);
          r := Some(migrated);
      }
    }

    method PutRecord(status: Status, requestHash: string, result: Option<Json>, now: int)
      modifies this
      ensures rec == NewRow(status, requestHash, result, now)
      ensures alarmAt == Some(now + MUTATION_LEDGER_RETENTION_MS)
      ensures rec == Some(Stored(Some(status), Some(requestHash), Some(now + 2_592_000_000), result)) && AlarmSet()
    {
      var record := LedgerRecord(status, requestHash, now + MUTATION_LEDGER_RETENTION_MS, result);
      rec := Some(ToStored(record));
      alarmAt := Some(record.expiresAt);
    }

    method BeginCritical(requestHash: string, now: int) returns (r: BeginResult)
      modifies this
      ensures (rec, r) == Begin(old(rec), requestHash, now, lib)
      ensures alarmAt == if r.New? then Some(now + MUTATION_LEDGER_RETENTION_MS) else AlarmAfterRead(old(rec), old(alarmAt), now, lib)
      ensures r == New <==>
        (old(rec).Some? && Counts(old(rec).value, now) ==> old(rec).value.status == Some(Failed) && old(rec).value.requestHash == Some(requestHash))
      ensures r == New ==> rec == Some(Stored(Some(Started), Some(requestHash), Some(now + 2_592_000_000), None))
      ensures r != New ==> rec.Some? && rec.value.status == old(rec).value.status && rec.value.requestHash == old(rec).value.requestHash
      ensures r.Blocked? ==> Some(r.status) == rec.value.status
      ensures r.Replay? <==>
        old(rec).Some? && Counts(old(rec).value, now) && old(rec).value.status == Some(Completed) && old(rec).value.requestHash == Some(requestHash)
      ensures r.Replay? ==> r.result == rec.value.result
      ensures old(AlarmSet()) ==> AlarmSet()
    {
      var active := GetActiveRecord(now);
      if active.None? {
        PutRecord(Started, requestHash, None, now);
        return New;
      }
      if active.value.requestHash != requestHash {
        return Blocked(active.value.status);
      }
      match active.value.status {
        case Completed => r := Replay(active.value.result);
        case Failed =>
          PutRecord(Started, requestHash, None, now);
          r := New;
        case Started => r := Blocked(Started);
        case Indeterminate => r := Blocked(Indeterminate);
      }
    }

    method CompleteCritical(result: Json, now: int)
      modifies this
      ensures rec == Closed(old(rec), Complete(result), now, lib)
      ensures alarmAt == AlarmAfterClose(old(rec), old(alarmAt), now, lib)
      ensures old(rec).Some? && Counts(old(rec).value, now) && old(rec).value.status == Some(Started) ==>
        rec == Some(Stored(Some(Completed), old(rec).value.requestHash, Some(now + 2_592_000_000), Some(ReplaySafeResult(lib, result))))
      ensures rec.Some? && rec.value.status == Some(Completed) && old(rec).Some? ==> old(rec).value.status in {Some(Started), Some(Completed)}
      ensures old(AlarmSet()) ==> AlarmSet()
    {
      var active := GetActiveRecord(now);
      if active.None? || active.value.status != Started { return; }
      PutRecord(Completed, active.value.requestHash, Some(Safe(lib, Some(result))), now);
    }

    method FailCritical(now: int)
      modifies this
      ensures rec == Closed(old(rec), Fail, now, lib)
      ensures alarmAt == AlarmAfterClose(old(rec), old(alarmAt), now, lib)
      ensures old(rec).Some? && Counts(old(rec).value, now) && old(rec).value.status == Some(Started) ==>
        rec == Some(Stored(Some(Failed), old(rec).value.requestHash, Some(now + 2_592_000_000), None))
      ensures rec.Some? && rec.value.status == Some(Failed) && old(rec).Some? ==> old(rec).value.status in {Some(Started), Some(Failed)}
      ensures old(AlarmSet()) ==> AlarmSet()
    {
      var active := GetActiveRecord(now);
      if active.Some? && active.value.status == Started {
        PutRecord(Failed, active.value.requestHash, None, now);
      }
    }

    method MarkIndeterminateCritical(now: int)
      modifies this
      ensures rec == Closed(old(rec), MarkIndeterminate, now, lib)
      ensures alarmAt == AlarmAfterClose(old(rec), old(alarmAt), now, lib)
      ensures old(rec).Some? && Counts(old(rec).value, now) && old(rec).value.status == Some(Started) ==>
        rec == Some(Stored(Some(Indeterminate), old(rec).value.requestHash, Some(now + 2_592_000_000), None))
      ensures rec.Some? && rec.value.status == Some(Indeterminate) && old(rec).Some? ==> old(rec).value.status in {Some(Started), Some(Indeterminate)}
      ensures old(AlarmSet()) ==> AlarmSet()
    {
      var active := GetActiveRecord(now);
      if active.Some? && active.value.status == Started {
        PutRecord(Indeterminate, active.value.requestHash, None, now);
      }
    }

    method Alarm(now: int)
      modifies this
      ensures rec == AfterRead(old(rec), now, lib)
      ensures rec.Some? ==> alarmAt == rec.value.expiresAt && alarmAt.Some?
    {
      var active := GetActiveRecord(now);
      if active.Some? {
        alarmAt := Some(active.value.expiresAt);
      }
    }
  }

  // ---------------------------------------------------------------- properties of the record

  predicate HasStatus(rec: Option<Stored>, s: Status) {
    rec.Some? && rec.value.status == Some(s) && rec.value.requestHash.Some?
  }

  /** started and indeterminate survive every read at every clock reading, with their hash. */
  lemma OpenRecordsNeverExpire(rec: Option<Stored>, s: Status, now: int, lib: JsonText)
    requires HasStatus(rec, s) && (s == Started || s == Indeterminate)
    ensures HasStatus(AfterRead(rec, now, lib), s)
    ensures AfterRead(rec, now, lib).value.requestHash == rec.value.requestHash
    ensures ActiveRecord(rec, now, lib).Some? && ActiveRecord(rec, now, lib).value.status == s
  {
  }

  /** No operation, expiry or alarm leaves indeterminate. */
  lemma IndeterminateIsAbsorbing(rec: Option<Stored>, now: int, lib: JsonText, requestHash: string, close: Close)
    requires HasStatus(rec, Indeterminate)
    ensures HasStatus(AfterRead(rec, now, lib), Indeterminate)
    ensures HasStatus(Closed(rec, close, now, lib), Indeterminate)
    ensures HasStatus(Begin(rec, requestHash, now, lib).0, Indeterminate)
    ensures Begin(rec, requestHash, now, lib).1 == Blocked(Indeterminate)
  {
  }

  /** A closing call on anything but a started record is a plain read. */
  lemma StrayCloseChangesNothing(rec: Option<Stored>, close: Close, now: int, lib: JsonText)
    requires !HasStatus(rec, Started)
    ensures Closed(rec, close, now, lib) == AfterRead(rec, now, lib)
  {
  }

  /** begin grants a claim exactly when no live record stands in the way. */
  lemma BeginGrants(rec: Option<Stored>, requestHash: string, now: int, lib: JsonText)
    ensures Begin(rec, requestHash, now, lib).1 == New
       <==> (var live := ActiveRecord(rec, now, lib);
             live.None? || (live.value.status == Failed && live.value.requestHash == requestHash))
    ensures Begin(rec, requestHash, now, lib).1 == New ==>
      HasStatus(Begin(rec, requestHash, now, lib).0, Started)
  {
  }

  // ---------------------------------------------------------------- whole runs of one object

  datatype Op = BeginOp(requestHash: string, at: int) | CloseOp(close: Close, at: int) | ReadOp(at: int)

  function Applied(rec: Option<Stored>, op: Op, lib: JsonText): Option<Stored> {
    match op
    case BeginOp(h, at) => Begin(rec, h, at, lib).0
    case CloseOp(c, at) => Closed(rec, c, at, lib)
    case ReadOp(at) => AfterRead(rec, at, lib)
  }

  function AfterOps(rec: Option<Stored>, ops: seq<Op>, lib: JsonText): Option<Stored>
    decreases |ops|
  {
    if ops == [] then rec else AfterOps(Applied(rec, ops[0], lib), ops[1..], lib)
  }

  lemma {:induction false} IndeterminateForever(rec: Option<Stored>, ops: seq<Op>, lib: JsonText)
    requires HasStatus(rec, Indeterminate)
    ensures HasStatus(AfterOps(rec, ops, lib), Indeterminate)
    decreases |ops|
  {
    if ops != [] {
      IndeterminateForever(Applied(rec, ops[0], lib), ops[1..], lib);
    }
  }

  /** Until a closing call arrives a started record stays started, with its hash, at any clock. */
  lemma {:induction false} StartedUntilClosed(rec: Option<Stored>, ops: seq<Op>, lib: JsonText)
    requires HasStatus(rec, Started) && forall i :: 0 <= i < |ops| ==> !ops[i].CloseOp?
    ensures HasStatus(AfterOps(rec, ops, lib), Started)
    ensures AfterOps(rec, ops, lib).value.requestHash == rec.value.requestHash
    decreases |ops|
  {
    if ops != [] {
      StartedUntilClosed(Applied(rec, ops[0], lib), ops[1..], lib);
    }
  }

  /** After complete(result) at time t, whatever else the object was asked before t + retention, a
      begin with the same hash replays that result until t + retention and is granted anew from then
      on; a begin with another hash is blocked until then. */
  lemma {:induction false} CompletedReplays(started: Option<Stored>, result: Json, t: int, ops: seq<Op>, h: string, now: int, lib: JsonText)
    requires HasStatus(started, Started) && IsReplaySafeWrapper(result)
    requires forall i :: 0 <= i < |ops| ==> ops[i].at < t + MUTATION_LEDGER_RETENTION_MS
    ensures var rec := AfterOps(Closed(started, Complete(result), t, lib), ops, lib);
      Begin(rec, h, now, lib).1 ==
        if now >= t + MUTATION_LEDGER_RETENTION_MS then New
        else if h == started.value.requestHash.value then Replay(Some(result))
        else Blocked(Completed)
  {
    var owned, e := started.value.requestHash.value, t + MUTATION_LEDGER_RETENTION_MS;
    CompletesTo(started, result, t, lib);
    CompletedStays(owned, result, e, ops, lib);
    BeginOnCompleted(owned, result, e, h, now, lib);
  }

  /** After fail() at time t a begin with the same hash is granted at once; another hash is blocked until
      the retention ends. So a failure that is called clean wrongly is retried. */
  lemma FailedIsRetried(started: Option<Stored>, t: int, h: string, now: int, lib: JsonText)
    requires HasStatus(started, Started)
    ensures Begin(Closed(started, Fail, t, lib), h, now, lib).1 ==
      if h == started.value.requestHash.value || now >= t + MUTATION_LEDGER_RETENTION_MS then New else Blocked(Failed)
  {
    OpenRecordsNeverExpire(started, Started, t, lib);
    var owned := started.value.requestHash.value;
    assert Closed(started, Fail, t, lib) == NewRow(Failed, owned, None, t);
  }

  function CompletedRow(h: string, e: int, result: Json): Option<Stored> {
    NewRow(Completed, h, Some(result), e - MUTATION_LEDGER_RETENTION_MS)
  }

  lemma CompletesTo(started: Option<Stored>, result: Json, t: int, lib: JsonText)
    requires HasStatus(started, Started) && IsReplaySafeWrapper(result)
    ensures Closed(started, Complete(result), t, lib) ==
      CompletedRow(started.value.requestHash.value, t + MUTATION_LEDGER_RETENTION_MS, result)
  {
  }

  lemma StoredUnchanged(h: string, result: Json, e: int, now: int, lib: JsonText)
    requires IsReplaySafeWrapper(result) && now < e
    ensures Safe(lib, Some(result)) == result
    ensures AfterRead(CompletedRow(h, e, result), now, lib) == CompletedRow(h, e, result)
    ensures ActiveRecord(CompletedRow(h, e, result), now, lib) == Some(LedgerRecord(Completed, h, e, Some(result)))
  {
  }

  lemma BeginOnCompleted(owned: string, result: Json, e: int, h: string, now: int, lib: JsonText)
    requires IsReplaySafeWrapper(result)
    ensures Begin(CompletedRow(owned, e, result), h, now, lib).1 ==
      if now >= e then New else if h == owned then Replay(Some(result)) else Blocked(Completed)
  {
    if now < e {
      StoredUnchanged(owned, result, e, now, lib);
    }
  }

  lemma {:induction false} CompletedStays(h: string, result: Json, e: int, ops: seq<Op>, lib: JsonText)
    requires IsReplaySafeWrapper(result) && forall i :: 0 <= i < |ops| ==> ops[i].at < e
    ensures AfterOps(CompletedRow(h, e, result), ops, lib) == CompletedRow(h, e, result)
    decreases |ops|
  {
    if ops != [] {
      StoredUnchanged(h, result, e, ops[0].at, lib);
      assert Applied(CompletedRow(h, e, result), ops[0], lib) == CompletedRow(h, e, result);
      CompletedStays(h, result, e, ops[1..], lib);
    }
  }
}

/** do/budget.ts: the daily counters, one object per UTC day.

    The three operations are specified as relations between the counters before and after; the
    Durable Object class is proved to satisfy them. Every operation runs alone: the object chains
    them through one promise. */
module Budget {
  datatype Dimension = UniqueWorkers | SandboxRpcCalls | ServiceNowRequests | RowsReturned | BytesReturned | OutboundBytesSent

  const DIMENSIONS: seq<Dimension> :=
    [UniqueWorkers, SandboxRpcCalls, ServiceNowRequests, RowsReturned, BytesReturned, OutboundBytesSent]

  /** Spent before it is known, so a full day refuses the next run whatever it asks for. */
  const ADMISSION: seq<Dimension> := [RowsReturned, BytesReturned, OutboundBytesSent, SandboxRpcCalls]

  type User = string

  /** An absent dimension counts as 0. */
  type Request = map<Dimension, int>

  datatype Caps = Caps(uniqueWorkers: nat, sandboxRpcCalls: nat, serviceNowRequests: nat,
                       rowsReturned: nat, bytesReturned: nat, outboundBytesSent: nat) {
    function For(d: Dimension): nat {
      match d
      case UniqueWorkers => uniqueWorkers
      case SandboxRpcCalls => sandboxRpcCalls
      case ServiceNowRequests => serviceNowRequests
      case RowsReturned => rowsReturned
      case BytesReturned => bytesReturned
      case OutboundBytesSent => outboundBytesSent
    }
  }

  /** The configured caps. What follows holds for any caps. */
  const DAILY := Caps(1000, 100_000, 100_000, 5_000_000, 1024 * 1024 * 1024, 1024 * 1024 * 1024)

  function Read<K>(m: map<K, int>, k: K): int { if k in m then m[k] else 0 }

  function Max(a: int, b: int): int { if a >= b then a else b }

  /** The stored counters: the global view and the per-user view. */
  datatype Book = Book(global: map<Dimension, int>, users: map<(User, Dimension), int>) {
    function Global(d: Dimension): int { Read(global, d) }
    function Of(u: User, d: Dimension): int { Read(users, (u, d)) }
  }

  datatype ReserveResult = Reserved | Refused(dimension: Dimension, cap: nat, would: int)

  /** One operation adds to both views of each dimension what it asks for, and to no other counter.
      An empty user id means none. */
  ghost predicate Added(before: Book, req: Request, user: User, after: Book) {
    && (forall d: Dimension :: after.Global(d) == before.Global(d) + Max(0, Read(req, d)))
    && (forall u: User, d: Dimension ::
          after.Of(u, d) == before.Of(u, d) + if u == user && user != "" then Max(0, Read(req, d)) else 0)
  }

  /** Signed deltas, each counter held at 0 or above. A zero delta leaves its counter alone. */
  ghost predicate Adjusted(before: Book, delta: Request, user: User, after: Book) {
    && (forall d: Dimension :: after.Global(d) == Held(before.Global(d), Read(delta, d)))
    && (forall u: User, d: Dimension ::
          after.Of(u, d) == if u == user && user != "" then Held(before.Of(u, d), Read(delta, d)) else before.Of(u, d))
  }

  function Held(current: int, delta: int): int { if delta == 0 then current else Max(0, current + delta) }

  predicate Open(b: Book, caps: Caps, d: Dimension) { b.Global(d) < caps.For(d) }

  predicate Fits(b: Book, caps: Caps, req: Request, d: Dimension) {
    Read(req, d) <= 0 || b.Global(d) + Read(req, d) <= caps.For(d)
  }

  ghost predicate Admits(b: Book, caps: Caps, req: Request) {
    && (forall d <- ADMISSION :: Open(b, caps, d))
    && (forall d: Dimension :: Fits(b, caps, req, d))
  }

  /** All or nothing: either every dimension is added, or nothing changes and the first obstacle
      is named, spent dimensions before requested ones. */
  ghost predicate Reserving(before: Book, caps: Caps, req: Request, user: User, after: Book, r: ReserveResult) {
    match r
    case Reserved => Admits(before, caps, req) && Added(before, req, user, after)
    case Refused(d, cap, would) =>
      && after == before
      && !Admits(before, caps, req)
      && cap == caps.For(d)
      && ((FirstNotOpen(before, caps, d) && would == before.Global(d)) ||
          (FirstNotFitting(before, caps, req, d) && would == before.Global(d) + Read(req, d)))
  }

  ghost predicate FirstNotOpen(b: Book, caps: Caps, d: Dimension) {
    exists i :: 0 <= i < |ADMISSION| && d == ADMISSION[i] && !Open(b, caps, d) && forall j :: 0 <= j < i ==> Open(b, caps, ADMISSION[j])
  }

  ghost predicate FirstNotFitting(b: Book, caps: Caps, req: Request, d: Dimension) {
    && (forall e <- ADMISSION :: Open(b, caps, e))
    && exists i :: 0 <= i < |DIMENSIONS| && d == DIMENSIONS[i] && !Fits(b, caps, req, d) && forall j :: 0 <= j < i ==> Fits(b, caps, req, DIMENSIONS[j])
  }

  lemma EveryDimension(d: Dimension)
    ensures exists i :: 0 <= i < |DIMENSIONS| && DIMENSIONS[i] == d
  {
    assert DIMENSIONS[0] == UniqueWorkers && DIMENSIONS[1] == SandboxRpcCalls && DIMENSIONS[2] == ServiceNowRequests;
    assert DIMENSIONS[3] == RowsReturned && DIMENSIONS[4] == BytesReturned && DIMENSIONS[5] == OutboundBytesSent;
  }

  lemma DimensionsDistinct(i: nat, j: nat)
    requires i < j < |DIMENSIONS|
    ensures DIMENSIONS[i] != DIMENSIONS[j]
  {
  }

  /** The first n dimensions. */
  ghost predicate Before(d: Dimension, n: nat) {
    exists i :: 0 <= i < n && i < |DIMENSIONS| && DIMENSIONS[i] == d
  }

  /** What a pending put of the first n dimensions holds. */
  ghost predicate Collected(book: Book, n: nat, user: User, amount: (int, Dimension) -> int, skip: Dimension -> bool,
                            global: map<Dimension, int>, users: map<(User, Dimension), int>) {
    && (forall d: Dimension :: d in global <==> Before(d, n) && !skip(d))
    && (forall d <- global :: global[d] == amount(book.Global(d), d))
    && (forall u: User, d: Dimension :: (u, d) in users <==> u == user && user != "" && Before(d, n) && !skip(d))
    && (forall k <- users :: users[k] == amount(book.Of(k.0, k.1), k.1))
  }

  lemma BeforeNext(n: nat)
    requires n < |DIMENSIONS|
    ensures forall d: Dimension :: Before(d, n + 1) <==> Before(d, n) || d == DIMENSIONS[n]
    ensures !Before(DIMENSIONS[n], n)
  {
    forall d: Dimension ensures Before(d, n + 1) <==> Before(d, n) || d == DIMENSIONS[n] {
      if d == DIMENSIONS[n] {
        assert 0 <= n < n + 1;
      }
    }
    forall i | 0 <= i < n ensures DIMENSIONS[i] != DIMENSIONS[n] {
      DimensionsDistinct(i, n);
    }
  }

  lemma CollectedNext(book: Book, n: nat, user: User, amount: (int, Dimension) -> int, skip: Dimension -> bool,
                      global: map<Dimension, int>, users: map<(User, Dimension), int>)
    requires n < |DIMENSIONS| && Collected(book, n, user, amount, skip, global, users)
    ensures var d := DIMENSIONS[n];
      if skip(d) then Collected(book, n + 1, user, amount, skip, global, users)
      else Collected(book, n + 1, user, amount, skip, global[d := amount(book.Global(d), d)],
                     if user != "" then users[(user, d) := amount(book.Of(user, d), d)] else users)
  {
    BeforeNext(n);
  }

  /** What the put leaves behind. */
  lemma Merged(book: Book, user: User, amount: (int, Dimension) -> int, skip: Dimension -> bool,
               global: map<Dimension, int>, users: map<(User, Dimension), int>, after: Book)
    requires Collected(book, |DIMENSIONS|, user, amount, skip, global, users)
    requires after == Book(book.global + global, book.users + users)
    ensures forall d: Dimension :: after.Global(d) == if skip(d) then book.Global(d) else amount(book.Global(d), d)
    ensures forall u: User, d: Dimension ::
      after.Of(u, d) == if skip(d) || u != user || user == "" then book.Of(u, d) else amount(book.Of(u, d), d)
  {
    forall d: Dimension ensures Before(d, |DIMENSIONS|) {
      EveryDimension(d);
    }
  }

  /** Admission, dimension by dimension. */
  lemma AdmitsExactly(b: Book, caps: Caps, req: Request)
    ensures Admits(b, caps, req) <==>
      && b.Global(RowsReturned) < caps.rowsReturned && b.Global(BytesReturned) < caps.bytesReturned
      && b.Global(OutboundBytesSent) < caps.outboundBytesSent && b.Global(SandboxRpcCalls) < caps.sandboxRpcCalls
      && (Read(req, UniqueWorkers) <= 0 || b.Global(UniqueWorkers) + Read(req, UniqueWorkers) <= caps.uniqueWorkers)
      && (Read(req, SandboxRpcCalls) <= 0 || b.Global(SandboxRpcCalls) + Read(req, SandboxRpcCalls) <= caps.sandboxRpcCalls)
      && (Read(req, ServiceNowRequests) <= 0 || b.Global(ServiceNowRequests) + Read(req, ServiceNowRequests) <= caps.serviceNowRequests)
      && (Read(req, RowsReturned) <= 0 || b.Global(RowsReturned) + Read(req, RowsReturned) <= caps.rowsReturned)
      && (Read(req, BytesReturned) <= 0 || b.Global(BytesReturned) + Read(req, BytesReturned) <= caps.bytesReturned)
      && (Read(req, OutboundBytesSent) <= 0 || b.Global(OutboundBytesSent) + Read(req, OutboundBytesSent) <= caps.outboundBytesSent)
  {
    assert ADMISSION[0] == RowsReturned && ADMISSION[1] == BytesReturned && ADMISSION[2] == OutboundBytesSent && ADMISSION[3] == SandboxRpcCalls;
    if Admits(b, caps, req) {
      assert Open(b, caps, ADMISSION[0]) && Open(b, caps, ADMISSION[1]) && Open(b, caps, ADMISSION[2]) && Open(b, caps, ADMISSION[3]);
      assert Fits(b, caps, req, UniqueWorkers) && Fits(b, caps, req, SandboxRpcCalls) && Fits(b, caps, req, ServiceNowRequests);
      assert Fits(b, caps, req, RowsReturned) && Fits(b, caps, req, BytesReturned) && Fits(b, caps, req, OutboundBytesSent);
    }
  }

  class BudgetDO {
    var global: map<Dimension, int>
    var users: map<(User, Dimension), int>

    ghost function Contents(): Book
      reads this
    {
      Book(global, users)
    }

    constructor ()
      ensures Contents() == Book(map[], map[])
    {
      global, users := map[], map[];
    }

    method ReserveCritical(req: Request, caps: Caps, user: User) returns (r: ReserveResult)
      modifies this
      ensures Reserving(old(Contents()), caps, req, user, Contents(), r)
      ensures r.Reserved? <==>
        && Read(old(global), RowsReturned) < caps.rowsReturned && Read(old(global), BytesReturned) < caps.bytesReturned
        && Read(old(global), OutboundBytesSent) < caps.outboundBytesSent && Read(old(global), SandboxRpcCalls) < caps.sandboxRpcCalls
        && (Read(req, UniqueWorkers) <= 0 || Read(old(global), UniqueWorkers) + Read(req, UniqueWorkers) <= caps.uniqueWorkers)
        && (Read(req, SandboxRpcCalls) <= 0 || Read(old(global), SandboxRpcCalls) + Read(req, SandboxRpcCalls) <= caps.sandboxRpcCalls)
        && (Read(req, ServiceNowRequests) <= 0 || Read(old(global), ServiceNowRequests) + Read(req, ServiceNowRequests) <= caps.serviceNowRequests)
        && (Read(req, RowsReturned) <= 0 || Read(old(global), RowsReturned) + Read(req, RowsReturned) <= caps.rowsReturned)
        && (Read(req, BytesReturned) <= 0 || Read(old(global), BytesReturned) + Read(req, BytesReturned) <= caps.bytesReturned)
        && (Read(req, OutboundBytesSent) <= 0 || Read(old(global), OutboundBytesSent) + Read(req, OutboundBytesSent) <= caps.outboundBytesSent)
      ensures r.Refused? ==> global == old(global) && users == old(users)
      ensures r.Reserved? ==> forall d: Dimension ::
        Contents().Global(d) == old(Contents()).Global(d) + (if Read(req, d) > 0 then Read(req, d) else 0)
      ensures r.Reserved? ==> forall u: User, d: Dimension ::
        Contents().Of(u, d) == old(Contents()).Of(u, d) + (if u == user && user != "" && Read(req, d) > 0 then Read(req, d) else 0)
    {
      AdmitsExactly(Contents(), caps, req);
      for i := 0 to |ADMISSION|
        invariant forall j :: 0 <= j < i ==> Open(Contents(), caps, ADMISSION[j])
        invariant Contents() == old(Contents())
      {
        var d := ADMISSION[i];
        if Read(global, d) >= caps.For(d) {
          assert d in ADMISSION && !Open(Contents(), caps, d);
          return Refused(d, caps.For(d), Read(global, d));
        }
      }
      for i := 0 to |DIMENSIONS|
        invariant forall j :: 0 <= j < i ==> Fits(Contents(), caps, req, DIMENSIONS[j])
        invariant Contents() == old(Contents())
      {
        var d := DIMENSIONS[i];
        var inc := Read(req, d);
        if inc > 0 {
          var would := Read(global, d) + inc;
          if would > caps.For(d) {
            assert !Fits(Contents(), caps, req, d);
            return Refused(d, caps.For(d), would);
          }
        }
      }
      forall d: Dimension ensures Fits(Contents(), caps, req, d) {
        EveryDimension(d);
      }
      PutSums(req, user);
      r := Reserved;
    }

    /** The commit of a reservation, and the whole of incrementCritical. */
    method PutSums(req: Request, user: User)
      modifies this
      ensures Added(old(Contents()), req, user, Contents())
    {
      var newGlobal: map<Dimension, int> := map[];
      var newUsers: map<(User, Dimension), int> := map[];
      ghost var amount := (current: int, d: Dimension) => current + Read(req, d);
      ghost var skip := (d: Dimension) => Read(req, d) <= 0;
      for i := 0 to |DIMENSIONS|
        invariant Collected(Contents(), i, user, amount, skip, newGlobal, newUsers)
        invariant Contents() == old(Contents())
      {
        CollectedNext(Contents(), i, user, amount, skip, newGlobal, newUsers);
        var d := DIMENSIONS[i];
        var inc := Read(req, d);
        if inc > 0 {
          newGlobal := newGlobal[d := Read(global, d) + inc];
          if user != "" {
            newUsers := newUsers[(user, d) := Read(users, (user, d)) + inc];
          }
        }
      }
      Merged(Contents(), user, amount, skip, newGlobal, newUsers, Book(global + newGlobal, users + newUsers));
      global, users := global + newGlobal, users + newUsers;
    }

    method IncrementCritical(req: Request, user: User)
      modifies this
      ensures Added(old(Contents()), req, user, Contents())
      ensures forall d: Dimension ::
        Contents().Global(d) == old(Contents()).Global(d) + (if Read(req, d) > 0 then Read(req, d) else 0)
      ensures forall u: User, d: Dimension ::
        Contents().Of(u, d) == old(Contents()).Of(u, d) + (if u == user && user != "" && Read(req, d) > 0 then Read(req, d) else 0)
    {
      PutSums(req, user);
    }

    method ReconcileCritical(delta: Request, user: User)
      modifies this
      ensures Adjusted(old(Contents()), delta, user, Contents())
      ensures forall d: Dimension :: Read(delta, d) == 0 ==> Contents().Global(d) == old(Contents()).Global(d)
      ensures forall d: Dimension :: Read(delta, d) != 0 ==>
        Contents().Global(d) == (if old(Contents()).Global(d) + Read(delta, d) >= 0 then old(Contents()).Global(d) + Read(delta, d) else 0)
      ensures forall u: User, d: Dimension :: u != user || user == "" || Read(delta, d) == 0 ==>
        Contents().Of(u, d) == old(Contents()).Of(u, d)
      ensures forall d: Dimension :: user != "" && Read(delta, d) != 0 ==>
        Contents().Of(user, d) == (if old(Contents()).Of(user, d) + Read(delta, d) >= 0 then old(Contents()).Of(user, d) + Read(delta, d) else 0)
    {
      PutHeld(delta, user);
    }

    /** The signed deltas, each counter held at 0 or above. */
    method PutHeld(delta: Request, user: User)
      modifies this
      ensures Adjusted(old(Contents()), delta, user, Contents())
    {
      var newGlobal: map<Dimension, int> := map[];
      var newUsers: map<(User, Dimension), int> := map[];
      ghost var amount := (current: int, d: Dimension) => Held(current, Read(delta, d));
      ghost var skip := (d: Dimension) => Read(delta, d) == 0;
      for i := 0 to |DIMENSIONS|
        invariant Collected(Contents(), i, user, amount, skip, newGlobal, newUsers)
        invariant Contents() == old(Contents())
      {
        CollectedNext(Contents(), i, user, amount, skip, newGlobal, newUsers);
        var d := DIMENSIONS[i];
        var adj := Read(delta, d);
        if adj != 0 {
          newGlobal := newGlobal[d := Max(0, Read(global, d) + adj)];
          if user != "" {
            newUsers := newUsers[(user, d) := Max(0, Read(users, (user, d)) + adj)];
          }
        }
      }
      Merged(Contents(), user, amount, skip, newGlobal, newUsers, Book(global + newGlobal, users + newUsers));
      global, users := global + newGlobal, users + newUsers;
    }
  }
}

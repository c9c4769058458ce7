/** The reserved flag: tools/run_code.ts and runDiscoveryWithBudget of tools/handlers.ts.

    What a run costs the day's budget on each way through it. Failures of calls that cannot be seen
    here are parameters; a null object means that no budget binding is configured. */
module RunCode {
  import opened Budget
  import opened RunBudget
  import opened BudgetRuns

  /** Where the run goes. A reserve call may throw after the object committed it. */
  datatype CodePath =
    | CheckFails
    | ReserveThrows(committed: bool)
    | TranspileFails
    | SnippetEnds(meters: Meters)

  datatype DiscoveryPath =
    | PreflightFails
    | DiscoveryReserveThrows(committed: bool)
    | DiscoveryEnds(meters: Meters)

  /** What becomes of the reconcile call; a thrown error is swallowed. */
  datatype Fate = Lands | LandsThenThrows | Lost

  datatype Exit = CapExhausted(dimension: Dimension) | Failed | Finished

  const NOTHING: Request := map[]

  function Costs(kind: Kind, m: Meters): Request { map d: Dimension :: Cost(kind, m, d) }

  /** What the whole run adds to the day. */
  function CodeNet(path: CodePath, fate: Fate, admitted: bool): Request {
    match path
    case CheckFails => NOTHING
    case ReserveThrows(committed) => if committed && admitted then Reservation(CodeRun) else NOTHING
    case TranspileFails => if !admitted then NOTHING else if fate == Lost then Reservation(CodeRun) else Costs(CodeRun, ZERO)
    case SnippetEnds(m) => if !admitted then NOTHING else if fate == Lost then Reservation(CodeRun) else Costs(CodeRun, m)
  }

  function DiscoveryNet(path: DiscoveryPath, fate: Fate, admitted: bool): Request {
    match path
    case PreflightFails => NOTHING
    case DiscoveryReserveThrows(committed) => if committed && admitted then Reservation(DiscoveryRun) else NOTHING
    case DiscoveryEnds(m) => if !admitted then NOTHING else if fate == Lost then Reservation(DiscoveryRun) else Costs(DiscoveryRun, m)
  }

  /** Both views have grown by these amounts, and no other user's counter has moved. */
  ghost predicate Grew(before: Book, after: Book, user: User, workers: int, rpcs: int, requests: int, rows: int, bytes: int, outbound: int) {
    var amounts := map[UniqueWorkers := workers, SandboxRpcCalls := rpcs, ServiceNowRequests := requests,
                       RowsReturned := rows, BytesReturned := bytes, OutboundBytesSent := outbound];
    && (forall d: Dimension :: after.Global(d) == before.Global(d) + Read(amounts, d))
    && (forall u: User, d: Dimension :: after.Of(u, d) == before.Of(u, d) + if u == user && user != "" then Read(amounts, d) else 0)
  }

  lemma ReservationGrows(before: Book, kind: Kind, user: User, after: Book)
    requires Added(before, Reservation(kind), user, after)
    ensures Grew(before, after, user, if kind == CodeRun then 1 else 0, if kind == CodeRun then 200 else 0, 200, 0, 0, 262_144)
  {
  }

  lemma CostsGrow(before: Book, kind: Kind, m: Meters, user: User, after: Book)
    requires Added(before, Costs(kind, m), user, after)
    ensures Grew(before, after, user, if kind == CodeRun then 1 else 0, if kind == CodeRun then m.rpcCalls else 0,
                 m.serviceNowRequests, m.rowsReturned, m.bytesReturned, m.outboundBytesSent)
  {
  }

  lemma NothingGrows(before: Book, user: User, after: Book)
    requires Added(before, NOTHING, user, after)
    ensures Grew(before, after, user, 0, 0, 0, 0, 0, 0)
  {
  }

  /** What a code run has cost the day, in numbers: nothing unless the reserve was committed; its maximums when
      the reconcile is lost or never made; otherwise what its meters show. */
  ghost predicate CodeRunCosts(before: Book, after: Book, user: User, path: CodePath, fate: Fate, admitted: bool) {
    if path.CheckFails? || !admitted || (path.ReserveThrows? && !path.committed) then Grew(before, after, user, 0, 0, 0, 0, 0, 0)
    else if path.ReserveThrows? || fate == Lost then Grew(before, after, user, 1, 200, 200, 0, 0, 262_144)
    else if path.TranspileFails? then Grew(before, after, user, 1, 0, 0, 0, 0, 0)
    else Grew(before, after, user, 1, path.meters.rpcCalls, path.meters.serviceNowRequests, path.meters.rowsReturned,
              path.meters.bytesReturned, path.meters.outboundBytesSent)
  }

  lemma CodeNetGrows(before: Book, after: Book, user: User, path: CodePath, fate: Fate, admitted: bool)
    requires Added(before, CodeNet(path, fate, admitted), user, after)
    ensures CodeRunCosts(before, after, user, path, fate, admitted)
  {
    if path.CheckFails? || !admitted || (path.ReserveThrows? && !path.committed) {
      NothingGrows(before, user, after);
    } else if path.ReserveThrows? || fate == Lost {
      ReservationGrows(before, CodeRun, user, after);
    } else {
      CostsGrow(before, CodeRun, if path.TranspileFails? then ZERO else path.meters, user, after);
    }
  }

  /** The same of a discovery run, which has no worker and never pays for its calls. */
  ghost predicate DiscoveryRunCosts(before: Book, after: Book, user: User, path: DiscoveryPath, fate: Fate, admitted: bool) {
    if path.PreflightFails? || !admitted || (path.DiscoveryReserveThrows? && !path.committed) then Grew(before, after, user, 0, 0, 0, 0, 0, 0)
    else if path.DiscoveryReserveThrows? || fate == Lost then Grew(before, after, user, 0, 0, 200, 0, 0, 262_144)
    else Grew(before, after, user, 0, 0, path.meters.serviceNowRequests, path.meters.rowsReturned,
              path.meters.bytesReturned, path.meters.outboundBytesSent)
  }

  lemma DiscoveryNetGrows(before: Book, after: Book, user: User, path: DiscoveryPath, fate: Fate, admitted: bool)
    requires Added(before, DiscoveryNet(path, fate, admitted), user, after)
    ensures DiscoveryRunCosts(before, after, user, path, fate, admitted)
  {
    if path.PreflightFails? || !admitted || (path.DiscoveryReserveThrows? && !path.committed) {
      NothingGrows(before, user, after);
    } else if path.DiscoveryReserveThrows? || fate == Lost {
      ReservationGrows(before, DiscoveryRun, user, after);
    } else {
      CostsGrow(before, DiscoveryRun, path.meters, user, after);
    }
  }

  ghost predicate NonNegative(b: Book) {
    (forall d: Dimension :: b.Global(d) >= 0) && (forall u: User, d: Dimension :: b.Of(u, d) >= 0)
  }

  /** A reservation and its reconciliation together add what the run has cost. */
  lemma ReserveThenReconcile(before: Book, kind: Kind, m: Meters, user: User, mid: Book, after: Book)
    requires NonNegative(before)
    requires Added(before, Reservation(kind), user, mid) && Adjusted(mid, Delta(kind, m), user, after)
    ensures Added(before, Costs(kind, m), user, after)
  {
    forall d: Dimension ensures after.Global(d) == before.Global(d) + Cost(kind, m, d) {
      DeltaIsCostLessReservation(kind, m, d);
    }
    forall u: User, d: Dimension
      ensures after.Of(u, d) == before.Of(u, d) + if u == user && user != "" then Cost(kind, m, d) else 0
    {
      DeltaIsCostLessReservation(kind, m, d);
    }
  }

  /** The finally block. */
  method ReconcileDaily(budget: BudgetDO, kind: Kind, snapshot: Meters, user: User, fate: Fate) returns (thrown: bool)
    modifies budget
    ensures if fate == Lost then budget.Contents() == old(budget.Contents())
            else Adjusted(old(budget.Contents()), Delta(kind, snapshot), user, budget.Contents())
  {
    if fate != Lost {
      budget.ReconcileCritical(Delta(kind, snapshot), user);
    }
    thrown := fate != Lands;
  }

  /** Every way through a run adds exactly its net request: never more than one reconcile, and one
      exactly when the reserve was granted. */
  method RunCode(budget: BudgetDO?, caps: Caps, user: User, path: CodePath, fate: Fate) returns (exit: Exit)
    requires budget != null ==> NonNegative(budget.Contents())
    modifies budget
    ensures budget != null ==>
      CodeRunCosts(old(budget.Contents()), budget.Contents(), user, path, fate, old(Admits(budget.Contents(), caps, Reservation(CodeRun))))
    ensures budget != null ==>
      Added(old(budget.Contents()), CodeNet(path, fate, old(Admits(budget.Contents(), caps, Reservation(CodeRun)))), user, budget.Contents())
    ensures exit.CapExhausted? ==> budget != null && !old(Admits(budget.Contents(), caps, Reservation(CodeRun)))
  {
    var snapshot := ZERO;
    var reserved := false;
    if path.CheckFails? {
      if budget != null {
        CodeNetGrows(old(budget.Contents()), budget.Contents(), user, path, fate, old(Admits(budget.Contents(), caps, Reservation(CodeRun))));
      }
      return Failed;
    }
    if budget != null {
      if path.ReserveThrows? {
        if path.committed {
          var _ := budget.ReserveCritical(Reservation(CodeRun), caps, user);
        }
        CodeNetGrows(old(budget.Contents()), budget.Contents(), user, path, fate, old(Admits(budget.Contents(), caps, Reservation(CodeRun))));
        return Failed;
      }
      var r := budget.ReserveCritical(Reservation(CodeRun), caps, user);
      if r.Refused? {
        CodeNetGrows(old(budget.Contents()), budget.Contents(), user, path, fate, old(Admits(budget.Contents(), caps, Reservation(CodeRun))));
        return CapExhausted(r.dimension);
      }
      reserved := true;
    }
    exit := Failed;
    if path.SnippetEnds? {
      snapshot := path.meters;
      exit := Finished;
    }
    if reserved {
      ghost var mid := budget.Contents();
      var _ := ReconcileDaily(budget, CodeRun, snapshot, user, fate);
      if fate != Lost {
        ReserveThenReconcile(old(budget.Contents()), CodeRun, snapshot, user, mid, budget.Contents());
      }
      CodeNetGrows(old(budget.Contents()), budget.Contents(), user, path, fate, old(Admits(budget.Contents(), caps, Reservation(CodeRun))));
    }
  }

  method RunDiscoveryWithBudget(budget: BudgetDO?, caps: Caps, user: User, path: DiscoveryPath, fate: Fate) returns (exit: Exit)
    requires budget != null ==> NonNegative(budget.Contents())
    modifies budget
    ensures budget != null ==>
      DiscoveryRunCosts(old(budget.Contents()), budget.Contents(), user, path, fate, old(Admits(budget.Contents(), caps, Reservation(DiscoveryRun))))
    ensures budget != null ==>
      Added(old(budget.Contents()), DiscoveryNet(path, fate, old(Admits(budget.Contents(), caps, Reservation(DiscoveryRun)))), user, budget.Contents())
    ensures exit.CapExhausted? ==> budget != null && !old(Admits(budget.Contents(), caps, Reservation(DiscoveryRun)))
  {
    if path.PreflightFails? {
      if budget != null {
        DiscoveryNetGrows(old(budget.Contents()), budget.Contents(), user, path, fate, old(Admits(budget.Contents(), caps, Reservation(DiscoveryRun))));
      }
      return Failed;
    }
    var reserved := false;
    if budget != null {
      if path.DiscoveryReserveThrows? {
        if path.committed {
          var _ := budget.ReserveCritical(Reservation(DiscoveryRun), caps, user);
        }
        DiscoveryNetGrows(old(budget.Contents()), budget.Contents(), user, path, fate, old(Admits(budget.Contents(), caps, Reservation(DiscoveryRun))));
        return Failed;
      }
      var r := budget.ReserveCritical(Reservation(DiscoveryRun), caps, user);
      if r.Refused? {
        DiscoveryNetGrows(old(budget.Contents()), budget.Contents(), user, path, fate, old(Admits(budget.Contents(), caps, Reservation(DiscoveryRun))));
        return CapExhausted(r.dimension);
      }
      reserved := true;
    }
    if reserved {
      ghost var mid := budget.Contents();
      var _ := ReconcileDaily(budget, DiscoveryRun, path.meters, user, fate);
      if fate != Lost {
        ReserveThenReconcile(old(budget.Contents()), DiscoveryRun, path.meters, user, mid, budget.Contents());
      }
      DiscoveryNetGrows(old(budget.Contents()), budget.Contents(), user, path, fate, old(Admits(budget.Contents(), caps, Reservation(DiscoveryRun))));
    }
    exit := Finished;
  }
}

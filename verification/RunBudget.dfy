/** sn/run-budget.ts: the meters of one run. Four of them count first and then check, so they also
    count the tries they refuse; the outbound bytes are checked first. */
module RunBudget {
  import opened Wrappers

  datatype RunBudgetLimits = RunBudgetLimits(rpcCallLimit: nat, serviceNowRequestLimit: nat, maxOutboundBytes: nat)

  const PER_RUN := RunBudgetLimits(200, 200, 256 * 1024)

  /** None: no ceiling. */
  datatype RunBudgetCaps = RunBudgetCaps(maxRows: Option<nat>, maxBytes: Option<nat>)

  datatype Meters = Meters(rpcCalls: nat, serviceNowRequests: nat, rowsReturned: nat, bytesReturned: nat, outboundBytesSent: nat)

  const ZERO := Meters(0, 0, 0, 0, 0)

  datatype Count = RpcCall | ServiceNowRequest | Rows(rows: nat) | Bytes(bytes: nat) | OutboundBytes(sent: nat)

  predicate Within(n: nat, ceiling: Option<nat>) { ceiling.None? || n <= ceiling.value }

  /** The meters after a count, and whether the count passed its check. */
  function Counted(m: Meters, limits: RunBudgetLimits, caps: RunBudgetCaps, c: Count): (Meters, bool) {
    match c
    case RpcCall => (m.(rpcCalls := m.rpcCalls + 1), m.rpcCalls < limits.rpcCallLimit)
    case ServiceNowRequest => (m.(serviceNowRequests := m.serviceNowRequests + 1), m.serviceNowRequests < limits.serviceNowRequestLimit)
    case Rows(n) => (m.(rowsReturned := m.rowsReturned + n), Within(m.rowsReturned + n, caps.maxRows))
    case Bytes(n) => (m.(bytesReturned := m.bytesReturned + n), Within(m.bytesReturned + n, caps.maxBytes))
    case OutboundBytes(n) =>
      if m.outboundBytesSent + n > limits.maxOutboundBytes then (m, false)
      else (m.(outboundBytesSent := m.outboundBytesSent + n), true)
  }

  class RunBudget {
    var rpcCalls: nat
    var serviceNowRequests: nat
    var rowsReturned: nat
    var bytesReturned: nat
    var outboundBytesSent: nat
    const limits: RunBudgetLimits
    const caps: RunBudgetCaps

    constructor (limits: RunBudgetLimits, caps: RunBudgetCaps)
      ensures Snapshot() == ZERO && this.limits == limits && this.caps == caps
    {
      rpcCalls, serviceNowRequests, rowsReturned, bytesReturned, outboundBytesSent := 0, 0, 0, 0, 0;
      this.limits := limits;
      this.caps := caps;
    }

    function Snapshot(): Meters
      reads this
    {
      Meters(rpcCalls, serviceNowRequests, rowsReturned, bytesReturned, outboundBytesSent)
    }

    method CountRpcCall() returns (passed: bool)
      modifies this`rpcCalls
      ensures (Snapshot(), passed) == Counted(old(Snapshot()), limits, caps, RpcCall)
      ensures rpcCalls == old(rpcCalls) + 1 && (passed <==> rpcCalls <= limits.rpcCallLimit)
    {
      rpcCalls := rpcCalls + 1;
      passed := !(rpcCalls > limits.rpcCallLimit);
    }

    method CountServiceNowRequest() returns (passed: bool)
      modifies this`serviceNowRequests
      ensures (Snapshot(), passed) == Counted(old(Snapshot()), limits, caps, ServiceNowRequest)
      ensures serviceNowRequests == old(serviceNowRequests) + 1 && (passed <==> serviceNowRequests <= limits.serviceNowRequestLimit)
    {
      serviceNowRequests := serviceNowRequests + 1;
      passed := !(serviceNowRequests > limits.serviceNowRequestLimit);
    }

    method CountRows(n: nat) returns (passed: bool)
      modifies this`rowsReturned
      ensures (Snapshot(), passed) == Counted(old(Snapshot()), limits, caps, Rows(n))
      ensures rowsReturned == old(rowsReturned) + n && (passed <==> caps.maxRows.None? || rowsReturned <= caps.maxRows.value)
    {
      rowsReturned := rowsReturned + n;
      passed := Within(rowsReturned, caps.maxRows);
    }

    method CountBytes(n: nat) returns (passed: bool)
      modifies this`bytesReturned
      ensures (Snapshot(), passed) == Counted(old(Snapshot()), limits, caps, Bytes(n))
      ensures bytesReturned == old(bytesReturned) + n && (passed <==> caps.maxBytes.None? || bytesReturned <= caps.maxBytes.value)
    {
      bytesReturned := bytesReturned + n;
      passed := Within(bytesReturned, caps.maxBytes);
    }

    method CountOutboundBytes(n: nat) returns (passed: bool)
      modifies this`outboundBytesSent
      ensures (Snapshot(), passed) == Counted(old(Snapshot()), limits, caps, OutboundBytes(n))
      ensures passed <==> old(outboundBytesSent) + n <= limits.maxOutboundBytes
      ensures outboundBytesSent == old(outboundBytesSent) + if passed then n else 0
    {
      if outboundBytesSent + n > limits.maxOutboundBytes {
        return false;
      }
      outboundBytesSent := outboundBytesSent + n;
      passed := true;
    }
  }
}

/**
 * The records the order lifecycle engine works on: an order, whose fields the
 * engine updates in place, and an execution report, a snapshot of an order
 * taken when the report is emitted.
 */
module Records {
  import opened Options

  /** The FIX 4.2 OrdStatus values the engine uses, plus the pre-acknowledgment placeholder. */
  datatype OrdStatus =
    | New | PartiallyFilled | Filled | DoneForDay | Canceled | Replaced
    | PendingCancel | Rejected | PendingReplace
    | Unknown

  /** The FIX 4.2 ExecType values the engine emits. */
  datatype ExecType =
    | New | PartialFill | Fill | DoneForDay | Canceled | Replace
    | PendingCancel | Rejected | PendingReplace

  /** The FIX 4.2 ExecTransType values: a new report, a bust and a correction. */
  datatype ExecTransType = New | Cancel | Correct

  /** The quantity and price part of an order, as a value. */
  datatype OrderState = OrderState(quantity: int, open: int, executed: int, avgPx: real, status: OrdStatus)

  /** The pending-request flags of an order, as a value. */
  datatype Flags = Flags(receivedOrder: bool, receivedCancel: bool, receivedReplace: bool)

  /** The state of an order just built from an inbound request: nothing executed, not yet acknowledged. */
  function Placed(quantity: int): OrderState {
    OrderState(quantity, quantity, 0, 0.0, OrdStatus.Unknown)
  }

  /** Every share of the order is either open or executed. */
  predicate Balanced(s: OrderState) {
    s.open + s.executed == s.quantity
  }

  /** The traded value of the executed shares: the volume-weighted average price times the volume. */
  function Notional(s: OrderState): real {
    s.avgPx * s.executed as real
  }

  /** An order. Its ordered quantity is fixed; everything else the engine updates in place. */
  class Order {
    const quantity: int
    var open: int
    var executed: int
    var avgPx: real
    var status: OrdStatus
    var receivedOrder: bool
    var receivedCancel: bool
    var receivedReplace: bool

    /** An order built from an inbound new-order, cancel or replace request for `quantity` shares. */
    constructor (quantity: int)
      ensures State() == Placed(quantity)
      ensures Pending() == Flags(false, false, false)
    {
      this.quantity := quantity;
      open := quantity;
      executed := 0;
      avgPx := 0.0;
      status := OrdStatus.Unknown;
      receivedOrder, receivedCancel, receivedReplace := false, false, false;
    }

    function State(): OrderState
      reads this
    {
      OrderState(quantity, open, executed, avgPx, status)
    }

    function Pending(): Flags
      reads this
    {
      Flags(receivedOrder, receivedCancel, receivedReplace)
    }
  }

  /** An execution report against `order`; `refId` names the report a bust or correction refers to. */
  datatype Execution = Execution(
    id: nat,
    order: Order,
    execType: ExecType,
    execTransType: ExecTransType,
    lastShares: int,
    lastPx: real,
    leavesQty: int,
    cumQty: int,
    avgPx: real,
    refId: Option<nat>,
    dk: bool)

  /**
   * `new Execution(order)` followed by the setters of the status-only operations:
   * a report with no shares and no price that snapshots the order's open and
   * executed quantities and average price.
   */
  function Report(id: nat, order: Order, execType: ExecType, transType: ExecTransType): (e: Execution)
    reads order
    ensures e.id == id && e.order == order && e.execType == execType && e.execTransType == transType
    ensures e.leavesQty == order.open && e.cumQty == order.executed && e.avgPx == order.avgPx
    ensures e.lastShares == 0 && e.lastPx == 0.0 && e.refId == None && !e.dk
  {
    Execution(id, order, execType, transType, 0, 0.0, order.open, order.executed, order.avgPx, None, false)
  }
}

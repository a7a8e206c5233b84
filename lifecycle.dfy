/**
 * The order lifecycle engine of the simulator (class FIXimulatorApplication):
 * inbound request routing, the status transitions that answer requests, the
 * fill, bust and correct arithmetic applied to orders in place, the execution
 * registry every emitted report is appended to, and the worker's slicing loop.
 */
module Lifecycle {
  import opened Options
  import opened Settings
  import opened Records
  import opened Fills
  import opened Slicing

  /** Which request an order-cancel-reject answers. */
  datatype CxlRejResponseTo = OrderCancelRequest | OrderCancelReplaceRequest

  /** The order-state part of an order-cancel-reject message. */
  datatype CancelReject = CancelReject(order: Order, status: OrdStatus, responseTo: CxlRejResponseTo)

  class Application {
    /** The order registry, in insertion order, and the queue of orders the worker will fill. */
    var orders: seq<Order>
    var fillQueue: seq<Order>
    /** The execution registry: every report sent, in emission order. */
    var executions: seq<Execution>
    /** The id the next report built here receives. */
    var nextExecId: nat
    /** Whether the fulfillment worker has been started (and not stopped). */
    var executorStarted: bool

    constructor ()
      ensures orders == [] && fillQueue == [] && executions == [] && !executorStarted
    {
      orders, fillQueue, executions := [], [], [];
      nextExecId := 0;
      executorStarted := false;
    }

    /** `sendExecution`: the report goes to the counterparty and into the execution registry. */
    method SendExecution(execution: Execution)
      modifies this`executions
      ensures executions == old(executions) + [execution]
    {
      executions := executions + [execution];
    }

    /** `new Execution(order)` with the status-only operations' type settings. */
    method NewReport(order: Order, execType: ExecType) returns (e: Execution)
      modifies this`nextExecId
      ensures e == Report(old(nextExecId), order, execType, ExecTransType.New)
      ensures nextExecId == old(nextExecId) + 1
    {
      e := Report(nextExecId, order, execType, ExecTransType.New);
      nextExecId := nextExecId + 1;
    }

    /** `acknowledge`: the order becomes New, an ack is reported, and the new-order request is answered. */
    method Acknowledge(order: Order)
      modifies this`executions, this`nextExecId, order`status, order`receivedOrder
      ensures order.State() == old(order.State()).(status := OrdStatus.New)
      ensures order.Pending() == old(order.Pending()).(receivedOrder := false)
      ensures executions == old(executions) + [Report(old(nextExecId), order, ExecType.New, ExecTransType.New)]
      ensures nextExecId == old(nextExecId) + 1
    {
      var acknowledgement := NewReport(order, ExecType.New);
      order.status := OrdStatus.New;
      SendExecution(acknowledgement);
      order.receivedOrder := false;
    }

    /** `reject`: the order becomes Rejected, a reject is reported, and the new-order request is answered. */
    method Reject(order: Order)
      modifies this`executions, this`nextExecId, order`status, order`receivedOrder
      ensures order.State() == old(order.State()).(status := OrdStatus.Rejected)
      ensures order.Pending() == old(order.Pending()).(receivedOrder := false)
      ensures executions == old(executions) + [Report(old(nextExecId), order, ExecType.Rejected, ExecTransType.New)]
      ensures nextExecId == old(nextExecId) + 1
    {
      var reject := NewReport(order, ExecType.Rejected);
      order.status := OrdStatus.Rejected;
      SendExecution(reject);
      order.receivedOrder := false;
    }

    /** `dfd`: the order is done for the day; no pending flag is cleared. */
    method DoneForDay(order: Order)
      modifies this`executions, this`nextExecId, order`status
      ensures order.State() == old(order.State()).(status := OrdStatus.DoneForDay)
      ensures executions == old(executions) + [Report(old(nextExecId), order, ExecType.DoneForDay, ExecTransType.New)]
      ensures nextExecId == old(nextExecId) + 1
    {
      var dfd := NewReport(order, ExecType.DoneForDay);
      order.status := OrdStatus.DoneForDay;
      SendExecution(dfd);
    }

    /** `pendingCancel`: the order becomes PendingCancel and the cancel request is answered. */
    method PendingCancel(order: Order)
      modifies this`executions, this`nextExecId, order`status, order`receivedCancel
      ensures order.State() == old(order.State()).(status := OrdStatus.PendingCancel)
      ensures order.Pending() == old(order.Pending()).(receivedCancel := false)
      ensures executions == old(executions) + [Report(old(nextExecId), order, ExecType.PendingCancel, ExecTransType.New)]
      ensures nextExecId == old(nextExecId) + 1
    {
      var pending := NewReport(order, ExecType.PendingCancel);
      order.status := OrdStatus.PendingCancel;
      SendExecution(pending);
      order.receivedCancel := false;
    }

    /** `cancel`: the order becomes Canceled and the cancel request is answered. */
    method Cancel(order: Order)
      modifies this`executions, this`nextExecId, order`status, order`receivedCancel
      ensures order.State() == old(order.State()).(status := OrdStatus.Canceled)
      ensures order.Pending() == old(order.Pending()).(receivedCancel := false)
      ensures executions == old(executions) + [Report(old(nextExecId), order, ExecType.Canceled, ExecTransType.New)]
      ensures nextExecId == old(nextExecId) + 1
    {
      var cancel := NewReport(order, ExecType.Canceled);
      order.status := OrdStatus.Canceled;
      SendExecution(cancel);
      order.receivedCancel := false;
    }

    /**
     * `rejectCancelReplace`: both the cancel and the replace request are
     * answered; an order still Unknown becomes New, any other status stays. The
     * answer is an order-cancel-reject message, not an execution report, so the
     * execution registry does not change.
     */
    method RejectCancelReplace(order: Order, cancel: bool) returns (reject: CancelReject)
      modifies order`status, order`receivedCancel, order`receivedReplace
      ensures order.State() == old(order.State()).(
        status := if old(order.status) == OrdStatus.Unknown then OrdStatus.New else old(order.status))
      ensures order.Pending() == old(order.Pending()).(receivedCancel := false, receivedReplace := false)
      ensures reject.order == order && reject.status == order.status
      ensures reject.responseTo == if cancel then OrderCancelRequest else OrderCancelReplaceRequest
    {
      order.receivedCancel := false;
      order.receivedReplace := false;
      if order.status == OrdStatus.Unknown {
        order.status := OrdStatus.New;
      }
      var responseTo := if cancel then OrderCancelRequest else OrderCancelReplaceRequest;
      reject := CancelReject(order, order.status, responseTo);
    }

    /** `pendingReplace`: the order becomes PendingReplace and the replace request is answered. */
    method PendingReplace(order: Order)
      modifies this`executions, this`nextExecId, order`status, order`receivedReplace
      ensures order.State() == old(order.State()).(status := OrdStatus.PendingReplace)
      ensures order.Pending() == old(order.Pending()).(receivedReplace := false)
      ensures executions == old(executions) + [Report(old(nextExecId), order, ExecType.PendingReplace, ExecTransType.New)]
      ensures nextExecId == old(nextExecId) + 1
    {
      var pending := NewReport(order, ExecType.PendingReplace);
      order.status := OrdStatus.PendingReplace;
      order.receivedReplace := false;
      SendExecution(pending);
    }

    /** `replace`: the order becomes Replaced and the replace request is answered. */
    method Replace(order: Order)
      modifies this`executions, this`nextExecId, order`status, order`receivedReplace
      ensures order.State() == old(order.State()).(status := OrdStatus.Replaced)
      ensures order.Pending() == old(order.Pending()).(receivedReplace := false)
      ensures executions == old(executions) + [Report(old(nextExecId), order, ExecType.Replace, ExecTransType.New)]
      ensures nextExecId == old(nextExecId) + 1
    {
      var replace := NewReport(order, ExecType.Replace);
      order.status := OrdStatus.Replaced;
      order.receivedReplace := false;
      SendExecution(replace);
    }

    /**
     * `execute`: apply the fill the execution carries (`lastShares` at `lastPx`)
     * to its order, and report it as a new partial or complete fill carrying the
     * order's new open and executed quantities and average price.
     */
    method Execute(execution: Execution)
      requires execution.order.executed + execution.lastShares != 0
      modifies this`executions, execution.order`open, execution.order`executed,
               execution.order`avgPx, execution.order`status
      ensures execution.order.State() ==
              AfterFill(old(execution.order.State()), execution.lastShares, execution.lastPx)
      ensures executions == old(executions) + [execution.(
        execType := if execution.lastShares < old(execution.order.open) then ExecType.PartialFill else ExecType.Fill,
        execTransType := ExecTransType.New,
        leavesQty := execution.order.open,
        cumQty := execution.order.executed,
        avgPx := execution.order.avgPx)]
    {
      var order := execution.order;
      var fillQty := execution.lastShares;
      var fillPrice := execution.lastPx;
      var open := order.open;
      var report := execution;
      if fillQty < open {
        order.open := open - fillQty;
        order.status := OrdStatus.PartiallyFilled;
        report := report.(execType := ExecType.PartialFill);
      } else {
        order.open := 0;
        order.status := OrdStatus.Filled;
        report := report.(execType := ExecType.Fill);
      }
      var avgPx := (order.avgPx * order.executed as real + fillPrice * fillQty as real)
                   / (order.executed + fillQty) as real;
      order.avgPx := avgPx;
      order.executed := order.executed + fillQty;
      report := report.(execTransType := ExecTransType.New, leavesQty := order.open,
                        cumQty := order.executed, avgPx := avgPx);
      SendExecution(report);
    }

    /**
     * `bust`: reverse the fill the execution carries, as the source writes it
     * (Fills.AfterBust: a partial bust sets the open quantity to the remaining
     * executed quantity), and report a copy of the busted execution, with a fresh
     * id referring back to it, as a cancel carrying the order's new open and
     * executed quantities and average price.
     */
    method Bust(execution: Execution)
      modifies this`executions, this`nextExecId, execution.order`open, execution.order`executed,
               execution.order`avgPx, execution.order`status
      ensures execution.order.State() ==
              AfterBust(old(execution.order.State()), execution.lastShares, execution.lastPx)
      ensures executions == old(executions) + [execution.(
        id := old(nextExecId),
        refId := Some(execution.id),
        dk := false,
        execTransType := ExecTransType.Cancel,
        leavesQty := execution.order.open,
        cumQty := execution.order.executed,
        avgPx := execution.order.avgPx)]
      ensures nextExecId == old(nextExecId) + 1
    {
      var bust := execution.(id := nextExecId, refId := Some(execution.id), dk := false);
      nextExecId := nextExecId + 1;
      var order := execution.order;
      var fillQty := execution.lastShares;
      var fillPrice := execution.lastPx;
      var executed := order.executed;
      if fillQty < executed {
        order.open := executed - fillQty;
        order.status := OrdStatus.PartiallyFilled;
        var avgPx := (order.avgPx * executed as real - fillPrice * fillQty as real)
                     / (order.executed - fillQty) as real;
        order.avgPx := avgPx;
        order.executed := order.executed - fillQty;
      } else {
        order.open := order.quantity;
        order.status := OrdStatus.New;
        order.avgPx := 0.0;
        order.executed := 0;
      }
      bust := bust.(execTransType := ExecTransType.Cancel, leavesQty := order.open,
                    cumQty := order.executed, avgPx := order.avgPx);
      SendExecution(bust);
    }

    /**
     * The registry lookup by execution id: the position of the first report with
     * that id, or None when no report has it.
     */
    method FindExecution(id: nat) returns (k: Option<nat>)
      ensures k.Some? ==> k.value < |executions| && executions[k.value].id == id
      ensures k.Some? ==> forall j :: 0 <= j < k.value ==> executions[j].id != id
      ensures k.None? ==> forall j :: 0 <= j < |executions| ==> executions[j].id != id
    {
      var i := 0;
      while i < |executions|
        invariant 0 <= i <= |executions|
        invariant forall j :: 0 <= j < i ==> executions[j].id != id
      {
        if executions[i].id == id {
          return Some(i);
        }
        i := i + 1;
      }
      return None;
    }

    /**
     * `correct`: look up the first registered execution with the id the
     * correction refers to and replace its
     * quantity and price in the order's totals by the correction's (see
     * Fills.AfterCorrect); the correction is reported with transaction type
     * Correct and the order's new open and executed quantities and average price.
     * When the correction refers to no registered execution, the source fails on
     * the missing record before changing anything: `original` is None.
     */
    method Correct(correction: Execution) returns (original: Option<Execution>)
      requires forall j ::
                 (&& 0 <= j < |executions| && correction.refId == Some(executions[j].id)
                  && (forall i :: 0 <= i < j ==> executions[i].id != executions[j].id)) ==>
                 correction.order.executed - executions[j].lastShares + correction.lastShares != 0
      modifies this`executions, correction.order`open, correction.order`executed,
               correction.order`avgPx, correction.order`status
      ensures original.None? ==>
        && (correction.refId.None? || forall j :: 0 <= j < |executions| ==> Some(executions[j].id) != correction.refId)
        && executions == old(executions)
        && correction.order.State() == old(correction.order.State())
      ensures original.Some? ==>
        && (exists j :: 0 <= j < |old(executions)| && old(executions)[j] == original.value
              && forall i :: 0 <= i < j ==> old(executions)[i].id != original.value.id)
        && correction.refId == Some(original.value.id)
        && correction.order.State() == AfterCorrect(old(correction.order.State()),
             original.value.lastShares, original.value.lastPx, correction.lastShares, correction.lastPx)
        && executions == old(executions) + [correction.(
             execTransType := ExecTransType.Correct,
             leavesQty := correction.order.open,
             cumQty := correction.order.executed,
             avgPx := correction.order.avgPx)]
    {
      var order := correction.order;
      if correction.refId.None? {
        return None;
      }
      var k := FindExecution(correction.refId.value);
      if k.None? {
        return None;
      }
      original := Some(executions[k.value]);
      var fillQty := correction.lastShares;
      var oldQty := original.value.lastShares;
      var fillPrice := correction.lastPx;
      var oldPrice := original.value.lastPx;
      var executed := order.executed;
      var ordered := order.quantity;
      var newCumQty := executed - oldQty + fillQty;
      var avgPx := (order.avgPx * executed as real - oldPrice * oldQty as real + fillPrice * fillQty as real)
                   / newCumQty as real;
      if newCumQty < ordered {
        order.open := ordered - newCumQty;
        order.status := OrdStatus.PartiallyFilled;
      } else {
        order.open := 0;
        order.status := OrdStatus.Filled;
      }
      order.avgPx := avgPx;
      order.executed := newCumQty;
      var report := correction.(execTransType := ExecTransType.Correct, leavesQty := order.open,
                                cumQty := order.executed, avgPx := order.avgPx);
      SendExecution(report);
    }

    /**
     * A don't-know-trade message: the execution it names is marked DK'd in the
     * registry. A message without an execution id changes nothing; neither does
     * one naming no registered execution (the source fails on the missing record).
     */
    method OnDontKnowTrade(execId: Option<nat>) returns (marked: bool)
      modifies this`executions
      ensures !marked ==> executions == old(executions)
      ensures !marked && execId.Some? ==> forall j :: 0 <= j < |executions| ==> executions[j].id != execId.value
      ensures marked ==>
        && execId.Some?
        && exists k :: 0 <= k < |old(executions)| && old(executions)[k].id == execId.value
             && (forall j :: 0 <= j < k ==> old(executions)[j].id != execId.value)
             && executions == old(executions)[k := old(executions)[k].(dk := true)]
    {
      if execId.None? {
        return false;
      }
      var k := FindExecution(execId.value);
      if k.None? {
        return false;
      }
      executions := executions[k.value := executions[k.value].(dk := true)];
      marked := true;
    }

    /** `OrderSet.add`: register the order, and queue it for the worker when asked to. */
    method AddOrder(order: Order, enqueue: bool)
      modifies this`orders, this`fillQueue
      ensures orders == old(orders) + [order]
      ensures fillQueue == if enqueue then old(fillQueue) + [order] else old(fillQueue)
    {
      orders := orders + [order];
      if enqueue {
        fillQueue := fillQueue + [order];
      }
    }

    /**
     * A new-order request for `quantity` shares. While the worker runs, the order
     * is registered and queued for it untouched. Otherwise it is registered only,
     * and acknowledged at once when the auto-acknowledge setting is on.
     */
    method OnNewOrderSingle(quantity: int, autoAckSetting: Option<bool>) returns (order: Order)
      modifies this`orders, this`fillQueue, this`executions, this`nextExecId
      ensures fresh(order) && orders == old(orders) + [order]
      ensures fillQueue == if executorStarted then old(fillQueue) + [order] else old(fillQueue)
      ensures var acked := !executorStarted && BoolSetting(autoAckSetting);
        && order.State() == Placed(quantity).(status := if acked then OrdStatus.New else OrdStatus.Unknown)
        && order.Pending() == Flags(!acked, false, false)
        && executions == old(executions) +
             (if acked then [Report(old(nextExecId), order, ExecType.New, ExecTransType.New)] else [])
        && nextExecId == old(nextExecId) + (if acked then 1 else 0)
    {
      order := new Order(quantity);
      order.receivedOrder := true;
      if executorStarted {
        AddOrder(order, true);
      } else {
        AddOrder(order, false);
        var autoAck := BoolSetting(autoAckSetting);
        if autoAck {
          Acknowledge(order);
        }
      }
    }

    /**
     * A cancel request for an order of `quantity` shares: the order is
     * registered (not queued), then put pending-cancel and/or canceled as the
     * two settings say. Both settings are read in one step, so a missing
     * pending-cancel setting also switches automatic cancelling off.
     */
    method OnOrderCancelRequest(quantity: int, autoPendingSetting: Option<bool>, autoCancelSetting: Option<bool>)
      returns (order: Order)
      modifies this`orders, this`fillQueue, this`executions, this`nextExecId
      ensures fillQueue == old(fillQueue)
      ensures fresh(order) && orders == old(orders) + [order]
      ensures var (pending, cancel) := ReadBoolPair(autoPendingSetting, autoCancelSetting);
        && order.State() == Placed(quantity).(status :=
             if cancel then OrdStatus.Canceled else if pending then OrdStatus.PendingCancel else OrdStatus.Unknown)
        && order.Pending() == Flags(false, !(pending || cancel), false)
        && executions == old(executions)
             + (if pending then [Report(old(nextExecId), order, ExecType.PendingCancel, ExecTransType.New)] else [])
             + (if cancel then [Report(old(nextExecId) + (if pending then 1 else 0), order,
                                       ExecType.Canceled, ExecTransType.New)] else [])
        && nextExecId == old(nextExecId) + (if pending then 1 else 0) + (if cancel then 1 else 0)
    {
      order := new Order(quantity);
      order.receivedCancel := true;
      AddOrder(order, false);
      var (autoPending, autoCancel) := ReadBoolPair(autoPendingSetting, autoCancelSetting);
      if autoPending {
        PendingCancel(order);
      }
      if autoCancel {
        Cancel(order);
      }
    }

    /**
     * A cancel/replace request for an order of `quantity` shares: the order is
     * registered (not queued), then put pending-replace and/or replaced as the
     * two settings say, read in one step as for a cancel request.
     */
    method OnOrderCancelReplaceRequest(quantity: int, autoPendingSetting: Option<bool>, autoReplaceSetting: Option<bool>)
      returns (order: Order)
      modifies this`orders, this`fillQueue, this`executions, this`nextExecId
      ensures fillQueue == old(fillQueue)
      ensures fresh(order) && orders == old(orders) + [order]
      ensures var (pending, replace) := ReadBoolPair(autoPendingSetting, autoReplaceSetting);
        && order.State() == Placed(quantity).(status :=
             if replace then OrdStatus.Replaced else if pending then OrdStatus.PendingReplace else OrdStatus.Unknown)
        && order.Pending() == Flags(false, false, !(pending || replace))
        && executions == old(executions)
             + (if pending then [Report(old(nextExecId), order, ExecType.PendingReplace, ExecTransType.New)] else [])
             + (if replace then [Report(old(nextExecId) + (if pending then 1 else 0), order,
                                        ExecType.Replace, ExecTransType.New)] else [])
        && nextExecId == old(nextExecId) + (if pending then 1 else 0) + (if replace then 1 else 0)
    {
      order := new Order(quantity);
      order.receivedReplace := true;
      AddOrder(order, false);
      var (autoPending, autoReplace) := ReadBoolPair(autoPendingSetting, autoReplaceSetting);
      if autoPending {
        PendingReplace(order);
      }
      if autoReplace {
        Replace(order);
      }
    }

    /** Creating the worker marks it started; new orders are then queued for it instead of auto-acknowledged. */
    method StartExecutor()
      modifies this`executorStarted
      ensures executorStarted
    {
      executorStarted := true;
    }

    /** `stopExecutor`: the worker's loop condition turns false. */
    method StopExecutor()
      modifies this`executorStarted
      ensures !executorStarted
    {
      executorStarted := false;
    }

    /** `updateOrder`: the worker's write of one slice's result into the order. */
    method UpdateOrder(order: Order, open: int, executed: int, thisAvg: real, status: OrdStatus)
      modifies order`open, order`executed, order`avgPx, order`status
      ensures order.State() == OrderState(order.quantity, open, executed, thisAvg, status)
    {
      order.open := open;
      order.executed := executed;
      order.avgPx := thisAvg;
      order.status := status;
    }

    /**
     * `createExecution`: the report of one slice, built after the order is
     * updated; its cumulative quantity is the ordered quantity minus what is open.
     */
    method CreateExecution(order: Order, execType: ExecType, thisAvg: real, fillQty: int, fillPrice: real)
      returns (e: Execution)
      modifies this`nextExecId
      ensures nextExecId == old(nextExecId) + 1
      ensures e == Execution(old(nextExecId), order, execType, ExecTransType.New, fillQty, fillPrice,
                             order.open, order.quantity - order.open, thisAvg, None, false)
    {
      e := Report(nextExecId, order, execType, ExecTransType.New);
      nextExecId := nextExecId + 1;
      e := e.(leavesQty := order.open, cumQty := order.quantity - order.open, avgPx := thisAvg,
              lastShares := fillQty, lastPx := fillPrice);
    }

    /**
     * One iteration of `Executor.fill`'s loop (without its pacing sleep): an
     * order with shares open gets one slice, as `Slicing.Slice` says, and the
     * slice's report is sent; the slice size carried to the next iteration is
     * returned.
     */
    method FillSlice(order: Order, fillQty: int, last: bool, fillPrice: real, factor: real)
      returns (nextFillQty: int)
      requires factor > 0.0 && Workable(Progress(order.State(), fillQty, nextExecId))
      modifies this`executions, this`nextExecId, order`open, order`executed, order`avgPx, order`status
      ensures var step := Slice(order, Progress(old(order.State()), fillQty, old(nextExecId)), fillPrice, factor, last);
        && Progress(order.State(), nextFillQty, nextExecId) == step.0
        && executions == old(executions) + step.1
    {
      ghost var before := Progress(order.State(), fillQty, nextExecId);
      nextFillQty := fillQty;
      var open := order.open;
      if open > 0 {
        SliceOpen(order, before, fillPrice, factor, last);
        var priorQty := order.executed;
        var priorAvg := order.avgPx;
        var thisAvg := SliceAverage(priorQty, priorAvg, nextFillQty, fillPrice, factor);
        var ordStatus, execType;
        if nextFillQty < open && !last {
          ordStatus, execType := OrdStatus.PartiallyFilled, ExecType.PartialFill;
        } else {
          nextFillQty := open;
          ordStatus, execType := OrdStatus.Filled, ExecType.Fill;
        }
        UpdateOrder(order, open - nextFillQty, order.executed + nextFillQty, thisAvg, ordStatus);
        var execution := CreateExecution(order, execType, thisAvg, nextFillQty, fillPrice);
        SendExecution(execution);
      }
    }

    /**
     * `Executor.fill`: work `order` to completion in at most `partials` slices of
     * `SliceSize(quantity, partials)` shares at `fillPrice`, rounding each new
     * average price to `precision` decimals (default 4). The order and the
     * registry end exactly as `Slicing.Work` says; in particular an order with
     * shares open is left Filled with nothing open, with at most `partials`
     * reports whose shares add up to what was open. A fresh order priced on the
     * precision grid (as the random fallback price always is) is reported at
     * exactly that price on every slice.
     */
    method ExecutorFill(order: Order, partials: int, fillPrice: real, precisionSetting: Option<int>)
      requires order.quantity >= 0 && order.executed >= 0
      modifies this`executions, this`nextExecId, order`open, order`executed, order`avgPx, order`status
      ensures partials <= 0 ==> order.State() == old(order.State()) && executions == old(executions)
      ensures partials > 0 ==>
        var start := Progress(old(order.State()), SliceSize(order.quantity, partials), old(nextExecId));
        var (done, reports) := Work(order, start, fillPrice, Pow10(IntSetting(precisionSetting, 4)), 0, partials);
        && order.State() == done.state
        && executions == old(executions) + reports
        && nextExecId == done.nextId
      ensures partials > 0 && old(order.open) > 0 ==>
        && order.open == 0 && order.status == OrdStatus.Filled
        && order.executed == old(order.executed) + old(order.open)
        && |old(executions)| < |executions| <= |old(executions)| + partials
        && TotalShares(executions[|old(executions)|..]) == old(order.open)
      ensures partials > 0 && old(order.executed) == 0 && OnGrid(fillPrice, Pow10(IntSetting(precisionSetting, 4))) ==>
        forall k :: |old(executions)| <= k < |executions| ==> executions[k].avgPx == fillPrice
    {
      if partials <= 0 {
        return;
      }
      var pricePrecision := IntSetting(precisionSetting, 4);
      var factor := Pow10(pricePrecision);
      var fillQty := SliceSize(order.quantity, partials);
      ghost var start := Progress(order.State(), fillQty, nextExecId);
      ghost var total := Work(order, start, fillPrice, factor, 0, partials);
      for i := 0 to partials
        invariant Workable(Progress(order.State(), fillQty, nextExecId))
        invariant order.quantity == start.state.quantity
        invariant Work(order, Progress(order.State(), fillQty, nextExecId), fillPrice, factor, i, partials).0 == total.0
        invariant executions + Work(order, Progress(order.State(), fillQty, nextExecId), fillPrice, factor, i, partials).1
                  == old(executions) + total.1
      {
        fillQty := FillSlice(order, fillQty, i == partials - 1, fillPrice, factor);
      }
      assert executions == old(executions) + total.1;
      if old(order.open) > 0 {
        WorkCompletes(order, start, fillPrice, factor, 0, partials);
        WorkExecutesOpenQuantity(order, start, fillPrice, factor, 0, partials);
        assert executions[|old(executions)|..] == total.1;
      }
      if old(order.executed) == 0 && OnGrid(fillPrice, factor) {
        WorkAtOnePrice(order, start, fillPrice, factor, 0, partials);
      }
    }
  }
}

# FIXimulator order lifecycle engine, in Dafny

FIXimulator is a FIX 4.2 sell-side simulator. Counterparties send new-order, cancel,
cancel/replace and don't-know-trade requests. The application answers each request with
execution reports, and a background worker (the `Executor`) fills orders in slices.

This project models the core of `FIXimulatorApplication`:

- orders are updated in place by the status operations (acknowledge, reject, done for day,
  pending cancel, cancel, pending replace, replace, reject cancel/replace);
- the fill, bust and correct arithmetic keeps open and executed quantities and the
  volume-weighted average price;
- every report the engine emits is appended to the execution registry;
- inbound requests are routed using the auto-acknowledge, auto-pending and auto-cancel/replace
  settings;
- the worker's slicing loop, `Executor.fill`, is modelled with `createExecution` and
  `updateOrder`.

It also models the bounded activity log, `LogMessageSet`.

Layout (one module per file):

- `options.dfy`: the `Option` type. A configuration read that can fail is `None`.
- `settings.dfy`: Java's `(int)` narrowing of a `long`, and settings read with defaults. It
  also covers two boolean settings read in one `try` block.
- `records.dfy`: order and execution statuses, and the `Order` class whose fields the engine
  updates. Also `OrderState` (an order's quantities, average price and status as a value) and
  the `Execution` report record.
- `fills.dfy`: `AfterFill`, `AfterBust` and `AfterCorrect`, the fill, bust and correct
  arithmetic as functions on `OrderState`, with the round trips between them.
- `slicing.dfy`: `Work`, the worker's loop as a recursive function over the remaining
  iterations, with the lemmas that say what working an order achieves.
- `lifecycle.dfy`: class `Application`, the engine. Each method is proved to change the order
  exactly as the matching `Fills` or `Slicing` function says, and to append exactly the
  reports it sends.
- `activity_log.dfy`: class `LogMessageSet`, the log evicting from the front down to its
  capacity.

Quantities are integers and prices are exact reals. `Math.round` is rounded half up,
`floor(x + 0.5)`. The fill price, which the source takes from a quote service or a random
generator, is a parameter. So are the settings, each passed as an `Option`: `None` when the key
cannot be read.

## Model

| member | source | states |
|---|---|---|
| Settings.ToInt32 | src/main/java/org/fiximulator/core/FIXimulatorApplication.java:737 | The `(int)` cast of a `long`: the result is in the 32-bit range and is congruent to the input modulo 2^32. It equals the input when the input is already in range. |
| Settings.IntSetting | src/main/java/org/fiximulator/core/FIXimulatorApplication.java:735-741 | `getSettingLong`: an unreadable key gives the default. A readable one gives its value narrowed to 32 bits, which is the value itself when it fits. |
| Settings.BoolSetting | src/main/java/org/fiximulator/core/FIXimulatorApplication.java:118-121 | A boolean setting read with default `false` is true exactly when the key is readable and holds true. |
| Settings.ReadBoolPair | src/main/java/org/fiximulator/core/FIXimulatorApplication.java:135-140 | Two settings read in one `try`. The first flag is true iff its key holds true. The second is true iff the first key is readable and the second holds true: an unreadable first key skips the second read. |
| Records.Report | src/main/java/org/fiximulator/core/FIXimulatorApplication.java:248-252 | `new Execution(order)` as assumed here (its class is not part of this model): the next id, no shares, no price, no reference, not DK'd, and a snapshot of the order's open quantity as leaves, executed quantity as cumulative and average price. |
| Records.Order.constructor | src/main/java/org/fiximulator/core/FIXimulatorApplication.java:111 | An order built from a request: everything open, nothing executed, average 0, status not yet known, no pending-request flag set. |
| Fills.AfterFill | src/main/java/org/fiximulator/core/FIXimulatorApplication.java:370-390 | A fill keeps the ordered quantity, adds the fill to the executed quantity and adds `qty * px` to the notional (average times executed). The order is Filled iff the fill covers the open quantity, and then nothing is open. Otherwise it is PartiallyFilled with the open quantity reduced by the fill and still positive. A fill no larger than the open quantity preserves `open + executed == quantity`. |
| Fills.AfterBust | src/main/java/org/fiximulator/core/FIXimulatorApplication.java:400-421 | Busting at least everything executed resets the order to New with everything open, nothing executed and average 0. A smaller bust removes the shares and their notional, marks the order PartiallyFilled, and sets the open quantity equal to the remaining executed quantity, as the source writes it. |
| Fills.BustKeepingBalance | src/main/java/org/fiximulator/core/FIXimulatorApplication.java:407-414 | The corrected bust: the same executed quantity, average and status as `AfterBust`, with open set to ordered minus executed. It always satisfies `open + executed == quantity`. |
| Fills.AfterCorrect | src/main/java/org/fiximulator/core/FIXimulatorApplication.java:431-461 | A correction swaps the original fill's shares and notional for the correction's. The order is PartiallyFilled iff the new executed quantity is below the ordered quantity; otherwise it is Filled with nothing open. The open quantity is never negative. The order is balanced iff it is not over-executed. |
| Fills.FillThenBustRestores | src/main/java/org/fiximulator/core/FIXimulatorApplication.java:370-421 | Filling an acknowledged, untouched order and busting that fill gives back exactly the original order. |
| Fills.FillThenBustKeepingBalanceRestores | src/main/java/org/fiximulator/core/FIXimulatorApplication.java:370-421 | On a balanced order that already has executions, a fill followed by the corrected bust of that fill restores the open and executed quantities and the average price. |
| Fills.PartialBustBalanceAsWritten | src/main/java/org/fiximulator/core/FIXimulatorApplication.java:407-414 | The source's partial bust leaves a balanced order balanced only when the remaining executed quantity is exactly half the order. |
| Fills.PartialBustExample | src/main/java/org/fiximulator/core/FIXimulatorApplication.java:407-414 | With 100 ordered and 80 executed, busting 20 leaves 60 executed and 60 open, which is unbalanced. The corrected bust leaves 40 open. |
| Fills.FillThenCorrectIsCorrectedFill | src/main/java/org/fiximulator/core/FIXimulatorApplication.java:431-461 | On a balanced order, correcting a fill to another quantity and price gives exactly the order the corrected fill would have produced. |
| Fills.TwoFillsScenario | src/main/java/org/fiximulator/core/FIXimulatorApplication.java:370-390 | 60 at 10.00 then 40 at 20.00 on an order of 100 ends Filled, with nothing open and an average of 14.00. |
| Fills.FillThenBustScenario | src/main/java/org/fiximulator/core/FIXimulatorApplication.java:400-421 | 50 at 10.00 on an order of 100, then busted, gives 100 open, 0 executed, average 0, New. |
| Fills.FillThenCorrectScenario | src/main/java/org/fiximulator/core/FIXimulatorApplication.java:431-461 | 50 at 10.00 on an order of 100, corrected to 50 at 12.00, gives 50 executed at 12.00 with 50 open, PartiallyFilled. |
| Slicing.Pow10 | src/main/java/org/fiximulator/core/FIXimulatorApplication.java:686 | `Math.pow(10, precision)` is positive, and at least 1 for a non-negative precision. |
| Slicing.RoundHalfUp | src/main/java/org/fiximulator/core/FIXimulatorApplication.java:687 | `Math.round` returns the integer within half a unit of its argument, with halves going up. |
| Slicing.RoundToPrecision | src/main/java/org/fiximulator/core/FIXimulatorApplication.java:686-687 | The result lies on the grid of steps `1 / factor` and within half a step, `0.5 / factor`, of the exact value. |
| Slicing.SliceSize | src/main/java/org/fiximulator/core/FIXimulatorApplication.java:660-676 | The slice size is at least 1 for a non-negative order, exactly 1 when the order is smaller than the number of partials, and otherwise the largest size of which `partials` slices fit in the order. |
| Slicing.Vwap | src/main/java/org/fiximulator/core/FIXimulatorApplication.java:682-684 | The unrounded slice average is the price whose product with the total shares equals the prior executions' value plus the slice's value. |
| Slicing.SliceAverage | src/main/java/org/fiximulator/core/FIXimulatorApplication.java:680-687 | The average a slice reports lies on the precision grid and within half a grid step of the exact volume-weighted average. |
| Slicing.Slice | src/main/java/org/fiximulator/core/FIXimulatorApplication.java:678-707 | One iteration. An order with nothing open is left alone with no report. Otherwise exactly one report is emitted, moving its shares from open to executed. It is the completing Fill iff this is the last iteration or the slice size covers the open quantity, and then nothing stays open. Otherwise it is a PartialFill of exactly the slice size and the order is PartiallyFilled. The new average is `SliceAverage` computed with the slice size before any clamping to the open quantity. The report is new, at the slice price, with leaves equal to the new open and cumulative equal to ordered minus leaves. |
| Slicing.Work | src/main/java/org/fiximulator/core/FIXimulatorApplication.java:677-712 | The loop's iterations `i` to `partials - 1`, as a recursive function: the ordered quantity is kept, the slice size stays at least 1, at most one report is emitted per remaining iteration, and one execution id is used per report. |
| Slicing.WorkIdle | src/main/java/org/fiximulator/core/FIXimulatorApplication.java:677-679 | Once nothing is open, the remaining iterations change nothing and report nothing. |
| Slicing.WorkCompletes | src/main/java/org/fiximulator/core/FIXimulatorApplication.java:677-712 | Working an order with shares open ends it Filled with nothing open and everything that was open executed. It does this in at least one and at most one report per remaining iteration, and the report ids are consumed one each. |
| Slicing.WorkExecutesOpenQuantity | src/main/java/org/fiximulator/core/FIXimulatorApplication.java:677-712 | The shares of the reports add up to exactly the quantity that was open. |
| Slicing.WorkReports | src/main/java/org/fiximulator/core/FIXimulatorApplication.java:689-706 | The last report is the completing Fill and all earlier ones are PartialFills. Every report is new, at the slice price, for the worked order, with cumulative equal to ordered minus leaves, and ids are consecutive. |
| Slicing.RoundOnGrid | src/main/java/org/fiximulator/core/FIXimulatorApplication.java:667-668 | A price on the precision grid, such as the random fallback price always is, is unchanged by rounding to that precision. |
| Slicing.AverageAtOnePrice | src/main/java/org/fiximulator/core/FIXimulatorApplication.java:682-684 | Averaging more shares at the price all prior shares were executed at (or onto no prior shares) gives that price. |
| Slicing.SliceAverageAtOnePrice | src/main/java/org/fiximulator/core/FIXimulatorApplication.java:680-687 | The same holds for the rounded average of a slice when the price is on the precision grid. |
| Slicing.WorkAtOnePrice | src/main/java/org/fiximulator/core/FIXimulatorApplication.java:677-712 | For an order with no prior executions, or all at the slice price, and a price on the grid, every report carries that price as its average, and so does the order afterwards. |
| Slicing.EvenSlicesScenario | src/main/java/org/fiximulator/core/FIXimulatorApplication.java:657-713 | An untouched order of 100 in 4 partials at 10.00 ends Filled with 100 executed at an average of exactly 10.00, in exactly 4 reports of 25 shares, each at 10.00. |
| Lifecycle.Application.constructor | src/main/java/org/fiximulator/core/FIXimulatorApplication.java:82-89 | The application starts with empty order and execution registries, an empty fill queue and the worker not started. |
| Lifecycle.Application.NewReport | src/main/java/org/fiximulator/core/FIXimulatorApplication.java:248 | `new Execution(order)` in the status operations: the report `Records.Report` describes with the next id, and the id counter advances by one. |
| Lifecycle.Application.SendExecution | src/main/java/org/fiximulator/core/FIXimulatorApplication.java:578 | Every report sent is appended to the execution registry, in emission order. |
| Lifecycle.Application.Acknowledge | src/main/java/org/fiximulator/core/FIXimulatorApplication.java:247-256 | The order becomes New and its new-order flag is cleared; nothing else about it changes. One New report snapshotting the order is appended, with the next execution id. |
| Lifecycle.Application.Reject | src/main/java/org/fiximulator/core/FIXimulatorApplication.java:258-267 | The order becomes Rejected and its new-order flag is cleared. One Rejected report is appended. |
| Lifecycle.Application.DoneForDay | src/main/java/org/fiximulator/core/FIXimulatorApplication.java:269-279 | The order becomes DoneForDay and no pending flag changes. One DoneForDay report is appended. |
| Lifecycle.Application.PendingCancel | src/main/java/org/fiximulator/core/FIXimulatorApplication.java:281-292 | The order becomes PendingCancel and its cancel flag is cleared. One PendingCancel report is appended. |
| Lifecycle.Application.Cancel | src/main/java/org/fiximulator/core/FIXimulatorApplication.java:294-305 | The order becomes Canceled and its cancel flag is cleared. One Canceled report is appended. |
| Lifecycle.Application.RejectCancelReplace | src/main/java/org/fiximulator/core/FIXimulatorApplication.java:307-342 | Both the cancel and the replace flags are cleared. An Unknown status becomes New and any other status stays. The reject carries the order's status and answers the cancel or the replace request as asked. The execution registry is untouched. |
| Lifecycle.Application.PendingReplace | src/main/java/org/fiximulator/core/FIXimulatorApplication.java:344-355 | The order becomes PendingReplace and its replace flag is cleared. One PendingReplace report is appended. |
| Lifecycle.Application.Replace | src/main/java/org/fiximulator/core/FIXimulatorApplication.java:357-368 | The order becomes Replaced and its replace flag is cleared. One Replace report is appended. |
| Lifecycle.Application.Execute | src/main/java/org/fiximulator/core/FIXimulatorApplication.java:370-398 | The order is updated exactly as `AfterFill` says. The execution is appended as a new PartialFill or Fill, depending on the fill against the open quantity, with the order's new leaves, cumulative and average. |
| Lifecycle.Application.Bust | src/main/java/org/fiximulator/core/FIXimulatorApplication.java:400-429 | The order is updated exactly as `AfterBust` says, so a partial bust sets the open quantity to the remaining executed quantity, as line 408 does (see Findings). A copy of the execution is appended with a fresh id, referring to the busted one, with transaction type Cancel and the order's new leaves, cumulative and average. |
| Lifecycle.Application.FindExecution | src/main/java/org/fiximulator/core/FIXimulatorApplication.java:433 | Registry lookup by id. It returns the position of the first report with that id, or None iff no report has it. |
| Lifecycle.Application.Correct | src/main/java/org/fiximulator/core/FIXimulatorApplication.java:431-470 | When an execution with the referenced id is registered, the first such report is the original: the order is updated exactly as `AfterCorrect` says with that execution's shares and price, and the correction is appended as a Correct report. When it is missing, nothing changes and the result says so. |
| Lifecycle.Application.OnDontKnowTrade | src/main/java/org/fiximulator/core/FIXimulatorApplication.java:180-191 | The first report with the given id gets its DK flag set and nothing else changes. Without an id, or with an unregistered id, the registry is unchanged. |
| Lifecycle.Application.AddOrder | src/main/java/org/fiximulator/core/FIXimulatorApplication.java:113-117 | The order is appended to the order registry, and to the worker's queue only when asked. |
| Lifecycle.Application.OnNewOrderSingle | src/main/java/org/fiximulator/core/FIXimulatorApplication.java:108-126 | The new order is always registered. While the worker runs it is also queued and left untouched. Otherwise it is acknowledged (New, flag cleared, one ack report) iff auto-acknowledge is on, and otherwise stays Unknown with its new-order flag set. |
| Lifecycle.Application.OnOrderCancelRequest | src/main/java/org/fiximulator/core/FIXimulatorApplication.java:129-147 | The order is registered and never queued. With the two settings read as `ReadBoolPair` says, a PendingCancel report and then a Canceled report are appended as enabled. The final status is Canceled, PendingCancel or Unknown, and the cancel flag stays set only if neither ran. |
| Lifecycle.Application.OnOrderCancelReplaceRequest | src/main/java/org/fiximulator/core/FIXimulatorApplication.java:150-168 | The same for a cancel/replace request, with PendingReplace and Replace. |
| Lifecycle.Application.StartExecutor | src/main/java/org/fiximulator/core/FIXimulatorApplication.java:619-624 | Creating the worker marks it started. |
| Lifecycle.Application.StopExecutor | src/main/java/org/fiximulator/core/FIXimulatorApplication.java:645-647 | Stopping the worker clears the started flag. |
| Lifecycle.Application.UpdateOrder | src/main/java/org/fiximulator/core/FIXimulatorApplication.java:727-733 | The order's open, executed, average and status become the given values and its ordered quantity is kept. |
| Lifecycle.Application.CreateExecution | src/main/java/org/fiximulator/core/FIXimulatorApplication.java:715-725 | A new report for one slice with the next id. Its leaves is the order's open quantity and its cumulative is ordered minus open; it carries the slice's shares, price and average. |
| Lifecycle.Application.FillSlice | src/main/java/org/fiximulator/core/FIXimulatorApplication.java:678-707 | One loop iteration changes the order, the id counter, the carried slice size and the registry exactly as `Slice` says. |
| Lifecycle.Application.ExecutorFill | src/main/java/org/fiximulator/core/FIXimulatorApplication.java:657-713 | With no partials nothing changes. Otherwise the order and registry end exactly as `Work` says, starting from `SliceSize` at precision `Pow10` of the setting (default 4). An order with shares open ends Filled with all of them executed, in 1 to `partials` new reports whose shares add up to what was open. A fresh order priced on the grid is reported at that price on every slice. |
| ActivityLog.Trim | src/main/java/org/fiximulator/core/LogMessageSet.java:41-43 | The eviction loop keeps exactly the last `min(size, limit)` entries, in their order. |
| ActivityLog.LogMessageSet.constructor | src/main/java/org/fiximulator/core/LogMessageSet.java:25-27 | The log starts empty with index 0. |
| ActivityLog.LogMessageSet.Add | src/main/java/org/fiximulator/core/LogMessageSet.java:29-46 | The index advances by one, and the entry with that index is appended and then trimmed to the capacity (the setting narrowed to int, 50 when unreadable). A negative capacity empties the log and fails. Indices stay positive and strictly increasing. |
| ActivityLog.LogMessageSet.Evict | src/main/java/org/fiximulator/core/LogMessageSet.java:41-43 | The eviction loop leaves exactly `Trim` of the log for a non-negative limit. A negative limit empties the log and fails. Index order is kept either way. |
| ActivityLog.LogMessageSet.GetMessage | src/main/java/org/fiximulator/core/LogMessageSet.java:48-50 | Returns the entry at a position iff the position is in range. |
| ActivityLog.LogMessageSet.GetCount | src/main/java/org/fiximulator/core/LogMessageSet.java:52-54 | Returns the number of entries held. |
| ActivityLog.AddKeepsNewestWithinLimit | src/main/java/org/fiximulator/core/LogMessageSet.java:36-43 | After an add with a non-negative capacity, the log holds `min(old size + 1, capacity)` entries, never more than the capacity. They are a suffix of the old log plus the new entry, so only the oldest were evicted, and the new entry is last when the capacity is at least 1. |

## Left out

- Building and sending FIX messages (`sendMessage`, the field-by-field report in `sendExecution`, `Session.sendToTarget`), the logon, logout and admin callbacks, and `saveSettings`. They are transport and persistence. Only the registry append of `sendExecution` is modelled.
- The worker thread (`Executor.run`, `Thread.sleep`, interrupts, `join`) and any concurrency between the inbound handler and the worker. The model is sequential. `StartExecutor` and `StopExecutor` only set the started flag, and the queue pop and acknowledge of `run` are not modelled.
- `setNewExecutorDelay`, `setNewExecutorPartials` and the pacing delay: they only affect timing. `partials` is a parameter of `ExecutorFill`.
- The quote service and the random fallback price: external and random. The fill price is a parameter; `Slicing.RoundOnGrid` states what holds for the random price, which is always on the grid.
- The UI hooks (`orders.update()`, `executions.update()`, status icons, `MessageTableModel`): notification only.
- `Order`, `Execution`, `OrderSet` and `ExecutionSet` are not part of this model, because their source is absent. The model assumes the following:
  - `new Order(message)` yields the order state of `Records.Order.constructor`;
  - `new Execution(order)` takes the next id and snapshots the order's leaves, cumulative and average, with no shares, no price and no reference;
  - `clone` on a bust takes a fresh id, refers back to the busted report and is not DK'd;
  - `getExecution` finds the first report with the id.
- The inbound request's symbol, side, identifiers and other fields: only the ordered quantity matters to the lifecycle.
- Lifecycle.Application.Execute: requires a nonzero executed-plus-fill total. Java divides by zero there and stores NaN, +Infinity or -Infinity as the average, depending on the numerator.
- Lifecycle.Application.Correct: requires a nonzero corrected total, for the same reason.
- Lifecycle.Application.ExecutorFill: requires a non-negative ordered and executed quantity. Otherwise the average's denominator could be zero.
- ActivityLog.LogMessageSet.Add: the log message index is an unbounded integer. The source's `int` wraps around after 2^31 - 1 messages.
- Executions are values here. `execute` and `correct` update the caller's `Execution` object in place before sending it, and a don't-know-trade sets the flag on the object held in the registry. The model changes only the appended copy, or the first matching registry entry, so aliasing of execution objects is not captured.
- `LogMessage` construction from a FIX message and its data dictionary: the entry keeps the text and session as given.
- Doubles: quantities are integers and prices exact reals, so floating-point rounding in the averages is not modelled. The one explicit rounding, to the price precision, is modelled exactly.

Places where the source's behaviour is questionable, and how the model treats each:

- a partial bust sets the open quantity to the remaining executed quantity. `Fills.AfterBust` and `Lifecycle.Application.Bust` model that as written; `Fills.BustKeepingBalance` is the corrected bust (see Findings);
- `correct` applies the correction with no guard against a missing original, so the model reports a lookup miss as `None` with no change, where the code fails;
- a don't-know-trade for an unknown id changes nothing;
- an unreadable first setting in the cancel and replace handlers also disables the second;
- a bust is meant to undo the fill it refers to. That holds when everything executed is busted (`Fills.FillThenBustRestores`); with the source's partial bust it holds only for the corrected bust (`Fills.FillThenBustKeepingBalanceRestores`).

## Findings

| source | as written | input that shows it | evidently intended | confidence | as-written member | corrected member |
|---|---|---|---|---|---|---|
| src/main/java/org/fiximulator/core/FIXimulatorApplication.java:408 | a partial bust sets the open quantity to the executed quantity minus the busted shares | 100 ordered, 80 executed, 20 open; bust a fill of 20: 60 executed and 60 open, 120 shares accounted for | open becomes the ordered quantity minus the new executed quantity (40), keeping `open + executed == quantity` | high, not executed | Fills.PartialBustExample | Fills.BustKeepingBalance |

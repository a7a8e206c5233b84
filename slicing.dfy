/**
 * The fulfillment worker's slicing loop (`Executor.fill`): it works one order to
 * completion in at most `partials` slices at a single price, emitting one fill
 * report per slice. `Work` is the loop written as a recursive function over the
 * remaining iterations; the engine's loop is proved to do exactly what it says.
 */
module Slicing {
  import opened Options
  import opened Records

  /** `Math.pow(10, p)` for the integer price precision `p`. */
  function Pow10(p: int): (r: real)
    ensures r > 0.0
    ensures p >= 0 ==> r >= 1.0
    decreases if p < 0 then -p else p
  {
    if p == 0 then 1.0
    else if p > 0 then 10.0 * Pow10(p - 1)
    else Pow10(p + 1) / 10.0
  }

  /** `Math.round`: the nearest integer, with halves rounded up. */
  function RoundHalfUp(x: real): (r: int)
    ensures x - 0.5 < r as real <= x + 0.5
  {
    (x + 0.5).Floor
  }

  /** A price that is a whole number of steps `1 / factor`. */
  predicate OnGrid(x: real, factor: real) {
    (x * factor).Floor as real == x * factor
  }

  /** `Math.round(x * factor) / factor`: `x` rounded to the grid of steps `1 / factor`. */
  function RoundToPrecision(x: real, factor: real): (r: real)
    requires factor > 0.0
    ensures OnGrid(r, factor)
    ensures x - 0.5 / factor < r <= x + 0.5 / factor
  {
    var n := RoundHalfUp(x * factor);
    assert (x * factor - 0.5) / factor == x - 0.5 / factor;
    assert (x * factor + 0.5) / factor == x + 0.5 / factor;
    var r := n as real / factor;
    assert r * factor == n as real;
    assert (r * factor).Floor as real == r * factor;
    assert OnGrid(r, factor);
    r
  }

  /**
   * The slice size: `floor(quantity / partials)`, raised to 1 when that is 0.
   * For a non-negative order it is the largest size of which `partials` slices
   * do not exceed the order, or 1 for an order smaller than `partials`.
   */
  function SliceSize(quantity: int, partials: int): (r: int)
    requires partials > 0
    ensures quantity >= 0 ==> r >= 1
    ensures 0 <= quantity < partials ==> r == 1
    ensures quantity >= partials ==> r * partials <= quantity < (r + 1) * partials
  {
    var q := quantity / partials;
    if q == 0 then 1 else q
  }

  /**
   * The average price after a slice, as the loop computes it: the
   * volume-weighted average of the prior executions and a slice of `fillQty`
   * shares at `price`, rounded to the price precision.
   */
  function SliceAverage(priorQty: int, priorAvg: real, fillQty: int, price: real, factor: real): (r: real)
    requires priorQty + fillQty != 0 && factor > 0.0
    ensures OnGrid(r, factor)
    ensures Vwap(priorQty, priorAvg, fillQty, price) - 0.5 / factor < r <= Vwap(priorQty, priorAvg, fillQty, price) + 0.5 / factor
  {
    RoundToPrecision(Vwap(priorQty, priorAvg, fillQty, price), factor)
  }

  /** The unrounded volume-weighted average of `priorQty` shares at `priorAvg` and `fillQty` at `price`. */
  function Vwap(priorQty: int, priorAvg: real, fillQty: int, price: real): (r: real)
    requires priorQty + fillQty != 0
    ensures r * (priorQty + fillQty) as real == fillQty as real * price + priorQty as real * priorAvg
  {
    (fillQty as real * price + priorQty as real * priorAvg) / (priorQty + fillQty) as real
  }

  /** The loop's state between iterations: the order, the current slice size and the next execution id. */
  datatype Progress = Progress(state: OrderState, fillQty: int, nextId: nat)

  /** What the loop needs to keep its average-price denominators positive. */
  predicate Workable(p: Progress) {
    p.fillQty >= 1 && p.state.executed >= 0
  }

  /**
   * One iteration of the loop. An order with nothing open is left alone.
   * Otherwise the new average price is computed with the CURRENT slice size and
   * rounded; then the slice is sent as a partial fill when it is smaller than the
   * open quantity and this is not the last iteration, and otherwise the slice is
   * clamped to the open quantity and sent as the fill that completes the order.
   */
  function Slice(o: Order, p: Progress, price: real, factor: real, last: bool): (r: (Progress, seq<Execution>))
    requires factor > 0.0 && Workable(p)
    ensures Workable(r.0) && r.0.state.quantity == p.state.quantity
    ensures p.state.open <= 0 ==> r == (p, [])
    ensures p.state.open > 0 ==> |r.1| == 1 && SliceReported(o, p, r.0, r.1[0], price, last)
    ensures p.state.open > 0 ==>
      && (r.1[0].execType == ExecType.Fill <==> (last || p.fillQty >= p.state.open))
      && (r.1[0].execType == ExecType.PartialFill ==>
            r.1[0].lastShares == p.fillQty && r.0.state.status == OrdStatus.PartiallyFilled)
      && r.0.state.avgPx == SliceAverage(p.state.executed, p.state.avgPx, p.fillQty, price, factor)
  {
    var s := p.state;
    if s.open <= 0 then (p, [])
    else
      var avg := SliceAverage(s.executed, s.avgPx, p.fillQty, price, factor);
      var partial := p.fillQty < s.open && !last;
      var qty := if partial then p.fillQty else s.open;
      var status := if partial then OrdStatus.PartiallyFilled else OrdStatus.Filled;
      var execType := if partial then ExecType.PartialFill else ExecType.Fill;
      var s' := OrderState(s.quantity, s.open - qty, s.executed + qty, avg, status);
      var e := Execution(p.nextId, o, execType, ExecTransType.New, qty, price,
                         s'.open, s'.quantity - s'.open, avg, None, false);
      (Progress(s', qty, p.nextId + 1), [e])
  }

  /**
   * What one slice of an order with shares open does: report `e` executes
   * `e.lastShares` more shares, taken off the open quantity; it is the
   * completing fill exactly when nothing stays open, which the last iteration
   * always ensures; it is a new report at the slice price whose leaves quantity is
   * the order's new open quantity and whose cumulative quantity is the ordered
   * quantity minus that.
   */
  ghost predicate SliceReported(o: Order, p: Progress, q: Progress, e: Execution, price: real, last: bool) {
    && q.state.open == p.state.open - e.lastShares
    && q.state.executed == p.state.executed + e.lastShares
    && q.fillQty == e.lastShares
    && q.state.open >= 0
    && (e.execType == ExecType.Fill <==> q.state.open == 0)
    && (e.execType == ExecType.Fill || e.execType == ExecType.PartialFill)
    && (q.state.status == OrdStatus.Filled <==> e.execType == ExecType.Fill)
    && (last ==> e.execType == ExecType.Fill)
    && e.execTransType == ExecTransType.New && e.lastPx == price && e.order == o
    && e.leavesQty == q.state.open && e.cumQty == p.state.quantity - e.leavesQty
    && e.avgPx == q.state.avgPx && e.refId == None && !e.dk
    && e.id == p.nextId && q.nextId == p.nextId + 1
  }

  /** The slice of an order with shares open, spelled out for the loop's proof. */
  lemma SliceOpen(o: Order, p: Progress, price: real, factor: real, last: bool)
    requires factor > 0.0 && Workable(p) && p.state.open > 0
    ensures var s := p.state;
      var avg := SliceAverage(s.executed, s.avgPx, p.fillQty, price, factor);
      var partial := p.fillQty < s.open && !last;
      var qty := if partial then p.fillQty else s.open;
      var execType := if partial then ExecType.PartialFill else ExecType.Fill;
      var s' := OrderState(s.quantity, s.open - qty, s.executed + qty, avg,
                           if partial then OrdStatus.PartiallyFilled else OrdStatus.Filled);
      Slice(o, p, price, factor, last) == (Progress(s', qty, p.nextId + 1),
        [Execution(p.nextId, o, execType, ExecTransType.New, qty, price, s'.open, s'.quantity - s'.open, avg, None, false)])
  {
  }

  /** Iterations `i` to `partials - 1` of the loop: the final progress and the reports emitted, in order. */
  function Work(o: Order, p: Progress, price: real, factor: real, i: int, partials: int): (r: (Progress, seq<Execution>))
    requires factor > 0.0 && Workable(p)
    ensures Workable(r.0) && r.0.state.quantity == p.state.quantity
    ensures r.0.nextId == p.nextId + |r.1|
    ensures |r.1| <= if i < partials then partials - i else 0
    decreases partials - i
  {
    if i >= partials then (p, [])
    else
      var step := Slice(o, p, price, factor, i == partials - 1);
      var rest := Work(o, step.0, price, factor, i + 1, partials);
      (rest.0, step.1 + rest.1)
  }

  /** The number of shares a run of reports executes. */
  function TotalShares(reports: seq<Execution>): int {
    if reports == [] then 0 else reports[0].lastShares + TotalShares(reports[1..])
  }

  /** Once nothing is open, the remaining iterations only wait: no state change, no report. */
  lemma {:induction false} WorkIdle(o: Order, p: Progress, price: real, factor: real, i: int, partials: int)
    requires factor > 0.0 && Workable(p) && p.state.open <= 0
    ensures Work(o, p, price, factor, i, partials) == (p, [])
    decreases partials - i
  {
    if i < partials {
      var step := Slice(o, p, price, factor, i == partials - 1);
      WorkIdle(o, p, price, factor, i + 1, partials);
      assert step.1 + Work(o, step.0, price, factor, i + 1, partials).1 == [];
    }
  }

  /**
   * Working an order with shares open, with at least one iteration left, fills
   * it completely: the order ends Filled with nothing open and everything that
   * was open executed, one report per slice, at most one per remaining
   * iteration, with consecutive ids.
   */
  lemma {:induction false} WorkCompletes(o: Order, p: Progress, price: real, factor: real, i: int, partials: int)
    requires factor > 0.0 && Workable(p) && i < partials && p.state.open > 0
    ensures var (done, rs) := Work(o, p, price, factor, i, partials);
      && done.state.open == 0
      && done.state.status == OrdStatus.Filled
      && done.state.quantity == p.state.quantity
      && done.state.executed == p.state.executed + p.state.open
      && 1 <= |rs| <= partials - i
      && done.nextId == p.nextId + |rs|
    decreases partials - i
  {
    var step := Slice(o, p, price, factor, i == partials - 1);
    if step.0.state.open == 0 {
      WorkIdle(o, step.0, price, factor, i + 1, partials);
    } else {
      WorkCompletes(o, step.0, price, factor, i + 1, partials);
    }
  }

  /** The shares the reports execute add up to exactly the quantity that was open. */
  lemma {:induction false} WorkExecutesOpenQuantity(o: Order, p: Progress, price: real, factor: real, i: int, partials: int)
    requires factor > 0.0 && Workable(p) && i < partials && p.state.open > 0
    ensures TotalShares(Work(o, p, price, factor, i, partials).1) == p.state.open
    decreases partials - i
  {
    var step := Slice(o, p, price, factor, i == partials - 1);
    var rest := Work(o, step.0, price, factor, i + 1, partials);
    var rs := step.1 + rest.1;
    assert rs[1..] == rest.1;
    if step.0.state.open == 0 {
      WorkIdle(o, step.0, price, factor, i + 1, partials);
    } else {
      WorkExecutesOpenQuantity(o, step.0, price, factor, i + 1, partials);
    }
  }

  /**
   * The reports of a worked order: all but the last are partial fills and the
   * last is the completing fill; each is a new report at the slice price whose
   * cumulative quantity is the ordered quantity minus the quantity it leaves
   * open, and their ids are consecutive.
   */
  lemma {:induction false} WorkReports(o: Order, p: Progress, price: real, factor: real, i: int, partials: int)
    requires factor > 0.0 && Workable(p) && i < partials && p.state.open > 0
    ensures var rs := Work(o, p, price, factor, i, partials).1;
      && |rs| >= 1
      && rs[|rs| - 1].execType == ExecType.Fill
      && (forall k :: 0 <= k < |rs| - 1 ==> rs[k].execType == ExecType.PartialFill)
      && (forall k :: 0 <= k < |rs| ==>
            && rs[k].execTransType == ExecTransType.New && rs[k].lastPx == price && rs[k].order == o
            && rs[k].cumQty == p.state.quantity - rs[k].leavesQty && rs[k].id == p.nextId + k)
    decreases partials - i
  {
    var step := Slice(o, p, price, factor, i == partials - 1);
    var rest := Work(o, step.0, price, factor, i + 1, partials);
    var rs := step.1 + rest.1;
    if step.0.state.open == 0 {
      WorkIdle(o, step.0, price, factor, i + 1, partials);
      assert rs == step.1;
    } else {
      WorkReports(o, step.0, price, factor, i + 1, partials);
      forall k | 1 <= k < |rs|
        ensures rs[k] == rest.1[k - 1]
      {
      }
    }
  }

  lemma RoundOnGrid(x: real, factor: real)
    requires factor > 0.0 && OnGrid(x, factor)
    ensures RoundToPrecision(x, factor) == x
  {
    var n := (x * factor).Floor;
    assert n as real <= x * factor + 0.5 < n as real + 1.0;
    assert RoundHalfUp(x * factor) == n;
    assert n as real / factor == x * factor / factor == x;
  }

  /** Averaging in more shares at the price everything so far was executed at gives that price. */
  lemma AverageAtOnePrice(executed: int, avgPx: real, qty: int, price: real)
    requires executed + qty != 0 && (executed == 0 || avgPx == price)
    ensures Vwap(executed, avgPx, qty, price) == price
  {
    assert qty as real * price + executed as real * avgPx == price * (executed + qty) as real;
  }

  /** The same for the rounded average a slice reports, when the price is on the precision grid. */
  lemma SliceAverageAtOnePrice(executed: int, avgPx: real, qty: int, price: real, factor: real)
    requires executed + qty != 0 && (executed == 0 || avgPx == price)
    requires factor > 0.0 && OnGrid(price, factor)
    ensures SliceAverage(executed, avgPx, qty, price, factor) == price
  {
    AverageAtOnePrice(executed, avgPx, qty, price);
    RoundOnGrid(price, factor);
    assert SliceAverage(executed, avgPx, qty, price, factor) == RoundToPrecision(Vwap(executed, avgPx, qty, price), factor);
  }

  /**
   * Working an order whose executions so far (if any) are at the slice price,
   * with a price on the precision grid, reports that price as the average on
   * every slice and leaves it as the order's average price.
   */
  lemma {:induction false} WorkAtOnePrice(o: Order, p: Progress, price: real, factor: real, i: int, partials: int)
    requires factor > 0.0 && Workable(p) && OnGrid(price, factor)
    requires p.state.executed == 0 || p.state.avgPx == price
    ensures var (done, rs) := Work(o, p, price, factor, i, partials);
      && (forall k :: 0 <= k < |rs| ==> rs[k].avgPx == price)
      && (|rs| > 0 ==> done.state.avgPx == price)
    decreases partials - i
  {
    if i < partials && p.state.open > 0 {
      SliceAverageAtOnePrice(p.state.executed, p.state.avgPx, p.fillQty, price, factor);
      var step := Slice(o, p, price, factor, i == partials - 1);
      SliceOpen(o, p, price, factor, i == partials - 1);
      WorkAtOnePrice(o, step.0, price, factor, i + 1, partials);
      var rest := Work(o, step.0, price, factor, i + 1, partials);
      var rs := step.1 + rest.1;
      forall k | 0 <= k < |rs|
        ensures rs[k].avgPx == price
      {
        if k > 0 {
          assert rs[k] == rest.1[k - 1];
        }
      }
      assert step.0.state.avgPx == price;
      if step.0.state.open == 0 {
        WorkIdle(o, step.0, price, factor, i + 1, partials);
      } else if i + 1 < partials {
        WorkCompletes(o, step.0, price, factor, i + 1, partials);
      }
    } else if i < partials {
      WorkIdle(o, p, price, factor, i, partials);
    }
  }
  /**
   * An untouched order of 100 worked in 4 slices at 10.00 with 4 decimals of
   * precision: it ends Filled with all 100 shares executed at an average of
   * exactly 10.00, in exactly 4 reports of 25 shares, each reporting that average.
   */
  lemma EvenSlicesScenario(o: Order, nextId: nat)
    ensures var start := Progress(OrderState(100, 100, 0, 0.0, OrdStatus.New), SliceSize(100, 4), nextId);
      var (done, rs) := Work(o, start, 10.0, Pow10(4), 0, 4);
      && done.state == OrderState(100, 0, 100, 10.0, OrdStatus.Filled)
      && |rs| == 4
      && (forall k :: 0 <= k < |rs| ==> rs[k].lastShares == 25 && rs[k].avgPx == 10.0)
  {
    var f := Pow10(4);
    var start := Progress(OrderState(100, 100, 0, 0.0, OrdStatus.New), SliceSize(100, 4), nextId);
    assert f == 10000.0;
    assert OnGrid(10.0, 10000.0);
    WorkCompletes(o, start, 10.0, f, 0, 4);
    WorkAtOnePrice(o, start, 10.0, f, 0, 4);
    var s0 := Slice(o, start, 10.0, f, false);
    var s1 := Slice(o, s0.0, 10.0, f, false);
    var s2 := Slice(o, s1.0, 10.0, f, false);
    var s3 := Slice(o, s2.0, 10.0, f, true);
    assert Work(o, s3.0, 10.0, f, 4, 4) == (s3.0, []);
    assert Work(o, start, 10.0, f, 0, 4).1 == s0.1 + s1.1 + s2.1 + s3.1;
  }
}

/**
 * The quantity and price arithmetic of the lifecycle engine, on order values:
 * applying a fill, busting (reversing) a fill and correcting (amending) a fill.
 * The engine's methods are proved to update an order exactly as these functions
 * say; the round trips between fill, bust and correct are proved here.
 */
module Fills {
  import opened Records

  /**
   * `execute`: a fill of `qty` shares at `px`. A fill smaller than the open
   * quantity leaves the order partially filled; any other fill closes it, and an
   * over-fill is clamped to an open quantity of zero rather than refused.
   */
  function AfterFill(s: OrderState, qty: int, px: real): (r: OrderState)
    requires s.executed + qty != 0
    ensures r.quantity == s.quantity
    ensures r.executed == s.executed + qty
    ensures Notional(r) == Notional(s) + qty as real * px
    ensures r.status == OrdStatus.Filled <==> qty >= s.open
    ensures r.status == OrdStatus.Filled ==> r.open == 0
    ensures r.status != OrdStatus.Filled ==> r.status == OrdStatus.PartiallyFilled && 0 < r.open == s.open - qty
    ensures qty <= s.open ==> (Balanced(r) <==> Balanced(s))
  {
    var total := s.executed + qty;
    var avg := (s.avgPx * s.executed as real + px * qty as real) / total as real;
    assert avg * total as real == s.avgPx * s.executed as real + px * qty as real;
    if qty < s.open then
      OrderState(s.quantity, s.open - qty, total, avg, OrdStatus.PartiallyFilled)
    else
      OrderState(s.quantity, 0, total, avg, OrdStatus.Filled)
  }

  /**
   * `bust` as the source writes it. Busting at least everything executed resets
   * the order to new; a smaller bust takes the shares and their value back out
   * of the execution totals but sets the open quantity to the REMAINING EXECUTED
   * quantity, not to the ordered quantity minus it.
   */
  function AfterBust(s: OrderState, qty: int, px: real): (r: OrderState)
    ensures r.quantity == s.quantity
    ensures qty >= s.executed ==> r == OrderState(s.quantity, s.quantity, 0, 0.0, OrdStatus.New)
    ensures qty < s.executed ==>
      && r.executed == s.executed - qty
      && Notional(r) == Notional(s) - qty as real * px
      && r.status == OrdStatus.PartiallyFilled
      && r.open == r.executed
  {
    if qty < s.executed then
      var rest := s.executed - qty;
      var avg := (s.avgPx * s.executed as real - px * qty as real) / rest as real;
      assert avg * rest as real == s.avgPx * s.executed as real - px * qty as real;
      OrderState(s.quantity, rest, rest, avg, OrdStatus.PartiallyFilled)
    else
      OrderState(s.quantity, s.quantity, 0, 0.0, OrdStatus.New)
  }

  /**
   * `bust` with the open quantity that keeps `open + executed == quantity`: the
   * ordered quantity minus what stays executed, as `correct` computes it.
   */
  function BustKeepingBalance(s: OrderState, qty: int, px: real): (r: OrderState)
    ensures r.quantity == s.quantity && r.executed == AfterBust(s, qty, px).executed
    ensures r.avgPx == AfterBust(s, qty, px).avgPx && r.status == AfterBust(s, qty, px).status
    ensures Balanced(r)
  {
    var b := AfterBust(s, qty, px);
    b.(open := s.quantity - b.executed)
  }

  /**
   * `correct`: replace a prior fill of `oldQty` at `oldPx` by `newQty` at `newPx`.
   * The open quantity and status are recomputed from the ordered quantity, so a
   * correction leaves the order balanced unless the corrected total exceeds it.
   */
  function AfterCorrect(s: OrderState, oldQty: int, oldPx: real, newQty: int, newPx: real): (r: OrderState)
    requires s.executed - oldQty + newQty != 0
    ensures r.quantity == s.quantity
    ensures r.executed == s.executed - oldQty + newQty
    ensures Notional(r) == Notional(s) - oldQty as real * oldPx + newQty as real * newPx
    ensures r.status == OrdStatus.PartiallyFilled <==> r.executed < s.quantity
    ensures r.status != OrdStatus.PartiallyFilled ==> r.status == OrdStatus.Filled && r.open == 0
    ensures r.open >= 0
    ensures Balanced(r) <==> r.executed <= s.quantity
  {
    var total := s.executed - oldQty + newQty;
    var value := s.avgPx * s.executed as real - oldPx * oldQty as real + newPx * newQty as real;
    var avg := value / total as real;
    assert avg * total as real == value;
    if total < s.quantity then
      OrderState(s.quantity, s.quantity - total, total, avg, OrdStatus.PartiallyFilled)
    else
      OrderState(s.quantity, 0, total, avg, OrdStatus.Filled)
  }

  /** An acknowledged order with nothing executed yet. */
  predicate Untouched(s: OrderState) {
    s.open == s.quantity && s.executed == 0 && s.avgPx == 0.0 && s.status == OrdStatus.New
  }

  /** Filling an untouched new order and then busting that same fill gives back the original order. */
  lemma FillThenBustRestores(s: OrderState, qty: int, px: real)
    requires Untouched(s) && qty != 0
    ensures AfterBust(AfterFill(s, qty, px), qty, px) == s
  {
  }

  /**
   * Busting a fill made on top of earlier fills takes the order's executed
   * quantity and average price back to what they were before that fill, and,
   * with the open quantity that keeps the order balanced, its open quantity too.
   */
  lemma FillThenBustKeepingBalanceRestores(s: OrderState, qty: int, px: real)
    requires Balanced(s) && s.executed > 0 && 0 < qty <= s.open
    ensures var r := BustKeepingBalance(AfterFill(s, qty, px), qty, px);
      r.open == s.open && r.executed == s.executed && r.avgPx == s.avgPx
      && r.status == OrdStatus.PartiallyFilled
  {
    var f := AfterFill(s, qty, px);
    var r := AfterBust(f, qty, px);
    assert r.avgPx * s.executed as real == s.avgPx * s.executed as real;
  }

  /**
   * The source's partial bust breaks the balance of every balanced order except
   * when the remaining executed quantity is exactly half the order.
   */
  lemma PartialBustBalanceAsWritten(s: OrderState, qty: int, px: real)
    requires Balanced(s) && qty < s.executed
    ensures Balanced(AfterBust(s, qty, px)) <==> 2 * (s.executed - qty) == s.quantity
  {
  }

  /** The concrete case: 100 ordered, 80 executed; busting a fill of 20 leaves 60 executed AND 60 open. */
  lemma PartialBustExample()
    ensures var s := OrderState(100, 20, 80, 10.0, OrdStatus.PartiallyFilled);
      var r := AfterBust(s, 20, 10.0);
      Balanced(s) && r.executed == 60 && r.open == 60 && !Balanced(r)
      && Balanced(BustKeepingBalance(s, 20, 10.0)) && BustKeepingBalance(s, 20, 10.0).open == 40
  {
  }

  /**
   * Correcting a fill to other quantity and price leaves a balanced order exactly
   * as if the corrected fill had been the one executed.
   */
  lemma FillThenCorrectIsCorrectedFill(s: OrderState, qty: int, px: real, newQty: int, newPx: real)
    requires Balanced(s)
    requires s.executed + qty != 0 && s.executed + newQty != 0
    ensures AfterCorrect(AfterFill(s, qty, px), qty, px, newQty, newPx) == AfterFill(s, newQty, newPx)
  {
    var c := AfterCorrect(AfterFill(s, qty, px), qty, px, newQty, newPx);
    var f := AfterFill(s, newQty, newPx);
    var total := (s.executed + newQty) as real;
    assert c.avgPx * total == f.avgPx * total;
  }
  /** Two fills of 60 at 10.00 and 40 at 20.00 close an order of 100 at the weighted average 14.00. */
  lemma TwoFillsScenario()
    ensures var s := AfterFill(AfterFill(OrderState(100, 100, 0, 0.0, OrdStatus.New), 60, 10.0), 40, 20.0);
      s == OrderState(100, 0, 100, 14.0, OrdStatus.Filled)
  {
  }

  /** A fill of 50 at 10.00 on an order of 100, busted, leaves the order as it was: 100 open, New. */
  lemma FillThenBustScenario()
    ensures var s := OrderState(100, 100, 0, 0.0, OrdStatus.New);
      AfterBust(AfterFill(s, 50, 10.0), 50, 10.0) == s
  {
    FillThenBustRestores(OrderState(100, 100, 0, 0.0, OrdStatus.New), 50, 10.0);
  }

  /** A fill of 50 at 10.00 on an order of 100, corrected to 50 at 12.00: 50 executed at 12.00, still partially filled. */
  lemma FillThenCorrectScenario()
    ensures var s := OrderState(100, 100, 0, 0.0, OrdStatus.New);
      AfterCorrect(AfterFill(s, 50, 10.0), 50, 10.0, 50, 12.0) == OrderState(100, 50, 50, 12.0, OrdStatus.PartiallyFilled)
  {
  }
}

/** Admitting paper buys one at a time, with the ledger that books them. */
module Booking {
  import opened Wrappers
  import Intents
  import Ledger
  import Settle

  // ----- one worth -----------------------------------------------------------------------------

  /** What one raw unit is worth at a mark. */
  function UnitOf(decimals: nat, mark: Ledger.Price): real {
    mark.raw as real / Ledger.Pow10(decimals + mark.decimals)
  }

  lemma Divides(raw: int, price: int, scale: real)
    requires scale > 0.0
    ensures (raw * price) as real / scale == raw as real * (price as real / scale)
  {
    var quotient := price as real / scale;
    assert quotient * scale == price as real;
    assert (raw as real * quotient) * scale == raw as real * price as real;
  }

  /** An amount is worth to the ledger what its raw units are worth to the planner. */
  lemma OneWorth(amount: Ledger.Amount, mark: Ledger.Price)
    ensures Ledger.Worth(amount, mark) == Intents.Worth(amount.raw, UnitOf(amount.decimals, mark))
  {
    Divides(amount.raw, mark.raw, Ledger.Pow10(amount.decimals + mark.decimals));
  }

  // ----- fills as turns ------------------------------------------------------------------------

  /** What is being admitted: the orders, the cash asset with its decimals and mark, and each order's fill. */
  datatype Desk = Desk(orders: Settle.Orders, cash: Ledger.Asset, decimals: nat, mark: Ledger.Price,
                       fillOf: int -> Ledger.Event)

  /** The fill of a paper buy gives exactly what the order sells: cash, of the order's worth. */
  ghost predicate FillsAsOrdered(d: Desk, i: int) {
    var e := d.fillOf(i);
    && e.Fill? && Ledger.Formed(e) && e.cashAsset == e.gave.asset == d.cash
    && Ledger.Worth(e.gave, d.mark) == Settle.WorthOf(d.orders, i)
  }

  /** What the turns put into the ledger: a fill for each that fills, nothing for a refusal. */
  function EventsOf(d: Desk, turns: seq<Settle.Turn>): seq<Ledger.Event> {
    if turns == [] then []
    else (if turns[0].Fills? then [d.fillOf(turns[0].index)] else []) + EventsOf(d, turns[1..])
  }

  ghost predicate AllAsOrdered(d: Desk, turns: seq<Settle.Turn>) {
    forall k :: 0 <= k < |turns| && turns[k].Fills? ==> FillsAsOrdered(d, turns[k].index)
  }

  lemma {:induction false} EventsAreFormed(d: Desk, turns: seq<Settle.Turn>)
    requires AllAsOrdered(d, turns)
    ensures Ledger.AllFormed(EventsOf(d, turns))
  {
    if turns != [] {
      EventsAreFormed(d, turns[1..]);
      assert turns[0].Fills? ==> FillsAsOrdered(d, turns[0].index);
    }
  }

  function CashIn(d: Desk, w: Ledger.Walked): real {
    Ledger.CashHeld(w, d.cash, d.decimals, d.mark)
  }

  /** The booked cash the floor is judged on moves with the ledger's, turn by turn. */
  lemma {:induction false} LedgerFollows(d: Desk, st: Settle.Admission, turns: seq<Settle.Turn>, w: Ledger.Walked)
    requires AllAsOrdered(d, turns) && Ledger.AllFormed(EventsOf(d, turns)) && st.booked == CashIn(d, w)
    requires Ledger.FoldFrom(Ledger.QuantizedShare, w, EventsOf(d, turns)).Ok?
    ensures CashIn(d, Ledger.FoldFrom(Ledger.QuantizedShare, w, EventsOf(d, turns)).value)
         == Settle.After(d.orders, st, turns).booked
    decreases |turns|
  {
    if turns != [] {
      var rest := EventsOf(d, turns[1..]);
      var next := Settle.Next(d.orders, st, turns[0]);
      if turns[0].Fills? {
        assert FillsAsOrdered(d, turns[0].index);
        var e := d.fillOf(turns[0].index);
        assert EventsOf(d, turns) == [e] + rest && ([e] + rest)[1..] == rest;
        Ledger.FillMovesCash(Ledger.QuantizedShare, w, e, d.decimals, d.mark);
        LedgerFollows(d, next, turns[1..], Ledger.Step(Ledger.QuantizedShare, w, e).value);
      } else {
        assert EventsOf(d, turns) == rest;
        LedgerFollows(d, next, turns[1..], w);
      }
    }
  }

  /** Once the sells are done, the ledger's own cash at its mark is at or above the floor after any run of
      admitted buys that filled one, and no buy kept at first was dropped before its turn. */
  lemma LedgerKeepsFloor(d: Desk, floorUsd: Option<real>, st: Settle.Admission, turns: seq<Settle.Turn>,
                         w: Ledger.Walked)
    requires AllAsOrdered(d, turns) && Ledger.AllFormed(EventsOf(d, turns)) && st.booked == CashIn(d, w)
    requires Ledger.FoldFrom(Ledger.QuantizedShare, w, EventsOf(d, turns)).Ok?
    requires Settle.SellsDone(d.orders, st) && Settle.CostsNothingBelowZero(d.orders)
    requires Settle.AllowedRun(d.orders, floorUsd, st, turns)
    ensures var after := Ledger.FoldFrom(Ledger.QuantizedShare, w, EventsOf(d, turns)).value;
            && ((exists k :: 0 <= k < |turns| && turns[k].Fills?) ==>
                    floorUsd.Some? && CashIn(d, after) >= floorUsd.value)
            && (forall j :: j in Settle.KeptBuys(d.orders, floorUsd, st) ==>
                  j in Settle.KeptBuys(d.orders, floorUsd, Settle.After(d.orders, st, turns))
                  || exists k :: 0 <= k < |turns| && turns[k].index == j)
  {
    LedgerFollows(d, st, turns, w);
    Settle.AdmissionKeepsFloor(d.orders, floorUsd, st, turns);
  }
}

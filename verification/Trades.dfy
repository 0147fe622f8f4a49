/** What a plan trades of each asset, to the raw unit. */
module Trades {
  import opened Wrappers
  import opened Ordering
  import opened Intents
  import opened Sizing
  import opened PlanHolds
  import Aggregate
  import Gates
  import Settle

  // ----- one asset's orders --------------------------------------------------------------------

  predicate Is(i: Intent, side: Settle.Side, address: Address) { i.side == side && i.address == address }

  /** The orders of one side in one asset, in their order. */
  function Picked(orders: seq<Intent>, side: Settle.Side, address: Address): seq<Intent> {
    if orders == [] then []
    else
      var n := |orders| - 1;
      Picked(orders[..n], side, address) + if Is(orders[n], side, address) then [orders[n]] else []
  }

  lemma {:induction false} PickedAdds(a: seq<Intent>, b: seq<Intent>, side: Settle.Side, address: Address)
    ensures Picked(a + b, side, address) == Picked(a, side, address) + Picked(b, side, address)
  {
    if b == [] {
      assert a + b == a;
    } else {
      var n := |b| - 1;
      PickedAdds(a, b[..n], side, address);
      assert (a + b)[..|a + b| - 1] == a + b[..n] && (a + b)[|a + b| - 1] == b[n];
      var last := if Is(b[n], side, address) then [b[n]] else [];
      assert Picked(a, side, address) + (Picked(b[..n], side, address) + last)
          == (Picked(a, side, address) + Picked(b[..n], side, address)) + last;
    }
  }

  lemma {:induction false} PickedAll(orders: seq<Intent>, side: Settle.Side, address: Address)
    requires forall i :: i in orders ==> Is(i, side, address)
    ensures Picked(orders, side, address) == orders
  {
    if orders != [] {
      var n := |orders| - 1;
      assert orders[n] in orders;
      PickedAll(orders[..n], side, address);
    }
  }

  lemma {:induction false} PickedNone(orders: seq<Intent>, side: Settle.Side, address: Address)
    requires forall i :: i in orders ==> !Is(i, side, address)
    ensures Picked(orders, side, address) == []
  {
    if orders != [] {
      var n := |orders| - 1;
      assert orders[n] in orders;
      PickedNone(orders[..n], side, address);
    }
  }

  /** Every row's orders are of one side and in its own asset. */
  ghost predicate OwnOrders(ordersOf: Row -> seq<Intent>, side: Settle.Side) {
    forall r, i :: i in ordersOf(r) ==> Is(i, side, r.address)
  }

  lemma {:induction false} PickedBlocks(ordersOf: Row -> seq<Intent>, side: Settle.Side, rows: seq<Row>, row: Row)
    requires OwnOrders(ordersOf, side) && Distinct(rows)
    requires row in rows || forall r :: r in rows ==> r.address != row.address
    ensures Picked(Blocks(ordersOf, rows), side, row.address) == if row in rows then ordersOf(row) else []
    decreases |rows|
  {
    if rows != [] {
      var n := |rows| - 1;
      var last := rows[n];
      LastRow(rows, row);
      PickedBlocks(ordersOf, side, rows[..n], row);
      PickedAdds(Blocks(ordersOf, rows[..n]), ordersOf(last), side, row.address);
      if last.address == row.address {
        PickedAll(ordersOf(last), side, row.address);
      } else {
        PickedNone(ordersOf(last), side, row.address);
      }
    }
  }

  /** Of different rows, the last is the one of its address, or the one sought is before it. */
  lemma LastRow(rows: seq<Row>, row: Row)
    requires rows != [] && Distinct(rows) && (row in rows || forall r :: r in rows ==> r.address != row.address)
    ensures var n := |rows| - 1;
            && Distinct(rows[..n])
            && (rows[n].address == row.address ==>
                  row == rows[n] && row !in rows[..n] && forall r :: r in rows[..n] ==> r.address != row.address)
            && (rows[n].address != row.address ==>
                  (row in rows <==> row in rows[..n])
                  && (row in rows[..n] || forall r :: r in rows[..n] ==> r.address != row.address))
  {
    var n := |rows| - 1;
    forall r | r in rows[..n] ensures r.address != rows[n].address {
      var k :| 0 <= k < n && rows[k] == r;
    }
    assert rows == rows[..n] + [rows[n]];
    assert rows[n] in rows;
  }

  lemma {:induction false} NoneOfOtherSide(ordersOf: Row -> seq<Intent>, side: Settle.Side, other: Settle.Side,
                                           rows: seq<Row>, address: Address)
    requires OwnOrders(ordersOf, side) && side != other
    ensures Picked(Blocks(ordersOf, rows), other, address) == []
  {
    if rows != [] {
      var n := |rows| - 1;
      NoneOfOtherSide(ordersOf, side, other, rows[..n], address);
      PickedAdds(Blocks(ordersOf, rows[..n]), ordersOf(rows[n]), other, address);
      PickedNone(ordersOf(rows[n]), other, address);
    }
  }

  lemma SellsAreOwn(desk: Desk)
    requires TradesSomething(desk.limits)
    ensures OwnOrders(SellOrders(desk), Settle.Sell)
  {
    forall r, i | i in SellOrders(desk)(r) ensures Is(i, Settle.Sell, r.address) {
      RowOfOrder(desk, r, i);
    }
  }

  lemma BuysAreOwn(desk: Desk, unit: Unit, share: real)
    requires TradesSomething(desk.limits)
    ensures OwnOrders(BuyOrders(desk, unit, share), Settle.Buy)
  {
    forall r, i | i in BuyOrders(desk, unit, share)(r) ensures Is(i, Settle.Buy, r.address) {
      BuyOfRow(desk, unit, share, r, i);
    }
  }

  // ----- a move in parts -----------------------------------------------------------------------

  function SumOf(parts: seq<int>): int {
    if parts == [] then 0 else SumOf(parts[..|parts| - 1]) + parts[|parts| - 1]
  }

  /** Parts adding up to a total, none more than one above another, never growing along the list. */
  ghost predicate SharedOut(parts: seq<int>, total: int) {
    && SumOf(parts) == total
    && forall j, k :: 0 <= j <= k < |parts| ==> parts[k] <= parts[j] <= parts[k] + 1
  }

  predicate Covers(worthUsd: real, count: int, limit: real) { worthUsd <= count as real * limit }

  /** No fewer trades of at most the limit come to as much. */
  ghost predicate Fewest(worthUsd: real, count: int, limit: real) {
    Covers(worthUsd, count, limit) && forall c: nat :: Covers(worthUsd, c, limit) ==> count <= c
  }

  function PartsOf(total: int, count: int): seq<int> {
    if count <= 0 then [] else seq(count, k requires 0 <= k < count => EvenPart(total, count, k))
  }

  lemma {:induction false} PartsSum(total: int, count: int, n: nat)
    requires 0 < count && n <= count
    ensures SumOf(PartsOf(total, count)[..n]) == EvenSum(total, count, n)
  {
    if n > 0 {
      PartsSum(total, count, n - 1);
      assert PartsOf(total, count)[..n][..n - 1] == PartsOf(total, count)[..n - 1];
    }
  }

  lemma PartsAreShared(total: int, count: int)
    requires count > 0
    ensures SharedOut(PartsOf(total, count), total) && |PartsOf(total, count)| == count
  {
    var parts := PartsOf(total, count);
    PartsSum(total, count, count);
    assert parts[..count] == parts;
    EvenPartsAreEven(total, count);
    forall j, k | 0 <= j <= k < |parts| ensures parts[k] <= parts[j] <= parts[k] + 1 {
      assert parts[j] == EvenPart(total, count, j) && parts[k] == EvenPart(total, count, k);
    }
  }

  /** How many parts: none of what is worth less than the least order or nothing, else the fewest. */
  ghost predicate CountedParts(worthUsd: real, parts: seq<int>, limits: Gates.Limits) {
    && limits.maxTradeUsd.Some? && limits.minOrderUsd.Some?
    && (parts == [] <==> worthUsd < limits.minOrderUsd.value || worthUsd == 0.0)
    && (parts != [] ==> Fewest(worthUsd, |parts|, limits.maxTradeUsd.value))
  }

  lemma SplitCounts(worthUsd: real, total: int, limits: Gates.Limits, count: int)
    requires TradesSomething(limits) && Resolved(limits) && worthUsd >= 0.0 && count == SplitOf(worthUsd, limits)
    ensures CountedParts(worthUsd, PartsOf(total, count), limits) && count >= 0
  {
    if worthUsd >= limits.minOrderUsd.value {
      Gates.SplitIsFewest(worthUsd, limits, count);
      Gates.SplitIsFewest(worthUsd, limits, 0);
      forall c: nat | Covers(worthUsd, c, limits.maxTradeUsd.value) ensures count <= c {
        Gates.SplitIsFewest(worthUsd, limits, c);
      }
      Positive(count, limits.maxTradeUsd.value);
    }
  }

  lemma Positive(count: int, limit: real)
    requires limit > 0.0
    ensures count <= 0 ==> count as real * limit <= 0.0
  {
  }

  // ----- what is sold --------------------------------------------------------------------------

  /** All that is held when nothing is to be left; otherwise the most units, of those held, that are worth no more
      than the position is to lose. */
  ghost predicate MostToSell(row: Row, held: int, nav: real, unit: Unit, n: int) {
    if row.target == 0.0 then n == held
    else
      var losing := Part(row.current, nav) - Part(row.target, nav);
      && 0 <= n <= held && Worth(n, unit) <= losing
      && forall m :: n < m <= held ==> Worth(m, unit) > losing
  }

  lemma SoldUnitsAreMost(row: Row, held: nat, nav: real, unit: Unit)
    requires nav > 0.0 && Falls(row) && row.target >= 0.0
    ensures MostToSell(row, held, nav, unit, SoldUnits(row, held, nav, unit))
    ensures SoldUnits(row, held, nav, unit) >= 0
  {
    var cut := Part(row.current - row.target, nav);
    PartsSubtract(row.current, row.target, nav);
    if row.target != 0.0 {
      UnitsFit(cut, unit);
      var n := SoldUnits(row, held, nav, unit);
      WorthGrows(n, UnitsOf(cut, unit), unit);
      forall m | n < m <= held ensures Worth(m, unit) > cut {
        WorthGrows(UnitsOf(cut, unit) + 1, m, unit);
      }
    }
  }

  lemma PartsSubtract(a: real, b: real, nav: real)
    requires a > b && nav > 0.0
    ensures Part(a - b, nav) == Part(a, nav) - Part(b, nav) && Part(a - b, nav) >= 0.0
  {
    Gates.Scale(b, a, nav);
    assert (a - b) * nav == a * nav - b * nav;
  }

  /** The sells of a row, part by part. */
  ghost predicate SoldIn(orders: seq<Intent>, address: Address, unit: Unit, parts: seq<int>) {
    && |orders| == |parts|
    && forall k :: 0 <= k < |parts| ==> orders[k] == Intent(address, Settle.Sell, parts[k], Worth(parts[k], unit))
  }

  lemma OrdersInParts(total: int, count: int, of: int -> Intent)
    ensures |Orders(total, count, of)| == |PartsOf(total, count)|
    ensures forall k :: 0 <= k < |PartsOf(total, count)| ==> Orders(total, count, of)[k] == of(PartsOf(total, count)[k])
  {
    if count > 0 {
      BlockAt(total, count, of, count);
    }
  }

  lemma MostIsOne(row: Row, held: int, nav: real, unit: Unit, n: int, m: int)
    requires MostToSell(row, held, nav, unit, n) && MostToSell(row, held, nav, unit, m)
    ensures n == m
  {
  }

  lemma {:induction false} NoFaults(faultOf: Row -> Option<Fault>, rows: seq<Row>, row: Row)
    requires FirstFault(faultOf, rows) == None && row in rows
    ensures faultOf(row) == None
  {
    var n := |rows| - 1;
    if row in rows[..n] {
      NoFaults(faultOf, rows[..n], row);
    } else {
      assert rows == rows[..n] + [rows[n]];
    }
  }

  /** Nothing stopped the rows of a plan that was made. */
  lemma NothingStopped(proposal: Aggregate.Proposal, desk: Desk, row: Row)
    requires TradesSomething(desk.limits) && proposal.rebalance && Planned(proposal, desk).Ok? && row in proposal.rows
    ensures desk.cashUnit.Some? && SellFault(desk)(row) == None
    ensures Planned(proposal, desk).value.funded.Some? ==> BuyFault(desk)(row) == None
  {
    var rows := Sort(ByAddress, proposal.rows);
    SortHolds(ByAddress, proposal.rows);
    var sells, buys := PlanIs(proposal, desk);
    NoFaults(SellFault(desk), rows, row);
    if Planned(proposal, desk).value.funded.Some? {
      NoFaults(BuyFault(desk), rows, row);
    }
  }

  /** The orders of one asset in a plan are its row's. */
  lemma PickedOfPlan(proposal: Aggregate.Proposal, desk: Desk, row: Row)
    requires TradesSomething(desk.limits) && desk.book.navUsd > 0.0 && row in proposal.rows
    requires proposal.rebalance && Distinct(proposal.rows) && Planned(proposal, desk).Ok?
    ensures desk.cashUnit.Some?
    ensures var plan := Planned(proposal, desk).value;
            && Picked(plan.orders, Settle.Sell, row.address) == SellOrders(desk)(row)
            && Picked(plan.orders, Settle.Buy, row.address)
               == if plan.funded.Some? then BuyOrders(desk, desk.cashUnit.value, plan.funded.value)(row) else []
  {
    var plan := Planned(proposal, desk).value;
    var rows, sells, buys := PlanParts(proposal, desk);
    var unit := desk.cashUnit.value;
    SellsAreOwn(desk);
    PickedBlocks(SellOrders(desk), Settle.Sell, rows, row);
    NoneOfOtherSide(SellOrders(desk), Settle.Sell, Settle.Buy, rows, row.address);
    PickedAdds(sells, buys, Settle.Sell, row.address);
    PickedAdds(sells, buys, Settle.Buy, row.address);
    if plan.funded.Some? {
      BuysAreOwn(desk, unit, plan.funded.value);
      PickedBlocks(BuyOrders(desk, unit, plan.funded.value), Settle.Buy, rows, row);
      NoneOfOtherSide(BuyOrders(desk, unit, plan.funded.value), Settle.Buy, Settle.Sell, rows, row.address);
    }
  }

  lemma {:induction false} SoldInAddsUp(orders: seq<Intent>, address: Address, unit: Unit, parts: seq<int>)
    requires SoldIn(orders, address, unit, parts)
    ensures Total(SoldBy(address), orders) == SumOf(parts) as real
    decreases |orders|
  {
    if orders != [] {
      var n := |orders| - 1;
      SoldInAddsUp(orders[..n], address, unit, parts[..n]);
    }
  }

  lemma {:induction false} SoldIsPicked(orders: seq<Intent>, address: Address)
    ensures Total(SoldBy(address), orders) == Total(SoldBy(address), Picked(orders, Settle.Sell, address))
  {
    if orders != [] {
      var n := |orders| - 1;
      SoldIsPicked(orders[..n], address);
      TotalOne(SoldBy(address), Picked(orders[..n], Settle.Sell, address), orders[n]);
      assert Picked(orders[..n], Settle.Sell, address) + [] == Picked(orders[..n], Settle.Sell, address);
    }
  }

  /** How many parts an amount is sold in: none when nothing or only dust is to be sold. */
  ghost predicate SellsInParts(n: int, unit: Unit, parts: seq<int>, limits: Gates.Limits) {
    && (n == 0 ==> parts == [])
    && (n != 0 ==> CountedParts(Worth(n, unit), parts, limits))
    && (parts != [] ==> SharedOut(parts, n))
  }

  lemma RowSells(desk: Desk, row: Row, orders: seq<Intent>) returns (n: int, parts: seq<int>)
    requires TradesSomething(desk.limits) && desk.book.navUsd > 0.0 && Falls(row) && row.target >= 0.0
    requires SellFault(desk)(row) == None && orders == SellOrders(desk)(row)
    ensures row.address in desk.units
    ensures MostToSell(row, HeldOf(desk.book, row.address), desk.book.navUsd, desk.units[row.address], n) && n >= 0
    ensures SoldIn(orders, row.address, desk.units[row.address], parts)
    ensures SellsInParts(n, desk.units[row.address], parts, desk.limits)
  {
    var unit, held := desk.units[row.address], HeldOf(desk.book, row.address);
    n := SoldUnits(row, held, desk.book.navUsd, unit);
    SoldUnitsAreMost(row, held, desk.book.navUsd, unit);
    parts := [];
    if n != 0 {
      var count := SplitOf(Worth(n, unit), desk.limits);
      parts := PartsOf(n, count);
      WorthGrows(0, n, unit);
      SplitCounts(Worth(n, unit), n, desk.limits, count);
      OrdersInParts(n, count, SellOf(row.address, unit));
      if count > 0 {
        PartsAreShared(n, count);
      }
    }
  }

  /** Exactly what a plan sells of an asset whose weight is to fall: all of it, or the most units worth no more
      than the fall, unless that is dust; in as few even parts as the limit lets it be. */
  lemma PlanSellsExactly(proposal: Aggregate.Proposal, desk: Desk, row: Row) returns (n: int, parts: seq<int>)
    requires TradesSomething(desk.limits) && desk.book.navUsd > 0.0 && row in proposal.rows
    requires proposal.rebalance && Distinct(proposal.rows) && Planned(proposal, desk).Ok?
    requires Falls(row) && row.target >= 0.0
    ensures row.address in desk.units && n >= 0
    ensures MostToSell(row, HeldOf(desk.book, row.address), desk.book.navUsd, desk.units[row.address], n)
    ensures SoldIn(Picked(Planned(proposal, desk).value.orders, Settle.Sell, row.address), row.address,
                   desk.units[row.address], parts)
    ensures SellsInParts(n, desk.units[row.address], parts, desk.limits)
    ensures Total(SoldBy(row.address), Planned(proposal, desk).value.orders)
            == if parts == [] then 0.0 else n as real
  {
    var orders := Planned(proposal, desk).value.orders;
    NothingStopped(proposal, desk, row);
    PickedOfPlan(proposal, desk, row);
    var mine := Picked(orders, Settle.Sell, row.address);
    n, parts := RowSells(desk, row, mine);
    SoldIsPicked(orders, row.address);
    SoldInAddsUp(mine, row.address, desk.units[row.address], parts);
  }

  // ----- what is bought ------------------------------------------------------------------------

  /** The most whole cents in an amount. */
  ghost predicate MostCents(cents: int, usd: real) {
    cents >= 0 && cents as real / 100.0 <= usd < (cents + 1) as real / 100.0
  }

  /** The buys of a row: each spends the most units of cash that its part of the cents will buy. */
  ghost predicate BoughtIn(orders: seq<Intent>, address: Address, unit: Unit, parts: seq<int>) {
    && |orders| == |parts|
    && forall k :: 0 <= k < |parts| ==> SpendsOn(orders[k], address, unit, parts[k])
  }

  ghost predicate SpendsOn(i: Intent, address: Address, unit: Unit, cents: int) {
    && Is(i, Settle.Buy, address) && i.usd == Worth(i.raw, unit)
    && Worth(i.raw, unit) <= cents as real / 100.0 < Worth(i.raw + 1, unit)
  }

  lemma BuySpends(address: Address, unit: Unit, cents: int)
    requires cents >= 0
    ensures SpendsOn(BuyOf(address, unit)(cents), address, unit, cents)
  {
    UnitsFit(cents as real / 100.0, unit);
  }

  lemma CentsAreMost(usd: real)
    requires usd >= 0.0
    ensures MostCents(CentsOf(usd), usd)
  {
  }

  /** The funded share of a rise, in whole cents and parts. */
  ghost predicate BuysInParts(cents: int, fundedUsd: real, parts: seq<int>, limits: Gates.Limits) {
    && MostCents(cents, fundedUsd)
    && CountedParts(cents as real / 100.0, parts, limits)
    && (parts != [] ==> SharedOut(parts, cents))
  }

  /** The share of a rise that is funded. */
  function FundedRise(row: Row, nav: real, share: real): real {
    Part(share, Part(row.target, nav) - Part(row.current, nav))
  }

  lemma RowBuys(desk: Desk, unit: Unit, share: real, row: Row, orders: seq<Intent>)
    returns (cents: int, parts: seq<int>)
    requires TradesSomething(desk.limits) && desk.book.navUsd > 0.0 && 0.0 <= share <= 1.0
    requires Rises(row) && Resolved(desk.limits) && orders == BuyOrders(desk, unit, share)(row)
    ensures BuysInParts(cents, FundedRise(row, desk.book.navUsd, share), parts, desk.limits)
    ensures BoughtIn(orders, row.address, unit, parts)
  {
    RaiseFits(row, desk.book.navUsd);
    ShareFits(share, Raise(desk.book.navUsd)(row));
    CentsAreMost(Part(share, Raise(desk.book.navUsd)(row)));
    cents := FundedCents(row, desk.book.navUsd, share);
    var count := SplitOf(cents as real / 100.0, desk.limits);
    parts := PartsOf(cents, count);
    SplitCounts(cents as real / 100.0, cents, desk.limits, count);
    OrdersInParts(cents, count, BuyOf(row.address, unit));
    if count > 0 {
      PartsAreShared(cents, count);
    }
    forall k | 0 <= k < |parts| ensures SpendsOn(orders[k], row.address, unit, parts[k]) {
      PartNotNegative(cents, count, k);
      BuySpends(row.address, unit, parts[k]);
    }
  }

  /** Exactly what a plan buys of an asset whose weight is to rise: the funded share of the rise, in whole cents,
      unless that is dust; in as few even parts as the limit lets it be. With nothing funded, nothing. */
  lemma PlanBuysExactly(proposal: Aggregate.Proposal, desk: Desk, row: Row) returns (cents: int, parts: seq<int>)
    requires TradesSomething(desk.limits) && desk.book.navUsd > 0.0 && row in proposal.rows
    requires proposal.rebalance && Distinct(proposal.rows) && Planned(proposal, desk).Ok? && Rises(row)
    ensures desk.cashUnit.Some?
    ensures BoughtIn(Picked(Planned(proposal, desk).value.orders, Settle.Buy, row.address), row.address,
                     desk.cashUnit.value, parts)
    ensures Planned(proposal, desk).value.funded.None? ==> parts == []
    ensures Planned(proposal, desk).value.funded.Some? ==>
              BuysInParts(cents, FundedRise(row, desk.book.navUsd, Planned(proposal, desk).value.funded.value), parts,
                          desk.limits)
  {
    var plan := Planned(proposal, desk).value;
    NothingStopped(proposal, desk, row);
    PickedOfPlan(proposal, desk, row);
    if plan.funded.Some? {
      var rows, sells, buys := PlanParts(proposal, desk);
      cents, parts := RowBuys(desk, desk.cashUnit.value, plan.funded.value, row,
                              Picked(plan.orders, Settle.Buy, row.address));
    } else {
      cents, parts := 0, [];
    }
  }

  /** An asset is never traded against its row: nothing is bought of what is to fall, nothing sold of what is to
      rise, and nothing traded of what is to stay. */
  lemma NothingAgainstTheRow(proposal: Aggregate.Proposal, desk: Desk, row: Row)
    requires TradesSomething(desk.limits) && desk.book.navUsd > 0.0 && row in proposal.rows
    requires proposal.rebalance && Distinct(proposal.rows) && Planned(proposal, desk).Ok?
    ensures row.target >= row.current ==> Picked(Planned(proposal, desk).value.orders, Settle.Sell, row.address) == []
    ensures row.target <= row.current ==> Picked(Planned(proposal, desk).value.orders, Settle.Buy, row.address) == []
  {
    PickedOfPlan(proposal, desk, row);
  }

  // ----- what funds it, and in which order -----------------------------------------------------

  function SellWorth(): Intent -> real { (i: Intent) => if i.side == Settle.Sell then i.usd else 0.0 }

  lemma {:induction false} SellWorthIs(sells: seq<Intent>, buys: seq<Intent>)
    requires (forall i :: i in sells ==> i.side == Settle.Sell) && forall i :: i in buys ==> i.side == Settle.Buy
    ensures Total(SellWorth(), sells + buys) == Total(IsWorth(), sells)
  {
    TotalAdds(SellWorth(), sells, buys);
    SameOver(SellWorth(), IsWorth(), sells);
    NoneOver(SellWorth(), buys);
  }

  lemma {:induction false} SameOver(f: Intent -> real, g: Intent -> real, orders: seq<Intent>)
    requires forall i :: i in orders ==> f(i) == g(i)
    ensures Total(f, orders) == Total(g, orders)
  {
    if orders != [] {
      assert orders[|orders| - 1] in orders;
      SameOver(f, g, orders[..|orders| - 1]);
    }
  }

  lemma {:induction false} NoneOver(f: Intent -> real, orders: seq<Intent>)
    requires forall i :: i in orders ==> f(i) == 0.0
    ensures Total(f, orders) == 0.0
  {
    if orders != [] {
      assert orders[|orders| - 1] in orders;
      NoneOver(f, orders[..|orders| - 1]);
    }
  }

  /** All that the rises together would cost. */
  function CostOfRises(nav: real, rows: seq<Row>): real {
    if rows == [] then 0.0
    else CostOfRises(nav, rows[..|rows| - 1])
         + var row := rows[|rows| - 1]; if row.target > row.current then (row.target - row.current) * nav else 0.0
  }

  lemma {:induction false} RisesAre(nav: real, rows: seq<Row>)
    ensures Sum(Raise(nav), rows) == CostOfRises(nav, rows)
  {
    if rows != [] {
      RisesAre(nav, rows[..|rows| - 1]);
    }
  }

  /** What a plan says its sells bring is what they are worth. */
  lemma ProceedsAreTheSells(proposal: Aggregate.Proposal, desk: Desk)
    requires TradesSomething(desk.limits) && proposal.rebalance && Planned(proposal, desk).Ok?
    ensures Planned(proposal, desk).value.proceedsUsd == Total(SellWorth(), Planned(proposal, desk).value.orders)
  {
    var sells, buys := PlanIs(proposal, desk);
    SidesAre(proposal, desk, sells, buys);
    SellWorthIs(sells, buys);
  }

  /** What a plan says its rises would cost, and the share of that it funds from cash above the floor; no share
      while the floor is unknown. */
  lemma FundedExactly(proposal: Aggregate.Proposal, desk: Desk, plan: Plan)
    requires TradesSomething(desk.limits) && proposal.rebalance && Planned(proposal, desk) == Ok(plan)
    ensures plan.wantedUsd == CostOfRises(desk.book.navUsd, Sort(ByAddress, proposal.rows))
    ensures FundedAs(plan.funded, desk.book.cashUsd + plan.proceedsUsd, plan.wantedUsd, desk.limits)
  {
    var sells, buys := PlanIs(proposal, desk);
    RisesAre(desk.book.navUsd, Sort(ByAddress, proposal.rows));
    FundIs(desk.book.cashUsd, plan.proceedsUsd, plan.wantedUsd, desk.limits, plan.funded);
  }

  /** All of it, none of it, or what cash above the floor covers. */
  predicate FundedAs(share: Option<real>, readyUsd: real, wantedUsd: real, limits: Gates.Limits) {
    && (share.Some? <==> limits.cashFloorUsd.Some?)
    && (share.Some? ==>
          var spare := readyUsd - limits.cashFloorUsd.value;
          if wantedUsd <= spare || wantedUsd <= 0.0 then share.value == 1.0
          else if spare <= 0.0 then share.value == 0.0
          else Part(share.value, wantedUsd) == spare)
  }

  lemma FundIs(cashUsd: real, proceedsUsd: real, wantedUsd: real, limits: Gates.Limits, share: Option<real>)
    requires share == Gates.Fund(cashUsd, proceedsUsd, wantedUsd, limits)
    ensures FundedAs(share, cashUsd + proceedsUsd, wantedUsd, limits)
  {
  }

  lemma SidesAre(proposal: Aggregate.Proposal, desk: Desk, sells: seq<Intent>, buys: seq<Intent>)
    requires TradesSomething(desk.limits) && proposal.rebalance && Planned(proposal, desk).Ok? && desk.cashUnit.Some?
    requires sells == Blocks(SellOrders(desk), Sort(ByAddress, proposal.rows))
    requires Bought(desk, desk.cashUnit.value, Planned(proposal, desk).value.funded, Sort(ByAddress, proposal.rows))
             == Ok(buys)
    ensures forall i :: i in sells ==> i.side == Settle.Sell
    ensures forall i :: i in buys ==> i.side == Settle.Buy
  {
    var rows := Sort(ByAddress, proposal.rows);
    forall i | i in sells ensures i.side == Settle.Sell {
      var row := SellIs(desk, rows, i);
    }
    forall i | i in buys ensures i.side == Settle.Buy {
      var row := BuyIs(desk, desk.cashUnit.value, Planned(proposal, desk).value.funded.value, rows, i);
    }
  }

  lemma {:induction false} BlocksInOrder(ordersOf: Row -> seq<Intent>, side: Settle.Side, rows: seq<Row>)
    requires OwnOrders(ordersOf, side) && Sorted(ByAddress, rows)
    ensures forall j, k :: 0 <= j < k < |Blocks(ordersOf, rows)| ==>
              Blocks(ordersOf, rows)[j].address <= Blocks(ordersOf, rows)[k].address
  {
    if rows != [] {
      var n := |rows| - 1;
      var before, last := Blocks(ordersOf, rows[..n]), ordersOf(rows[n]);
      BlocksInOrder(ordersOf, side, rows[..n]);
      forall i | i in before ensures i.address <= rows[n].address {
        var row := InBlocks(ordersOf, rows[..n], i);
        assert Is(i, side, row.address);
        var m :| 0 <= m < n && rows[m] == row;
        assert ByAddress(rows[m], rows[n]);
      }
      forall i | i in last ensures i.address == rows[n].address {
        assert Is(i, side, rows[n].address);
      }
      forall j, k | 0 <= j < k < |before + last| ensures (before + last)[j].address <= (before + last)[k].address {
        assert j < |before| ==> before[j] in before;
        assert k >= |before| ==> last[k - |before|] in last;
        assert j >= |before| ==> last[j - |before|] in last;
      }
    }
  }

  lemma ByAddressIsOrder()
    ensures Preorder(ByAddress)
  {
  }

  /** Sells come before buys, and each side goes by address. */
  lemma PlanInOrder(proposal: Aggregate.Proposal, desk: Desk, j: nat, k: nat)
    requires TradesSomething(desk.limits) && proposal.rebalance && Planned(proposal, desk).Ok?
    requires j < k < |Planned(proposal, desk).value.orders|
    ensures var a, b := Planned(proposal, desk).value.orders[j], Planned(proposal, desk).value.orders[k];
            && (a.side == Settle.Buy ==> b.side == Settle.Buy)
            && (a.side == b.side ==> a.address <= b.address)
  {
    var sells, buys := PlanIs(proposal, desk);
    SidesAre(proposal, desk, sells, buys);
    SidesInOrder(desk, proposal.rows, Planned(proposal, desk).value.funded, sells, buys);
    BothInOrder(sells, buys, j, k);
  }

  lemma SidesInOrder(desk: Desk, given: seq<Row>, funded: Option<real>, sells: seq<Intent>, buys: seq<Intent>)
    requires TradesSomething(desk.limits) && desk.cashUnit.Some?
    requires sells == Blocks(SellOrders(desk), Sort(ByAddress, given))
    requires Bought(desk, desk.cashUnit.value, funded, Sort(ByAddress, given)) == Ok(buys)
    ensures forall m, n :: 0 <= m < n < |sells| ==> sells[m].address <= sells[n].address
    ensures forall m, n :: 0 <= m < n < |buys| ==> buys[m].address <= buys[n].address
  {
    var rows := Sort(ByAddress, given);
    ByAddressIsOrder();
    SortSorts(ByAddress, given);
    SellsAreOwn(desk);
    BlocksInOrder(SellOrders(desk), Settle.Sell, rows);
    if funded.Some? {
      BuysAreOwn(desk, desk.cashUnit.value, funded.value);
      BlocksInOrder(BuyOrders(desk, desk.cashUnit.value, funded.value), Settle.Buy, rows);
    }
  }

  lemma BothInOrder(sells: seq<Intent>, buys: seq<Intent>, j: nat, k: nat)
    requires (forall i :: i in sells ==> i.side == Settle.Sell) && (forall i :: i in buys ==> i.side == Settle.Buy)
    requires forall m, n :: 0 <= m < n < |sells| ==> sells[m].address <= sells[n].address
    requires forall m, n :: 0 <= m < n < |buys| ==> buys[m].address <= buys[n].address
    requires j < k < |sells + buys|
    ensures var a, b := (sells + buys)[j], (sells + buys)[k];
            && (a.side == Settle.Buy ==> b.side == Settle.Buy)
            && (a.side == b.side ==> a.address <= b.address)
  {
    if k < |sells| {
      assert sells[j] in sells && sells[k] in sells;
    } else if j < |sells| {
      assert sells[j] in sells && buys[k - |sells|] in buys;
    } else {
      assert buys[j - |sells|] in buys && buys[k - |sells|] in buys;
    }
  }

  // ----- what refuses a plan -------------------------------------------------------------------

  /** A row that cannot be sold as it asks: its asset has no mark, or something is to be sold under limits that are
      not known. */
  ghost predicate CannotSell(desk: Desk, row: Row, fault: Fault) {
    && row.target < row.current
    && if row.address !in desk.units then fault == NoMark(row.address)
       else fault == LimitsUnresolved && (desk.limits.maxTradeUsd.None? || desk.limits.minOrderUsd.None?)
            && !MostToSell(row, HeldOf(desk.book, row.address), desk.book.navUsd, desk.units[row.address], 0)
  }

  /** A row that cannot be bought: something is to be bought under limits that are not known. */
  predicate CannotBuy(desk: Desk, row: Row) {
    row.target > row.current && (desk.limits.maxTradeUsd.None? || desk.limits.minOrderUsd.None?)
  }

  lemma SellFaultIs(desk: Desk, row: Row)
    requires desk.book.navUsd > 0.0 && row.target >= 0.0
    ensures forall fault :: SellFault(desk)(row) == Some(fault) <==> CannotSell(desk, row, fault)
  {
    if Falls(row) && row.address in desk.units {
      var unit, held := desk.units[row.address], HeldOf(desk.book, row.address);
      SoldUnitsAreMost(row, held, desk.book.navUsd, unit);
      if MostToSell(row, held, desk.book.navUsd, unit, 0) {
        MostIsOne(row, held, desk.book.navUsd, unit, 0, SoldUnits(row, held, desk.book.navUsd, unit));
      }
    }
  }

  lemma {:induction false} FirstFaultIs(faultOf: Row -> Option<Fault>, rows: seq<Row>)
    ensures FirstFault(faultOf, rows).None? ==> forall k :: 0 <= k < |rows| ==> faultOf(rows[k]) == None
    ensures FirstFault(faultOf, rows).Some? ==>
              exists k :: 0 <= k < |rows| && faultOf(rows[k]) == FirstFault(faultOf, rows)
                          && forall j :: 0 <= j < k ==> faultOf(rows[j]) == None
  {
    if rows != [] {
      var n := |rows| - 1;
      FirstFaultIs(faultOf, rows[..n]);
      if FirstFault(faultOf, rows[..n]).Some? {
        var k :| 0 <= k < n && faultOf(rows[..n][k]) == FirstFault(faultOf, rows[..n])
                 && forall j :: 0 <= j < k ==> faultOf(rows[..n][j]) == None;
        assert faultOf(rows[k]) == FirstFault(faultOf, rows);
      }
    }
  }

  /** No row that should be sold is in the way. */
  ghost predicate SellsFree(desk: Desk, rows: seq<Row>) {
    forall row, fault :: row in rows ==> !CannotSell(desk, row, fault)
  }

  /** A plan is refused exactly when cash has no mark, a row cannot be sold, or, once buys have a share, a row cannot
      be bought. */
  lemma PlanRefusedExactly(proposal: Aggregate.Proposal, desk: Desk)
    requires TradesSomething(desk.limits) && desk.book.navUsd > 0.0
    requires forall row :: row in proposal.rows ==> row.target >= 0.0
    ensures Planned(proposal, desk).Ok? <==>
              !proposal.rebalance
              || (desk.cashUnit.Some? && SellsFree(desk, proposal.rows)
                  && (desk.limits.cashFloorUsd.Some? ==> forall row :: row in proposal.rows ==> !CannotBuy(desk, row)))
    ensures Planned(proposal, desk) == Err(CashHasNoMark) <==> proposal.rebalance && desk.cashUnit.None?
    ensures !proposal.rebalance ==> Planned(proposal, desk) == Ok(Plan([], 0.0, 0.0, None))
  {
    var rows := Sort(ByAddress, proposal.rows);
    SortHolds(ByAddress, proposal.rows);
    if proposal.rebalance && desk.cashUnit.Some? {
      forall row | row in rows
        ensures forall fault :: SellFault(desk)(row) == Some(fault) <==> CannotSell(desk, row, fault)
      {
        SellFaultIs(desk, row);
      }
      SellSideFree(desk, proposal.rows, rows);
      BuySideFree(desk, proposal.rows, rows);
      NeverNoCash(desk, rows);
      MadeWhenFree(proposal, desk, rows, Planned(proposal, desk));
    } else {
      NotMade(proposal, desk);
    }
  }

  /** A plan is made when no row is in the way of its sells nor, once they have a share, of its buys. */
  lemma MadeWhenFree(proposal: Aggregate.Proposal, desk: Desk, rows: seq<Row>, planned: Result<Plan, Fault>)
    requires TradesSomething(desk.limits) && proposal.rebalance && desk.cashUnit.Some?
    requires rows == Sort(ByAddress, proposal.rows) && planned == Planned(proposal, desk)
    requires FirstFault(SellFault(desk), rows) != Some(CashHasNoMark)
    requires FirstFault(BuyFault(desk), rows) != Some(CashHasNoMark)
    ensures planned.Ok? <==>
              FirstFault(SellFault(desk), rows).None?
              && (desk.limits.cashFloorUsd.Some? ==> FirstFault(BuyFault(desk), rows).None?)
    ensures planned != Err(CashHasNoMark)
  {
    var sells := Collected(SellFault(desk), SellOrders(desk), rows);
    CollectedWhenFree(SellFault(desk), SellOrders(desk), rows, sells);
    if sells.Ok? {
      var share := Gates.Fund(desk.book.cashUsd, Total(IsWorth(), sells.value),
                              Sum(Raise(desk.book.navUsd), rows), desk.limits);
      if share.Some? {
        var buys := Bought(desk, desk.cashUnit.value, share, rows);
        CollectedWhenFree(BuyFault(desk), BuyOrders(desk, desk.cashUnit.value, share.value), rows, buys);
      }
    }
  }

  lemma CollectedWhenFree(faultOf: Row -> Option<Fault>, ordersOf: Row -> seq<Intent>, rows: seq<Row>,
                          all: Result<seq<Intent>, Fault>)
    requires all == Collected(faultOf, ordersOf, rows)
    ensures all.Ok? <==> FirstFault(faultOf, rows).None?
    ensures all.Err? ==> FirstFault(faultOf, rows) == Some(all.error)
  {
  }

  lemma NotMade(proposal: Aggregate.Proposal, desk: Desk)
    requires TradesSomething(desk.limits) && (!proposal.rebalance || desk.cashUnit.None?)
    ensures Planned(proposal, desk)
            == if proposal.rebalance then Err(CashHasNoMark) else Ok(Plan([], 0.0, 0.0, None))
  {
  }

  lemma NeverNoCash(desk: Desk, rows: seq<Row>)
    ensures FirstFault(SellFault(desk), rows) != Some(CashHasNoMark)
    ensures FirstFault(BuyFault(desk), rows) != Some(CashHasNoMark)
  {
    FirstFaultIs(SellFault(desk), rows);
    FirstFaultIs(BuyFault(desk), rows);
  }

  lemma SellSideFree(desk: Desk, given: seq<Row>, rows: seq<Row>)
    requires forall row :: row in rows <==> row in given
    requires forall row :: row in rows ==>
               forall fault :: SellFault(desk)(row) == Some(fault) <==> CannotSell(desk, row, fault)
    ensures FirstFault(SellFault(desk), rows).None? <==> SellsFree(desk, given)
  {
    FirstFaultIs(SellFault(desk), rows);
    if FirstFault(SellFault(desk), rows).None? {
      forall row, fault | row in given ensures !CannotSell(desk, row, fault) {
        var k :| 0 <= k < |rows| && rows[k] == row;
      }
    } else {
      var k :| 0 <= k < |rows| && SellFault(desk)(rows[k]) == FirstFault(SellFault(desk), rows);
      assert rows[k] in rows && CannotSell(desk, rows[k], FirstFault(SellFault(desk), rows).value);
    }
  }

  lemma BuySideFree(desk: Desk, given: seq<Row>, rows: seq<Row>)
    requires forall row :: row in rows <==> row in given
    ensures FirstFault(BuyFault(desk), rows).None? <==> forall row :: row in given ==> !CannotBuy(desk, row)
  {
    FirstFaultIs(BuyFault(desk), rows);
    if FirstFault(BuyFault(desk), rows).None? {
      forall row | row in given ensures !CannotBuy(desk, row) {
        var k :| 0 <= k < |rows| && rows[k] == row;
      }
    } else {
      var k :| 0 <= k < |rows| && BuyFault(desk)(rows[k]) == FirstFault(BuyFault(desk), rows);
      assert rows[k] in rows && CannotBuy(desk, rows[k]);
    }
  }

  /** The first row by address that is in the way of the sells, and no earlier one. */
  ghost predicate FirstInTheWay(desk: Desk, rows: seq<Row>, row: Row, fault: Fault) {
    && row in rows && CannotSell(desk, row, fault)
    && forall other, f :: other in rows && other.address < row.address ==> !CannotSell(desk, other, f)
  }

  lemma ComesBefore(rows: seq<Row>, other: Row, k: nat) returns (j: nat)
    requires Sorted(ByAddress, rows) && k < |rows| && other in rows && other.address < rows[k].address
    ensures j < k && rows[j] == other
  {
    j :| 0 <= j < |rows| && rows[j] == other;
    if k < j {
      assert false;
    }
  }

  lemma FirstSellFault(desk: Desk, given: seq<Row>, rows: seq<Row>, fault: Fault) returns (row: Row)
    requires desk.book.navUsd > 0.0 && (forall r :: r in rows <==> r in given) && Sorted(ByAddress, rows)
    requires (forall r :: r in given ==> r.target >= 0.0) && FirstFault(SellFault(desk), rows) == Some(fault)
    ensures FirstInTheWay(desk, given, row, fault)
  {
    FirstFaultIs(SellFault(desk), rows);
    var k :| 0 <= k < |rows| && SellFault(desk)(rows[k]) == Some(fault)
             && forall j :: 0 <= j < k ==> SellFault(desk)(rows[j]) == None;
    row := rows[k];
    assert row in rows;
    SellFaultIs(desk, row);
    forall other, f | other in given && other.address < row.address ensures !CannotSell(desk, other, f) {
      var j := ComesBefore(rows, other, k);
      SellFaultIs(desk, other);
    }
  }

  /** The refusal named is that of the first row by address that is in the way, sells before buys. */
  lemma RefusalIsTheFirst(proposal: Aggregate.Proposal, desk: Desk, fault: Fault)
    requires TradesSomething(desk.limits) && desk.book.navUsd > 0.0 && desk.cashUnit.Some?
    requires forall row :: row in proposal.rows ==> row.target >= 0.0
    requires Planned(proposal, desk) == Err(fault)
    ensures if SellsFree(desk, proposal.rows) then fault == LimitsUnresolved
            else exists row :: FirstInTheWay(desk, proposal.rows, row, fault)
  {
    var rows := Sort(ByAddress, proposal.rows);
    SortHolds(ByAddress, proposal.rows);
    ByAddressIsOrder();
    SortSorts(ByAddress, proposal.rows);
    if FirstFault(SellFault(desk), rows).Some? {
      var row := FirstSellFault(desk, proposal.rows, rows, fault);
      assert CannotSell(desk, row, fault);
    } else {
      forall row | row in rows
        ensures forall f :: SellFault(desk)(row) == Some(f) <==> CannotSell(desk, row, f)
      {
        SellFaultIs(desk, row);
      }
      SellSideFree(desk, proposal.rows, rows);
      FirstFaultIs(BuyFault(desk), rows);
    }
  }
}

/**
 What a sized plan cannot do: move a position past its target, sell more than is held, or leave
 less cash than the floor.
 */
module PlanHolds {
  import opened Wrappers
  import opened Ordering
  import opened Intents
  import opened Sizing
  import opened Judging
  import Aggregate
  import Gates
  import Settle

  /** The row's weight is the position's share of the book. */
  predicate Weighed(row: Row, book: Book) { Part(row.current, book.navUsd) == ValueOf(book, row.address) }

  // ----- one row -------------------------------------------------------------------------------

  /** Selling some of what is held, in any number of orders, takes its worth off the position. */
  lemma SellsOfAmount(address: Address, unit: Unit, sold: int, count: int)
    requires sold >= 0
    ensures var sells := Orders(sold, count, SellOf(address, unit));
            && 0.0 <= -Total(MovesBy(address), sells) <= Worth(sold, unit)
            && 0.0 <= Total(SoldBy(address), sells) <= sold as real
  {
    var dollars: real := unit;
    WorthGrows(0, sold, unit);
    OrdersTotal(MovesBy(address), sold, count, SellOf(address, unit), -dollars);
    OrdersTotal(SoldBy(address), sold, count, SellOf(address, unit), 1.0);
  }

  /** A row's sells are orders for what its cut is worth, or none. */
  lemma SellsAre(desk: Desk, row: Row) returns (sold: int, count: int)
    requires TradesSomething(desk.limits) && Falls(row) && row.address in desk.units
    ensures sold == SoldUnits(row, HeldOf(desk.book, row.address), desk.book.navUsd, desk.units[row.address])
    ensures SellOrders(desk)(row) == Orders(sold, count, SellOf(row.address, desk.units[row.address]))
  {
    var unit := desk.units[row.address];
    sold := SoldUnits(row, HeldOf(desk.book, row.address), desk.book.navUsd, unit);
    count := if sold != 0 && Resolved(desk.limits) then SplitOf(Worth(sold, unit), desk.limits) else 0;
  }

  /** A row's sells take the position down, at most to its target, and sell at most what is held. */
  lemma SellsOfRow(desk: Desk, row: Row)
    requires TradesSomething(desk.limits) && Marked(desk.book, desk.units)
    requires Falls(row) && row.target >= 0.0 && Weighed(row, desk.book)
    ensures var sells := SellOrders(desk)(row);
            && 0.0 <= -Total(MovesBy(row.address), sells)
                     <= ValueOf(desk.book, row.address) - Part(row.target, desk.book.navUsd)
            && 0.0 <= Total(SoldBy(row.address), sells) <= HeldOf(desk.book, row.address) as real
  {
    if row.address in desk.units {
      var unit, held := desk.units[row.address], HeldOf(desk.book, row.address);
      WorthAdds(0, 0, unit);
      assert ValueOf(desk.book, row.address) == Worth(held, unit);
      SoldWithinCut(row, held, desk.book.navUsd, unit);
      var sold, count := SellsAre(desk, row);
      SellsOfAmount(row.address, unit, sold, count);
    } else {
      Gates.Scale(row.target, row.current, desk.book.navUsd);
    }
  }

  lemma CentsFit(usd: real)
    requires usd >= 0.0
    ensures CentsOf(usd) >= 0 && Worth(CentsOf(usd), 0.01) <= usd
  {
  }

  lemma BuyWithinCents(address: Address, unit: Unit, cents: nat)
    ensures var i := BuyOf(address, unit)(cents);
            i.raw >= 0 && i.usd == Worth(i.raw, unit) && 0.0 <= i.usd <= Worth(cents, 0.01)
  {
    var usd := cents as real / 100.0;
    UnitsFit(usd, unit);
    WorthGrows(0, UnitsOf(usd, unit), unit);
  }

  lemma NotNegative(a: real, b: real)
    requires a >= 0.0 && b >= 0.0
    ensures a * b >= 0.0
  {
  }

  lemma ShareFits(share: real, raise: real)
    requires 0.0 <= share <= 1.0 && raise >= 0.0
    ensures 0.0 <= Part(share, raise) <= raise
  {
    NotNegative(share, raise);
    NotNegative(1.0 - share, raise);
    assert (1.0 - share) * raise == raise - share * raise;
  }

  lemma RaiseFits(row: Row, nav: real)
    requires nav > 0.0
    ensures Raise(nav)(row) >= 0.0
    ensures Rises(row) ==> Raise(nav)(row) == Part(row.target, nav) - Part(row.current, nav)
  {
    Gates.Scale(row.current, row.target, nav);
  }

  /** A row's buys cost at most the funded share of its raise. */
  lemma BuysOfRow(desk: Desk, unit: Unit, share: real, row: Row)
    requires TradesSomething(desk.limits) && desk.book.navUsd > 0.0 && 0.0 <= share <= 1.0
    ensures var buys := BuyOrders(desk, unit, share)(row);
            && 0.0 <= Total(MovesBy(row.address), buys) <= Part(share, Raise(desk.book.navUsd)(row))
            && 0.0 <= Total(IsWorth(), buys) <= Part(share, Raise(desk.book.navUsd)(row))
  {
    var raise := Raise(desk.book.navUsd)(row);
    RaiseFits(row, desk.book.navUsd);
    ShareFits(share, raise);
    if Rises(row) && Resolved(desk.limits) {
      var cents := FundedCents(row, desk.book.navUsd, share);
      CentsFit(Part(share, raise));
      forall c: nat ensures 0.0 <= BuyOf(row.address, unit)(c).usd <= Worth(c, 0.01) {
        BuyWithinCents(row.address, unit, c);
      }
      var count := SplitOf(cents as real / 100.0, desk.limits);
      OrdersBound(MovesBy(row.address), cents, count, BuyOf(row.address, unit), 0.01);
      OrdersBound(IsWorth(), cents, count, BuyOf(row.address, unit), 0.01);
    }
  }

  /** A row's orders trade its own asset only. */
  lemma OthersUntouched(desk: Desk, unit: Unit, share: real, row: Row, address: Address)
    requires TradesSomething(desk.limits) && row.address != address
    ensures Total(MovesBy(address), SellOrders(desk)(row)) == 0.0
    ensures Total(MovesBy(address), BuyOrders(desk, unit, share)(row)) == 0.0
    ensures Total(SoldBy(address), SellOrders(desk)(row)) == 0.0
    ensures Total(SoldBy(address), BuyOrders(desk, unit, share)(row)) == 0.0
  {
    if Falls(row) && row.address in desk.units && Resolved(desk.limits) {
      var stock := desk.units[row.address];
      var sold := SoldUnits(row, HeldOf(desk.book, row.address), desk.book.navUsd, stock);
      var count := if sold != 0 then SplitOf(Worth(sold, stock), desk.limits) else 0;
      OrdersTotal(MovesBy(address), sold, count, SellOf(row.address, stock), 0.0);
      OrdersTotal(SoldBy(address), sold, count, SellOf(row.address, stock), 0.0);
    }
    if Rises(row) && Resolved(desk.limits) {
      var cents := FundedCents(row, desk.book.navUsd, share);
      var count := SplitOf(cents as real / 100.0, desk.limits);
      OrdersTotal(MovesBy(address), cents, count, BuyOf(row.address, unit), 0.0);
      OrdersTotal(SoldBy(address), cents, count, BuyOf(row.address, unit), 0.0);
    }
  }

  // ----- the whole plan ------------------------------------------------------------------------

  lemma {:induction false} InsertKeepsDistinct(row: Row, rows: seq<Row>)
    requires Distinct(rows) && forall r :: r in rows ==> r.address != row.address
    ensures Distinct(Insert(ByAddress, row, rows))
  {
    if rows != [] && !ByAddress(row, rows[0]) {
      InsertKeepsDistinct(row, rows[1..]);
      var rest := Insert(ByAddress, row, rows[1..]);
      forall r | r in rest ensures r.address != rows[0].address {
        assert r in multiset(rest);
        assert r == row || r in rows[1..];
      }
    }
  }

  lemma {:induction false} SortKeepsDistinct(rows: seq<Row>)
    requires Distinct(rows)
    ensures Distinct(Sort(ByAddress, rows))
  {
    if rows != [] {
      SortKeepsDistinct(rows[1..]);
      SortHolds(ByAddress, rows[1..]);
      InsertKeepsDistinct(rows[0], Sort(ByAddress, rows[1..]));
    }
  }

  lemma {:induction false} RaisesAddUp(nav: real, rows: seq<Row>)
    requires nav > 0.0
    ensures Sum(Raise(nav), rows) >= 0.0
  {
    if rows != [] {
      RaisesAddUp(nav, rows[..|rows| - 1]);
      RaiseFits(rows[|rows| - 1], nav);
    }
  }

  lemma SortedRows(proposal: Aggregate.Proposal) returns (rows: seq<Row>)
    requires Distinct(proposal.rows)
    ensures rows == Sort(ByAddress, proposal.rows) && Distinct(rows) && forall r :: r in rows <==> r in proposal.rows
  {
    rows := Sort(ByAddress, proposal.rows);
    SortKeepsDistinct(proposal.rows);
    SortHolds(ByAddress, proposal.rows);
  }

  /** The parts of a plan that was made: sells, then buys for a share of the raises. */
  lemma PlanParts(proposal: Aggregate.Proposal, desk: Desk)
    returns (rows: seq<Row>, sells: seq<Intent>, buys: seq<Intent>)
    requires TradesSomething(desk.limits) && proposal.rebalance && Distinct(proposal.rows)
    requires Planned(proposal, desk).Ok? && desk.book.navUsd > 0.0
    ensures Distinct(rows) && forall r :: r in rows <==> r in proposal.rows
    ensures sells == Blocks(SellOrders(desk), rows)
    ensures var plan := Planned(proposal, desk).value;
            && plan.orders == sells + buys && desk.cashUnit.Some?
            && plan.proceedsUsd == Total(IsWorth(), sells) && plan.wantedUsd == Sum(Raise(desk.book.navUsd), rows)
            && plan.wantedUsd >= 0.0
            && plan.funded == Gates.Fund(desk.book.cashUsd, plan.proceedsUsd, plan.wantedUsd, desk.limits)
            && (plan.funded.None? ==> buys == [])
            && (plan.funded.Some? ==> 0.0 <= plan.funded.value <= 1.0)
            && (plan.funded.Some? ==>
                  buys == Blocks(BuyOrders(desk, desk.cashUnit.value, plan.funded.value), rows))
  {
    rows := SortedRows(proposal);
    sells, buys := PlanIs(proposal, desk);
    RaisesAddUp(desk.book.navUsd, rows);
    var plan := Planned(proposal, desk).value;
    if plan.funded.Some? {
      Gates.FundKeepsFloor(desk.book.cashUsd, plan.proceedsUsd, plan.wantedUsd, desk.limits);
    }
  }

  lemma PlanIs(proposal: Aggregate.Proposal, desk: Desk) returns (sells: seq<Intent>, buys: seq<Intent>)
    requires TradesSomething(desk.limits) && proposal.rebalance && Planned(proposal, desk).Ok?
    ensures var plan, rows := Planned(proposal, desk).value, Sort(ByAddress, proposal.rows);
            && desk.cashUnit.Some? && sells == Blocks(SellOrders(desk), rows) && plan.orders == sells + buys
            && plan.proceedsUsd == Total(IsWorth(), sells) && plan.wantedUsd == Sum(Raise(desk.book.navUsd), rows)
            && plan.funded == Gates.Fund(desk.book.cashUsd, plan.proceedsUsd, plan.wantedUsd, desk.limits)
            && Bought(desk, desk.cashUnit.value, plan.funded, rows) == Ok(buys)
  {
    var plan, rows := Planned(proposal, desk).value, Sort(ByAddress, proposal.rows);
    sells := Blocks(SellOrders(desk), rows);
    buys := Bought(desk, desk.cashUnit.value, plan.funded, rows).value;
  }

  /** What an address's own row sells and buys is all that the plan trades of it. */
  lemma OnlyItsRow(desk: Desk, unit: Unit, share: real, rows: seq<Row>, row: Row)
    requires TradesSomething(desk.limits) && Distinct(rows)
    requires row in rows || forall r :: r in rows ==> r.address != row.address
    ensures var mine := if row in rows then SellOrders(desk)(row) else [];
            && Total(MovesBy(row.address), Blocks(SellOrders(desk), rows)) == Total(MovesBy(row.address), mine)
            && Total(SoldBy(row.address), Blocks(SellOrders(desk), rows)) == Total(SoldBy(row.address), mine)
    ensures var mine := if row in rows then BuyOrders(desk, unit, share)(row) else [];
            && Total(MovesBy(row.address), Blocks(BuyOrders(desk, unit, share), rows))
               == Total(MovesBy(row.address), mine)
            && Total(SoldBy(row.address), Blocks(BuyOrders(desk, unit, share), rows))
               == Total(SoldBy(row.address), mine)
  {
    forall r | r in rows && r.address != row.address
      ensures Total(MovesBy(row.address), SellOrders(desk)(r)) == 0.0
      ensures Total(MovesBy(row.address), BuyOrders(desk, unit, share)(r)) == 0.0
      ensures Total(SoldBy(row.address), SellOrders(desk)(r)) == 0.0
      ensures Total(SoldBy(row.address), BuyOrders(desk, unit, share)(r)) == 0.0
    {
      OthersUntouched(desk, unit, share, r, row.address);
    }
    if row in rows {
      var k :| 0 <= k < |rows| && rows[k] == row;
      forall i | 0 <= i < |rows| && i != k ensures rows[i] in rows && rows[i].address != row.address {
      }
      TotalOfRow(MovesBy(row.address), SellOrders(desk), rows, k);
      TotalOfRow(SoldBy(row.address), SellOrders(desk), rows, k);
      TotalOfRow(MovesBy(row.address), BuyOrders(desk, unit, share), rows, k);
      TotalOfRow(SoldBy(row.address), BuyOrders(desk, unit, share), rows, k);
    } else {
      TotalOfNone(MovesBy(row.address), SellOrders(desk), rows);
      TotalOfNone(SoldBy(row.address), SellOrders(desk), rows);
      TotalOfNone(MovesBy(row.address), BuyOrders(desk, unit, share), rows);
      TotalOfNone(SoldBy(row.address), BuyOrders(desk, unit, share), rows);
    }
  }

  /** What a plan makes of a position. */
  function AfterPlan(plan: Plan, book: Book, address: Address): real {
    ValueOf(book, address) + Total(MovesBy(address), plan.orders)
  }

  lemma BuysSellNothing(address: Address, desk: Desk, unit: Unit, share: real, row: Row)
    requires TradesSomething(desk.limits) && row.address == address
    ensures Total(SoldBy(address), BuyOrders(desk, unit, share)(row)) == 0.0
  {
    if Rises(row) && Resolved(desk.limits) {
      var cents := FundedCents(row, desk.book.navUsd, share);
      OrdersTotal(SoldBy(address), cents, SplitOf(cents as real / 100.0, desk.limits), BuyOf(row.address, unit), 0.0);
    }
  }

  /** Each position ends between where it was and its target, and no more is sold than is held. */
  lemma EachPositionStaysBetween(proposal: Aggregate.Proposal, desk: Desk, row: Row)
    requires TradesSomething(desk.limits) && Marked(desk.book, desk.units)
    requires proposal.rebalance && Distinct(proposal.rows) && Planned(proposal, desk).Ok?
    requires row in proposal.rows && row.target >= 0.0 && Weighed(row, desk.book)
    ensures var plan := Planned(proposal, desk).value;
            var before, after := ValueOf(desk.book, row.address), AfterPlan(plan, desk.book, row.address);
            var target := Part(row.target, desk.book.navUsd);
            && (Falls(row) ==> target <= after <= before)
            && (Rises(row) ==> before <= after <= target)
            && (!Falls(row) && !Rises(row) ==> after == before)
            && 0.0 <= Total(SoldBy(row.address), plan.orders) <= HeldOf(desk.book, row.address) as real
  {
    var plan := Planned(proposal, desk).value;
    var rows, sells, buys := PlanParts(proposal, desk);
    var unit := desk.cashUnit.value;
    var share := if plan.funded.Some? then plan.funded.value else 0.0;
    OnlyItsRow(desk, unit, share, rows, row);
    TotalAdds(MovesBy(row.address), sells, buys);
    TotalAdds(SoldBy(row.address), sells, buys);
    BuysOfRow(desk, unit, share, row);
    BuysSellNothing(row.address, desk, unit, share, row);
    RaiseFits(row, desk.book.navUsd);
    ShareFits(share, Raise(desk.book.navUsd)(row));
    if Falls(row) {
      SellsOfRow(desk, row);
    }
  }

  lemma NoRowNoTrade(desk: Desk, unit: Unit, share: real, rows: seq<Row>, address: Address)
    requires TradesSomething(desk.limits) && Distinct(rows) && forall r :: r in rows ==> r.address != address
    ensures Total(MovesBy(address), Blocks(SellOrders(desk), rows)) == 0.0
    ensures Total(MovesBy(address), Blocks(BuyOrders(desk, unit, share), rows)) == 0.0
  {
    var none := Aggregate.Row(address, None, 0.0, 0.0);
    assert none !in rows;
    OnlyItsRow(desk, unit, share, rows, none);
  }

  /** A position no row speaks of is not traded. */
  lemma OtherPositionsStay(proposal: Aggregate.Proposal, desk: Desk, address: Address)
    requires TradesSomething(desk.limits) && desk.book.navUsd > 0.0
    requires proposal.rebalance && Distinct(proposal.rows) && Planned(proposal, desk).Ok?
    requires forall r :: r in proposal.rows ==> r.address != address
    ensures AfterPlan(Planned(proposal, desk).value, desk.book, address) == ValueOf(desk.book, address)
  {
    var plan := Planned(proposal, desk).value;
    var rows, sells, buys := PlanParts(proposal, desk);
    TotalAdds(MovesBy(address), sells, buys);
    NoRowNoTrade(desk, desk.cashUnit.value, if plan.funded.Some? then plan.funded.value else 0.0, rows, address);
  }

  // ----- the cash floor ------------------------------------------------------------------------

  lemma {:induction false} TotalAgrees(f: Intent -> real, g: Intent -> real, sign: real, s: seq<Intent>)
    requires sign == 1.0 || sign == -1.0
    requires forall i :: i in s ==> f(i) == sign * g(i)
    ensures Total(f, s) == sign * Total(g, s)
  {
    if s != [] {
      TotalAgrees(f, g, sign, s[..|s| - 1]);
    }
  }

  /** What one order of a row is: its side, and a worth the marks give it. */
  lemma SellIs(desk: Desk, rows: seq<Row>, i: Intent) returns (row: Row)
    requires TradesSomething(desk.limits) && i in Blocks(SellOrders(desk), rows)
    ensures i.side == Settle.Sell && i.address in desk.units && i.usd == Worth(i.raw, desk.units[i.address])
    ensures row in rows && Falls(row) && row.address == i.address
  {
    row := InBlocks(SellOrders(desk), rows, i);
    var sold, count := SellsAre(desk, row);
    BlockAt(sold, count, SellOf(row.address, desk.units[row.address]), count);
  }

  lemma BuyIs(desk: Desk, unit: Unit, share: real, rows: seq<Row>, i: Intent) returns (row: Row)
    requires TradesSomething(desk.limits) && i in Blocks(BuyOrders(desk, unit, share), rows)
    ensures i.side == Settle.Buy && i.usd == Worth(i.raw, unit)
    ensures row in rows && Rises(row) && row.address == i.address
  {
    row := InBlocks(BuyOrders(desk, unit, share), rows, i);
    var cents := FundedCents(row, desk.book.navUsd, share);
    var count := SplitOf(cents as real / 100.0, desk.limits);
    BlockAt(cents, count, BuyOf(row.address, unit), count);
  }

  function ShareOf(share: real, nav: real): Row -> real {
    (row: Row) => Part(share, Raise(nav)(row))
  }

  lemma {:induction false} SharesAddUp(share: real, nav: real, rows: seq<Row>)
    ensures Sum(ShareOf(share, nav), rows) == Part(share, Sum(Raise(nav), rows))
  {
    if rows != [] {
      var n := |rows| - 1;
      SharesAddUp(share, nav, rows[..n]);
      PartAdds(share, Sum(Raise(nav), rows[..n]), Raise(nav)(rows[n]));
    }
  }

  lemma PartAdds(share: real, a: real, b: real)
    ensures Part(share, a + b) == Part(share, a) + Part(share, b)
  {
  }

  /** All the buys together cost at most what is wanted times the share that is funded. */
  lemma BuysCost(desk: Desk, unit: Unit, share: real, rows: seq<Row>)
    requires TradesSomething(desk.limits) && desk.book.navUsd > 0.0 && 0.0 <= share <= 1.0
    ensures 0.0 <= Total(IsWorth(), Blocks(BuyOrders(desk, unit, share), rows))
                <= Part(share, Sum(Raise(desk.book.navUsd), rows))
  {
    forall r | r in rows
      ensures 0.0 <= Total(IsWorth(), BuyOrders(desk, unit, share)(r)) <= ShareOf(share, desk.book.navUsd)(r)
    {
      BuysOfRow(desk, unit, share, r);
    }
    TotalBetween(IsWorth(), BuyOrders(desk, unit, share), ShareOf(share, desk.book.navUsd), rows);
    SharesAddUp(share, desk.book.navUsd, rows);
  }

  lemma FundedWithinSpare(cash: real, proceeds: real, wanted: real, limits: Gates.Limits, share: real, cost: real)
    requires wanted >= 0.0 && Gates.Fund(cash, proceeds, wanted, limits) == Some(share)
    requires cost <= Part(share, wanted)
    ensures var ready := cash + proceeds;
            ready - cost >= if ready <= limits.cashFloorUsd.value then ready else limits.cashFloorUsd.value
  {
    Gates.FundKeepsFloor(cash, proceeds, wanted, limits);
  }

  lemma SellsRaise(desk: Desk, rows: seq<Row>)
    requires TradesSomething(desk.limits)
    ensures var sells := Blocks(SellOrders(desk), rows); Total(AddsToCash(), sells) == Total(IsWorth(), sells)
  {
    var sells := Blocks(SellOrders(desk), rows);
    forall i | i in sells ensures AddsToCash()(i) == 1.0 * IsWorth()(i) { var row := SellIs(desk, rows, i); }
    TotalAgrees(AddsToCash(), IsWorth(), 1.0, sells);
  }

  lemma BuysTake(desk: Desk, unit: Unit, share: real, rows: seq<Row>)
    requires TradesSomething(desk.limits)
    ensures var buys := Blocks(BuyOrders(desk, unit, share), rows);
            Total(AddsToCash(), buys) == -Total(IsWorth(), buys)
  {
    var buys := Blocks(BuyOrders(desk, unit, share), rows);
    forall i | i in buys ensures AddsToCash()(i) == -1.0 * IsWorth()(i) {
      var row := BuyIs(desk, unit, share, rows, i);
    }
    TotalAgrees(AddsToCash(), IsWorth(), -1.0, buys);
  }

  function CashAfterPlan(plan: Plan, book: Book): real { book.cashUsd + Total(AddsToCash(), plan.orders) }

  /** A plan's cash is what it had and its sells raise, less its buys; and it cannot break its own floor. */
  lemma PlanKeepsFloor(proposal: Aggregate.Proposal, desk: Desk)
    requires TradesSomething(desk.limits) && desk.book.navUsd > 0.0
    requires proposal.rebalance && Distinct(proposal.rows) && Planned(proposal, desk).Ok?
    ensures var plan := Planned(proposal, desk).value;
            var ready := desk.book.cashUsd + plan.proceedsUsd;
            && CashAfterPlan(plan, desk.book) <= ready
            && (desk.limits.cashFloorUsd.None? ==> CashAfterPlan(plan, desk.book) == ready)
            && (desk.limits.cashFloorUsd.Some? ==>
                  var floor := desk.limits.cashFloorUsd.value;
                  CashAfterPlan(plan, desk.book) >= if ready <= floor then ready else floor)
  {
    var plan := Planned(proposal, desk).value;
    var rows, sells, buys := PlanParts(proposal, desk);
    TotalAdds(AddsToCash(), sells, buys);
    SellsRaise(desk, rows);
    if plan.funded.Some? {
      var share := plan.funded.value;
      BuysTake(desk, desk.cashUnit.value, share, rows);
      BuysCost(desk, desk.cashUnit.value, share, rows);
      FundedWithinSpare(desk.book.cashUsd, plan.proceedsUsd, plan.wantedUsd,
                        desk.limits, share, Total(IsWorth(), buys));
    }
  }

  // ----- the floor drops nothing ---------------------------------------------------------------

  /** The plan's orders as the floor is given them: numbered from one. */
  function Numbered(orders: seq<Intent>): Settle.Orders {
    map i | 1 <= i <= |orders| :: OrderAt(orders, i)
  }

  function OrderAt(orders: seq<Intent>, i: int): Settle.Order
    requires 1 <= i <= |orders|
  {
    Settle.Order(orders[i - 1].side, Some(orders[i - 1].usd))
  }

  function From(first: int, last: int): seq<int>
    decreases last - first
  {
    if first > last then [] else [first] + From(first + 1, last)
  }

  lemma {:induction false} FloorSeesThePlan(orders: seq<Intent>, k: nat)
    requires k <= |orders|
    ensures Settle.Projected(Numbered(orders), {}, From(k + 1, |orders|))
         == Total(AddsToCash(), orders) - Total(AddsToCash(), orders[..k])
    decreases |orders| - k
  {
    if k == |orders| {
      assert orders[..k] == orders;
    } else {
      FloorSeesThePlan(orders, k + 1);
      assert orders[..k + 1] == orders[..k] + [orders[k]];
      TotalOne(AddsToCash(), orders[..k], orders[k]);
      assert From(k + 1, |orders|)[1..] == From(k + 2, |orders|);
    }
  }

  /** With every order approved, the floor drops none of them when cash and proceeds reach it. */
  lemma FloorDropsNothing(proposal: Aggregate.Proposal, desk: Desk)
    requires TradesSomething(desk.limits) && desk.book.navUsd > 0.0
    requires proposal.rebalance && Distinct(proposal.rows) && Planned(proposal, desk).Ok?
    requires desk.limits.cashFloorUsd.Some?
    requires desk.book.cashUsd + Planned(proposal, desk).value.proceedsUsd >= desk.limits.cashFloorUsd.value
    ensures var orders := Planned(proposal, desk).value.orders;
            var all := From(1, |orders|);
            Settle.Dropping(Numbered(orders), {}, desk.book.cashUsd, desk.limits.cashFloorUsd, all, [])
            == Settle.Settlement(all, [], Some(true))
  {
    var orders := Planned(proposal, desk).value.orders;
    PlanKeepsFloor(proposal, desk);
    FloorSeesThePlan(orders, 0);
  }

  // ----- what the gates make of it ------------------------------------------------------------

  /** Every order is worth what the plan says it is, by the marks the gates read. */
  lemma OrderIsValued(proposal: Aggregate.Proposal, desk: Desk, i: Intent) returns (row: Row)
    requires TradesSomething(desk.limits) && desk.book.navUsd > 0.0
    requires proposal.rebalance && Distinct(proposal.rows) && Planned(proposal, desk).Ok?
    requires i in Planned(proposal, desk).value.orders
    ensures OrderWorth(desk, i) == Some(i.usd)
    ensures row in proposal.rows && row.address == i.address
    ensures if i.side == Settle.Buy then Rises(row) else Falls(row)
  {
    var plan := Planned(proposal, desk).value;
    var rows, sells, buys := PlanParts(proposal, desk);
    if i in sells {
      row := SellIs(desk, rows, i);
    } else {
      row := BuyIs(desk, desk.cashUnit.value, plan.funded.value, rows, i);
    }
  }

  lemma MovesMatch(desk: Desk, address: Address, i: Intent)
    requires OrderWorth(desk, i) == Some(i.usd)
    ensures MovesAt(desk, address)(i) == MovesBy(address)(i)
  {
  }

  /** The gates' own figure for a position after the plan is the planner's. */
  lemma GatesSeeThePlan(proposal: Aggregate.Proposal, desk: Desk, address: Address)
    requires TradesSomething(desk.limits) && desk.book.navUsd > 0.0
    requires proposal.rebalance && Distinct(proposal.rows) && Planned(proposal, desk).Ok?
    ensures var plan := Planned(proposal, desk).value;
            Ends(desk, plan.orders, address) == AfterPlan(plan, desk.book, address)
  {
    var orders := Planned(proposal, desk).value.orders;
    forall i | i in orders ensures OrderWorth(desk, i) == Some(i.usd) {
      var row := OrderIsValued(proposal, desk, i);
    }
    ValuesAgree(desk, orders, address);
  }

  lemma ValuesAgree(desk: Desk, orders: seq<Intent>, address: Address)
    requires forall i :: i in orders ==> OrderWorth(desk, i) == Some(i.usd)
    ensures Total(MovesAt(desk, address), orders) == Total(MovesBy(address), orders)
  {
    forall i | i in orders ensures MovesAt(desk, address)(i) == 1.0 * MovesBy(address)(i) {
      MovesMatch(desk, address, i);
    }
    TotalAgrees(MovesAt(desk, address), MovesBy(address), 1.0, orders);
  }

  lemma ShareWithin(value: real, nav: real, target: real, limit: real)
    requires nav > 0.0 && value <= Part(target, nav) && target <= limit
    ensures value / nav <= limit
  {
    Gates.Scale(target, limit, nav);
    assert value / nav * nav == value;
    Gates.ScaleBack(value / nav, limit, nav);
  }

  /** No order of a plan whose targets keep the position limit is stopped by that limit. */
  lemma PlanPassesPositionWeight(proposal: Aggregate.Proposal, desk: Desk, i: Intent)
    requires TradesSomething(desk.limits) && Marked(desk.book, desk.units)
    requires proposal.rebalance && Distinct(proposal.rows) && Planned(proposal, desk).Ok?
    requires forall r :: r in proposal.rows ==> r.target >= 0.0 && Weighed(r, desk.book)
    requires forall r :: r in proposal.rows && Rises(r) ==>
               desk.limits.maxPositionWeight.Some? && r.target <= desk.limits.maxPositionWeight.value
    requires i in Planned(proposal, desk).value.orders
    ensures PositionWeight(Ends(desk, Planned(proposal, desk).value.orders, i.address) / desk.book.navUsd,
                           i.side, desk.limits) == Some(true)
  {
    var plan := Planned(proposal, desk).value;
    var row := OrderIsValued(proposal, desk, i);
    GatesSeeThePlan(proposal, desk, i.address);
    if i.side == Settle.Buy {
      EachPositionStaysBetween(proposal, desk, row);
      ShareWithin(AfterPlan(plan, desk.book, i.address), desk.book.navUsd, row.target,
                  desk.limits.maxPositionWeight.value);
    }
  }

  // ----- the per-trade limit -------------------------------------------------------------------

  lemma LargestPart(sold: int, parts: int)
    requires parts > 0 && sold >= 0
    ensures parts * EvenPart(sold, parts, 0) == sold + (-sold) % parts
    ensures forall k: nat :: k < parts ==> EvenPart(sold, parts, k) <= EvenPart(sold, parts, 0)
  {
    EvenPartsAreEven(sold, parts);
    var base, extra := sold / parts, sold % parts;
    assert sold == parts * base + extra;
    RoundedUp(parts, base, extra);
  }

  /** What rounding up to a whole number of parts adds. */
  lemma RoundedUp(parts: int, base: int, extra: int)
    requires parts > 0 && 0 <= extra < parts
    ensures (-(parts * base + extra)) % parts == if extra == 0 then 0 else parts - extra
  {
    if extra == 0 {
      QuotientIs(-(parts * base), parts, -base, 0);
    } else {
      QuotientIs(-(parts * base + extra), parts, -base - 1, parts - extra);
    }
  }

  lemma QuotientIs(a: int, d: int, q: int, r: int)
    requires d > 0 && a == d * q + r && 0 <= r < d
    ensures a % d == r && a / d == q
  {
    var e := a / d - q;
    assert d * (a / d) == d * q + d * e;
    assert -d < d * e < d;
    assert e >= 1 ==> d * e >= d;
    assert e <= -1 ==> d * e <= -d;
  }

  lemma WorthOfMany(n: int, part: int, unit: Unit)
    ensures Worth(n * part, unit) == n as real * Worth(part, unit)
  {
  }

  /** Every part is within the limit exactly when the whole, with each part rounded up, is within all the limits. */
  lemma SellPartsFit(sold: int, unit: Unit, parts: int, limit: real)
    requires parts > 0 && sold >= 0
    ensures (forall k: nat :: k < parts ==> Worth(EvenPart(sold, parts, k), unit) <= limit)
       <==> Worth(sold, unit) + Worth((-sold) % parts, unit) <= parts as real * limit
  {
    var largest := EvenPart(sold, parts, 0);
    LargestPart(sold, parts);
    WorthAdds(sold, (-sold) % parts, unit);
    WorthOfMany(parts, largest, unit);
    ScaleBoth(parts as real, Worth(largest, unit), limit);
    if Worth(largest, unit) <= limit {
      forall k: nat | k < parts ensures Worth(EvenPart(sold, parts, k), unit) <= limit {
        WorthGrows(EvenPart(sold, parts, k), largest, unit);
      }
    } else {
      var zero: nat := 0;
      assert Worth(EvenPart(sold, parts, zero), unit) > limit;
    }
  }

  lemma ScaleBoth(n: real, a: real, b: real)
    requires n > 0.0
    ensures a <= b <==> n * a <= n * b
  {
    if a <= b {
      Gates.Scale(a, b, n);
    } else {
      Gates.Scale(b, a, n);
    }
  }

  /** However a sale is split, no part reaches the limit and one raw unit more. */
  lemma SellPartsAlmostFit(sold: int, unit: Unit, limits: Gates.Limits, k: nat)
    requires TradesSomething(limits) && Resolved(limits) && sold >= 0
    requires k < SplitOf(Worth(sold, unit), limits)
    ensures Worth(EvenPart(sold, SplitOf(Worth(sold, unit), limits), k), unit) < limits.maxTradeUsd.value + unit
  {
    var parts := SplitOf(Worth(sold, unit), limits);
    WorthGrows(0, sold, unit);
    Gates.SplitIsFewest(Worth(sold, unit), limits, parts);
    LargestPart(sold, parts);
    RoundingCostsLessThanOneEach(sold, unit, parts, EvenPart(sold, parts, 0),
                                 (-sold) % parts, limits.maxTradeUsd.value);
    WorthGrows(EvenPart(sold, parts, k), EvenPart(sold, parts, 0), unit);
  }

  lemma RoundingCostsLessThanOneEach(sold: int, unit: Unit, parts: int, largest: int, added: int, limit: real)
    requires 0 <= added < parts && parts * largest == sold + added
    requires Worth(sold, unit) <= parts as real * limit
    ensures Worth(largest, unit) < limit + unit
  {
    WorthOfMany(parts, largest, unit);
    WorthAdds(sold, added, unit);
    WorthGrows(added, parts, unit);
    Distribute(parts as real, limit, unit);
    ScaleBackStrictly(Worth(largest, unit), limit + unit, parts as real);
  }

  lemma Distribute(n: real, a: real, b: real)
    ensures n * (a + b) == n * a + n * b && n * b == b * n
  {
  }

  lemma ScaleBackStrictly(a: real, b: real, n: real)
    requires n > 0.0 && n * a < n * b
    ensures a < b
  {
    if a >= b {
      Gates.Scale(b, a, n);
    }
  }

  const THREE_UNITS := Gates.Limits(Some(1.0), Some(0.0), Some(0.0), Some(1.5), Some(10000.0))

  /** Three units of a dollar each under a limit of a dollar and a half: two parts, and the first is too large. */
  lemma SellPartCanPassTheLimit()
    ensures SplitOf(Worth(3, 1.0), THREE_UNITS) == 2
    ensures OrderSize(Some(Worth(EvenPart(3, 2, 0), 1.0)), THREE_UNITS) == Some(false)
  {
    assert Worth(3, 1.0) / 1.5 == 2.0;
  }

  /** Under a limit of whole cents every buy is within it. */
  lemma BuyPartsFit(cents: nat, address: Address, unit: Unit, limits: Gates.Limits, wholeCents: nat, k: nat)
    requires TradesSomething(limits) && Resolved(limits) && limits.maxTradeUsd.value * 100.0 == wholeCents as real
    requires k < SplitOf(cents as real / 100.0, limits)
    ensures BuyOf(address, unit)(EvenPart(cents, SplitOf(cents as real / 100.0, limits), k)).usd
            <= limits.maxTradeUsd.value
  {
    var parts := SplitOf(cents as real / 100.0, limits);
    Gates.SplitIsFewest(cents as real / 100.0, limits, parts);
    CentsOfMany(cents, parts, limits.maxTradeUsd.value, wholeCents);
    PartOfCents(cents, parts, k, wholeCents);
    BuyWithinCents(address, unit, EvenPart(cents, parts, k));
    CentsWithin(EvenPart(cents, parts, k), wholeCents, limits.maxTradeUsd.value);
  }

  lemma BuysGrow(address: Address, unit: Unit, a: nat, b: nat)
    requires a <= b
    ensures BuyOf(address, unit)(a).usd <= BuyOf(address, unit)(b).usd
  {
    var x, y := a as real / 100.0, b as real / 100.0;
    UnitsFit(x, unit);
    UnitsFit(y, unit);
    WorthGrows(UnitsOf(x, unit), UnitsOf(y, unit) + 1, unit);
    WorthGrows(UnitsOf(x, unit), UnitsOf(y, unit), unit);
  }

  /** The largest of so many parts, in whole cents. */
  function Ceiling(cents: int, parts: int): int
    requires parts > 0
  {
    (cents + (-cents) % parts) / parts
  }

  lemma CeilingIsLargest(cents: int, parts: int)
    requires parts > 0 && cents >= 0
    ensures Ceiling(cents, parts) == EvenPart(cents, parts, 0) >= 0
    ensures forall k: nat :: k < parts ==> 0 <= EvenPart(cents, parts, k) <= Ceiling(cents, parts)
  {
    LargestPart(cents, parts);
    QuotientIs(cents + (-cents) % parts, parts, EvenPart(cents, parts, 0), 0);
  }

  /** Whole units are worth no more than an amount exactly when the amount buys as many. */
  lemma UnitsWithin(units: int, usd: real, unit: Unit)
    requires usd >= 0.0
    ensures Worth(units, unit) <= usd <==> units <= UnitsOf(usd, unit)
  {
    UnitsFit(usd, unit);
    WorthGrows(units, UnitsOf(usd, unit), unit);
    WorthGrows(UnitsOf(usd, unit) + 1, units, unit);
  }

  /** Under any limit, every part of a buy is within it exactly when the largest, in whole cents, buys no
      more units of cash than the limit does. */
  lemma BuyPartsFitExactly(cents: int, address: Address, unit: Unit, parts: int, limit: real)
    requires parts > 0 && cents >= 0
    ensures (forall k: nat :: k < parts ==> BuyOf(address, unit)(EvenPart(cents, parts, k)).usd <= limit)
       <==> limit >= 0.0 && UnitsOf(Ceiling(cents, parts) as real / 100.0, unit) <= UnitsOf(limit, unit)
  {
    CeilingIsLargest(cents, parts);
    var largest := Ceiling(cents, parts);
    BuyWithinCents(address, unit, largest);
    if limit >= 0.0 {
      UnitsWithin(UnitsOf(largest as real / 100.0, unit), limit, unit);
    }
    if BuyOf(address, unit)(largest).usd <= limit {
      forall k: nat | k < parts ensures BuyOf(address, unit)(EvenPart(cents, parts, k)).usd <= limit {
        BuysGrow(address, unit, EvenPart(cents, parts, k), largest);
      }
    } else {
      var zero: nat := 0;
      assert BuyOf(address, unit)(EvenPart(cents, parts, zero)).usd > limit;
    }
  }

  const HALF_CENTS := Gates.Limits(Some(1.0), Some(0.0), Some(0.0), Some(1.505), Some(10000.0))

  /** Three dollars and a cent under a limit with half a cent in it: two parts, and the first is too large. */
  lemma BuyPartCanPassTheLimit(address: Address)
    ensures SplitOf(3.01, HALF_CENTS) == 2
    ensures OrderSize(Some(BuyOf(address, 0.01)(EvenPart(301, 2, 0)).usd), HALF_CENTS) == Some(false)
  {
    assert 3.01 / 1.505 == 2.0 && 1.51 / 0.01 == 151.0;
  }

  lemma PartOfCents(cents: nat, parts: int, k: nat, wholeCents: nat)
    requires k < parts && cents <= parts * wholeCents
    ensures 0 <= EvenPart(cents, parts, k) <= wholeCents
  {
    LargestPartFits(cents, parts, wholeCents);
    LargestPart(cents, parts);
  }

  lemma CentsWithin(part: int, wholeCents: int, limit: real)
    requires part <= wholeCents && limit * 100.0 == wholeCents as real
    ensures Worth(part, 0.01) <= limit
  {
  }

  lemma CentsOfMany(cents: nat, parts: int, limit: real, wholeCents: nat)
    requires cents as real / 100.0 <= parts as real * limit && limit * 100.0 == wholeCents as real
    ensures cents <= parts * wholeCents
  {
    assert parts as real * limit * 100.0 == parts as real * wholeCents as real;
    assert parts as real * wholeCents as real == (parts * wholeCents) as real;
  }

  // ----- every order against the per-trade limit -----------------------------------------------

  lemma {:induction false} BlocksHold(ordersOf: Row -> seq<Intent>, rows: seq<Row>, row: Row, i: Intent)
    requires row in rows && i in ordersOf(row)
    ensures i in Blocks(ordersOf, rows)
  {
    if row in rows[..|rows| - 1] {
      BlocksHold(ordersOf, rows[..|rows| - 1], row, i);
    } else {
      assert rows == rows[..|rows| - 1] + [rows[|rows| - 1]];
    }
  }

  /** A plan's buy, as one of the orders of the rows it was made of. */
  lemma PlanBuy(proposal: Aggregate.Proposal, desk: Desk, i: Intent) returns (rows: seq<Row>, share: real)
    requires TradesSomething(desk.limits) && desk.book.navUsd > 0.0
    requires proposal.rebalance && Distinct(proposal.rows) && Planned(proposal, desk).Ok?
    requires i in Planned(proposal, desk).value.orders && i.side == Settle.Buy
    ensures desk.cashUnit.Some? && 0.0 <= share <= 1.0
    ensures i in Blocks(BuyOrders(desk, desk.cashUnit.value, share), rows) && OrderWorth(desk, i) == Some(i.usd)
  {
    var plan := Planned(proposal, desk).value;
    var row := OrderIsValued(proposal, desk, i);
    var all, sells, buys := PlanParts(proposal, desk);
    if i in sells {
      var seller := SellIs(desk, all, i);
      assert false;
    }
    rows, share := all, plan.funded.value;
  }

  /** Under a limit of whole cents, no buy of a plan is refused for its size. */
  lemma PlanBuysPassOrderSize(proposal: Aggregate.Proposal, desk: Desk, i: Intent, wholeCents: nat)
    requires TradesSomething(desk.limits) && desk.book.navUsd > 0.0
    requires proposal.rebalance && Distinct(proposal.rows) && Planned(proposal, desk).Ok?
    requires i in Planned(proposal, desk).value.orders && i.side == Settle.Buy
    requires desk.limits.maxTradeUsd.Some? ==> desk.limits.maxTradeUsd.value * 100.0 == wholeCents as real
    ensures OrderSize(OrderWorth(desk, i), desk.limits) == Some(true)
  {
    var rows, share := PlanBuy(proposal, desk, i);
    BuyFits(desk, desk.cashUnit.value, share, rows, i, wholeCents);
  }

  lemma BuyFits(desk: Desk, unit: Unit, share: real, rows: seq<Row>, i: Intent, wholeCents: nat)
    requires TradesSomething(desk.limits) && desk.book.navUsd > 0.0 && 0.0 <= share <= 1.0
    requires i in Blocks(BuyOrders(desk, unit, share), rows)
    requires desk.limits.maxTradeUsd.Some? ==> desk.limits.maxTradeUsd.value * 100.0 == wholeCents as real
    ensures desk.limits.maxTradeUsd.Some? && i.usd <= desk.limits.maxTradeUsd.value
  {
    var row := InBlocks(BuyOrders(desk, unit, share), rows, i);
    var cents := FundedCents(row, desk.book.navUsd, share);
    var count := SplitOf(cents as real / 100.0, desk.limits);
    BlockAt(cents, count, BuyOf(row.address, unit), count);
    var k: nat :| k < count && i == BuyOf(row.address, unit)(EvenPart(cents, count, k));
    RaiseFits(row, desk.book.navUsd);
    ShareFits(share, Raise(desk.book.navUsd)(row));
    CentsFit(Part(share, Raise(desk.book.navUsd)(row)));
    BuyPartsFit(cents, row.address, unit, desk.limits, wholeCents, k);
  }

  /** What a sale's parts, each rounded up to the largest, are worth beyond so many limits. */
  function Beyond(sold: int, unit: Unit, count: int, limit: real): real
    requires count != 0
  {
    Worth(sold, unit) + Worth((-sold) % count, unit) - count as real * limit
  }

  /** Whether a row's sale, each part rounded up to the largest, is within as many limits as it has parts. */
  predicate SaleFits(desk: Desk, row: Row)
    requires TradesSomething(desk.limits)
  {
    Falls(row) && row.address in desk.units && Resolved(desk.limits) ==>
      var unit := desk.units[row.address];
      var sold := SoldUnits(row, HeldOf(desk.book, row.address), desk.book.navUsd, unit);
      var count := if sold != 0 then SplitOf(Worth(sold, unit), desk.limits) else 0;
      count > 0 ==> Beyond(sold, unit, count, desk.limits.maxTradeUsd.value) <= 0.0
  }

  /** A row that can be sold at all: what is sold, in how many orders, and whether that fits. */
  lemma SaleIs(desk: Desk, row: Row, fits: bool) returns (sold: int, count: int)
    requires TradesSomething(desk.limits) && Falls(row) && row.address in desk.units && Resolved(desk.limits)
    requires fits == SaleFits(desk, row)
    ensures sold == SoldUnits(row, HeldOf(desk.book, row.address), desk.book.navUsd, desk.units[row.address])
    ensures SellOrders(desk)(row) == Orders(sold, count, SellOf(row.address, desk.units[row.address]))
    ensures fits <==> (count > 0 ==>
              Beyond(sold, desk.units[row.address], count, desk.limits.maxTradeUsd.value) <= 0.0)
  {
    var unit := desk.units[row.address];
    sold := SoldUnits(row, HeldOf(desk.book, row.address), desk.book.navUsd, unit);
    count := if sold != 0 then SplitOf(Worth(sold, unit), desk.limits) else 0;
  }

  lemma SaleFitsItsOrders(desk: Desk, row: Row, orders: seq<Intent>, fits: bool)
    requires TradesSomething(desk.limits) && Marked(desk.book, desk.units)
    requires Falls(row) && row.target >= 0.0 && Weighed(row, desk.book)
    requires orders == SellOrders(desk)(row) && fits == SaleFits(desk, row)
    ensures fits <==>
            forall i :: i in orders ==> desk.limits.maxTradeUsd.Some? && i.usd <= desk.limits.maxTradeUsd.value
  {
    if row.address in desk.units && Resolved(desk.limits) {
      SoldNotNegative(desk, row);
      var sold, count := SaleIs(desk, row, fits);
      OrdersFit(row.address, desk.units[row.address], sold, count, desk.limits.maxTradeUsd, orders, fits);
    } else {
      NothingToSell(desk, row);
    }
  }

  lemma NothingToSell(desk: Desk, row: Row)
    requires TradesSomething(desk.limits) && !(row.address in desk.units && Resolved(desk.limits))
    ensures SaleFits(desk, row) && SellOrders(desk)(row) == []
  {
  }

  lemma OrdersFit(address: Address, unit: Unit, sold: int, count: int, limit: Option<real>, orders: seq<Intent>,
                  fits: bool)
    requires sold >= 0 && limit.Some? && orders == Orders(sold, count, SellOf(address, unit))
    requires fits <==> (count > 0 ==> Beyond(sold, unit, count, limit.value) <= 0.0)
    ensures (forall i :: i in orders ==> limit.Some? && i.usd <= limit.value) <==> fits
  {
    if count > 0 {
      PartsFitTheirOrders(address, unit, sold, count, limit.value);
    }
  }

  lemma SoldNotNegative(desk: Desk, row: Row)
    requires Marked(desk.book, desk.units) && row.address in desk.units
    requires Falls(row) && row.target >= 0.0 && Weighed(row, desk.book)
    ensures SoldUnits(row, HeldOf(desk.book, row.address), desk.book.navUsd, desk.units[row.address]) >= 0
  {
    var unit, held := desk.units[row.address], HeldOf(desk.book, row.address);
    WorthAdds(0, 0, unit);
    assert ValueOf(desk.book, row.address) == Worth(held, unit);
    SoldWithinCut(row, held, desk.book.navUsd, unit);
  }

  lemma PartsFitTheirOrders(address: Address, unit: Unit, sold: int, count: int, limit: real)
    requires sold >= 0 && count > 0
    ensures (forall i :: i in Orders(sold, count, SellOf(address, unit)) ==> i.usd <= limit)
       <==> Worth(sold, unit) + Worth((-sold) % count, unit) <= count as real * limit
  {
    var orders := Orders(sold, count, SellOf(address, unit));
    BlockAt(sold, count, SellOf(address, unit), count);
    SellPartsFit(sold, unit, count, limit);
    if forall i :: i in orders ==> i.usd <= limit {
      forall k: nat | k < count ensures Worth(EvenPart(sold, count, k), unit) <= limit {
        assert orders[k] in orders;
      }
    }
  }

  /** Among rows of different assets, the sells of an asset are those of its row. */
  lemma SellsOfOneRow(desk: Desk, rows: seq<Row>, row: Row, i: Intent)
    requires TradesSomething(desk.limits) && Distinct(rows) && row in rows
    ensures i in Blocks(SellOrders(desk), rows) && i.address == row.address <==> i in SellOrders(desk)(row)
    ensures i in SellOrders(desk)(row) ==> i.side == Settle.Sell && OrderWorth(desk, i) == Some(i.usd)
  {
    if i in Blocks(SellOrders(desk), rows) && i.address == row.address {
      var from := InBlocks(SellOrders(desk), rows, i);
      RowOfOrder(desk, from, i);
      assert from == row;
    }
    if i in SellOrders(desk)(row) {
      RowOfOrder(desk, row, i);
      BlocksHold(SellOrders(desk), rows, row, i);
    }
  }

  lemma RowOfOrder(desk: Desk, row: Row, i: Intent)
    requires TradesSomething(desk.limits) && i in SellOrders(desk)(row)
    ensures i.side == Settle.Sell && i.address == row.address && OrderWorth(desk, i) == Some(i.usd)
  {
    var sold, count := SellsAre(desk, row);
    BlockAt(sold, count, SellOf(row.address, desk.units[row.address]), count);
  }

  lemma PlanSellsOfRow(proposal: Aggregate.Proposal, desk: Desk, row: Row, i: Intent)
    requires TradesSomething(desk.limits) && desk.book.navUsd > 0.0 && row in proposal.rows
    requires proposal.rebalance && Distinct(proposal.rows) && Planned(proposal, desk).Ok?
    ensures i in Planned(proposal, desk).value.orders && i.side == Settle.Sell && i.address == row.address
       <==> i in SellOrders(desk)(row)
    ensures i in SellOrders(desk)(row) ==> OrderWorth(desk, i) == Some(i.usd)
  {
    var plan := Planned(proposal, desk).value;
    var rows, sells, buys := PlanParts(proposal, desk);
    SellsOfOneRow(desk, rows, row, i);
    if i in buys {
      var buyer := BuyIs(desk, desk.cashUnit.value, plan.funded.value, rows, i);
    }
  }

  /** All the sells of a row pass the size gate if and only if its sale fits. */
  lemma PlanSellsPassExactly(proposal: Aggregate.Proposal, desk: Desk, row: Row)
    requires TradesSomething(desk.limits) && Marked(desk.book, desk.units)
    requires proposal.rebalance && Distinct(proposal.rows) && Planned(proposal, desk).Ok?
    requires row in proposal.rows && Falls(row) && row.target >= 0.0 && Weighed(row, desk.book)
    ensures SaleFits(desk, row) <==>
            forall i ::
              i in Planned(proposal, desk).value.orders && i.side == Settle.Sell && i.address == row.address ==>
              OrderSize(OrderWorth(desk, i), desk.limits) == Some(true)
  {
    var mine := SellOrders(desk)(row);
    forall i
      ensures i in Planned(proposal, desk).value.orders && i.side == Settle.Sell && i.address == row.address
            <==> i in mine
      ensures i in mine ==> OrderWorth(desk, i) == Some(i.usd)
    {
      PlanSellsOfRow(proposal, desk, row, i);
    }
    SaleFitsItsOrders(desk, row, mine, SaleFits(desk, row));
    SizesAgree(desk, Planned(proposal, desk).value.orders, Settle.Sell, row.address, mine);
  }

  lemma SizesAgree(desk: Desk, orders: seq<Intent>, side: Settle.Side, address: Address, mine: seq<Intent>)
    requires forall i :: i in orders && i.side == side && i.address == address <==> i in mine
    requires forall i :: i in mine ==> OrderWorth(desk, i) == Some(i.usd)
    ensures (forall i :: i in mine ==> desk.limits.maxTradeUsd.Some? && i.usd <= desk.limits.maxTradeUsd.value)
       <==> forall i :: i in orders && i.side == side && i.address == address ==>
              OrderSize(OrderWorth(desk, i), desk.limits) == Some(true)
  {
  }

  /** Whether the funded part of a row's raise, in the largest of its parts, buys no more units of cash than
      the limit does. */
  predicate RaiseFitsLimit(desk: Desk, unit: Unit, share: real, row: Row)
    requires TradesSomething(desk.limits)
  {
    Rises(row) && Resolved(desk.limits) ==>
      var cents := FundedCents(row, desk.book.navUsd, share);
      var count := SplitOf(cents as real / 100.0, desk.limits);
      count > 0 ==>
        UnitsOf(Ceiling(cents, count) as real / 100.0, unit) <= UnitsOf(desk.limits.maxTradeUsd.value, unit)
  }

  lemma BuysFit(address: Address, unit: Unit, cents: int, count: int, limit: Option<real>, orders: seq<Intent>)
    requires cents >= 0 && limit.Some? && limit.value > 0.0 && orders == Orders(cents, count, BuyOf(address, unit))
    ensures (forall i :: i in orders ==> limit.Some? && i.usd <= limit.value)
       <==> (count > 0 ==> UnitsOf(Ceiling(cents, count) as real / 100.0, unit) <= UnitsOf(limit.value, unit))
  {
    if count > 0 {
      BuyPartsFitExactly(cents, address, unit, count, limit.value);
      BlockAt(cents, count, BuyOf(address, unit), count);
      if forall i :: i in orders ==> i.usd <= limit.value {
        forall k: nat | k < count ensures BuyOf(address, unit)(EvenPart(cents, count, k)).usd <= limit.value {
          assert orders[k] in orders;
        }
      }
    }
  }

  lemma FundedNotNegative(row: Row, nav: real, share: real)
    requires nav > 0.0 && 0.0 <= share <= 1.0
    ensures FundedCents(row, nav, share) >= 0
  {
    RaiseFits(row, nav);
    ShareFits(share, Raise(nav)(row));
    CentsFit(Part(share, Raise(nav)(row)));
  }

  lemma RaiseFitsItsOrders(desk: Desk, unit: Unit, share: real, row: Row, orders: seq<Intent>)
    requires TradesSomething(desk.limits) && desk.book.navUsd > 0.0 && 0.0 <= share <= 1.0
    requires orders == BuyOrders(desk, unit, share)(row)
    ensures RaiseFitsLimit(desk, unit, share, row) <==>
            forall i :: i in orders ==> desk.limits.maxTradeUsd.Some? && i.usd <= desk.limits.maxTradeUsd.value
  {
    if Rises(row) && Resolved(desk.limits) {
      var cents := FundedCents(row, desk.book.navUsd, share);
      FundedNotNegative(row, desk.book.navUsd, share);
      BuysFit(row.address, unit, cents, SplitOf(cents as real / 100.0, desk.limits), desk.limits.maxTradeUsd, orders);
    }
  }

  lemma BuyOfRow(desk: Desk, unit: Unit, share: real, row: Row, i: Intent)
    requires TradesSomething(desk.limits) && i in BuyOrders(desk, unit, share)(row)
    ensures i.side == Settle.Buy && i.address == row.address && i.usd == Worth(i.raw, unit)
  {
    var cents := FundedCents(row, desk.book.navUsd, share);
    var count := SplitOf(cents as real / 100.0, desk.limits);
    BlockAt(cents, count, BuyOf(row.address, unit), count);
  }

  /** Among rows of different assets, the buys of an asset are those of its row. */
  lemma BuysOfOneRow(desk: Desk, unit: Unit, share: real, rows: seq<Row>, row: Row, i: Intent)
    requires TradesSomething(desk.limits) && Distinct(rows) && row in rows
    ensures i in Blocks(BuyOrders(desk, unit, share), rows) && i.address == row.address
       <==> i in BuyOrders(desk, unit, share)(row)
  {
    if i in Blocks(BuyOrders(desk, unit, share), rows) && i.address == row.address {
      var from := InBlocks(BuyOrders(desk, unit, share), rows, i);
      BuyOfRow(desk, unit, share, from, i);
      assert from == row;
    }
    if i in BuyOrders(desk, unit, share)(row) {
      BuyOfRow(desk, unit, share, row, i);
      BlocksHold(BuyOrders(desk, unit, share), rows, row, i);
    }
  }

  lemma PlanBuysOfRow(proposal: Aggregate.Proposal, desk: Desk, row: Row, i: Intent, mine: seq<Intent>)
    requires TradesSomething(desk.limits) && desk.book.navUsd > 0.0 && row in proposal.rows
    requires proposal.rebalance && Distinct(proposal.rows) && Planned(proposal, desk).Ok?
    requires desk.cashUnit.Some? && Planned(proposal, desk).value.funded.Some?
    requires mine == BuyOrders(desk, desk.cashUnit.value, Planned(proposal, desk).value.funded.value)(row)
    ensures i in Planned(proposal, desk).value.orders && i.side == Settle.Buy && i.address == row.address <==> i in mine
    ensures i in mine ==> OrderWorth(desk, i) == Some(i.usd)
  {
    var unit, share := desk.cashUnit.value, Planned(proposal, desk).value.funded.value;
    var rows, sells, buys := PlanParts(proposal, desk);
    BuysOfOneRow(desk, unit, share, rows, row, i);
    if i in sells {
      var seller := SellIs(desk, rows, i);
    }
    if i in mine {
      BuyOfRow(desk, unit, share, row, i);
    }
  }

  /** All the buys of a row pass the size gate if and only if its funded raise fits; with nothing funded
      there are none. */
  lemma PlanBuysPassExactly(proposal: Aggregate.Proposal, desk: Desk, row: Row)
    requires TradesSomething(desk.limits) && desk.book.navUsd > 0.0 && row in proposal.rows
    requires proposal.rebalance && Distinct(proposal.rows) && Planned(proposal, desk).Ok?
    ensures desk.cashUnit.Some?
    ensures var plan := Planned(proposal, desk).value;
            (plan.funded.Some? ==> RaiseFitsLimit(desk, desk.cashUnit.value, plan.funded.value, row)) <==>
            forall i :: i in plan.orders && i.side == Settle.Buy && i.address == row.address ==>
              OrderSize(OrderWorth(desk, i), desk.limits) == Some(true)
  {
    var plan := Planned(proposal, desk).value;
    var rows, sells, buys := PlanParts(proposal, desk);
    if plan.funded.Some? {
      var mine := BuyOrders(desk, desk.cashUnit.value, plan.funded.value)(row);
      forall i
        ensures i in plan.orders && i.side == Settle.Buy && i.address == row.address <==> i in mine
        ensures i in mine ==> OrderWorth(desk, i) == Some(i.usd)
      {
        PlanBuysOfRow(proposal, desk, row, i, mine);
      }
      RaiseFitsItsOrders(desk, desk.cashUnit.value, plan.funded.value, row, mine);
      SizesAgree(desk, plan.orders, Settle.Buy, row.address, mine);
    } else {
      forall i | i in plan.orders ensures i.side == Settle.Sell {
        var seller := SellIs(desk, rows, i);
      }
    }
  }

  // ----- from the reports to the gates ---------------------------------------------------------

  lemma {:induction false} ProposalRowsAreDistinct(rowOf: Address -> Row, addresses: seq<Address>)
    requires forall i, j :: 0 <= i < j < |addresses| ==> addresses[i] < addresses[j]
    requires forall a :: rowOf(a).address == a
    ensures Distinct(Aggregate.Rows(rowOf, addresses))
  {
    forall i, j | 0 <= i < j < |Aggregate.Rows(rowOf, addresses)|
      ensures Aggregate.Rows(rowOf, addresses)[i].address != Aggregate.Rows(rowOf, addresses)[j].address
    {
      RowsAsMany(rowOf, addresses);
      Aggregate.RowAt(rowOf, addresses, i);
      Aggregate.RowAt(rowOf, addresses, j);
    }
  }

  lemma RowsAsMany(rowOf: Address -> Row, addresses: seq<Address>)
    ensures |Aggregate.Rows(rowOf, addresses)| == |addresses|
  {
    if addresses != [] {
      Aggregate.RowAt(rowOf, addresses, 0);
    }
  }

  /** The proposal the reports make of a book. */
  function ProposalOf(reports: seq<Aggregate.Report>, desk: Desk, quorum: Option<int>): Aggregate.Proposal
    requires desk.book.navUsd > 0.0
  {
    Aggregate.Decided(reports, Weights(desk.book), desk.book.cashUsd / desk.book.navUsd, quorum, desk.limits)
  }

  /** What the aggregator promises the planner of every row. */
  lemma ProposalFitsThePlan(reports: seq<Aggregate.Report>, desk: Desk, quorum: Option<int>)
    requires Marked(desk.book, desk.units)
    requires desk.limits.maxPositionWeight.Some? ==> desk.limits.maxPositionWeight.value >= 0.0
    ensures var p := ProposalOf(reports, desk, quorum);
            && Distinct(p.rows)
            && (forall r :: r in p.rows ==> r.target >= 0.0 && Weighed(r, desk.book))
            && (forall r :: r in p.rows && Rises(r) ==>
                  desk.limits.maxPositionWeight.Some? && r.target <= desk.limits.maxPositionWeight.value)
  {
    var p := ProposalOf(reports, desk, quorum);
    var weights := Weights(desk.book);
    forall a | a in weights ensures weights[a] >= 0.0 && Part(weights[a], desk.book.navUsd) == desk.book.values[a] {
      WorthGrows(0, desk.book.held[a], desk.units[a]);
      ShareBack(desk.book.values[a], desk.book.navUsd);
    }
    var keeps := Aggregate.Keeps(reports, quorum, desk.limits);
    ProposalRowsAreDistinct(Aggregate.RowsFrom(reports, weights, keeps, desk.limits),
                            InOrder(Aggregate.Called(reports) + weights.Keys));
    forall r | r in p.rows
      ensures r.target >= 0.0 && Weighed(r, desk.book)
      ensures Rises(r) ==> desk.limits.maxPositionWeight.Some? && r.target <= desk.limits.maxPositionWeight.value
    {
      Aggregate.EveryRowIsBounded(reports, weights, desk.book.cashUsd / desk.book.navUsd, quorum, desk.limits, r);
    }
  }

  lemma ShareBack(value: real, nav: real)
    requires nav > 0.0
    ensures Part(value / nav, nav) == value && (value >= 0.0 ==> value / nav >= 0.0)
  {
  }

  /**
   A plan sized from the reports on the book it was weighed against is never refused for its
   position weights, never sells more than is held, never moves a position past its target, and
   never takes cash below the lesser of the floor and what it has without buying.
   */
  lemma PlanFromReportsHolds(reports: seq<Aggregate.Report>, desk: Desk, quorum: Option<int>)
    requires Marked(desk.book, desk.units) && TradesSomething(desk.limits)
    requires desk.limits.maxPositionWeight.Some? ==> desk.limits.maxPositionWeight.value >= 0.0
    requires Planned(ProposalOf(reports, desk, quorum), desk).Ok?
    ensures var p := ProposalOf(reports, desk, quorum);
            var plan := Planned(p, desk).value;
            var ready := desk.book.cashUsd + plan.proceedsUsd;
            && (forall r :: r in p.rows ==>
                  var before, after := ValueOf(desk.book, r.address), AfterPlan(plan, desk.book, r.address);
                  var target := Part(r.target, desk.book.navUsd);
                  && (target <= after <= before || before <= after <= target)
                  && Total(SoldBy(r.address), plan.orders) <= HeldOf(desk.book, r.address) as real)
            && (forall i :: i in plan.orders ==>
                  PositionWeight(Ends(desk, plan.orders, i.address) / desk.book.navUsd, i.side, desk.limits)
                  == Some(true))
            && (desk.limits.cashFloorUsd.Some? ==>
                  var floor := desk.limits.cashFloorUsd.value;
                  CashAfterPlan(plan, desk.book) >= if ready <= floor then ready else floor)
  {
    var p := ProposalOf(reports, desk, quorum);
    var plan := Planned(p, desk).value;
    ProposalFitsThePlan(reports, desk, quorum);
    if p.rebalance {
      forall r | r in p.rows
        ensures var before, after := ValueOf(desk.book, r.address), AfterPlan(plan, desk.book, r.address);
                var target := Part(r.target, desk.book.navUsd);
                && (target <= after <= before || before <= after <= target)
                && Total(SoldBy(r.address), plan.orders) <= HeldOf(desk.book, r.address) as real
      {
        EachPositionStaysBetween(p, desk, r);
      }
      forall i | i in plan.orders
        ensures PositionWeight(Ends(desk, plan.orders, i.address) / desk.book.navUsd, i.side, desk.limits) == Some(true)
      {
        PlanPassesPositionWeight(p, desk, i);
      }
      PlanKeepsFloor(p, desk);
    } else {
      KeptRowsStay(reports, desk, quorum);
    }
  }

  /** A cycle without a rebalance orders nothing, and its targets are the weights as they stand. */
  lemma KeptRowsStay(reports: seq<Aggregate.Report>, desk: Desk, quorum: Option<int>)
    requires Marked(desk.book, desk.units) && TradesSomething(desk.limits)
    requires desk.limits.maxPositionWeight.Some? ==> desk.limits.maxPositionWeight.value >= 0.0
    requires !ProposalOf(reports, desk, quorum).rebalance
    ensures var p := ProposalOf(reports, desk, quorum);
            && Planned(p, desk) == Ok(Plan([], 0.0, 0.0, None))
            && (forall r :: r in p.rows ==>
                    r.target == r.current && Part(r.target, desk.book.navUsd) == ValueOf(desk.book, r.address))
  {
    var p := ProposalOf(reports, desk, quorum);
    var weights := Weights(desk.book);
    ProposalFitsThePlan(reports, desk, quorum);
    forall a | a in weights ensures weights[a] >= 0.0 {
      WorthGrows(0, desk.book.held[a], desk.units[a]);
      ShareBack(desk.book.values[a], desk.book.navUsd);
    }
    forall r | r in p.rows ensures r.target == r.current {
      Aggregate.EveryRowIsBounded(reports, weights, desk.book.cashUsd / desk.book.navUsd, quorum, desk.limits, r);
    }
  }
}

/**
 From the weights a book has to the trades that bring it to the weights it should have. The worth of
 one raw unit, in USD, is called the unit of an asset throughout.
 */
module Sizing {
  import opened Wrappers
  import opened Ordering
  import opened Intents
  import Aggregate
  import Gates
  import Settle

  datatype Fault =
    | NoMark(address: Address)
    | CashHasNoMark
    | LimitsUnresolved
    | BookWorthNothing

  // ----- the book ------------------------------------------------------------------------------

  /** What is held and what it is worth, with empty positions left out. */
  datatype Book = Book(navUsd: real, cashUsd: real, held: map<Address, nat>, values: map<Address, real>)

  function HeldOf(book: Book, address: Address): nat {
    if address in book.held then book.held[address] else 0
  }

  function ValueOf(book: Book, address: Address): real {
    if address in book.values then book.values[address] else 0.0
  }

  /** Every position is marked and worth its amount at the mark, and the book is worth something. */
  ghost predicate Marked(book: Book, units: map<Address, Unit>) {
    && book.navUsd > 0.0
    && book.held.Keys == book.values.Keys
    && forall a :: a in book.held ==> a in units && book.values[a] == Worth(book.held[a], units[a])
  }

  /** The worths of all that is held and marked, added up. */
  function Positions(holdings: seq<(Address, nat)>, units: map<Address, Unit>): real {
    if holdings == [] then 0.0
    else
      var (address, raw) := holdings[|holdings| - 1];
      Positions(holdings[..|holdings| - 1], units)
        + if raw != 0 && address in units then Worth(raw, units[address]) else 0.0
  }

  /** The ledger lists an address once. */
  ghost predicate ListedOnce(holdings: seq<(Address, nat)>) {
    forall i, j :: 0 <= i < j < |holdings| ==> holdings[i].0 != holdings[j].0
  }

  ghost predicate AllMarked(holdings: seq<(Address, nat)>, units: map<Address, Unit>) {
    forall h :: h in holdings && h.1 != 0 ==> h.0 in units
  }

  /** The book of some holdings, refused when one of them cannot be valued. */
  method BookAt(holdings: seq<(Address, nat)>, cashUsd: real, units: map<Address, Unit>)
    returns (r: Result<Book, Fault>)
    requires ListedOnce(holdings)
    ensures r.Ok? <==> AllMarked(holdings, units) && cashUsd + Positions(holdings, units) > 0.0
    ensures r.Err? ==>
              if AllMarked(holdings, units) then r.error == BookWorthNothing
              else exists h :: h in holdings && h.1 != 0 && h.0 !in units && r.error == NoMark(h.0)
    ensures r.Ok? ==> Marked(r.value, units) && r.value.cashUsd == cashUsd
    ensures r.Ok? ==> r.value.navUsd == cashUsd + Positions(holdings, units)
    ensures r.Ok? ==> forall h :: h in holdings ==> HeldOf(r.value, h.0) == h.1
    ensures r.Ok? ==> forall a :: a in r.value.held ==> (a, r.value.held[a]) in holdings
  {
    var held: map<Address, nat>, values: map<Address, real>, sum := map[], map[], 0.0;
    for i := 0 to |holdings|
      invariant sum == Positions(holdings[..i], units) && AllMarked(holdings[..i], units)
      invariant held.Keys == values.Keys
      invariant forall a :: a in held ==> a in units && values[a] == Worth(held[a], units[a])
      invariant forall k :: 0 <= k < i ==>
        if holdings[k].1 != 0 then holdings[k].0 in held && held[holdings[k].0] == holdings[k].1
        else holdings[k].0 !in held
      invariant forall a :: a in held ==> exists k :: 0 <= k < i && holdings[k] == (a, held[a])
    {
      var (address, raw) := holdings[i];
      assert holdings[..i + 1][..i] == holdings[..i] && holdings[..i + 1][i] == holdings[i];
      if raw != 0 {
        if address !in units {
          assert holdings[i] in holdings;
          return Err(NoMark(address));
        }
        held, values := held[address := raw], values[address := Worth(raw, units[address])];
        sum := sum + values[address];
      }
    }
    assert holdings[..|holdings|] == holdings;
    if cashUsd + sum <= 0.0 {
      return Err(BookWorthNothing);
    }
    return Ok(Book(cashUsd + sum, cashUsd, held, values));
  }

  /** Each position's share of the book. */
  function Weights(book: Book): (w: map<Address, real>)
    requires book.navUsd > 0.0
  {
    map a | a in book.values :: book.values[a] / book.navUsd
  }

  // ----- how much of one asset moves -----------------------------------------------------------

  /** How many whole raw units an amount buys. */
  function UnitsOf(usd: real, unit: Unit): int
  {
    Gates.Truncate(usd / unit)
  }

  lemma UnitsFit(usd: real, unit: Unit)
    requires usd >= 0.0
    ensures UnitsOf(usd, unit) >= 0
    ensures Worth(UnitsOf(usd, unit), unit) <= usd < Worth(UnitsOf(usd, unit) + 1, unit)
  {
    Gates.WholeSizes(usd, unit);
    Gates.Quotient(usd, unit);
  }

  function Part(weight: real, nav: real): real { weight * nav }

  predicate Falls(row: Row) { row.target < row.current }

  predicate Rises(row: Row) { row.target > row.current }

  /** Leaving an asset empties the position; otherwise the cut in whole units, or the position if smaller. */
  function SoldUnits(row: Row, held: nat, nav: real, unit: Unit): int
  {
    if row.target == 0.0 then held
    else
      var cut := UnitsOf(Part(row.current - row.target, nav), unit);
      if held < cut then held else cut
  }

  lemma SoldWithinCut(row: Row, held: nat, nav: real, unit: Unit)
    requires nav > 0.0 && Falls(row) && row.target >= 0.0
    requires Part(row.current, nav) == Worth(held, unit)
    ensures var sold := SoldUnits(row, held, nav, unit);
            0 <= sold <= held && Worth(sold, unit) <= Worth(held, unit) - Part(row.target, nav)
  {
    var cut := Part(row.current - row.target, nav);
    assert cut == Part(row.current, nav) - Part(row.target, nav);
    Gates.Scale(row.target, row.current, nav);
    if row.target != 0.0 {
      UnitsFit(cut, unit);
      WorthGrows(SoldUnits(row, held, nav, unit), UnitsOf(cut, unit), unit);
    }
  }

  function SellOf(address: Address, unit: Unit): int -> Intent {
    (c: int) => Intent(address, Settle.Sell, c, Worth(c, unit))
  }

  /** Whole cents, rounded down. */
  function CentsOf(usd: real): int { Gates.Truncate(usd * 100.0) }

  function BuyOf(address: Address, cashUnit: Unit): int -> Intent
  {
    (cents: int) =>
      var spend := UnitsOf(cents as real / 100.0, cashUnit);
      Intent(address, Settle.Buy, spend, Worth(spend, cashUnit))
  }

  // ----- every order ---------------------------------------------------------------------------

  /** What a plan is sized against. */
  datatype Desk = Desk(book: Book, units: map<Address, Unit>, cashUnit: Option<Unit>, limits: Gates.Limits)

  predicate Resolved(limits: Gates.Limits) { limits.maxTradeUsd.Some? && limits.minOrderUsd.Some? }

  /** The per-trade limit, when there is one, is an amount. */
  predicate TradesSomething(limits: Gates.Limits) { limits.maxTradeUsd.Some? ==> limits.maxTradeUsd.value > 0.0 }

  function SplitOf(worthUsd: real, limits: Gates.Limits): int
    requires TradesSomething(limits) && Resolved(limits)
  {
    Gates.Split(worthUsd, limits).value
  }

  /** What stops a row's sell: a missing mark, or limits that are unresolved when there is something to sell. */
  function SellFault(desk: Desk): Row -> Option<Fault> {
    (row: Row) =>
      if !Falls(row) then None
      else if row.address !in desk.units then Some(NoMark(row.address))
      else if SoldUnits(row, HeldOf(desk.book, row.address), desk.book.navUsd, desk.units[row.address]) != 0
              && !Resolved(desk.limits) then Some(LimitsUnresolved)
      else None
  }

  function SellOrders(desk: Desk): Row -> seq<Intent>
    requires TradesSomething(desk.limits)
  {
    (row: Row) =>
      if !Falls(row) || row.address !in desk.units || !Resolved(desk.limits) then []
      else
        var unit := desk.units[row.address];
        var sold := SoldUnits(row, HeldOf(desk.book, row.address), desk.book.navUsd, unit);
        Orders(sold, if sold != 0 then SplitOf(Worth(sold, unit), desk.limits) else 0, SellOf(row.address, unit))
  }

  function BuyFault(desk: Desk): Row -> Option<Fault> {
    (row: Row) => if Rises(row) && !Resolved(desk.limits) then Some(LimitsUnresolved) else None
  }

  /** What a row's raise asks for. */
  function Raise(nav: real): Row -> real {
    (row: Row) => if Rises(row) then Part(row.target - row.current, nav) else 0.0
  }

  /** The funded part of a raise, in whole cents. */
  function FundedCents(row: Row, nav: real, share: real): int {
    CentsOf(Part(share, Raise(nav)(row)))
  }

  function BuyOrders(desk: Desk, cashUnit: Unit, share: real): Row -> seq<Intent>
    requires TradesSomething(desk.limits)
  {
    (row: Row) =>
      if !Rises(row) || !Resolved(desk.limits) then []
      else
        var cents := FundedCents(row, desk.book.navUsd, share);
        Orders(cents, SplitOf(cents as real / 100.0, desk.limits), BuyOf(row.address, cashUnit))
  }

  function FirstFault(faultOf: Row -> Option<Fault>, rows: seq<Row>): Option<Fault> {
    if rows == [] then None
    else
      var before := FirstFault(faultOf, rows[..|rows| - 1]);
      if before.Some? then before else faultOf(rows[|rows| - 1])
  }

  lemma FaultsOne(faultOf: Row -> Option<Fault>, rows: seq<Row>, i: nat)
    requires i < |rows| && FirstFault(faultOf, rows[..i]) == None
    ensures FirstFault(faultOf, rows[..i + 1]) == faultOf(rows[i])
    ensures faultOf(rows[i]).Some? ==> FirstFault(faultOf, rows) == faultOf(rows[i])
  {
    assert rows[..i + 1][..i] == rows[..i];
    if faultOf(rows[i]).Some? {
      FaultStays(faultOf, rows, i + 1);
    }
  }

  lemma {:induction false} FaultStays(faultOf: Row -> Option<Fault>, rows: seq<Row>, i: nat)
    requires i <= |rows| && FirstFault(faultOf, rows[..i]).Some?
    ensures FirstFault(faultOf, rows) == FirstFault(faultOf, rows[..i])
    decreases |rows| - i
  {
    if i == |rows| {
      assert rows[..i] == rows;
    } else {
      assert rows[..i + 1][..i] == rows[..i];
      FaultStays(faultOf, rows, i + 1);
    }
  }

  /** Every row's orders, in the order of the rows, or the first row's fault. */
  function Collected(faultOf: Row -> Option<Fault>, ordersOf: Row -> seq<Intent>,
                     rows: seq<Row>): Result<seq<Intent>, Fault> {
    var fault := FirstFault(faultOf, rows);
    if fault.Some? then Err(fault.value) else Ok(Blocks(ordersOf, rows))
  }

  predicate ByAddress(a: Row, b: Row) { a.address <= b.address }

  /** What is to be traded, with the three figures the buys were scaled by. */
  datatype Plan = Plan(orders: seq<Intent>, proceedsUsd: real, wantedUsd: real, funded: Option<real>)

  function Bought(desk: Desk, cashUnit: Unit, share: Option<real>, rows: seq<Row>): Result<seq<Intent>, Fault>
    requires TradesSomething(desk.limits)
  {
    if share.None? then Ok([])
    else Collected(BuyFault(desk), BuyOrders(desk, cashUnit, share.value), rows)
  }

  function Planned(proposal: Aggregate.Proposal, desk: Desk): Result<Plan, Fault>
    requires TradesSomething(desk.limits)
  {
    if !proposal.rebalance then Ok(Plan([], 0.0, 0.0, None))
    else if desk.cashUnit.None? then Err(CashHasNoMark)
    else
      var rows := Sort(ByAddress, proposal.rows);
      match Collected(SellFault(desk), SellOrders(desk), rows)
      case Err(fault) => Err(fault)
      case Ok(sells) =>
        var proceeds := Total(IsWorth(), sells);
        var wanted := Sum(Raise(desk.book.navUsd), rows);
        var share := Gates.Fund(desk.book.cashUsd, proceeds, wanted, desk.limits);
        match Bought(desk, desk.cashUnit.value, share, rows)
        case Err(fault) => Err(fault)
        case Ok(buys) => Ok(Plan(sells + buys, proceeds, wanted, share))
  }

  method SellSide(rows: seq<Row>, desk: Desk) returns (r: Result<seq<Intent>, Fault>)
    requires TradesSomething(desk.limits)
    ensures r == Collected(SellFault(desk), SellOrders(desk), rows)
  {
    var sells: seq<Intent> := [];
    for i := 0 to |rows|
      invariant FirstFault(SellFault(desk), rows[..i]) == None
      invariant sells == Blocks(SellOrders(desk), rows[..i])
    {
      var row := rows[i];
      FaultsOne(SellFault(desk), rows, i);
      BlocksOne(SellOrders(desk), rows, i);
      if Falls(row) {
        if row.address !in desk.units {
          return Err(NoMark(row.address));
        }
        var unit := desk.units[row.address];
        var sold := SoldUnits(row, HeldOf(desk.book, row.address), desk.book.navUsd, unit);
        if sold != 0 && !Resolved(desk.limits) {
          return Err(LimitsUnresolved);
        }
        var count := if sold != 0 then SplitOf(Worth(sold, unit), desk.limits) else 0;
        sells := AddOrders(sells, sold, count, SellOf(row.address, unit));
      }
    }
    assert rows[..|rows|] == rows;
    return Ok(sells);
  }

  method BuySide(rows: seq<Row>, desk: Desk, cashUnit: Unit, share: real) returns (r: Result<seq<Intent>, Fault>)
    requires TradesSomething(desk.limits)
    ensures r == Collected(BuyFault(desk), BuyOrders(desk, cashUnit, share), rows)
  {
    var buys: seq<Intent> := [];
    for i := 0 to |rows|
      invariant FirstFault(BuyFault(desk), rows[..i]) == None
      invariant buys == Blocks(BuyOrders(desk, cashUnit, share), rows[..i])
    {
      var row := rows[i];
      FaultsOne(BuyFault(desk), rows, i);
      BlocksOne(BuyOrders(desk, cashUnit, share), rows, i);
      if Rises(row) {
        if !Resolved(desk.limits) {
          return Err(LimitsUnresolved);
        }
        var cents := FundedCents(row, desk.book.navUsd, share);
        buys := AddOrders(buys, cents, SplitOf(cents as real / 100.0, desk.limits), BuyOf(row.address, cashUnit));
      }
    }
    assert rows[..|rows|] == rows;
    return Ok(buys);
  }

  method WantedOf(rows: seq<Row>, nav: real) returns (wanted: real)
    ensures wanted == Sum(Raise(nav), rows)
  {
    wanted := 0.0;
    for i := 0 to |rows|
      invariant wanted == Sum(Raise(nav), rows[..i])
    {
      assert rows[..i + 1][..i] == rows[..i];
      wanted := wanted + Raise(nav)(rows[i]);
    }
    assert rows[..|rows|] == rows;
  }

  method WorthOfAll(orders: seq<Intent>) returns (usd: real)
    ensures usd == Total(IsWorth(), orders)
  {
    usd := 0.0;
    for i := 0 to |orders|
      invariant usd == Total(IsWorth(), orders[..i])
    {
      assert orders[..i + 1][..i] == orders[..i];
      usd := usd + orders[i].usd;
    }
    assert orders[..|orders|] == orders;
  }

  /** From targets to orders, or the first fault met. */
  method Size(proposal: Aggregate.Proposal, desk: Desk) returns (r: Result<Plan, Fault>)
    requires TradesSomething(desk.limits)
    ensures r == Planned(proposal, desk)
  {
    if !proposal.rebalance {
      return Ok(Plan([], 0.0, 0.0, None));
    }
    if desk.cashUnit.None? {
      return Err(CashHasNoMark);
    }
    var rows := Sort(ByAddress, proposal.rows);
    var sold := SellSide(rows, desk);
    if sold.Err? {
      return Err(sold.error);
    }
    var proceeds := WorthOfAll(sold.value);
    var wanted := WantedOf(rows, desk.book.navUsd);
    var share := Gates.Fund(desk.book.cashUsd, proceeds, wanted, desk.limits);
    var buys: seq<Intent> := [];
    if share.Some? {
      var bought := BuySide(rows, desk, desk.cashUnit.value, share.value);
      if bought.Err? {
        return Err(bought.error);
      }
      buys := bought.value;
    }
    return Ok(Plan(sold.value + buys, proceeds, wanted, share));
  }
}

/**
 The money gates over a plan as written, and the weights the plan shows beside each order. Both
 recompute what an order is worth from what it sells; neither trusts the planner's figure.
 */
module Judging {
  import opened Wrappers
  import opened Intents
  import opened Sizing
  import Gates
  import Settle

  /** An order's worth by the marks alone: of cash for a buy, of the stock for a sell. */
  function OrderWorth(desk: Desk, i: Intent): Option<real> {
    if i.side == Settle.Buy then
      if desk.cashUnit.None? then None else Some(Worth(i.raw, desk.cashUnit.value))
    else if i.address in desk.units then Some(Worth(i.raw, desk.units[i.address]))
    else None
  }

  /** What cannot be valued counts as nothing here; its own gate blocks it. */
  function Counted(desk: Desk, i: Intent): real { OrderWorth(desk, i).GetOr(0.0) }

  function SignedWorth(desk: Desk, i: Intent): real {
    if i.side == Settle.Buy then Counted(desk, i) else -Counted(desk, i)
  }

  function MovesAt(desk: Desk, address: Address): Intent -> real {
    (i: Intent) => if i.address == address then SignedWorth(desk, i) else 0.0
  }

  function CountedWorth(desk: Desk): Intent -> real { (i: Intent) => Counted(desk, i) }

  // ----- the gates -----------------------------------------------------------------------------

  function OrderSize(worth: Option<real>, limits: Gates.Limits): Option<bool> {
    if worth.None? || limits.maxTradeUsd.None? then None else Some(worth.value <= limits.maxTradeUsd.value)
  }

  /** Only a buy can fail this: the position it ends in must not be above the limit. */
  function PositionWeight(after: real, side: Settle.Side, limits: Gates.Limits): Option<bool> {
    if side == Settle.Sell then Some(true)
    else if limits.maxPositionWeight.None? then None
    else Some(after <= limits.maxPositionWeight.value)
  }

  function Turnover(tradedUsd: real, navUsd: real, limits: Gates.Limits): Option<bool> {
    if limits.turnoverMaxBps.None? then None
    else Some(tradedUsd <= navUsd * limits.turnoverMaxBps.value / 10000.0)
  }

  datatype Verdict = Verdict(size: Option<bool>, weight: Option<bool>)

  function At(values: map<Address, real>, address: Address): real {
    if address in values then values[address] else 0.0
  }

  /** What a position is worth once the orders have run. */
  function Ends(desk: Desk, orders: seq<Intent>, address: Address): real {
    ValueOf(desk.book, address) + Total(MovesAt(desk, address), orders)
  }

  ghost predicate Standing(desk: Desk, orders: seq<Intent>, values: map<Address, real>) {
    forall a :: At(values, a) == Ends(desk, orders, a)
  }

  lemma StandingStep(desk: Desk, orders: seq<Intent>, k: nat, values: map<Address, real>)
    requires k < |orders| && Standing(desk, orders[..k], values)
    ensures var a := orders[k].address;
            Standing(desk, orders[..k + 1], values[a := At(values, a) + SignedWorth(desk, orders[k])])
    ensures Total(CountedWorth(desk), orders[..k + 1])
            == Total(CountedWorth(desk), orders[..k]) + Counted(desk, orders[k])
  {
    assert orders[..k + 1] == orders[..k] + [orders[k]];
    TotalOne(CountedWorth(desk), orders[..k], orders[k]);
    var b := orders[k].address;
    var after := values[b := At(values, b) + SignedWorth(desk, orders[k])];
    forall a ensures At(after, a) == Ends(desk, orders[..k + 1], a) {
      TotalOne(MovesAt(desk, a), orders[..k], orders[k]);
      assert At(values, a) == Ends(desk, orders[..k], a);
    }
  }

  /** Every position after every order, and each order's verdicts on that. */
  method Evaluate(orders: seq<Intent>, desk: Desk)
    returns (turnover: Option<bool>, verdicts: seq<Verdict>)
    requires desk.book.navUsd > 0.0
    ensures turnover == Turnover(Total(CountedWorth(desk), orders), desk.book.navUsd, desk.limits)
    ensures |verdicts| == |orders|
    ensures forall k :: 0 <= k < |orders| ==>
              verdicts[k] == Verdict(OrderSize(OrderWorth(desk, orders[k]), desk.limits),
                                     PositionWeight(Ends(desk, orders, orders[k].address) / desk.book.navUsd,
                                                    orders[k].side, desk.limits))
  {
    var values, traded := desk.book.values, 0.0;
    for k := 0 to |orders|
      invariant traded == Total(CountedWorth(desk), orders[..k])
      invariant Standing(desk, orders[..k], values)
    {
      StandingStep(desk, orders, k, values);
      var address := orders[k].address;
      values := values[address := At(values, address) + SignedWorth(desk, orders[k])];
      traded := traded + Counted(desk, orders[k]);
    }
    assert orders[..|orders|] == orders;
    turnover, verdicts := Turnover(traded, desk.book.navUsd, desk.limits), [];
    for k := 0 to |orders|
      invariant |verdicts| == k
      invariant forall j :: 0 <= j < k ==>
        verdicts[j] == Verdict(OrderSize(OrderWorth(desk, orders[j]), desk.limits),
                               PositionWeight(Ends(desk, orders, orders[j].address) / desk.book.navUsd,
                                              orders[j].side, desk.limits))
    {
      var order := orders[k];
      verdicts := verdicts + [Verdict(OrderSize(OrderWorth(desk, order), desk.limits),
                                      PositionWeight(At(values, order.address) / desk.book.navUsd,
                                                      order.side, desk.limits))];
    }
  }

  // ----- the plan as it is written -------------------------------------------------------------

  /** What the plan shows of an order: its number among its asset's, and the weight on each side of it. */
  datatype Shown = Shown(part: nat, of: nat, before: real, after: real)

  function PartsOf(orders: seq<Intent>, address: Address): nat {
    if orders == [] then 0
    else PartsOf(orders[..|orders| - 1], address) + if orders[|orders| - 1].address == address then 1 else 0
  }

  /** The position in the planner's own figures after the first orders. */
  function Reached(book: Book, orders: seq<Intent>, address: Address): real {
    ValueOf(book, address) + Total(MovesBy(address), orders)
  }

  /** What the plan shows beside order k: its place in its move, and the weights just before and after it. */
  function ShownAt(book: Book, orders: seq<Intent>, k: nat): Shown
    requires book.navUsd > 0.0 && k < |orders|
  {
    var address := orders[k].address;
    Shown(PartsOf(orders[..k + 1], address), PartsOf(orders, address),
          Reached(book, orders[..k], address) / book.navUsd, Reached(book, orders[..k + 1], address) / book.navUsd)
  }

  lemma ShownStep(orders: seq<Intent>, k: nat, a: Address)
    requires k < |orders|
    ensures Total(MovesBy(a), orders[..k + 1]) == Total(MovesBy(a), orders[..k]) + MovesBy(a)(orders[k])
    ensures PartsOf(orders[..k + 1], a) == PartsOf(orders[..k], a) + if orders[k].address == a then 1 else 0
  {
    assert orders[..k + 1][..k] == orders[..k];
  }

  function CountIn(seen: map<Address, nat>, address: Address): nat {
    if address in seen then seen[address] else 0
  }

  /** What has moved and been counted over the first k orders. */
  ghost predicate SoFar(orders: seq<Intent>, k: nat, moved: map<Address, real>, seen: map<Address, nat>)
    requires k <= |orders|
  {
    forall a :: At(moved, a) == Total(MovesBy(a), orders[..k]) && CountIn(seen, a) == PartsOf(orders[..k], a)
  }

  lemma OneOrderOn(orders: seq<Intent>, k: nat, moved: map<Address, real>, seen: map<Address, nat>)
    requires k < |orders| && SoFar(orders, k, moved, seen)
    ensures var a := orders[k].address;
            SoFar(orders, k + 1, moved[a := At(moved, a) + MovesBy(a)(orders[k])], seen[a := CountIn(seen, a) + 1])
  {
    forall a { ShownStep(orders, k, a); }
  }

  method Write(orders: seq<Intent>, book: Book) returns (shown: seq<Shown>)
    requires book.navUsd > 0.0
    ensures |shown| == |orders| && forall k :: 0 <= k < |orders| ==> shown[k] == ShownAt(book, orders, k)
  {
    var moved: map<Address, real>, seen: map<Address, nat> := map[], map[];
    shown := [];
    for k := 0 to |orders|
      invariant |shown| == k && SoFar(orders, k, moved, seen)
      invariant forall j :: 0 <= j < k ==> shown[j] == ShownAt(book, orders, j)
    {
      OneOrderOn(orders, k, moved, seen);
      var address := orders[k].address;
      var start := ValueOf(book, address);
      var before := (start + At(moved, address)) / book.navUsd;
      moved := moved[address := At(moved, address) + MovesBy(address)(orders[k])];
      seen := seen[address := CountIn(seen, address) + 1];
      var after := (start + At(moved, address)) / book.navUsd;
      shown := shown + [Shown(seen[address], PartsOf(orders, address), before, after)];
    }
  }

  /** Orders in other assets change neither what an asset reached nor how many orders it had. */
  lemma {:induction false} OthersBetween(orders: seq<Intent>, j: nat, k: nat, a: Address)
    requires j <= k <= |orders| && forall m :: j <= m < k ==> orders[m].address != a
    ensures Total(MovesBy(a), orders[..j]) == Total(MovesBy(a), orders[..k])
    ensures PartsOf(orders[..j], a) == PartsOf(orders[..k], a)
    decreases k - j
  {
    if j < k {
      ShownStep(orders, j, a);
      OthersBetween(orders, j + 1, k, a);
    }
  }

  /** The figures chain: an asset's first order is part 1 and starts at the book's weight, each next
      one starts where the last ended, and the last is part n of n and ends where the plan does. */
  lemma ShownFiguresChain(book: Book, orders: seq<Intent>, j: nat, k: nat)
    requires book.navUsd > 0.0 && j <= k < |orders|
    requires forall m :: j <= m < k ==> orders[m].address != orders[k].address
    ensures j == 0 ==>
              ShownAt(book, orders, k).part == 1
              && ShownAt(book, orders, k).before == ValueOf(book, orders[k].address) / book.navUsd
    ensures j > 0 && orders[j - 1].address == orders[k].address ==>
              ShownAt(book, orders, k).part == ShownAt(book, orders, j - 1).part + 1
              && ShownAt(book, orders, k).before == ShownAt(book, orders, j - 1).after
    ensures (forall m :: k < m < |orders| ==> orders[m].address != orders[k].address) ==>
              ShownAt(book, orders, k).part == ShownAt(book, orders, k).of
              && ShownAt(book, orders, k).after == Reached(book, orders, orders[k].address) / book.navUsd
  {
    var a := orders[k].address;
    OthersBetween(orders, j, k, a);
    ShownStep(orders, k, a);
    if forall m :: k < m < |orders| ==> orders[m].address != a {
      LastShown(book, orders, k);
    }
  }

  lemma LastShown(book: Book, orders: seq<Intent>, k: nat)
    requires book.navUsd > 0.0 && k < |orders|
    requires forall m :: k < m < |orders| ==> orders[m].address != orders[k].address
    ensures ShownAt(book, orders, k).part == ShownAt(book, orders, k).of
    ensures ShownAt(book, orders, k).after == Reached(book, orders, orders[k].address) / book.navUsd
  {
    ShownStep(orders, k, orders[k].address);
    OthersBetween(orders, k + 1, |orders|, orders[k].address);
    assert orders[..|orders|] == orders;
  }
}

/** What the cash floor leaves of the approved orders: buys go, last first, until it is met. */
module Settle {
  import opened Wrappers
  import opened Ordering

  datatype Side = Buy | Sell

  /** An order's side and its worth, when the marks give it one. */
  datatype Order = Order(side: Side, worth: Option<real>)

  type Orders = map<int, Order>

  /** Every id names an order of the plan, and every one still to run has a worth. */
  ghost predicate Priced(orders: Orders, filled: set<int>, ids: seq<int>) {
    forall i :: i in ids ==> i in orders && (i in filled || orders[i].worth.Some?)
  }

  /** A buy that has not filled: all that the floor may drop. */
  predicate IsLoose(orders: Orders, filled: set<int>, i: int) {
    i in orders && orders[i].side == Buy && i !in filled
  }

  function Loose(orders: Orders, filled: set<int>, ids: seq<int>): seq<int> {
    if ids == [] then []
    else if IsLoose(orders, filled, ids[0]) then [ids[0]] + Loose(orders, filled, ids[1..])
    else Loose(orders, filled, ids[1..])
  }

  /** What the floor may not drop: sells, and whatever has filled. */
  function Fixed(orders: Orders, filled: set<int>, ids: seq<int>): seq<int> {
    if ids == [] then []
    else if IsLoose(orders, filled, ids[0]) then Fixed(orders, filled, ids[1..])
    else [ids[0]] + Fixed(orders, filled, ids[1..])
  }

  /** The two parts hold what they should, and between them everything. */
  lemma {:induction false} PartsHold(orders: Orders, filled: set<int>, ids: seq<int>)
    ensures forall i :: i in Loose(orders, filled, ids) <==> i in ids && IsLoose(orders, filled, i)
    ensures forall i :: i in Fixed(orders, filled, ids) <==> i in ids && !IsLoose(orders, filled, i)
  {
    if ids != [] {
      PartsHold(orders, filled, ids[1..]);
    }
  }

  /** What an order sells; the floor is only ever judged on orders whose worth is known. */
  function WorthOf(orders: Orders, i: int): real {
    if i in orders && orders[i].worth.Some? then orders[i].worth.value else 0.0
  }

  /** What one order still to run adds to cash: a sell its worth, a buy the loss of it. */
  function Signed(orders: Orders, i: int): real {
    if i in orders && orders[i].side == Sell then WorthOf(orders, i) else -WorthOf(orders, i)
  }

  /** What the orders not yet filled add to cash. */
  function Projected(orders: Orders, filled: set<int>, ids: seq<int>): real {
    if ids == [] then 0.0
    else (if ids[0] in filled then 0.0 else Signed(orders, ids[0])) + Projected(orders, filled, ids[1..])
  }

  /** What a run of buys costs. */
  function Cost(orders: Orders, buys: seq<int>): real {
    if buys == [] then 0.0 else WorthOf(orders, buys[0]) + Cost(orders, buys[1..])
  }

  /** Cash is what the fixed orders leave, less the buys. */
  lemma {:induction false} ProjectedSplits(orders: Orders, filled: set<int>, ids: seq<int>)
    requires forall i :: i in ids ==> i in orders
    ensures Projected(orders, filled, ids)
            == Projected(orders, filled, Fixed(orders, filled, ids)) - Cost(orders, Loose(orders, filled, ids))
  {
    if ids != [] {
      ProjectedSplits(orders, filled, ids[1..]);
      var loose, fixed := Loose(orders, filled, ids), Fixed(orders, filled, ids);
      if IsLoose(orders, filled, ids[0]) {
        assert loose[1..] == Loose(orders, filled, ids[1..]);
      } else {
        assert fixed[1..] == Fixed(orders, filled, ids[1..]);
      }
    }
  }

  // ----- dropping the last buy -----------------------------------------------------------------

  function RemoveFirst(s: seq<int>, x: int): seq<int> {
    if s == [] then [] else if s[0] == x then s[1..] else [s[0]] + RemoveFirst(s[1..], x)
  }

  lemma {:induction false} RemoveHolds(s: seq<int>, x: int)
    ensures forall y :: y in RemoveFirst(s, x) ==> y in s
  {
    if s != [] && s[0] != x {
      RemoveHolds(s[1..], x);
    }
  }

  lemma {:induction false} RemoveKeepsSorted(s: seq<int>, x: int)
    requires Sorted(IntLe, s)
    ensures Sorted(IntLe, RemoveFirst(s, x))
  {
    if s != [] && s[0] != x {
      RemoveKeepsSorted(s[1..], x);
      RemoveHolds(s[1..], x);
      var rest := RemoveFirst(s[1..], x);
      forall j | 0 <= j < |rest| ensures IntLe(s[0], rest[j]) {
        assert rest[j] in rest;
        assert rest[j] in s[1..];
      }
    }
  }

  /** A sorted run that starts at its own last value holds nothing else. */
  lemma {:induction false} AllTheSame(s: seq<int>, x: int)
    requires s != [] && s[|s| - 1] == x && forall y :: y in s ==> y == x
    ensures s[1..] == s[..|s| - 1]
  {
    forall i | 0 <= i < |s| - 1 ensures s[i + 1] == s[i] {
      assert s[i] in s && s[i + 1] in s;
    }
  }

  lemma {:induction false} LooseIsSorted(orders: Orders, filled: set<int>, ids: seq<int>)
    requires Sorted(IntLe, ids)
    ensures Sorted(IntLe, Loose(orders, filled, ids))
  {
    if ids != [] {
      LooseIsSorted(orders, filled, ids[1..]);
      PartsHold(orders, filled, ids[1..]);
      forall y | y in Loose(orders, filled, ids[1..]) ensures IntLe(ids[0], y) {
        var j :| 1 <= j < |ids| && ids[j] == y;
      }
    }
  }

  /** When a sorted list starts with its last loose buy, its loose buys are all that one. */
  lemma OnlyOneLoose(orders: Orders, filled: set<int>, ids: seq<int>)
    requires Sorted(IntLe, ids) && Loose(orders, filled, ids) != []
    requires var loose := Loose(orders, filled, ids); ids[0] == loose[|loose| - 1]
    ensures var loose := Loose(orders, filled, ids); loose[1..] == loose[..|loose| - 1]
  {
    var loose := Loose(orders, filled, ids);
    var x := loose[|loose| - 1];
    LooseIsSorted(orders, filled, ids);
    PartsHold(orders, filled, ids);
    forall k | 0 <= k < |loose| ensures loose[k] == x {
      assert loose[k] in loose;
      var j :| 0 <= j < |ids| && ids[j] == loose[k];
      assert j == 0 || IntLe(ids[0], ids[j]);
      assert k == |loose| - 1 || IntLe(loose[k], loose[|loose| - 1]);
    }
    AllTheSame(loose, x);
  }

  lemma SplitHead(orders: Orders, filled: set<int>, head: int, tail: seq<int>)
    ensures Loose(orders, filled, [head] + tail)
            == (if IsLoose(orders, filled, head) then [head] else []) + Loose(orders, filled, tail)
    ensures Fixed(orders, filled, [head] + tail)
            == (if IsLoose(orders, filled, head) then [] else [head]) + Fixed(orders, filled, tail)
  {
    assert ([head] + tail)[1..] == tail;
  }

  /** Removing the last loose buy takes exactly it off the loose buys, and nothing else. */
  lemma {:induction false} RemoveLastLoose(orders: Orders, filled: set<int>, ids: seq<int>)
    requires Sorted(IntLe, ids) && Loose(orders, filled, ids) != []
    ensures var loose := Loose(orders, filled, ids);
            var fewer := RemoveFirst(ids, loose[|loose| - 1]);
            && Loose(orders, filled, fewer) == loose[..|loose| - 1]
            && Fixed(orders, filled, fewer) == Fixed(orders, filled, ids)
  {
    var loose := Loose(orders, filled, ids);
    var x := loose[|loose| - 1];
    PartsHold(orders, filled, ids);
    assert x in loose;
    var tail := ids[1..];
    assert ids == [ids[0]] + tail;
    SplitHead(orders, filled, ids[0], tail);
    if ids[0] == x {
      OnlyOneLoose(orders, filled, ids);
    } else {
      var rest := Loose(orders, filled, tail);
      assert rest != [] && rest[|rest| - 1] == x;
      RemoveLastLoose(orders, filled, tail);
      SplitHead(orders, filled, ids[0], RemoveFirst(tail, x));
      if IsLoose(orders, filled, ids[0]) {
        assert loose[..|loose| - 1] == [ids[0]] + rest[..|rest| - 1];
      }
    }
  }

  // ----- the floor -----------------------------------------------------------------------------

  /** Whether cash is at or above the floor; no verdict without a floor. */
  function CashFloor(cashAfterUsd: real, floorUsd: Option<real>): Option<bool> {
    if floorUsd.None? then None else Some(cashAfterUsd >= floorUsd.value)
  }

  /** Cash if the fixed orders run, and the first n of the loose buys. */
  function Left(orders: Orders, filled: set<int>, ids: seq<int>, startUsd: real, n: nat): real
    requires n <= |Loose(orders, filled, ids)|
  {
    startUsd + Projected(orders, filled, Fixed(orders, filled, ids))
    - Cost(orders, Loose(orders, filled, ids)[..n])
  }

  ghost predicate Meets(orders: Orders, filled: set<int>, ids: seq<int>, startUsd: real,
                        floorUsd: Option<real>, n: nat)
    requires n <= |Loose(orders, filled, ids)|
  {
    CashFloor(Left(orders, filled, ids, startUsd, n), floorUsd) == Some(true)
  }

  /** The longest run of the first loose buys that meets the floor, or none of them. */
  ghost predicate Longest(orders: Orders, filled: set<int>, ids: seq<int>, startUsd: real,
                          floorUsd: Option<real>, n: nat)
  {
    var loose := Loose(orders, filled, ids);
    && n <= |loose|
    && (n == 0 || Meets(orders, filled, ids, startUsd, floorUsd, n))
    && forall m :: n < m <= |loose| ==> !Meets(orders, filled, ids, startUsd, floorUsd, m)
  }

  datatype Settlement = Settlement(kept: seq<int>, dropped: seq<int>, floor: Option<bool>)

  datatype Refusal = FilledNotApproved | NeedsBookedCash | NoMark(index: int)

  function Reverse(s: seq<int>): (r: seq<int>)
    ensures |r| == |s|
  {
    if s == [] then [] else [s[|s| - 1]] + Reverse(s[..|s| - 1])
  }

  /** `s` is the outcome for the approved `ids`: every fixed order, and the longest run of buys. */
  ghost predicate Settled(orders: Orders, filled: set<int>, ids: seq<int>, startUsd: real,
                          floorUsd: Option<real>, s: Settlement)
  {
    var loose := Loose(orders, filled, ids);
    exists n: nat :: Longest(orders, filled, ids, startUsd, floorUsd, n)
      && Sorted(IntLe, s.kept)
      && Fixed(orders, filled, s.kept) == Fixed(orders, filled, ids)
      && Loose(orders, filled, s.kept) == loose[..n]
      && s.dropped == Reverse(loose[n..])
      && s.floor == CashFloor(Left(orders, filled, ids, startUsd, n), floorUsd)
  }

  function InPlan(orders: Orders, approved: seq<int>): (r: seq<int>)
    ensures forall i :: i in r <==> i in approved && i in orders
  {
    if approved == [] then []
    else if approved[0] in orders then [approved[0]] + InPlan(orders, approved[1..])
    else InPlan(orders, approved[1..])
  }

  /** The paper cash left once the orders still to run have run; the first without a mark refuses. */
  method CashAfter(cashUsd: real, orders: Orders, filled: set<int>, ids: seq<int>)
    returns (r: Result<real, int>)
    requires forall i :: i in ids ==> i in orders
    ensures r.Ok? <==> Priced(orders, filled, ids)
    ensures r.Ok? ==> r.value == cashUsd + Projected(orders, filled, ids)
    ensures r.Err? ==> r.error in ids && r.error in orders && r.error !in filled
                       && orders[r.error].worth.None?
  {
    var cash := cashUsd;
    for k := 0 to |ids|
      invariant Priced(orders, filled, ids[..k])
      invariant cash + Projected(orders, filled, ids[k..]) == cashUsd + Projected(orders, filled, ids)
    {
      var i := ids[k];
      assert ids[k..][1..] == ids[k + 1..];
      if i !in filled {
        if orders[i].worth.None? {
          return Err(i);
        }
        cash := cash + Signed(orders, i);
      }
      assert ids[..k + 1] == ids[..k] + [i];
    }
    assert ids[..|ids|] == ids;
    return Ok(cash);
  }

  /** All but the last of the loose buys are kept, and the rest dropped, last first. */
  ghost predicate Midway(orders: Orders, filled: set<int>, ids: seq<int>, kept: seq<int>,
                         dropped: seq<int>, n: nat) {
    var loose := Loose(orders, filled, ids);
    && n <= |loose| && Sorted(IntLe, kept) && (forall i :: i in kept ==> i in ids)
    && Fixed(orders, filled, kept) == Fixed(orders, filled, ids)
    && Loose(orders, filled, kept) == loose[..n]
    && dropped == Reverse(loose[n..])
  }

  lemma DropOne(orders: Orders, filled: set<int>, ids: seq<int>, kept: seq<int>, dropped: seq<int>,
                n: nat)
    requires Midway(orders, filled, ids, kept, dropped, n) && n > 0
    ensures var last := Loose(orders, filled, kept)[n - 1];
            Midway(orders, filled, ids, RemoveFirst(kept, last), dropped + [last], n - 1)
  {
    var loose := Loose(orders, filled, ids);
    var last := loose[n - 1];
    assert Loose(orders, filled, kept)[n - 1] == last;
    RemoveLastLoose(orders, filled, kept);
    RemoveKeepsSorted(kept, last);
    RemoveHolds(kept, last);
    assert loose[..n][..n - 1] == loose[..n - 1];
    DropNext(loose, n);
  }

  lemma MidwayLeft(orders: Orders, filled: set<int>, ids: seq<int>, kept: seq<int>,
                   dropped: seq<int>, n: nat, startUsd: real)
    requires Midway(orders, filled, ids, kept, dropped, n) && Priced(orders, filled, ids)
    ensures Priced(orders, filled, kept)
    ensures startUsd + Projected(orders, filled, kept) == Left(orders, filled, ids, startUsd, n)
  {
    ProjectedSplits(orders, filled, kept);
  }

  /** No run of buys longer than n meets the floor. */
  ghost predicate NoLonger(orders: Orders, filled: set<int>, ids: seq<int>, startUsd: real,
                           floorUsd: Option<real>, n: nat) {
    forall m :: n < m <= |Loose(orders, filled, ids)| ==> !Meets(orders, filled, ids, startUsd, floorUsd, m)
  }

  lemma SettledAt(orders: Orders, filled: set<int>, ids: seq<int>, startUsd: real,
                  floorUsd: Option<real>, kept: seq<int>, dropped: seq<int>, n: nat)
    requires Midway(orders, filled, ids, kept, dropped, n)
    requires NoLonger(orders, filled, ids, startUsd, floorUsd, n)
    requires n == 0 || Meets(orders, filled, ids, startUsd, floorUsd, n)
    ensures var verdict := CashFloor(Left(orders, filled, ids, startUsd, n), floorUsd);
            Settled(orders, filled, ids, startUsd, floorUsd, Settlement(kept, dropped, verdict))
  {
    assert Longest(orders, filled, ids, startUsd, floorUsd, n);
  }

  /** One more buy dropped because the floor was not met: everything known one step on. */
  lemma DropStep(orders: Orders, filled: set<int>, ids: seq<int>, startUsd: real,
                 floorUsd: Option<real>, kept: seq<int>, dropped: seq<int>, n: nat)
    requires Midway(orders, filled, ids, kept, dropped, n) && Priced(orders, filled, ids) && n > 0
    requires NoLonger(orders, filled, ids, startUsd, floorUsd, n)
    requires !Meets(orders, filled, ids, startUsd, floorUsd, n)
    ensures var last := Loose(orders, filled, kept)[n - 1];
            var fewer := RemoveFirst(kept, last);
            && Midway(orders, filled, ids, fewer, dropped + [last], n - 1)
            && NoLonger(orders, filled, ids, startUsd, floorUsd, n - 1)
            && Priced(orders, filled, fewer)
            && startUsd + Projected(orders, filled, fewer) == Left(orders, filled, ids, startUsd, n - 1)
  {
    var last := Loose(orders, filled, kept)[n - 1];
    DropOne(orders, filled, ids, kept, dropped, n);
    MidwayLeft(orders, filled, ids, RemoveFirst(kept, last), dropped + [last], n - 1, startUsd);
  }

  lemma LooseHolds(orders: Orders, filled: set<int>, ids: seq<int>, p: nat)
    requires p < |Loose(orders, filled, ids)|
    ensures IsLoose(orders, filled, Loose(orders, filled, ids)[p]) && Loose(orders, filled, ids)[p] in ids
  {
    PartsHold(orders, filled, ids);
    assert Loose(orders, filled, ids)[p] in Loose(orders, filled, ids);
  }

  lemma {:induction false} RemoveShortens(s: seq<int>, x: int)
    requires x in s
    ensures |RemoveFirst(s, x)| == |s| - 1
  {
    if s[0] != x {
      RemoveShortens(s[1..], x);
    }
  }

  /** The drops as a recursion: one more buy while the floor is not met. */
  function Dropping(orders: Orders, filled: set<int>, startUsd: real, floorUsd: Option<real>,
                    kept: seq<int>, dropped: seq<int>): Settlement
    decreases |kept|
  {
    var verdict := CashFloor(startUsd + Projected(orders, filled, kept), floorUsd);
    var buys := Loose(orders, filled, kept);
    if verdict == Some(true) || buys == [] then Settlement(kept, dropped, verdict)
    else
      var last := buys[|buys| - 1];
      LooseHolds(orders, filled, kept, |buys| - 1);
      RemoveShortens(kept, last);
      Dropping(orders, filled, startUsd, floorUsd, RemoveFirst(kept, last), dropped + [last])
  }

  lemma DroppingStops(orders: Orders, filled: set<int>, ids: seq<int>, startUsd: real,
                      floorUsd: Option<real>, kept: seq<int>, dropped: seq<int>, n: nat)
    requires Midway(orders, filled, ids, kept, dropped, n) && Priced(orders, filled, ids)
    requires n == 0 || Meets(orders, filled, ids, startUsd, floorUsd, n)
    ensures Dropping(orders, filled, startUsd, floorUsd, kept, dropped)
            == Settlement(kept, dropped, CashFloor(Left(orders, filled, ids, startUsd, n), floorUsd))
  {
    MidwayLeft(orders, filled, ids, kept, dropped, n, startUsd);
  }

  lemma DroppingGoesOn(orders: Orders, filled: set<int>, ids: seq<int>, startUsd: real,
                       floorUsd: Option<real>, kept: seq<int>, dropped: seq<int>, n: nat)
    requires Midway(orders, filled, ids, kept, dropped, n) && Priced(orders, filled, ids)
    requires n > 0 && !Meets(orders, filled, ids, startUsd, floorUsd, n)
    ensures var last := Loose(orders, filled, kept)[n - 1];
            Dropping(orders, filled, startUsd, floorUsd, kept, dropped)
            == Dropping(orders, filled, startUsd, floorUsd, RemoveFirst(kept, last), dropped + [last])
  {
    MidwayLeft(orders, filled, ids, kept, dropped, n, startUsd);
  }

  lemma {:induction false} DroppingSettles(orders: Orders, filled: set<int>, ids: seq<int>,
                                           startUsd: real, floorUsd: Option<real>, kept: seq<int>,
                                           dropped: seq<int>, n: nat, settled: Settlement)
    requires Midway(orders, filled, ids, kept, dropped, n) && Priced(orders, filled, ids)
    requires NoLonger(orders, filled, ids, startUsd, floorUsd, n)
    requires settled == Dropping(orders, filled, startUsd, floorUsd, kept, dropped)
    ensures Settled(orders, filled, ids, startUsd, floorUsd, settled)
    decreases n
  {
    if n == 0 || Meets(orders, filled, ids, startUsd, floorUsd, n) {
      DroppingStops(orders, filled, ids, startUsd, floorUsd, kept, dropped, n);
      SettledAt(orders, filled, ids, startUsd, floorUsd, kept, dropped, n);
    } else {
      DroppingGoesOn(orders, filled, ids, startUsd, floorUsd, kept, dropped, n);
      DropStep(orders, filled, ids, startUsd, floorUsd, kept, dropped, n);
      var last := Loose(orders, filled, kept)[n - 1];
      DroppingSettles(orders, filled, ids, startUsd, floorUsd, RemoveFirst(kept, last), dropped + [last],
                      n - 1, settled);
    }
  }

  /** Drop loose buys, last first, until the floor is met or none is left. */
  method DropBuys(orders: Orders, ids: seq<int>, startUsd: real, floorUsd: Option<real>, filled: set<int>)
    returns (r: Result<Settlement, int>)
    requires forall i :: i in ids ==> i in orders
    ensures r.Ok? <==> Priced(orders, filled, ids)
    ensures r.Ok? ==> r.value == Dropping(orders, filled, startUsd, floorUsd, ids, [])
    ensures r.Err? ==> r.error in ids && r.error in orders && r.error !in filled && orders[r.error].worth.None?
  {
    var kept, dropped: seq<int> := ids, [];
    var left := CashAfter(startUsd, orders, filled, kept);
    if left.Err? {
      return Err(left.error);
    }
    var buys := Loose(orders, filled, kept);
    ghost var settled := Dropping(orders, filled, startUsd, floorUsd, kept, dropped);
    while CashFloor(left.value, floorUsd) != Some(true) && buys != []
      invariant Priced(orders, filled, kept) && buys == Loose(orders, filled, kept)
      invariant left == Ok(startUsd + Projected(orders, filled, kept))
      invariant settled == Dropping(orders, filled, startUsd, floorUsd, kept, dropped)
      decreases |kept|
    {
      kept, dropped, left, buys := DropLast(orders, filled, startUsd, floorUsd, kept, dropped, buys, settled);
    }
    DropsNoMore(orders, filled, startUsd, floorUsd, kept, dropped, settled);
    return Ok(Settlement(kept, dropped, CashFloor(left.value, floorUsd)));
  }

  /** The last of the buys dropped, and what that leaves. */
  method DropLast(orders: Orders, filled: set<int>, startUsd: real, floorUsd: Option<real>, kept: seq<int>,
                  dropped: seq<int>, buys: seq<int>, ghost settled: Settlement)
    returns (fewer: seq<int>, more: seq<int>, left: Result<real, int>, rest: seq<int>)
    requires Priced(orders, filled, kept) && buys == Loose(orders, filled, kept) && buys != []
    requires CashFloor(startUsd + Projected(orders, filled, kept), floorUsd) != Some(true)
    requires settled == Dropping(orders, filled, startUsd, floorUsd, kept, dropped)
    ensures fewer == RemoveFirst(kept, buys[|buys| - 1]) && more == dropped + [buys[|buys| - 1]]
    ensures Priced(orders, filled, fewer) && |fewer| < |kept| && rest == Loose(orders, filled, fewer)
    ensures left == Ok(startUsd + Projected(orders, filled, fewer))
    ensures settled == Dropping(orders, filled, startUsd, floorUsd, fewer, more)
  {
    var last := buys[|buys| - 1];
    fewer, more := RemoveFirst(kept, last), dropped + [last];
    DropsOn(orders, filled, startUsd, floorUsd, kept, dropped, last, fewer, more, settled);
    left := CashAfter(startUsd, orders, filled, fewer);
    rest := Loose(orders, filled, fewer);
  }

  /** Dropping the last of the buys keeps what is left priced, and leads to the same end. */
  lemma DropsOn(orders: Orders, filled: set<int>, startUsd: real, floorUsd: Option<real>, kept: seq<int>,
                dropped: seq<int>, last: int, fewer: seq<int>, more: seq<int>, settled: Settlement)
    requires Priced(orders, filled, kept) && Loose(orders, filled, kept) != []
    requires last == Loose(orders, filled, kept)[|Loose(orders, filled, kept)| - 1]
    requires fewer == RemoveFirst(kept, last) && more == dropped + [last]
    requires settled == Dropping(orders, filled, startUsd, floorUsd, kept, dropped)
    requires CashFloor(startUsd + Projected(orders, filled, kept), floorUsd) != Some(true)
    ensures Priced(orders, filled, fewer) && |fewer| < |kept|
    ensures settled == Dropping(orders, filled, startUsd, floorUsd, fewer, more)
  {
    DropKeepsPriced(orders, filled, kept);
  }

  lemma DropsNoMore(orders: Orders, filled: set<int>, startUsd: real, floorUsd: Option<real>, kept: seq<int>,
                    dropped: seq<int>, settled: Settlement)
    requires settled == Dropping(orders, filled, startUsd, floorUsd, kept, dropped)
    requires CashFloor(startUsd + Projected(orders, filled, kept), floorUsd) == Some(true)
             || Loose(orders, filled, kept) == []
    ensures settled == Settlement(kept, dropped, CashFloor(startUsd + Projected(orders, filled, kept), floorUsd))
  {
  }

  lemma DropKeepsPriced(orders: Orders, filled: set<int>, kept: seq<int>)
    requires Priced(orders, filled, kept) && Loose(orders, filled, kept) != []
    ensures var buys := Loose(orders, filled, kept);
            var fewer := RemoveFirst(kept, buys[|buys| - 1]);
            Priced(orders, filled, fewer) && |fewer| < |kept|
  {
    var buys := Loose(orders, filled, kept);
    LooseHolds(orders, filled, kept, |buys| - 1);
    RemoveShortens(kept, buys[|buys| - 1]);
    RemoveHolds(kept, buys[|buys| - 1]);
  }

  /** The floor applied to what is approved, before any of it has filled or once some has. */
  method SettleFloor(orders: Orders, approved: seq<int>, planCashUsd: real, floorUsd: Option<real>,
                     bookedUsd: Option<real>, filled: set<int>)
    returns (r: Result<Settlement, Refusal>)
    ensures r == Err(FilledNotApproved) <==> exists i :: i in filled && !(i in approved && i in orders)
    ensures r == Err(NeedsBookedCash) <==>
              (forall i :: i in filled ==> i in approved && i in orders) && filled != {} && bookedUsd.None?
    ensures r.Err? && r.error.NoMark? ==>
              r.error.index in approved && r.error.index in orders && r.error.index !in filled
              && orders[r.error.index].worth.None?
    ensures Priced(orders, filled, Sort(IntLe, InPlan(orders, approved))) ==> r.Ok? || !r.error.NoMark?
    ensures r.Ok? ==>
              var ids := Sort(IntLe, InPlan(orders, approved));
              && Priced(orders, filled, ids)
              && Settled(orders, filled, ids, if bookedUsd.Some? then bookedUsd.value else planCashUsd,
                         floorUsd, r.value)
  {
    var ids := Sort(IntLe, InPlan(orders, approved));
    SortSorts(IntLe, InPlan(orders, approved));
    SortHolds(IntLe, InPlan(orders, approved));
    if exists i :: i in filled && i !in ids {
      return Err(FilledNotApproved);
    }
    if filled != {} && bookedUsd.None? {
      return Err(NeedsBookedCash);
    }
    var start := if bookedUsd.Some? then bookedUsd.value else planCashUsd;
    assert Loose(orders, filled, ids)[|Loose(orders, filled, ids)|..] == [];
    assert Midway(orders, filled, ids, ids, [], |Loose(orders, filled, ids)|);
    var settled := DropBuys(orders, ids, start, floorUsd, filled);
    if settled.Err? {
      return Err(NoMark(settled.error));
    }
    DroppingSettles(orders, filled, ids, start, floorUsd, ids, [], |Loose(orders, filled, ids)|,
                    settled.value);
    return Ok(settled.value);
  }

  lemma DropNext(loose: seq<int>, n: nat)
    requires 0 < n <= |loose|
    ensures Reverse(loose[n..]) + [loose[n - 1]] == Reverse(loose[n - 1..])
  {
    assert loose[n - 1..] == [loose[n - 1]] + loose[n..];
    ReversePrepend(loose[n - 1], loose[n..]);
  }

  lemma {:induction false} ReversePrepend(x: int, s: seq<int>)
    ensures Reverse([x] + s) == Reverse(s) + [x]
  {
    if s != [] {
      assert ([x] + s)[..|s|] == [x] + s[..|s| - 1];
      ReversePrepend(x, s[..|s| - 1]);
    }
  }

  // ----- laws of the floor ---------------------------------------------------------------------

  lemma LongestIsUnique(orders: Orders, filled: set<int>, ids: seq<int>, startUsd: real,
                        floorUsd: Option<real>, n: nat, m: nat)
    requires Longest(orders, filled, ids, startUsd, floorUsd, n)
    requires Longest(orders, filled, ids, startUsd, floorUsd, m)
    ensures n == m
  {
  }

  lemma {:induction false} PartsAreAll(orders: Orders, filled: set<int>, ids: seq<int>)
    ensures multiset(ids) == multiset(Loose(orders, filled, ids)) + multiset(Fixed(orders, filled, ids))
  {
    if ids != [] {
      PartsAreAll(orders, filled, ids[1..]);
      assert ids == [ids[0]] + ids[1..];
    }
  }

  /** A sorted list is determined by its loose buys and the rest. */
  lemma PartsDecide(orders: Orders, filled: set<int>, a: seq<int>, b: seq<int>)
    requires Sorted(IntLe, a) && Sorted(IntLe, b)
    requires Loose(orders, filled, a) == Loose(orders, filled, b)
    requires Fixed(orders, filled, a) == Fixed(orders, filled, b)
    ensures a == b
  {
    PartsAreAll(orders, filled, a);
    PartsAreAll(orders, filled, b);
    SortedUnique(IntLe, a, b);
  }

  /** The same cash for any list with the same fixed orders and the same first buys. */
  lemma LeftOfKept(orders: Orders, filled: set<int>, ids: seq<int>, kept: seq<int>, startUsd: real,
                   n: nat, m: nat)
    requires m <= n <= |Loose(orders, filled, ids)|
    requires Fixed(orders, filled, kept) == Fixed(orders, filled, ids)
    requires Loose(orders, filled, kept) == Loose(orders, filled, ids)[..n]
    ensures Left(orders, filled, kept, startUsd, m) == Left(orders, filled, ids, startUsd, m)
  {
    assert Loose(orders, filled, ids)[..n][..m] == Loose(orders, filled, ids)[..m];
  }

  /** Settling what was kept keeps it all. */
  lemma SettlingTwiceChangesNothing(orders: Orders, filled: set<int>, ids: seq<int>, startUsd: real,
                                    floorUsd: Option<real>, s: Settlement, t: Settlement)
    requires Settled(orders, filled, ids, startUsd, floorUsd, s)
    requires Settled(orders, filled, s.kept, startUsd, floorUsd, t)
    ensures t.kept == s.kept && t.dropped == [] && t.floor == s.floor
  {
    var loose := Loose(orders, filled, ids);
    var n: nat :| Longest(orders, filled, ids, startUsd, floorUsd, n)
      && Loose(orders, filled, s.kept) == loose[..n]
      && s.floor == CashFloor(Left(orders, filled, ids, startUsd, n), floorUsd);
    LeftOfKept(orders, filled, ids, s.kept, startUsd, n, n);
    assert Longest(orders, filled, s.kept, startUsd, floorUsd, n);
    var m: nat :| Longest(orders, filled, s.kept, startUsd, floorUsd, m)
      && Loose(orders, filled, t.kept) == Loose(orders, filled, s.kept)[..m]
      && t.dropped == Reverse(Loose(orders, filled, s.kept)[m..])
      && t.floor == CashFloor(Left(orders, filled, s.kept, startUsd, m), floorUsd);
    LongestIsUnique(orders, filled, s.kept, startUsd, floorUsd, n, m);
    assert loose[..n][..n] == loose[..n];
    PartsDecide(orders, filled, t.kept, s.kept);
  }

  /** Taking one fixed order away leaves the buys, and takes what it added off the cash. */
  lemma {:induction false} RemoveFixed(orders: Orders, filled: set<int>, ids: seq<int>, x: int)
    requires x in ids && !IsLoose(orders, filled, x)
    ensures var fewer := RemoveFirst(ids, x);
            && Loose(orders, filled, fewer) == Loose(orders, filled, ids)
            && Projected(orders, filled, Fixed(orders, filled, fewer))
               == Projected(orders, filled, Fixed(orders, filled, ids))
                  - if x in filled then 0.0 else Signed(orders, x)
  {
    var tail := ids[1..];
    assert ids == [ids[0]] + tail;
    SplitHead(orders, filled, ids[0], tail);
    if ids[0] == x {
      assert Fixed(orders, filled, ids)[1..] == Fixed(orders, filled, tail);
    } else {
      RemoveFixed(orders, filled, tail, x);
      SplitHead(orders, filled, ids[0], RemoveFirst(tail, x));
      if !IsLoose(orders, filled, ids[0]) {
        assert Fixed(orders, filled, ids)[1..] == Fixed(orders, filled, tail);
        assert Fixed(orders, filled, RemoveFirst(ids, x))[1..] == Fixed(orders, filled, RemoveFirst(tail, x));
      }
    }
  }

  /** A vetoed sell never enlarges the buys that are kept. */
  lemma VetoedSellKeepsNoMore(orders: Orders, filled: set<int>, ids: seq<int>, startUsd: real,
                              floorUsd: Option<real>, sell: int, s: Settlement, t: Settlement)
    requires sell in ids && sell in orders && orders[sell].side == Sell && sell !in filled
    requires WorthOf(orders, sell) >= 0.0
    requires Settled(orders, filled, ids, startUsd, floorUsd, s)
    requires Settled(orders, filled, RemoveFirst(ids, sell), startUsd, floorUsd, t)
    ensures Loose(orders, filled, t.kept) <= Loose(orders, filled, s.kept)
  {
    var fewer := RemoveFirst(ids, sell);
    RemoveFixed(orders, filled, ids, sell);
    var n: nat :| Longest(orders, filled, ids, startUsd, floorUsd, n)
      && Loose(orders, filled, s.kept) == Loose(orders, filled, ids)[..n];
    var m: nat :| Longest(orders, filled, fewer, startUsd, floorUsd, m)
      && Loose(orders, filled, t.kept) == Loose(orders, filled, fewer)[..m];
    assert forall k :: n < k <= |Loose(orders, filled, ids)| ==>
        Left(orders, filled, fewer, startUsd, k) <= Left(orders, filled, ids, startUsd, k)
        && !Meets(orders, filled, ids, startUsd, floorUsd, k);
  }

  // ----- admitting the buys one at a time ------------------------------------------------------

  /** A decision partway through: the cash booked, what has filled, and what is not yet refused. */
  datatype Admission = Admission(booked: real, filled: set<int>, still: seq<int>)

  /** What becomes of one approved buy when its turn comes. */
  datatype Turn = Fills(index: int) | Refused(index: int)

  function LongestBelow(orders: Orders, filled: set<int>, ids: seq<int>, startUsd: real,
                        floorUsd: Option<real>, n: nat): (m: nat)
    requires n <= |Loose(orders, filled, ids)|
    requires forall k :: n < k <= |Loose(orders, filled, ids)| ==>
               CashFloor(Left(orders, filled, ids, startUsd, k), floorUsd) != Some(true)
    ensures Longest(orders, filled, ids, startUsd, floorUsd, m)
  {
    if n == 0 || CashFloor(Left(orders, filled, ids, startUsd, n), floorUsd) == Some(true) then n
    else LongestBelow(orders, filled, ids, startUsd, floorUsd, n - 1)
  }

  function KeptCount(orders: Orders, floorUsd: Option<real>, st: Admission): (n: nat)
    ensures Longest(orders, st.filled, st.still, st.booked, floorUsd, n)
  {
    LongestBelow(orders, st.filled, st.still, st.booked, floorUsd, |Loose(orders, st.filled, st.still)|)
  }

  /** The buys the floor keeps, on the cash booked so far. */
  function KeptBuys(orders: Orders, floorUsd: Option<real>, st: Admission): seq<int> {
    Loose(orders, st.filled, st.still)[..KeptCount(orders, floorUsd, st)]
  }

  /** A paper buy takes what it sells off the booked cash; a refusal takes the order out. */
  function Next(orders: Orders, st: Admission, turn: Turn): Admission {
    match turn
    case Fills(i) => st.(booked := st.booked - WorthOf(orders, i), filled := st.filled + {i})
    case Refused(i) => st.(still := RemoveFirst(st.still, i))
  }

  /** Only a buy the floor keeps is filled; any buy may be refused. */
  ghost predicate Allowed(orders: Orders, floorUsd: Option<real>, st: Admission, turn: Turn) {
    && turn.index in Loose(orders, st.filled, st.still)
    && (turn.Fills? ==> turn.index in KeptBuys(orders, floorUsd, st))
  }

  ghost predicate NoRepeats(s: seq<int>) {
    forall i, j :: 0 <= i < j < |s| ==> s[i] != s[j]
  }

  /** Every order left is a buy or has filled: the sells are done. */
  ghost predicate SellsDone(orders: Orders, st: Admission) {
    && NoRepeats(st.still)
    && forall i :: i in st.still ==> i in st.filled || (i in orders && orders[i].side == Buy)
  }

  ghost predicate CostsNothingBelowZero(orders: Orders) {
    forall i :: i in orders ==> WorthOf(orders, i) >= 0.0
  }

  lemma {:induction false} FilledAddNothing(orders: Orders, filled: set<int>, ids: seq<int>)
    requires forall i :: i in ids ==> i in filled
    ensures Projected(orders, filled, ids) == 0.0
  {
    if ids != [] {
      FilledAddNothing(orders, filled, ids[1..]);
    }
  }

  lemma LeftWhenSellsDone(orders: Orders, st: Admission, n: nat)
    requires SellsDone(orders, st) && n <= |Loose(orders, st.filled, st.still)|
    ensures Left(orders, st.filled, st.still, st.booked, n)
            == st.booked - Cost(orders, Loose(orders, st.filled, st.still)[..n])
  {
    PartsHold(orders, st.filled, st.still);
    FilledAddNothing(orders, st.filled, Fixed(orders, st.filled, st.still));
  }

  function Without(s: seq<int>, p: nat): seq<int>
    requires p < |s|
  {
    s[..p] + s[p + 1..]
  }

  lemma {:induction false} CostAdds(orders: Orders, a: seq<int>, b: seq<int>)
    ensures Cost(orders, a + b) == Cost(orders, a) + Cost(orders, b)
  {
    if a == [] {
      assert a + b == b;
    } else {
      CostAdds(orders, a[1..], b);
      assert (a + b)[1..] == a[1..] + b;
    }
  }

  lemma WithoutAt(s: seq<int>, p: nat, q: nat)
    requires p < |s| && q < |s| && p != q
    ensures Without(s, p)[if q < p then q else q - 1] == s[q]
  {
  }

  /** Among the first m buys, one fewer costs less by that one. */
  lemma CostWithout(orders: Orders, buys: seq<int>, p: nat, m: nat)
    requires p < m <= |buys|
    ensures Cost(orders, Without(buys, p)[..m - 1]) == Cost(orders, buys[..m]) - WorthOf(orders, buys[p])
  {
    var rest := buys[p + 1..m];
    assert Without(buys, p)[..m - 1] == buys[..p] + rest;
    assert buys[..m] == buys[..p] + ([buys[p]] + rest);
    CostAdds(orders, buys[..p], rest);
    CostAdds(orders, buys[..p], [buys[p]] + rest);
    assert ([buys[p]] + rest)[1..] == rest;
  }

  lemma {:induction false} CostNotNegative(orders: Orders, buys: seq<int>)
    requires CostsNothingBelowZero(orders)
    ensures Cost(orders, buys) >= 0.0
  {
    if buys != [] {
      CostNotNegative(orders, buys[1..]);
    }
  }

  /** In a distinct list, the loose buy at the head is the first loose buy. */
  lemma LooseAtHead(orders: Orders, filled: set<int>, ids: seq<int>, p: nat)
    requires NoRepeats(ids) && p < |Loose(orders, filled, ids)|
    requires ids[0] == Loose(orders, filled, ids)[p]
    ensures p == 0 && ids[0] !in ids[1..]
    ensures Without(Loose(orders, filled, ids), p) == Loose(orders, filled, ids[1..])
  {
    LooseHolds(orders, filled, ids, p);
    assert ids[0] !in ids[1..];
    if p > 0 {
      LooseHolds(orders, filled, ids[1..], p - 1);
    }
  }

  /** Any other loose buy is one of the tail's, a place earlier if the head is loose too. */
  lemma LooseBehindHead(orders: Orders, filled: set<int>, ids: seq<int>, p: nat)
    requires p < |Loose(orders, filled, ids)| && ids[0] != Loose(orders, filled, ids)[p]
    ensures var loose, rest := Loose(orders, filled, ids), Loose(orders, filled, ids[1..]);
            if IsLoose(orders, filled, ids[0]) then
              p > 0 && rest[p - 1] == loose[p] && Without(loose, p) == [ids[0]] + Without(rest, p - 1)
            else rest == loose
  {
    if IsLoose(orders, filled, ids[0]) && p > 0 {
      WithoutBehindHead(ids[0], Loose(orders, filled, ids[1..]), p - 1);
    }
  }

  lemma WithoutBehindHead(x: int, s: seq<int>, q: nat)
    requires q < |s|
    ensures Without([x] + s, q + 1) == [x] + Without(s, q)
  {
  }

  /** Filling a loose buy takes exactly it off the loose buys. */
  lemma {:induction false} LooseAfterFill(orders: Orders, filled: set<int>, ids: seq<int>, p: nat)
    requires NoRepeats(ids) && p < |Loose(orders, filled, ids)|
    ensures var loose := Loose(orders, filled, ids);
            Loose(orders, filled + {loose[p]}, ids) == Without(loose, p)
  {
    var loose := Loose(orders, filled, ids);
    LooseHolds(orders, filled, ids, p);
    if ids[0] == loose[p] {
      LooseAtHead(orders, filled, ids, p);
      AbsentFillChangesNothing(orders, filled, ids[1..], loose[p]);
    } else {
      LooseBehindHead(orders, filled, ids, p);
      LooseAfterFill(orders, filled, ids[1..], if IsLoose(orders, filled, ids[0]) then p - 1 else p);
    }
  }

  /** Refusing a loose buy takes exactly it off the loose buys. */
  lemma {:induction false} LooseAfterRefusal(orders: Orders, filled: set<int>, ids: seq<int>, p: nat)
    requires NoRepeats(ids) && p < |Loose(orders, filled, ids)|
    ensures var loose := Loose(orders, filled, ids);
            Loose(orders, filled, RemoveFirst(ids, loose[p])) == Without(loose, p)
  {
    var loose := Loose(orders, filled, ids);
    LooseHolds(orders, filled, ids, p);
    if ids[0] == loose[p] {
      LooseAtHead(orders, filled, ids, p);
    } else {
      LooseBehindHead(orders, filled, ids, p);
      LooseAfterRefusal(orders, filled, ids[1..], if IsLoose(orders, filled, ids[0]) then p - 1 else p);
      SplitHead(orders, filled, ids[0], RemoveFirst(ids[1..], loose[p]));
    }
  }

  lemma {:induction false} AbsentFillChangesNothing(orders: Orders, filled: set<int>, ids: seq<int>, x: int)
    requires x !in ids
    ensures Loose(orders, filled + {x}, ids) == Loose(orders, filled, ids)
  {
    if ids != [] {
      AbsentFillChangesNothing(orders, filled, ids[1..], x);
    }
  }

  lemma {:induction false} RemoveKeepsDistinct(s: seq<int>, x: int)
    requires NoRepeats(s)
    ensures NoRepeats(RemoveFirst(s, x))
  {
    if s != [] && s[0] != x {
      RemoveKeepsDistinct(s[1..], x);
      RemoveHolds(s[1..], x);
      assert forall y :: y in RemoveFirst(s[1..], x) ==> y in s[1..];
      assert s[0] !in s[1..];
    }
  }

  lemma TurnKeepsState(orders: Orders, st: Admission, turn: Turn)
    requires SellsDone(orders, st) && turn.index in Loose(orders, st.filled, st.still)
    ensures SellsDone(orders, Next(orders, st, turn))
  {
    RemoveKeepsDistinct(st.still, turn.index);
    RemoveHolds(st.still, turn.index);
  }

  /** After a turn the loose buys are the same but for the one whose turn it was. */
  lemma LooseAfterTurn(orders: Orders, st: Admission, turn: Turn, p: nat)
    requires SellsDone(orders, st) && p < |Loose(orders, st.filled, st.still)|
    requires turn.index == Loose(orders, st.filled, st.still)[p]
    ensures var next := Next(orders, st, turn);
            Loose(orders, next.filled, next.still) == Without(Loose(orders, st.filled, st.still), p)
  {
    if turn.Fills? {
      LooseAfterFill(orders, st.filled, st.still, p);
    } else {
      LooseAfterRefusal(orders, st.filled, st.still, p);
    }
  }

  /** How many buys are kept for certain after a turn: all but the one whose turn it was. */
  lemma KeptCountAfterTurn(orders: Orders, floorUsd: Option<real>, st: Admission, turn: Turn, p: nat)
    requires SellsDone(orders, st) && CostsNothingBelowZero(orders)
    requires p < |Loose(orders, st.filled, st.still)|
    requires turn.index == Loose(orders, st.filled, st.still)[p]
    requires turn.Fills? ==> p < KeptCount(orders, floorUsd, st)
    ensures var n := KeptCount(orders, floorUsd, st);
            KeptCount(orders, floorUsd, Next(orders, st, turn)) >= if p < n then n - 1 else n
  {
    var next := Next(orders, st, turn);
    var loose := Loose(orders, st.filled, st.still);
    var n := KeptCount(orders, floorUsd, st);
    LooseHolds(orders, st.filled, st.still, p);
    TurnKeepsState(orders, st, turn);
    LooseAfterTurn(orders, st, turn, p);
    var k := if p < n then n - 1 else n;
    if n > 0 {
      LeftWhenSellsDone(orders, st, n);
      LeftWhenSellsDone(orders, next, k);
      if p < n {
        CostWithout(orders, loose, p, n);
      } else {
        assert Without(loose, p)[..n] == loose[..n];
      }
      assert WorthOf(orders, loose[p]) >= 0.0;
      assert Meets(orders, next.filled, next.still, next.booked, floorUsd, k);
    }
  }

  /** A buy the floor kept leaves at least the floor once it has filled. */
  lemma FillLeavesFloor(orders: Orders, floorUsd: Option<real>, st: Admission, p: nat)
    requires SellsDone(orders, st) && CostsNothingBelowZero(orders)
    requires p < KeptCount(orders, floorUsd, st)
    ensures floorUsd.Some?
    ensures st.booked - WorthOf(orders, Loose(orders, st.filled, st.still)[p]) >= floorUsd.value
  {
    var loose := Loose(orders, st.filled, st.still);
    var n := KeptCount(orders, floorUsd, st);
    LeftWhenSellsDone(orders, st, n);
    CostWithout(orders, loose, p, n);
    CostNotNegative(orders, Without(loose, p)[..n - 1]);
  }

  /** A buy kept before another's turn is kept after it, and a fill leaves at least the floor. */
  lemma TurnKeepsTheKept(orders: Orders, floorUsd: Option<real>, st: Admission, turn: Turn)
    requires SellsDone(orders, st) && CostsNothingBelowZero(orders)
    requires Allowed(orders, floorUsd, st, turn)
    ensures var next := Next(orders, st, turn);
            && SellsDone(orders, next)
            && (forall j :: j in KeptBuys(orders, floorUsd, st) && j != turn.index ==>
                  j in KeptBuys(orders, floorUsd, next))
            && (turn.Fills? ==> floorUsd.Some? && next.booked >= floorUsd.value)
  {
    var next := Next(orders, st, turn);
    var loose := Loose(orders, st.filled, st.still);
    var n := KeptCount(orders, floorUsd, st);
    TurnKeepsState(orders, st, turn);
    var p :| 0 <= p < |loose| && loose[p] == turn.index && (turn.Fills? ==> p < n);
    LooseAfterTurn(orders, st, turn, p);
    KeptCountAfterTurn(orders, floorUsd, st, turn, p);
    if turn.Fills? {
      FillLeavesFloor(orders, floorUsd, st, p);
    }
    var m := KeptCount(orders, floorUsd, next);
    forall j | j in KeptBuys(orders, floorUsd, st) && j != turn.index
      ensures j in KeptBuys(orders, floorUsd, next)
    {
      var q :| 0 <= q < n && loose[q] == j;
      WithoutAt(loose, p, q);
      assert Without(loose, p)[..m][if q < p then q else q - 1] == j;
    }
  }

  /** Every turn of a run is allowed when it comes. */
  ghost predicate AllowedRun(orders: Orders, floorUsd: Option<real>, st: Admission, turns: seq<Turn>)
    decreases |turns|
  {
    turns == []
    || (Allowed(orders, floorUsd, st, turns[0])
        && AllowedRun(orders, floorUsd, Next(orders, st, turns[0]), turns[1..]))
  }

  function After(orders: Orders, st: Admission, turns: seq<Turn>): Admission
    decreases |turns|
  {
    if turns == [] then st else After(orders, Next(orders, st, turns[0]), turns[1..])
  }

  /**
   Once the sells are done, admitting paper buys one at a time while the floor keeps them never
   takes the booked cash below the floor, and no buy kept at first is dropped before its turn.
   */
  lemma {:induction false} AdmissionKeepsFloor(orders: Orders, floorUsd: Option<real>, st: Admission,
                                               turns: seq<Turn>)
    requires SellsDone(orders, st) && CostsNothingBelowZero(orders)
    requires AllowedRun(orders, floorUsd, st, turns)
    ensures var end := After(orders, st, turns);
            && (forall j :: j in KeptBuys(orders, floorUsd, st) ==>
                  j in KeptBuys(orders, floorUsd, end) || exists k :: 0 <= k < |turns| && turns[k].index == j)
            && (if exists k :: 0 <= k < |turns| && turns[k].Fills?
                then floorUsd.Some? && end.booked >= floorUsd.value
                else end.booked == st.booked)
    decreases |turns|
  {
    if turns != [] {
      TurnKeepsTheKept(orders, floorUsd, st, turns[0]);
      var next, rest := Next(orders, st, turns[0]), turns[1..];
      AdmissionKeepsFloor(orders, floorUsd, next, rest);
      forall j | j in KeptBuys(orders, floorUsd, st) && j !in KeptBuys(orders, floorUsd, After(orders, st, turns))
        ensures exists k :: 0 <= k < |turns| && turns[k].index == j
      {
        if j != turns[0].index {
          var k :| 0 <= k < |rest| && rest[k].index == j;
          assert turns[k + 1].index == j;
        }
      }
      if exists k :: 0 <= k < |rest| && rest[k].Fills? {
        var k :| 0 <= k < |rest| && rest[k].Fills?;
        assert turns[k + 1].Fills?;
      } else {
        assert forall k :: 0 < k < |turns| ==> turns[k] == rest[k - 1];
      }
    }
  }
}

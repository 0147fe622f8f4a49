/** One fold over the ledger's events. */
module Ledger {
  // Holdings at average cost, and what each book opened with, realised, paid and spent. The one
  // rounding is the share of a basis that a partial disposal takes.

  import opened Wrappers
  import opened Totals

  type Asset = string

  /** A quantity of one asset, in raw units of its own decimals. */
  datatype Amount = Amount(raw: int, decimals: nat, asset: Asset)

  /** The USD price of one whole `base`, in raw units of its own decimals. */
  datatype Price = Price(raw: int, decimals: nat, base: Asset)

  function Pow10(n: nat): (p: real)
    ensures p >= 1.0
  {
    if n == 0 then 1.0 else 10.0 * Pow10(n - 1)
  }

  /** USD, with nothing rounded. */
  function Worth(amount: Amount, mark: Price): real {
    (amount.raw * mark.raw) as real / Pow10(amount.decimals + mark.decimals)
  }

  // ----- the events ----------------------------------------------------------------------------

  datatype Book = Paper | Real

  datatype Event =
    | Opening(book: Book, amount: Amount, mark: Price)
    | Fill(orderId: string, live: bool, gave: Amount, got: Amount, gaveMark: Price, gotMark: Price,
           cashAsset: Asset)
    | Transfer(book: Book, incoming: bool, amount: Amount, mark: Price)
    | Fee(book: Book, amount: Amount, mark: Price)
    | Inference(seat: string, usd: real)

  predicate Marks(mark: Price, amount: Amount) {
    amount.raw > 0 && mark.base == amount.asset && mark.raw > 0
  }

  /** What each event's constructor insists on. */
  predicate Formed(e: Event) {
    match e
    case Fill(orderId, _, gave, got, gaveMark, gotMark, cashAsset) =>
      && orderId != "" && gave.asset != got.asset
      && Marks(gaveMark, gave) && Marks(gotMark, got)
      && (cashAsset == gave.asset || cashAsset == got.asset)
    case Inference(seat, usd) => seat != "" && usd >= 0.0
    case _ => Marks(e.mark, e.amount)
  }

  ghost predicate AllFormed(events: seq<Event>) {
    forall e :: e in events ==> Formed(e)
  }

  /** Whichever leg of a fill is cash decides its value. */
  function FillValue(e: Event): real
    requires e.Fill?
  {
    if e.cashAsset == e.gave.asset then Worth(e.gave, e.gaveMark) else Worth(e.got, e.gotMark)
  }

  function BookOf(e: Event): Book {
    match e
    case Fill(_, live, _, _, _, _, _) => if live then Real else Paper
    case Inference(_, _) => Real
    case _ => e.book
  }

  // ----- the one rounding ----------------------------------------------------------------------

  /** A figure in quanta of 10 to the -30 USD, what a disposal's share of a basis is rounded to. */
  function InQuanta(usd: real): real {
    usd * 1000000000000000000000000000000.0
  }

  function OfQuanta(n: int): real {
    n as real / 1000000000000000000000000000000.0
  }

  function OfHalfQuanta(n: int): real {
    n as real / 2000000000000000000000000000000.0
  }

  /** The nearest whole number, ties to the even one. */
  function HalfEven(x: real): (n: int)
    ensures x - 0.5 <= n as real <= x + 0.5
  {
    var f := x.Floor;
    var rest := x - f as real;
    if rest < 0.5 then f
    else if rest > 0.5 then f + 1
    else if f % 2 == 0 then f else f + 1
  }

  /** What proportion of a holding is given up. */
  function Proportion(part: int, whole: int): (f: real)
    requires 0 < part < whole
    ensures 0.0 < f < 1.0
  {
    part as real / whole as real
  }

  function Rounded(usd: real): real {
    OfQuanta(HalfEven(InQuanta(usd)))
  }

  /** How much of a basis leaves with a proportion of the units. */
  type Share = (real, real) -> real

  /** What the ledger removes: the proportional share, rounded. */
  function QuantizedShare(basis: real, f: real): real { Rounded(ExactShare(basis, f)) }

  /** What an unrounded ledger would remove. */
  function ExactShare(basis: real, f: real): real { basis * f }

  // ----- the fold ------------------------------------------------------------------------------

  /** What is held of one asset, and what it cost. */
  datatype Holding = Holding(raw: int, decimals: nat, basis: real)

  datatype Refusal = TwoDecimals(asset: Asset) | GivesMoreThanHeld(asset: Asset)
    | FilledTwice(orderId: string)

  datatype Walked = Walked(held: map<Asset, Holding>, filled: set<string>, openedUsd: real,
                           realisedUsd: real, costsUsd: real, expensesUsd: real)

  const START := Walked(map[], {}, 0.0, 0.0, 0.0, 0.0)

  function Had(held: map<Asset, Holding>, amount: Amount): Holding {
    if amount.asset in held then held[amount.asset] else Holding(0, amount.decimals, 0.0)
  }

  function Acquire(held: map<Asset, Holding>, amount: Amount, value: real):
      Result<map<Asset, Holding>, Refusal> {
    var had := Had(held, amount);
    if had.decimals != amount.decimals then Err(TwoDecimals(amount.asset))
    else Ok(held[amount.asset := Holding(had.raw + amount.raw, had.decimals, had.basis + value)])
  }

  /** Units leave, and basis with them: the whole of it with the last units, else a share. */
  function Dispose(share: Share, held: map<Asset, Holding>, amount: Amount):
      Result<(map<Asset, Holding>, real), Refusal>
    requires amount.raw > 0
  {
    var had := Had(held, amount);
    if had.decimals != amount.decimals then Err(TwoDecimals(amount.asset))
    else if amount.raw > had.raw then Err(GivesMoreThanHeld(amount.asset))
    else if amount.raw == had.raw then Ok((held - {amount.asset}, had.basis))
    else
      var removed := share(had.basis, Proportion(amount.raw, had.raw));
      Ok((held[amount.asset := Holding(had.raw - amount.raw, had.decimals, had.basis - removed)],
          removed))
  }

  /** One event applied. */
  function Step(share: Share, w: Walked, e: Event): Result<Walked, Refusal>
    requires Formed(e)
  {
    match e
    case Opening(_, amount, mark) => TakeIn(w, amount, mark)
    case Transfer(_, incoming, amount, mark) =>
      if incoming then TakeIn(w, amount, mark)
      else
        var out := Dispose(share, w.held, amount);
        if out.Err? then Err(out.error)
        else Ok(w.(held := out.value.0, openedUsd := w.openedUsd - out.value.1))
    case Fill(orderId, _, gave, got, _, _, _) =>
      if orderId in w.filled then Err(FilledTwice(orderId))
      else
        var out := Dispose(share, w.held, gave);
        if out.Err? then Err(out.error)
        else
          var value := FillValue(e);
          var into := Acquire(out.value.0, got, value);
          if into.Err? then Err(into.error)
          else Ok(w.(held := into.value, filled := w.filled + {orderId},
                     realisedUsd := w.realisedUsd + (value - out.value.1)))
    case Fee(_, amount, mark) =>
      var out := Dispose(share, w.held, amount);
      if out.Err? then Err(out.error)
      else
        var paid := Worth(amount, mark);
        Ok(w.(held := out.value.0, realisedUsd := w.realisedUsd + (paid - out.value.1),
              costsUsd := w.costsUsd + paid))
    case Inference(_, usd) => Ok(w.(expensesUsd := w.expensesUsd + usd))
  }

  function TakeIn(w: Walked, amount: Amount, mark: Price): Result<Walked, Refusal> {
    var value := Worth(amount, mark);
    var into := Acquire(w.held, amount, value);
    if into.Err? then Err(into.error) else Ok(w.(held := into.value, openedUsd := w.openedUsd + value))
  }

  /** Every event in order from `w`, refused at the first that cannot be what happened. */
  function FoldFrom(share: Share, w: Walked, events: seq<Event>): Result<Walked, Refusal>
    requires AllFormed(events)
    decreases |events|
  {
    if events == [] then Ok(w)
    else
      var next := Step(share, w, events[0]);
      if next.Err? then next else FoldFrom(share, next.value, events[1..])
  }

  function Fold(share: Share, events: seq<Event>): Result<Walked, Refusal>
    requires AllFormed(events)
  {
    FoldFrom(share, START, events)
  }

  /** The events of one book, in the ledger's order. */
  function ForBook(events: seq<Event>, book: Book): (mine: seq<Event>)
    ensures forall e :: e in mine <==> e in events && BookOf(e) == book
  {
    if events == [] then []
    else if BookOf(events[0]) == book then [events[0]] + ForBook(events[1..], book)
    else ForBook(events[1..], book)
  }

  /** One book's events applied in order: the result is the fold over that book's events alone. */
  method Walk(events: seq<Event>, book: Book) returns (r: Result<Walked, Refusal>)
    requires AllFormed(events)
    ensures r == Fold(QuantizedShare, ForBook(events, book))
  {
    var w := START;
    for at := 0 to |events|
      invariant FoldFrom(QuantizedShare, w, ForBook(events[at..], book))
                == Fold(QuantizedShare, ForBook(events, book))
    {
      var event := events[at];
      assert events[at..][1..] == events[at + 1..];
      if BookOf(event) != book {
        continue;
      }
      var rest := ForBook(events[at + 1..], book);
      assert ForBook(events[at..], book) == [event] + rest;
      assert ([event] + rest)[1..] == rest;
      var next := Step(QuantizedShare, w, event);
      if next.Err? {
        return next;
      }
      w := next.value;
    }
    return Ok(w);
  }

  // ----- the books reconcile -------------------------------------------------------------------

  function Bases(held: map<Asset, Holding>): map<Asset, real> {
    map a | a in held :: held[a].basis
  }

  /** What was paid for what is held is what was put in, plus what was earned, less what was paid out. */
  ghost predicate Reconciled(w: Walked) {
    Total(Bases(w.held)) == w.openedUsd + w.realisedUsd - w.costsUsd
  }

  /** An asset no longer held is absent, never zero, and never negative. */
  ghost predicate AllPositive(held: map<Asset, Holding>) {
    forall a :: a in held ==> held[a].raw > 0
  }

  lemma AcquireAddsBasis(held: map<Asset, Holding>, amount: Amount, value: real)
    requires AllPositive(held) && amount.raw > 0 && Acquire(held, amount, value).Ok?
    ensures var after := Acquire(held, amount, value).value;
            AllPositive(after) && Total(Bases(after)) == Total(Bases(held)) + value
  {
    var after := Acquire(held, amount, value).value;
    var had := Had(held, amount);
    assert Bases(after) == Bases(held)[amount.asset := had.basis + value];
    TotalPuts(Bases(held), amount.asset, had.basis + value);
  }

  /** Whatever the share was rounded to, what leaves the basis is what the disposal reports. */
  lemma DisposeTakesBasis(share: Share, held: map<Asset, Holding>, amount: Amount)
    requires AllPositive(held) && amount.raw > 0 && Dispose(share, held, amount).Ok?
    ensures var (after, removed) := Dispose(share, held, amount).value;
            AllPositive(after) && Total(Bases(after)) == Total(Bases(held)) - removed
  {
    var (after, removed) := Dispose(share, held, amount).value;
    var had := Had(held, amount);
    if amount.raw == had.raw {
      assert Bases(after) == Bases(held) - {amount.asset};
      TotalTakes(Bases(held), amount.asset);
    } else {
      assert Bases(after) == Bases(held)[amount.asset := had.basis - removed];
      TotalPuts(Bases(held), amount.asset, had.basis - removed);
    }
  }

  lemma StepReconciles(share: Share, w: Walked, e: Event)
    requires Formed(e) && Reconciled(w) && AllPositive(w.held) && Step(share, w, e).Ok?
    ensures var next := Step(share, w, e).value;
            Reconciled(next) && AllPositive(next.held)
  {
    match e
    case Opening(_, amount, mark) => AcquireAddsBasis(w.held, amount, Worth(amount, mark));
    case Transfer(_, incoming, amount, mark) =>
      if incoming {
        AcquireAddsBasis(w.held, amount, Worth(amount, mark));
      } else {
        DisposeTakesBasis(share, w.held, amount);
      }
    case Fill(_, _, gave, got, _, _, _) =>
      DisposeTakesBasis(share, w.held, gave);
      AcquireAddsBasis(Dispose(share, w.held, gave).value.0, got, FillValue(e));
    case Fee(_, amount, _) => DisposeTakesBasis(share, w.held, amount);
    case Inference(_, _) =>
  }

  lemma {:induction false} FoldReconcilesFrom(share: Share, w: Walked, events: seq<Event>)
    requires AllFormed(events) && Reconciled(w) && AllPositive(w.held)
    requires FoldFrom(share, w, events).Ok?
    ensures var r := FoldFrom(share, w, events).value;
            Reconciled(r) && AllPositive(r.held)
    decreases |events|
  {
    if events != [] {
      StepReconciles(share, w, events[0]);
      FoldReconcilesFrom(share, Step(share, w, events[0]).value, events[1..]);
    }
  }

  /** Every accepted sequence of events, and so every prefix of one, leaves the book reconciled. */
  lemma FoldReconciles(share: Share, events: seq<Event>)
    requires AllFormed(events) && Fold(share, events).Ok?
    ensures var w := Fold(share, events).value;
            Reconciled(w) && AllPositive(w.held)
  {
    assert Bases(START.held) == map[];
    FoldReconcilesFrom(share, START, events);
  }

  // ----- positions and NAV -------------------------------------------------------------------

  /** Units, their value and their basis. */
  datatype Position = Position(raw: int, valueUsd: real, basisUsd: real)

  datatype BookValue = BookValue(cash: Position, positions: map<Asset, Position>, navUsd: real,
                                 openedUsd: real, realisedUsd: real, costsUsd: real,
                                 expensesUsd: real)

  datatype ValueRefusal = Folding(refusal: Refusal) | NoMark(asset: Asset)

  function PositionOf(a: Asset, h: Holding, marks: map<Asset, Price>): Position
    requires a in marks
  {
    Position(h.raw, Worth(Amount(h.raw, h.decimals, a), marks[a]), h.basis)
  }

  function CashHolding(held: map<Asset, Holding>, cashAsset: Asset, cashDecimals: nat): Holding {
    if cashAsset in held then held[cashAsset] else Holding(0, cashDecimals, 0.0)
  }

  ghost function Values(positions: map<Asset, Position>): map<Asset, real> {
    map a | a in positions :: positions[a].valueUsd
  }

  ghost function Gains(positions: map<Asset, Position>): map<Asset, real> {
    map a | a in positions :: positions[a].valueUsd - positions[a].basisUsd
  }

  /** What the holdings are worth beyond what they cost. */
  ghost function Unrealised(b: BookValue): real {
    b.cash.valueUsd - b.cash.basisUsd + Total(Gains(b.positions))
  }

  ghost function Costs(positions: map<Asset, Position>): map<Asset, real> {
    map a | a in positions :: positions[a].basisUsd
  }

  lemma {:induction false} GainsAreValuesLessBases(positions: map<Asset, Position>)
    ensures Total(Gains(positions)) == Total(Values(positions)) - Total(Costs(positions))
    decreases |positions|
  {
    if positions != map[] {
      var k :| k in positions;
      var fewer := positions - {k};
      GainsAreValuesLessBases(fewer);
      assert Gains(fewer) == Gains(positions) - {k};
      assert Values(fewer) == Values(positions) - {k};
      assert Costs(fewer) == Costs(positions) - {k};
      TotalTakes(Gains(positions), k);
      TotalTakes(Values(positions), k);
      TotalTakes(Costs(positions), k);
    }
  }

  /** Cash apart, everything else a position, and the NAV they sum to; refused for want of a mark. */
  method Value(events: seq<Event>, book: Book, marks: map<Asset, Price>, cashAsset: Asset,
               cashDecimals: nat) returns (r: Result<BookValue, ValueRefusal>)
    requires AllFormed(events)
    ensures r.Err? && r.error.Folding? <==> Fold(QuantizedShare, ForBook(events, book)).Err?
    ensures r.Err? && r.error.NoMark? ==>
              && r.error.asset !in marks && Fold(QuantizedShare, ForBook(events, book)).Ok?
              && (r.error.asset == cashAsset || r.error.asset in Fold(QuantizedShare, ForBook(events, book)).value.held)
    ensures r.Ok? ==>
              var held := Fold(QuantizedShare, ForBook(events, book)).value.held;
              && cashAsset in marks && held.Keys <= marks.Keys
              && r.value.cash == PositionOf(cashAsset, CashHolding(held, cashAsset, cashDecimals), marks)
              && r.value.positions.Keys == held.Keys - {cashAsset}
              && forall a :: a in r.value.positions ==>
                   r.value.positions[a] == PositionOf(a, held[a], marks)
    ensures r.Ok? ==>
              var w := Fold(QuantizedShare, ForBook(events, book)).value;
              && r.value.navUsd == r.value.cash.valueUsd + Total(Values(r.value.positions))
              && r.value.openedUsd == w.openedUsd && r.value.realisedUsd == w.realisedUsd
              && r.value.costsUsd == w.costsUsd && r.value.expensesUsd == w.expensesUsd
    ensures r.Ok? ==> r.value.navUsd == r.value.openedUsd + r.value.realisedUsd + Unrealised(r.value)
                                        - r.value.costsUsd
  {
    var walked := Walk(events, book);
    if walked.Err? {
      return Err(Folding(walked.error));
    }
    var w := walked.value;
    if cashAsset !in marks {
      return Err(NoMark(cashAsset));
    }
    var money := PositionOf(cashAsset, CashHolding(w.held, cashAsset, cashDecimals), marks);
    var held := w.held - {cashAsset};
    var positions: map<Asset, Position> := map[];
    var nav := money.valueUsd;
    var todo := held.Keys;
    while todo != {}
      invariant todo <= held.Keys && positions.Keys == held.Keys - todo && positions.Keys <= marks.Keys
      invariant forall a :: a in positions ==> positions[a] == PositionOf(a, held[a], marks)
      invariant nav == money.valueUsd + Total(Values(positions))
    {
      var a :| a in todo;
      if a !in marks {
        return Err(NoMark(a));
      }
      var position := PositionOf(a, held[a], marks);
      assert Values(positions[a := position]) == Values(positions)[a := position.valueUsd];
      TotalPuts(Values(positions), a, position.valueUsd);
      positions := positions[a := position];
      nav := nav + position.valueUsd;
      todo := todo - {a};
    }
    NavExplained(events, book, w, money, positions, cashAsset, cashDecimals, marks);
    return Ok(BookValue(money, positions, nav, w.openedUsd, w.realisedUsd, w.costsUsd, w.expensesUsd));
  }

  lemma NavExplained(events: seq<Event>, book: Book, w: Walked, money: Position,
                     positions: map<Asset, Position>, cashAsset: Asset, cashDecimals: nat,
                     marks: map<Asset, Price>)
    requires AllFormed(events) && Fold(QuantizedShare, ForBook(events, book)) == Ok(w)
    requires cashAsset in marks && positions.Keys == w.held.Keys - {cashAsset} <= marks.Keys
    requires money.basisUsd == CashHolding(w.held, cashAsset, cashDecimals).basis
    requires forall a :: a in positions ==> positions[a].basisUsd == w.held[a].basis
    ensures money.valueUsd + Total(Values(positions))
            == w.openedUsd + w.realisedUsd - w.costsUsd
               + (money.valueUsd - money.basisUsd + Total(Gains(positions)))
  {
    FoldReconciles(QuantizedShare, ForBook(events, book));
    GainsAreValuesLessBases(positions);
    assert Costs(positions) == Bases(w.held) - {cashAsset};
    if cashAsset in w.held {
      TotalTakes(Bases(w.held), cashAsset);
    } else {
      assert Costs(positions) == Bases(w.held);
    }
  }

  /** What the cash a book holds is worth, by the mark of that cash. */
  function CashHeld(w: Walked, cashAsset: Asset, cashDecimals: nat, mark: Price): real {
    var h := CashHolding(w.held, cashAsset, cashDecimals);
    Worth(Amount(h.raw, h.decimals, cashAsset), mark)
  }

  lemma QuotientsAdd(x: real, y: real, p: real)
    requires p > 0.0
    ensures x / p + y / p == (x + y) / p
  {
  }

  /** What two amounts of one asset are worth together is the sum of their worths. */
  lemma WorthAdds(a: int, b: int, decimals: nat, asset: Asset, mark: Price)
    ensures Worth(Amount(a + b, decimals, asset), mark)
            == Worth(Amount(a, decimals, asset), mark) + Worth(Amount(b, decimals, asset), mark)
  {
    assert (a + b) * mark.raw == a * mark.raw + b * mark.raw;
    QuotientsAdd((a * mark.raw) as real, (b * mark.raw) as real, Pow10(decimals + mark.decimals));
  }

  /** A fill moves booked cash by exactly its cash leg: down by what it gave, up by what it got. */
  lemma FillMovesCash(share: Share, w: Walked, e: Event, cashDecimals: nat, mark: Price)
    requires e.Fill? && Formed(e) && Step(share, w, e).Ok?
    requires e.cashAsset !in w.held && e.got.asset == e.cashAsset ==> e.got.decimals == cashDecimals
    ensures var before := CashHeld(w, e.cashAsset, cashDecimals, mark);
            var after := CashHeld(Step(share, w, e).value, e.cashAsset, cashDecimals, mark);
            if e.gave.asset == e.cashAsset then after == before - Worth(e.gave, mark)
            else after == before + Worth(e.got, mark)
  {
    var had := CashHolding(w.held, e.cashAsset, cashDecimals);
    if e.gave.asset == e.cashAsset {
      WorthAdds(had.raw - e.gave.raw, e.gave.raw, had.decimals, e.cashAsset, mark);
      assert forall d: nat :: Worth(Amount(0, d, e.cashAsset), mark) == 0.0;
    } else {
      WorthAdds(had.raw, e.got.raw, had.decimals, e.cashAsset, mark);
    }
  }

  // ----- how far the rounding can drift --------------------------------------------------------

  /** What an event gives up, if anything. */
  function Gives(e: Event): Option<Amount> {
    match e
    case Fill(_, _, gave, _, _, _, _) => Some(gave)
    case Transfer(_, incoming, amount, _) => if incoming then None else Some(amount)
    case Fee(_, amount, _) => Some(amount)
    case _ => None
  }

  /** Partial disposals of `asset`, counted again from zero whenever all of it goes. */
  function PartialsAfter(k: nat, w: Walked, e: Event, asset: Asset): nat {
    var gives := Gives(e);
    if gives.None? || gives.value.asset != asset then k
    else if asset in w.held && w.held[asset].raw == gives.value.raw then 0
    else k + 1
  }

  function Partials(share: Share, k: nat, w: Walked, events: seq<Event>, asset: Asset): nat
    requires AllFormed(events)
    decreases |events|
  {
    if events == [] then k
    else
      var next := Step(share, w, events[0]);
      if next.Err? then k
      else Partials(share, PartialsAfter(k, w, events[0], asset), next.value, events[1..], asset)
  }

  /** Two books hold the same units, and one asset's bases differ by at most k half quanta. */
  ghost predicate Near(h: map<Asset, Holding>, x: map<Asset, Holding>, asset: Asset, k: nat) {
    && h.Keys == x.Keys
    && (forall a :: a in h ==> h[a].raw == x[a].raw && h[a].raw > 0 && h[a].decimals == x[a].decimals)
    && (asset in h ==> Apart(h[asset].basis, x[asset].basis) <= OfHalfQuanta(k))
  }

  function Apart(a: real, b: real): real { if a <= b then b - a else a - b }

  /** Taking the same proportion by `s` and by `t` parts two bases by half a quantum more at most. */
  ghost predicate HalfQuantumApart(s: Share, t: Share) {
    forall a, b, f :: 0.0 < f < 1.0 ==>
      Apart(a - s(a, f), b - t(b, f)) <= Apart(a, b) + OfHalfQuanta(1)
  }

  lemma Shrinks(d: real, f: real)
    requires d >= 0.0 && 0.0 < f < 1.0
    ensures 0.0 <= d * f <= d
  {
  }

  lemma CutShrinks(d: real, f: real, bound: real)
    requires 0.0 < f < 1.0 && 0.0 <= d <= bound
    ensures -bound <= d - d * f <= bound
  {
    Shrinks(d, f);
  }

  lemma CutStaysWithin(d: real, f: real, bound: real)
    requires 0.0 < f < 1.0 && -bound <= d <= bound
    ensures -bound <= d - d * f <= bound
  {
    if d >= 0.0 {
      CutShrinks(d, f, bound);
    } else {
      CutShrinks(-d, f, bound);
      assert (-d) * f == -(d * f);
    }
  }

  /** Cutting a proportion off two numbers never parts them further. */
  lemma CutKeepsNear(a: real, b: real, f: real, bound: real)
    requires 0.0 < f < 1.0 && -bound <= a - b <= bound
    ensures -bound <= (a - a * f) - (b - b * f) <= bound
  {
    CutStaysWithin(a - b, f, bound);
    assert (a - b) * f == a * f - b * f;
  }

  /** Rounding one of two shares parts what is left by at most half a quantum more. */
  lemma RoundingParts(a: real, b: real, x: real, y: real, bound: real)
    requires -bound <= (a - x) - (b - y) <= bound
    ensures Apart(a - Rounded(x), b - y) <= bound + OfHalfQuanta(1)
  {
    var n := HalfEven(InQuanta(x));
    assert InQuanta(x) - 0.5 <= n as real <= InQuanta(x) + 0.5;
  }

  lemma QuantizingStaysNear()
    ensures HalfQuantumApart(QuantizedShare, ExactShare)
  {
    forall a: real, b: real, f: real | 0.0 < f < 1.0
      ensures Apart(a - QuantizedShare(a, f), b - ExactShare(b, f)) <= Apart(a, b) + OfHalfQuanta(1)
    {
      CutKeepsNear(a, b, f, Apart(a, b));
      RoundingParts(a, b, a * f, b * f, Apart(a, b));
    }
  }

  lemma DisposeKeepsNear(s: Share, t: Share, h: map<Asset, Holding>, x: map<Asset, Holding>,
                         amount: Amount, asset: Asset, k: nat)
    requires Near(h, x, asset, k) && amount.raw > 0 && HalfQuantumApart(s, t)
    ensures var d, y := Dispose(s, h, amount), Dispose(t, x, amount);
            if d.Err? then y.Err? && y.error == d.error
            else
              var partial := amount.asset == asset && Had(h, amount).raw != amount.raw;
              y.Ok? && Near(d.value.0, y.value.0, asset,
                            if amount.asset != asset then k else if partial then k + 1 else 0)
  {
  }

  lemma AcquireKeepsNear(h: map<Asset, Holding>, x: map<Asset, Holding>, amount: Amount, value: real,
                         asset: Asset, k: nat)
    requires Near(h, x, asset, k) && amount.raw > 0
    ensures var i, y := Acquire(h, amount, value), Acquire(x, amount, value);
            if i.Err? then y.Err? && y.error == i.error
            else y.Ok? && Near(i.value, y.value, asset, k)
  {
  }

  lemma StepKeepsNear(s: Share, t: Share, w: Walked, x: Walked, e: Event, asset: Asset, k: nat)
    requires Formed(e) && Near(w.held, x.held, asset, k) && w.filled == x.filled
    requires HalfQuantumApart(s, t)
    ensures var d, y := Step(s, w, e), Step(t, x, e);
            if d.Err? then y.Err? && y.error == d.error
            else y.Ok? && d.value.filled == y.value.filled
                 && Near(d.value.held, y.value.held, asset, PartialsAfter(k, w, e, asset))
  {
    match e
    case Opening(_, amount, mark) =>
      AcquireKeepsNear(w.held, x.held, amount, Worth(amount, mark), asset, k);
    case Transfer(_, incoming, amount, mark) =>
      if incoming {
        AcquireKeepsNear(w.held, x.held, amount, Worth(amount, mark), asset, k);
      } else {
        DisposeKeepsNear(s, t, w.held, x.held, amount, asset, k);
      }
    case Fill(orderId, _, gave, got, _, _, _) =>
      DisposeKeepsNear(s, t, w.held, x.held, gave, asset, k);
      var out := Dispose(s, w.held, gave);
      if out.Ok? {
        AcquireKeepsNear(out.value.0, Dispose(t, x.held, gave).value.0, got, FillValue(e), asset,
                         PartialsAfter(k, w, e, asset));
      }
    case Fee(_, amount, _) => DisposeKeepsNear(s, t, w.held, x.held, amount, asset, k);
    case Inference(_, _) =>
  }

  lemma {:induction false} DriftFrom(s: Share, t: Share, w: Walked, x: Walked, events: seq<Event>,
                                     asset: Asset, k: nat)
    requires AllFormed(events) && Near(w.held, x.held, asset, k) && w.filled == x.filled
    requires HalfQuantumApart(s, t)
    ensures var d, y := FoldFrom(s, w, events), FoldFrom(t, x, events);
            if d.Err? then y.Err? && y.error == d.error
            else y.Ok? && Near(d.value.held, y.value.held, asset, Partials(s, k, w, events, asset))
    decreases |events|
  {
    if events != [] {
      StepKeepsNear(s, t, w, x, events[0], asset, k);
      var d := Step(s, w, events[0]);
      if d.Ok? {
        DriftFrom(s, t, d.value, Step(t, x, events[0]).value, events[1..], asset,
                  PartialsAfter(k, w, events[0], asset));
      }
    }
  }

  /**
   The ledger and an unrounded ledger accept the same events and hold the same units; after k
   partial disposals of an asset their bases for it differ by at most k half quanta.
   */
  lemma RoundingDrift(events: seq<Event>, asset: Asset)
    requires AllFormed(events)
    ensures var d, y := Fold(QuantizedShare, events), Fold(ExactShare, events);
            if d.Err? then y.Err? && y.error == d.error
            else y.Ok? && Near(d.value.held, y.value.held, asset,
                               Partials(QuantizedShare, 0, START, events, asset))
  {
    QuantizingStaysNear();
    DriftFrom(QuantizedShare, ExactShare, START, START, events, asset, 0);
  }

  // ----- when a basis stays non-negative -------------------------------------------------------

  /** A whole, non-negative number of quanta. */
  ghost predicate Whole(usd: real) {
    usd >= 0.0 && exists n: nat :: usd == OfQuanta(n)
  }

  /** The value an event takes something in at, if it does. */
  function TakenAt(e: Event): Option<real> {
    match e
    case Fill(_, _, _, _, _, _, _) => Some(FillValue(e))
    case Opening(_, amount, mark) => Some(Worth(amount, mark))
    case Transfer(_, incoming, amount, mark) => if incoming then Some(Worth(amount, mark)) else None
    case _ => None
  }

  /** What the event takes in is valued at whole quanta. */
  ghost predicate Fine(e: Event) {
    TakenAt(e).Some? ==> Whole(TakenAt(e).value)
  }

  /** What the event takes in is valued with at most thirty decimal places. */
  predicate FewPlaces(e: Event) {
    match e
    case Fill(_, _, gave, got, gaveMark, gotMark, cashAsset) =>
      if cashAsset == gave.asset then gave.decimals + gaveMark.decimals <= PLACES
      else got.decimals + gotMark.decimals <= PLACES
    case Opening(_, amount, mark) => amount.decimals + mark.decimals <= PLACES
    case Transfer(_, incoming, amount, mark) => incoming ==> amount.decimals + mark.decimals <= PLACES
    case _ => true
  }

  const PLACES: nat := 30

  lemma {:induction false} Pow10Adds(a: nat, b: nat)
    ensures Pow10(a + b) == Pow10(a) * Pow10(b)
  {
    if a > 0 {
      Pow10Adds(a - 1, b);
    }
  }

  lemma ThirtyPlaces()
    ensures Pow10(PLACES) == 1000000000000000000000000000000.0
  {
    assert Pow10(5) == 100000.0;
    Pow10Adds(5, 5);
    Pow10Adds(10, 10);
    Pow10Adds(20, 10);
  }

  /** With at most thirty decimal places, a quotient is whole quanta. */
  lemma {:induction false} PlacesInQuanta(units: int, d: nat)
    requires units > 0 && d <= PLACES
    ensures Whole(units as real / Pow10(d))
    decreases PLACES - d
  {
    if d == PLACES {
      ThirtyPlaces();
      assert units as real / Pow10(d) == OfQuanta(units);
    } else {
      PlacesInQuanta(10 * units, d + 1);
      OneMorePlace(units as real, Pow10(d));
    }
  }

  lemma OneMorePlace(u: real, p: real)
    requires p > 0.0
    ensures u / p == (10.0 * u) / (10.0 * p)
  {
    var x := u / p;
    assert x * p == u;
    assert x * (10.0 * p) == 10.0 * u;
  }

  lemma WorthIsWhole(amount: Amount, mark: Price)
    requires amount.raw > 0 && mark.raw > 0 && amount.decimals + mark.decimals <= PLACES
    ensures Whole(Worth(amount, mark))
  {
    Positive(amount.raw, mark.raw);
    PlacesInQuanta(amount.raw * mark.raw, amount.decimals + mark.decimals);
  }

  lemma Positive(a: int, b: int)
    requires a > 0 && b > 0
    ensures a * b > 0
  {
  }

  lemma HalfEvenBetween(x: real, n: int)
    requires 0.0 <= x <= n as real
    ensures 0 <= HalfEven(x) <= n
  {
    var m := HalfEven(x);
    assert -0.5 <= m as real <= n as real + 0.5;
  }

  /** Rounded, a part of whole quanta is whole and no more than all of them. */
  lemma RoundedPartIsWhole(basis: real, part: real)
    requires Whole(basis) && 0.0 <= part <= basis
    ensures Whole(Rounded(part)) && Whole(basis - Rounded(part))
  {
    var n: nat :| basis == OfQuanta(n);
    HalfEvenBetween(InQuanta(part), n);
    var m := HalfEven(InQuanta(part));
    assert basis - OfQuanta(m) == OfQuanta(n - m);
  }

  /** Taking a share by `s` leaves a whole basis whole. */
  ghost predicate KeepsWhole(s: Share) {
    forall basis, f :: 0.0 < f < 1.0 && Whole(basis) ==> Whole(basis - s(basis, f))
  }

  lemma QuantizingKeepsWhole()
    ensures KeepsWhole(QuantizedShare)
  {
    forall basis: real, f: real | 0.0 < f < 1.0 && Whole(basis)
      ensures Whole(basis - QuantizedShare(basis, f))
    {
      Shrinks(basis, f);
      RoundedPartIsWhole(basis, basis * f);
    }
  }

  ghost predicate AllWhole(held: map<Asset, Holding>) {
    forall a :: a in held ==> Whole(held[a].basis)
  }

  lemma SumIsWhole(x: real, y: real)
    requires Whole(x) && Whole(y)
    ensures Whole(x + y)
  {
    var n: nat :| x == OfQuanta(n);
    var m: nat :| y == OfQuanta(m);
    assert x + y == OfQuanta(n + m);
  }

  lemma ZeroIsWhole()
    ensures Whole(0.0)
  {
    assert 0.0 == OfQuanta(0);
  }

  lemma AcquireKeepsWhole(held: map<Asset, Holding>, got: Amount, value: real)
    requires AllWhole(held) && Acquire(held, got, value).Ok? && Whole(value)
    ensures AllWhole(Acquire(held, got, value).value)
  {
    ZeroIsWhole();
    SumIsWhole(Had(held, got).basis, value);
  }

  lemma DisposeKeepsWhole(s: Share, held: map<Asset, Holding>, amount: Amount)
    requires KeepsWhole(s) && AllWhole(held) && amount.raw > 0 && Dispose(s, held, amount).Ok?
    ensures AllWhole(Dispose(s, held, amount).value.0)
  {
  }

  lemma StepKeepsWhole(s: Share, w: Walked, e: Event)
    requires KeepsWhole(s) && Formed(e) && Fine(e) && AllWhole(w.held) && Step(s, w, e).Ok?
    ensures AllWhole(Step(s, w, e).value.held)
  {
    match e
    case Opening(_, amount, mark) => AcquireKeepsWhole(w.held, amount, Worth(amount, mark));
    case Transfer(_, incoming, amount, mark) =>
      if incoming {
        AcquireKeepsWhole(w.held, amount, Worth(amount, mark));
      } else {
        DisposeKeepsWhole(s, w.held, amount);
      }
    case Fill(_, _, gave, got, _, _, _) =>
      DisposeKeepsWhole(s, w.held, gave);
      AcquireKeepsWhole(Dispose(s, w.held, gave).value.0, got, FillValue(e));
    case Fee(_, amount, _) => DisposeKeepsWhole(s, w.held, amount);
    case Inference(_, _) =>
  }

  lemma {:induction false} FoldKeepsWhole(s: Share, w: Walked, events: seq<Event>)
    requires KeepsWhole(s) && AllFormed(events) && (forall e :: e in events ==> Fine(e))
    requires AllWhole(w.held) && FoldFrom(s, w, events).Ok?
    ensures AllWhole(FoldFrom(s, w, events).value.held)
    decreases |events|
  {
    if events != [] {
      StepKeepsWhole(s, w, events[0]);
      FoldKeepsWhole(s, Step(s, w, events[0]).value, events[1..]);
    }
  }

  /** When every acquired value is whole quanta, no basis is ever negative. */
  lemma BasisNeverNegative(events: seq<Event>)
    requires AllFormed(events) && (forall e :: e in events ==> Fine(e))
    requires Fold(QuantizedShare, events).Ok?
    ensures var held := Fold(QuantizedShare, events).value.held;
            forall a :: a in held ==> held[a].basis >= 0.0
  {
    QuantizingKeepsWhole();
    FoldKeepsWhole(QuantizedShare, START, events);
  }

  /** Up to thirty decimal places every value is whole quanta. */
  lemma FewPlacesAreFine(e: Event)
    requires Formed(e) && FewPlaces(e)
    ensures Fine(e)
  {
    match e
    case Fill(_, _, gave, got, gaveMark, gotMark, cashAsset) =>
      if cashAsset == gave.asset {
        WorthIsWhole(gave, gaveMark);
      } else {
        WorthIsWhole(got, gotMark);
      }
    case Opening(_, amount, mark) => WorthIsWhole(amount, mark);
    case Transfer(_, incoming, amount, mark) =>
      if incoming {
        WorthIsWhole(amount, mark);
      }
    case _ =>
  }

  // ----- exactly when a basis falls below zero -------------------------------------------------

  /** A part of a basis rounds to more than the basis: past the half quantum above its last whole one. */
  predicate RoundsAway(basis: real, part: real) {
    var whole, x := InQuanta(basis).Floor, InQuanta(part);
    x > whole as real + 0.5 || (x == whole as real + 0.5 && whole % 2 == 1)
  }

  lemma QuantaCompare(a: real, b: real, n: int)
    ensures a < b <==> InQuanta(a) < InQuanta(b)
    ensures a - OfQuanta(n) < 0.0 <==> InQuanta(a) < n as real
    ensures InQuanta(0.0) == 0.0
  {
  }

  /** Rounding a smaller number passes a larger one exactly from the half above its whole part. */
  lemma HalfEvenPasses(x: real, y: real)
    requires 0.0 <= y < x || y == x == 0.0
    ensures x < HalfEven(y) as real <==>
            (y > x.Floor as real + 0.5 || (y == x.Floor as real + 0.5 && x.Floor % 2 == 1))
  {
    assert y.Floor <= x.Floor;
  }

  lemma NegativeExactlyWhen(basis: real, part: real)
    requires 0.0 <= part < basis || part == basis == 0.0
    ensures basis - Rounded(part) < 0.0 <==> RoundsAway(basis, part)
  {
    QuantaCompare(part, basis, HalfEven(InQuanta(part)));
    QuantaCompare(0.0, part, 0);
    HalfEvenPasses(InQuanta(basis), InQuanta(part));
  }

  /** A basis at most half a quantum past a whole number of them never rounds away. */
  lemma HalfQuantumIsSafe(basis: real, part: real)
    requires 0.0 <= part < basis || part == basis == 0.0
    requires InQuanta(basis) - InQuanta(basis).Floor as real <= 0.5
    ensures !RoundsAway(basis, part)
  {
  }

  /** The disposal an event makes rounds its basis away: a partial one, of a part that does. */
  predicate RoundsItAway(w: Walked, e: Event)
    requires Formed(e)
  {
    var gives := Gives(e);
    gives.Some? && PartRoundsAway(ExactShare, Had(w.held, gives.value), gives.value)
  }

  ghost predicate NoneBelowZero(held: map<Asset, Holding>) {
    forall a :: a in held ==> held[a].basis >= 0.0
  }

  lemma ShrinksStrictly(d: real, f: real)
    requires d >= 0.0 && 0.0 < f < 1.0
    ensures 0.0 <= ExactShare(d, f) < d || ExactShare(d, f) == d == 0.0
  {
    if d > 0.0 {
      var kept := d * (1.0 - f);
      assert kept > 0.0;
      assert d * f == d - kept;
      Shrinks(d, f);
    }
  }

  /** A share rounded from an exact one takes more than all of a basis exactly when it rounds it away. */
  ghost predicate RoundedFrom(rounded: Share, exact: Share) {
    forall basis, f :: basis >= 0.0 && 0.0 < f < 1.0 ==>
      (basis - rounded(basis, f) < 0.0 <==> RoundsAway(basis, exact(basis, f)))
  }

  /** A partial disposal of a basis that is rounded away. */
  predicate PartRoundsAway(exact: Share, had: Holding, amount: Amount)
    requires amount.raw > 0
  {
    amount.raw < had.raw && RoundsAway(had.basis, exact(had.basis, Proportion(amount.raw, had.raw)))
  }

  /** A disposal leaves a basis below zero exactly when it rounds it away. */
  lemma DisposalBelowZero(rounded: Share, exact: Share, held: map<Asset, Holding>, amount: Amount)
    requires NoneBelowZero(held) && amount.raw > 0 && Dispose(rounded, held, amount).Ok? && RoundedFrom(rounded, exact)
    ensures NoneBelowZero(Dispose(rounded, held, amount).value.0) <==> !PartRoundsAway(exact, Had(held, amount), amount)
  {
    var had := Had(held, amount);
    var after := Dispose(rounded, held, amount).value.0;
    if amount.raw < had.raw {
      var f := Proportion(amount.raw, had.raw);
      OneReplaced(held, after, amount.asset, had.basis - rounded(had.basis, f));
    }
  }

  /** Less than all of a basis is taken, unless there is none. */
  ghost predicate TakesLess(exact: Share) {
    forall basis, f :: basis >= 0.0 && 0.0 < f < 1.0 ==>
      0.0 <= exact(basis, f) < basis || exact(basis, f) == basis == 0.0
  }

  ghost predicate Rounds(rounded: Share, exact: Share) {
    forall basis, f :: rounded(basis, f) == Rounded(exact(basis, f))
  }

  lemma RoundingIsRoundedFrom(rounded: Share, exact: Share)
    requires Rounds(rounded, exact) && TakesLess(exact)
    ensures RoundedFrom(rounded, exact)
  {
    forall basis: real, f: real | basis >= 0.0 && 0.0 < f < 1.0
      ensures basis - rounded(basis, f) < 0.0 <==> RoundsAway(basis, exact(basis, f))
    {
      ShareBelowZero(exact, basis, f, rounded(basis, f));
    }
  }

  lemma ExactTakesLess()
    ensures TakesLess(ExactShare)
  {
    forall basis: real, f: real | basis >= 0.0 && 0.0 < f < 1.0
      ensures 0.0 <= ExactShare(basis, f) < basis || ExactShare(basis, f) == basis == 0.0
    {
      ShrinksStrictly(basis, f);
    }
  }

  lemma QuantizedRounds()
    ensures Rounds(QuantizedShare, ExactShare)
  {
  }

  /** What a rounded share leaves, for any unrounded share of less than all. */
  lemma ShareBelowZero(exact: Share, basis: real, f: real, rounded: real)
    requires 0.0 <= exact(basis, f) < basis || exact(basis, f) == basis == 0.0
    requires rounded == Rounded(exact(basis, f))
    ensures basis - rounded < 0.0 <==> RoundsAway(basis, exact(basis, f))
  {
    NegativeExactlyWhen(basis, exact(basis, f));
  }

  lemma OneReplaced(held: map<Asset, Holding>, after: map<Asset, Holding>, asset: Asset, basis: real)
    requires NoneBelowZero(held) && after.Keys == held.Keys && asset in held && after[asset].basis == basis
    requires forall a :: a in held && a != asset ==> after[a] == held[a]
    ensures NoneBelowZero(after) <==> basis >= 0.0
  {
  }

  lemma WorthNotNegative(amount: Amount, mark: Price)
    requires amount.raw > 0 && mark.raw > 0
    ensures Worth(amount, mark) >= 0.0
  {
    Positive(amount.raw, mark.raw);
  }

  /** An event leaves a basis below zero exactly when its disposal rounds it away. */
  lemma StepBelowZero(rounded: Share, w: Walked, e: Event)
    requires Formed(e) && NoneBelowZero(w.held) && Step(rounded, w, e).Ok? && RoundedFrom(rounded, ExactShare)
    ensures NoneBelowZero(Step(rounded, w, e).value.held) <==> !RoundsItAway(w, e)
  {
    match e
    case Opening(_, amount, mark) => WorthNotNegative(amount, mark);
    case Transfer(_, incoming, amount, mark) =>
      if incoming {
        WorthNotNegative(amount, mark);
      } else {
        DisposalBelowZero(rounded, ExactShare, w.held, amount);
      }
    case Fill(_, _, gave, got, gaveMark, gotMark, cashAsset) =>
      if cashAsset == gave.asset {
        WorthNotNegative(gave, gaveMark);
      } else {
        WorthNotNegative(got, gotMark);
      }
      DisposalBelowZero(rounded, ExactShare, w.held, gave);
      AcquiringElsewhere(Dispose(rounded, w.held, gave).value.0, w.held, gave.asset, got, FillValue(e));
    case Fee(_, amount, _) => DisposalBelowZero(rounded, ExactShare, w.held, amount);
    case Inference(_, _) =>
  }

  /** Taking in another asset neither mends nor spoils what was disposed of. */
  lemma AcquiringElsewhere(held: map<Asset, Holding>, before: map<Asset, Holding>, gave: Asset, got: Amount,
                           value: real)
    requires NoneBelowZero(before) && value >= 0.0 && got.asset != gave && Acquire(held, got, value).Ok?
    requires forall a :: a in held && a != gave ==> a in before && held[a] == before[a]
    ensures NoneBelowZero(Acquire(held, got, value).value) <==> NoneBelowZero(held)
  {
    var after := Acquire(held, got, value).value;
    assert gave in held <==> gave in after;
    assert gave in held ==> after[gave] == held[gave];
    if NoneBelowZero(after) {
      forall a | a in held ensures held[a].basis >= 0.0 {
        assert a == gave || held[a] == before[a];
      }
    }
  }

  /** Every state of a fold, from the first to the last, has no basis below zero. */
  ghost predicate NeverBelowZero(w: Walked, events: seq<Event>)
    requires AllFormed(events)
    decreases |events|
  {
    && NoneBelowZero(w.held)
    && (events == [] ||
        var next := Step(QuantizedShare, w, events[0]);
        next.Ok? ==> NeverBelowZero(next.value, events[1..]))
  }

  /** No event of a fold rounds a basis away. */
  ghost predicate NeverRoundsAway(w: Walked, events: seq<Event>)
    requires AllFormed(events)
    decreases |events|
  {
    events == [] ||
    var next := Step(QuantizedShare, w, events[0]);
    next.Ok? ==> !RoundsItAway(w, events[0]) && NeverRoundsAway(next.value, events[1..])
  }

  /** Over a whole fold, no basis is ever below zero exactly when no disposal rounds one away. */
  lemma {:induction false} FoldBelowZeroExactlyWhen(w: Walked, events: seq<Event>)
    requires AllFormed(events) && NoneBelowZero(w.held)
    ensures NeverBelowZero(w, events) <==> NeverRoundsAway(w, events)
    decreases |events|
  {
    QuantizedRounds();
    ExactTakesLess();
    RoundingIsRoundedFrom(QuantizedShare, ExactShare);
    if events != [] {
      var next := Step(QuantizedShare, w, events[0]);
      if next.Ok? {
        StepBelowZero(QuantizedShare, w, events[0]);
        if NoneBelowZero(next.value.held) {
          FoldBelowZeroExactlyWhen(next.value, events[1..]);
        }
      }
    }
  }

  /** With a thirty-first decimal place a basis can fall below zero: seven tenths of a quantum. */
  lemma BasisCanBeNegative()
    ensures var amount, fee := Amount(7, 18, "A"), Amount(6, 18, "A");
            var mark := Price(1, 13, "A");
            var events := [Opening(Paper, amount, mark), Fee(Paper, fee, mark)];
            AllFormed(events) && Fold(QuantizedShare, events).Ok?
            && "A" in Fold(QuantizedShare, events).value.held
            && Fold(QuantizedShare, events).value.held["A"].basis < 0.0
  {
    var amount, fee := Amount(7, 18, "A"), Amount(6, 18, "A");
    var mark := Price(1, 13, "A");
    var events := [Opening(Paper, amount, mark), Fee(Paper, fee, mark)];
    Pow10Adds(1, PLACES);
    ThirtyPlaces();
    var basis := OfQuanta(7) / 10.0;
    assert Worth(amount, mark) == basis;
    var w := Step(QuantizedShare, START, events[0]).value;
    assert w.held == map["A" := Holding(7, 18, basis)];
    SixSeventhsRounds();
    var r := Step(QuantizedShare, w, events[1]).value;
    assert r.held["A"].basis == basis - OfQuanta(1);
    assert FoldFrom(QuantizedShare, w, events[1..]) == FoldFrom(QuantizedShare, r, events[1..][1..]);
  }

  lemma SixSeventhsRounds()
    ensures QuantizedShare(OfQuanta(7) / 10.0, Proportion(6, 7)) == OfQuanta(1)
  {
    assert InQuanta(OfQuanta(7) / 10.0 * Proportion(6, 7)) == 0.6;
  }
}

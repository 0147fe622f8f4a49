/** What a book's figures are, from its events alone. */
module Statements {
  // Units, basis and what was earned are read off the events asset by asset, with no holdings kept; the fold
  // that keeps them comes to the same.

  import opened Wrappers
  import opened Ledger

  // ----- what an event does to an asset --------------------------------------------------------

  /** The amount an event brings in. */
  function TakesIn(e: Event): Option<Amount> {
    match e
    case Opening(_, amount, _) => Some(amount)
    case Fill(_, _, _, got, _, _, _) => Some(got)
    case Transfer(_, incoming, amount, _) => if incoming then Some(amount) else None
    case Fee(_, _, _) => None
    case Inference(_, _) => None
  }

  /** The amount an event gives up. */
  function GivesUp(e: Event): Option<Amount> {
    match e
    case Opening(_, _, _) => None
    case Fill(_, _, gave, _, _, _, _) => Some(gave)
    case Transfer(_, incoming, amount, _) => if incoming then None else Some(amount)
    case Fee(_, amount, _) => Some(amount)
    case Inference(_, _) => None
  }

  /** What an event is worth, at the marks it carries: a fill is worth its cash leg. */
  function WorthOf(e: Event): real {
    match e
    case Opening(_, amount, mark) => Worth(amount, mark)
    case Fill(_, _, gave, got, gaveMark, gotMark, cashAsset) =>
      if gave.asset == cashAsset then Worth(gave, gaveMark) else Worth(got, gotMark)
    case Transfer(_, _, amount, mark) => Worth(amount, mark)
    case Fee(_, amount, mark) => Worth(amount, mark)
    case Inference(_, usd) => usd
  }

  /** The amounts an event carries, each with its mark. */
  function Marked(e: Event): seq<(Amount, Price)> {
    match e
    case Opening(_, amount, mark) => [(amount, mark)]
    case Fill(_, _, gave, got, gaveMark, gotMark, _) => [(gave, gaveMark), (got, gotMark)]
    case Transfer(_, _, amount, mark) => [(amount, mark)]
    case Fee(_, amount, mark) => [(amount, mark)]
    case Inference(_, _) => []
  }

  /** An event is let in when every amount is positive at a positive mark of its own asset, a fill names its order and
      trades two assets, one of them cash, and an inference names its seat and costs nothing less than nothing. */
  lemma FormedExactly(e: Event)
    ensures Formed(e) <==>
              && (forall k :: 0 <= k < |Marked(e)| ==>
                    Marked(e)[k].0.raw > 0 && Marked(e)[k].1.raw > 0 && Marked(e)[k].1.base == Marked(e)[k].0.asset)
              && (e.Fill? ==>
                    e.orderId != "" && e.gave.asset != e.got.asset && e.cashAsset in {e.gave.asset, e.got.asset})
              && (e.Inference? ==> e.seat != "" && e.usd >= 0.0)
  {
    if e.Fill? {
      assert Marked(e)[0] == (e.gave, e.gaveMark) && Marked(e)[1] == (e.got, e.gotMark);
    } else if !e.Inference? {
      assert Marked(e)[0] == (e.amount, e.mark);
    }
  }

  function RawOf(amount: Option<Amount>, a: Asset): int {
    if amount.Some? && amount.value.asset == a then amount.value.raw else 0
  }

  /** The units of an asset: all that came in less all that went out. */
  function Units(events: seq<Event>, a: Asset): int {
    if events == [] then 0
    else
      var n := |events| - 1;
      Units(events[..n], a) + RawOf(TakesIn(events[n]), a) - RawOf(GivesUp(events[n]), a)
  }

  /** The part of a basis that leaves with some of the units: all with the last, else its share to the quantum. */
  function Leaves(basis: real, part: int, whole: int): real {
    if 0 < part < whole then ToQuantum(Times(basis, Fraction(part, whole))) else basis
  }

  function Fraction(part: int, whole: int): real
    requires whole != 0
  {
    part as real / whole as real
  }

  function Times(usd: real, fraction: real): real { usd * fraction }

  /** The nearest whole quantum of 10**-30 USD, the even one of two as near. */
  function ToQuantum(usd: real): real {
    OfQuanta(HalfEven(InQuanta(usd)))
  }

  /** What the last event takes out of an asset's basis, given what came before. */
  function TakenOut(before: seq<Event>, e: Event, a: Asset): real
    decreases |before|, 1
  {
    if RawOf(GivesUp(e), a) > 0 then Leaves(Basis(before, a), RawOf(GivesUp(e), a), Units(before, a)) else 0.0
  }

  /** What the units that are left cost. */
  function Basis(events: seq<Event>, a: Asset): real
    decreases |events|, 0
  {
    if events == [] then 0.0
    else
      var before, e := events[..|events| - 1], events[|events| - 1];
      Basis(before, a)
        - TakenOut(before, e, a)
        + if RawOf(TakesIn(e), a) > 0 then WorthOf(e) else 0.0
  }

  /** The decimals an asset is held with: those it came in with when none was held. */
  function Decimals(events: seq<Event>, a: Asset): nat {
    if events == [] then 0
    else
      var before, e := events[..|events| - 1], events[|events| - 1];
      if RawOf(TakesIn(e), a) > 0 && Units(before, a) == 0 then TakesIn(e).value.decimals else Decimals(before, a)
  }

  /** What an event takes out of the basis of the asset it gives up. */
  function Removed(before: seq<Event>, e: Event): real {
    if GivesUp(e).Some? then TakenOut(before, e, GivesUp(e).value.asset) else 0.0
  }

  /** One figure over all events, each with those before it. */
  function Sum(figure: (seq<Event>, Event) -> real, events: seq<Event>): real {
    if events == [] then 0.0
    else
      var n := |events| - 1;
      Sum(figure, events[..n]) + figure(events[..n], events[n])
  }

  /** Capital in and out: openings and contributions at their worth, withdrawals at the basis they take. */
  function Capital(): (seq<Event>, Event) -> real {
    (before: seq<Event>, e: Event) =>
      match e
      case Opening(_, _, _) => WorthOf(e)
      case Transfer(_, incoming, _, _) => if incoming then WorthOf(e) else -Removed(before, e)
      case Fill(_, _, _, _, _, _, _) => 0.0
      case Fee(_, _, _) => 0.0
      case Inference(_, _) => 0.0
  }

  /** What trades and fees made over the basis they took. */
  function Gain(): (seq<Event>, Event) -> real {
    (before: seq<Event>, e: Event) => if e.Fill? || e.Fee? then WorthOf(e) - Removed(before, e) else 0.0
  }

  function Paid(): (seq<Event>, Event) -> real {
    (before: seq<Event>, e: Event) => if e.Fee? then WorthOf(e) else 0.0
  }

  function Spent(): (seq<Event>, Event) -> real {
    (before: seq<Event>, e: Event) => if e.Inference? then e.usd else 0.0
  }

  predicate WasFilled(events: seq<Event>, orderId: string) {
    exists e :: e in events && e.Fill? && e.orderId == orderId
  }

  // ----- the fold comes to the same ------------------------------------------------------------

  /** What is held of an asset is what the events leave of it, and nothing is held of none. */
  ghost predicate HoldsOf(w: Walked, events: seq<Event>, a: Asset) {
    && Units(events, a) >= 0
    && (a in w.held <==> Units(events, a) > 0)
    && (a in w.held ==> w.held[a] == Holding(Units(events, a), Decimals(events, a), Basis(events, a)))
    && (a !in w.held ==> Basis(events, a) == 0.0)
  }

  ghost predicate FigureOf(w: Walked, events: seq<Event>) {
    && w.openedUsd == Sum(Capital(), events)
    && w.realisedUsd == Sum(Gain(), events)
    && w.costsUsd == Sum(Paid(), events)
    && w.expensesUsd == Sum(Spent(), events)
  }

  ghost predicate StatedBy(w: Walked, events: seq<Event>) {
    && (forall a :: HoldsOf(w, events, a))
    && (forall id :: id in w.filled <==> WasFilled(events, id))
    && FigureOf(w, events)
  }

  /** One more event. */
  lemma OneMore(events: seq<Event>, e: Event, a: Asset)
    ensures Units(events + [e], a) == Units(events, a) + RawOf(TakesIn(e), a) - RawOf(GivesUp(e), a)
    ensures Basis(events + [e], a) == Basis(events, a) - TakenOut(events, e, a)
                                      + if RawOf(TakesIn(e), a) > 0 then WorthOf(e) else 0.0
    ensures Decimals(events + [e], a) == if RawOf(TakesIn(e), a) > 0 && Units(events, a) == 0
                                         then TakesIn(e).value.decimals else Decimals(events, a)
  {
    assert (events + [e])[..|events + [e]| - 1] == events;
  }

  lemma OneMoreFigure(figure: (seq<Event>, Event) -> real, events: seq<Event>, e: Event)
    ensures Sum(figure, events + [e]) == Sum(figure, events) + figure(events, e)
  {
    assert (events + [e])[..|events + [e]| - 1] == events;
  }

  lemma OneMoreFilled(events: seq<Event>, e: Event, id: string)
    ensures WasFilled(events + [e], id) <==> WasFilled(events, id) || (e.Fill? && e.orderId == id)
  {
    assert forall f :: f in events + [e] <==> f in events || f == e;
  }

  lemma SharesAgree(basis: real, part: int, whole: int)
    requires 0 < part < whole
    ensures QuantizedShare(basis, Proportion(part, whole)) == Leaves(basis, part, whole)
  {
    ShareOf(basis, Proportion(part, whole));
    assert Fraction(part, whole) == Proportion(part, whole);
  }

  lemma ShareOf(basis: real, f: real)
    ensures QuantizedShare(basis, f) == ToQuantum(Times(basis, f))
  {
  }

  /** What disposing of an amount makes of a holding. */
  lemma DisposeIs(held: map<Asset, Holding>, amount: Amount)
    requires amount.raw > 0
    ensures var had, r := Had(held, amount), Dispose(QuantizedShare, held, amount);
            && (r == Err(TwoDecimals(amount.asset)) <==> had.decimals != amount.decimals)
            && (r == Err(GivesMoreThanHeld(amount.asset)) <==> had.decimals == amount.decimals && amount.raw > had.raw)
            && (r.Ok? <==> had.decimals == amount.decimals && amount.raw <= had.raw)
            && (r.Ok? ==>
                  && r.value.1 == Leaves(had.basis, amount.raw, had.raw)
                  && (forall a :: a != amount.asset ==> (a in r.value.0 <==> a in held)
                                                        && (a in held ==> r.value.0[a] == held[a]))
                  && (amount.asset in r.value.0 <==> amount.raw < had.raw)
                  && (amount.asset in r.value.0 ==>
                        r.value.0[amount.asset] == Holding(had.raw - amount.raw, had.decimals, had.basis - r.value.1)))
  {
    var had := Had(held, amount);
    if amount.raw < had.raw {
      SharesAgree(had.basis, amount.raw, had.raw);
    }
  }

  /** What an accepted event does to one asset's holding. */
  lemma StepHolds(w: Walked, events: seq<Event>, e: Event, a: Asset, next: Walked, after: seq<Event>)
    requires Formed(e) && (forall b :: HoldsOf(w, events, b)) && Step(QuantizedShare, w, e) == Ok(next)
    requires after == events + [e]
    ensures HoldsOf(next, after, a)
  {
    OneMore(events, e, a);
    assert HoldsOf(w, events, a);
    if GivesUp(e).Some? {
      assert HoldsOf(w, events, GivesUp(e).value.asset);
      DisposeIs(w.held, GivesUp(e).value);
    }
  }

  lemma StepFigures(w: Walked, events: seq<Event>, e: Event, next: Walked)
    requires Formed(e) && (forall b :: HoldsOf(w, events, b)) && Step(QuantizedShare, w, e) == Ok(next)
    requires FigureOf(w, events)
    ensures FigureOf(next, events + [e])
  {
    OneMoreFigure(Capital(), events, e);
    OneMoreFigure(Gain(), events, e);
    OneMoreFigure(Paid(), events, e);
    OneMoreFigure(Spent(), events, e);
    if GivesUp(e).Some? {
      assert HoldsOf(w, events, GivesUp(e).value.asset);
      DisposeIs(w.held, GivesUp(e).value);
    }
  }

  lemma StepFills(w: Walked, events: seq<Event>, e: Event, next: Walked, after: seq<Event>)
    requires Formed(e) && Step(QuantizedShare, w, e) == Ok(next) && after == events + [e]
    requires forall id :: id in w.filled <==> WasFilled(events, id)
    ensures forall id :: id in next.filled <==> WasFilled(after, id)
  {
    FilledBy(w, e, next);
    forall id ensures id in next.filled <==> WasFilled(after, id) {
      OneMoreFilled(events, e, id);
    }
  }

  lemma FilledBy(w: Walked, e: Event, next: Walked)
    requires Formed(e) && Step(QuantizedShare, w, e) == Ok(next)
    ensures forall id :: id in next.filled <==> id in w.filled || (e.Fill? && e.orderId == id)
  {
  }

  lemma StepStates(w: Walked, events: seq<Event>, e: Event, next: Walked)
    requires Formed(e) && StatedBy(w, events) && Step(QuantizedShare, w, e) == Ok(next)
    ensures StatedBy(next, events + [e])
  {
    forall a ensures HoldsOf(next, events + [e], a) {
      StepHolds(w, events, e, a, next, events + [e]);
    }
    StepFigures(w, events, e, next);
    StepFills(w, events, e, next, events + [e]);
  }

  lemma {:induction false} FoldStates(w: Walked, before: seq<Event>, events: seq<Event>)
    requires AllFormed(events) && StatedBy(w, before) && FoldFrom(QuantizedShare, w, events).Ok?
    ensures StatedBy(FoldFrom(QuantizedShare, w, events).value, before + events)
    decreases |events|
  {
    if events == [] {
      assert before + events == before;
    } else {
      var next := Step(QuantizedShare, w, events[0]).value;
      StepStates(w, before, events[0], next);
      FoldStates(next, before + [events[0]], events[1..]);
      assert (before + [events[0]]) + events[1..] == before + events;
    }
  }

  /** Every figure of a book: what it holds, with units, decimals and basis, and what it was given, made, paid
      and spent, each read off its events. */
  lemma FoldIsStated(events: seq<Event>)
    requires AllFormed(events) && Fold(QuantizedShare, events).Ok?
    ensures StatedBy(Fold(QuantizedShare, events).value, events)
  {
    StartIsStated();
    FoldStates(START, [], events);
    assert [] + events == events;
  }

  lemma StartIsStated()
    ensures StatedBy(START, [])
  {
  }

  // ----- what refuses --------------------------------------------------------------------------

  /** How an asset is held, in other decimals than an amount of it. */
  predicate OtherDecimals(events: seq<Event>, amount: Amount) {
    Units(events, amount.asset) > 0 && Decimals(events, amount.asset) != amount.decimals
  }

  /** Why an event cannot follow those before it: its order is filled already, what it gives is held in other
      decimals or not enough of it is held, or what it brings is held in other decimals. */
  function WhyRefused(before: seq<Event>, e: Event): Option<Refusal> {
    if e.Fill? && WasFilled(before, e.orderId) then Some(FilledTwice(e.orderId))
    else if GivesUp(e).Some? && OtherDecimals(before, GivesUp(e).value) then Some(TwoDecimals(GivesUp(e).value.asset))
    else if GivesUp(e).Some? && GivesUp(e).value.raw > Units(before, GivesUp(e).value.asset) then
      Some(GivesMoreThanHeld(GivesUp(e).value.asset))
    else if TakesIn(e).Some? && OtherDecimals(before, TakesIn(e).value) then Some(TwoDecimals(TakesIn(e).value.asset))
    else None
  }

  lemma StepRefuses(w: Walked, before: seq<Event>, e: Event)
    requires Formed(e) && StatedBy(w, before)
    ensures match WhyRefused(before, e)
            case None => Step(QuantizedShare, w, e).Ok?
            case Some(why) => Step(QuantizedShare, w, e) == Err(why)
  {
    assert e.Fill? ==> (e.orderId in w.filled <==> WasFilled(before, e.orderId));
    if GivesUp(e).Some? {
      assert HoldsOf(w, before, GivesUp(e).value.asset);
      DisposeIs(w.held, GivesUp(e).value);
    }
    if TakesIn(e).Some? {
      assert HoldsOf(w, before, TakesIn(e).value.asset);
    }
  }

  /** The first event that cannot follow those before it. */
  function FirstRefused(before: seq<Event>, events: seq<Event>): Option<Refusal>
    decreases |events|
  {
    if events == [] then None
    else
      var why := WhyRefused(before, events[0]);
      if why.Some? then why else FirstRefused(before + [events[0]], events[1..])
  }

  lemma {:induction false} FoldRefuses(w: Walked, before: seq<Event>, events: seq<Event>)
    requires AllFormed(events) && StatedBy(w, before)
    ensures match FirstRefused(before, events)
            case None => FoldFrom(QuantizedShare, w, events).Ok?
            case Some(why) => FoldFrom(QuantizedShare, w, events) == Err(why)
    decreases |events|
  {
    if events != [] {
      StepRefuses(w, before, events[0]);
      if WhyRefused(before, events[0]).None? {
        var next := Step(QuantizedShare, w, events[0]).value;
        StepStates(w, before, events[0], next);
        FoldRefuses(next, before + [events[0]], events[1..]);
      }
    }
  }

  /** A book is refused exactly when one of its events cannot follow those before it, and for the first's reason. */
  lemma RefusedExactlyWhen(events: seq<Event>)
    requires AllFormed(events)
    ensures match FirstRefused([], events)
            case None => Fold(QuantizedShare, events).Ok?
            case Some(why) => Fold(QuantizedShare, events) == Err(why)
  {
    StartIsStated();
    FoldRefuses(START, [], events);
  }

  // ----- one book of many ----------------------------------------------------------------------

  /** The real book holds live fills and pays for inference; other events name their book. */
  predicate Belongs(e: Event, book: Book) {
    match e
    case Fill(_, live, _, _, _, _, _) => live <==> book == Real
    case Inference(_, _) => book == Real
    case Opening(named, _, _) => named == book
    case Transfer(named, _, _, _) => named == book
    case Fee(named, _, _) => named == book
  }

  /** A book's events are those that belong to it, in their order. */
  lemma {:induction false} BookIs(events: seq<Event>, book: Book, n: nat)
    requires n < |events|
    ensures ForBook(events[..n + 1], book)
            == ForBook(events[..n], book) + if Belongs(events[n], book) then [events[n]] else []
    ensures ForBook([], book) == []
  {
    assert events[..n + 1] == events[..n] + [events[n]];
    BookSplits(events[..n], [events[n]], book);
    assert [events[n]][1..] == [];
  }

  lemma {:induction false} BookSplits(a: seq<Event>, b: seq<Event>, book: Book)
    ensures ForBook(a + b, book) == ForBook(a, book) + ForBook(b, book)
  {
    if a == [] {
      assert a + b == b;
    } else {
      BookSplits(a[1..], b, book);
      assert (a + b)[1..] == a[1..] + b && (a + b)[0] == a[0];
    }
  }
}

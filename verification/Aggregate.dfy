/**
 Reports to target weights: direction, caution and score for each asset, and how far a score may
 move a position. Rows carry the numbers; who said what is not kept.
 */
module Aggregate {
  import opened Basics
  import opened Wrappers
  import opened Ordering
  import Gates

  /** A lowercased address: its text sorts as its number. */
  type Address = int

  datatype Word = BuyWord | HoldWord | SellWord | CautionWord | ProceedWord

  datatype Kind = Direction | Condition

  /** What a seat calls an asset, with its confidence as a number in place of the word. */
  datatype Call = Call(address: Address, word: Word, confidence: real)

  /** One seat's accepted report; no calls is an abstention. */
  datatype Report = Report(seat: string, kind: Kind, calls: seq<Call>)

  datatype Contribution = Contribution(kind: Kind, word: Word, value: real)

  /** The number a call adds: plus or minus its confidence, or how much caution it asks for. */
  function Contribute(kind: Kind, c: Call): Contribution {
    var value := match (kind, c.word)
      case (Direction, BuyWord) => c.confidence
      case (Direction, SellWord) => -c.confidence
      case (Direction, _) => 0.0
      case (Condition, CautionWord) => c.confidence
      case (Condition, _) => 0.0;
    Contribution(kind, c.word, value)
  }

  function SaidBy(kind: Kind, calls: seq<Call>, address: Address): seq<Contribution> {
    if calls == [] then []
    else (if calls[0].address == address then [Contribute(kind, calls[0])] else [])
         + SaidBy(kind, calls[1..], address)
  }

  /** Everything the seats said of one asset, in the order the reports arrived. */
  function Said(reports: seq<Report>, address: Address): seq<Contribution> {
    if reports == [] then []
    else SaidBy(reports[0].kind, reports[0].calls, address) + Said(reports[1..], address)
  }

  function DirectionSum(said: seq<Contribution>): real {
    if said == [] then 0.0
    else (if said[0].kind == Direction then said[0].value else 0.0) + DirectionSum(said[1..])
  }

  function DirectionCount(said: seq<Contribution>): nat {
    if said == [] then 0
    else (if said[0].kind == Direction then 1 else 0) + DirectionCount(said[1..])
  }

  function Higher(a: Option<real>, b: Option<real>): Option<real> {
    match (a, b)
    case (None, _) => b
    case (_, None) => a
    case (Some(x), Some(y)) => if x <= y then b else a
  }

  /** How sure the surest condition seat is that asks for caution; none when no one asks. */
  function HighestCaution(said: seq<Contribution>): Option<real> {
    if said == [] then None
    else
      var here := if said[0].kind == Condition && said[0].word == CautionWord then Some(said[0].value) else None;
      Higher(here, HighestCaution(said[1..]))
  }

  /** No seat asking for caution asks for none. */
  function CautionOf(said: seq<Contribution>): real {
    var highest := HighestCaution(said);
    if highest.None? then 0.0 else highest.value
  }

  function Tempered(mean: real, caution: real): real { mean * (1.0 - caution) }

  /** Direction times (1 - caution); None when no direction seat called the asset. */
  function Score(said: seq<Contribution>): Option<real> {
    var n := DirectionCount(said);
    if n == 0 then None
    else Some(Tempered(DirectionSum(said) / n as real, CautionOf(said)))
  }

  // ----- the target ----------------------------------------------------------------------------

  function Abs(x: real): real { if x < 0.0 then -x else x }

  /** So much of the limit as the score is large. */
  function StepOf(score: real, limit: real): real { Abs(score) * limit }

  /** What a score asks of a position, before rounding; nothing without a score. */
  function Wanted(score: Option<real>, current: real, limits: Gates.Limits): real
    requires limits.maxPositionWeight.Some?
  {
    if score.None? || score.value == 0.0 then 0.0
    else
      var step := StepOf(score.value, limits.maxPositionWeight.value);
      if score.value > 0.0 then Gates.RaiseBy(current, step, limits).value
      else -Gates.CutBy(current, step)
  }

  /** Six decimal places, toward zero. */
  function TowardZero(change: real): real {
    Gates.Truncate(change * 1000000.0) as real / 1000000.0
  }

  /** The change that is kept: rounded, except that a position cut to zero goes to exactly zero. */
  function Kept(current: real, change: real): real {
    if current + change == 0.0 then change else TowardZero(change)
  }

  function Target(score: Option<real>, current: real, limits: Gates.Limits): real
    requires limits.maxPositionWeight.Some?
  {
    current + Kept(current, Wanted(score, current, limits))
  }

  lemma RoundsTowardZero(change: real)
    ensures change >= 0.0 ==> 0.0 <= TowardZero(change) <= change < TowardZero(change) + 0.000001
    ensures change <= 0.0 ==> TowardZero(change) - 0.000001 < change <= TowardZero(change) <= 0.0
  {
  }

  /** How far a score moves a position: never past the limit, never below zero, never past its step. */
  lemma TargetIsBounded(score: Option<real>, current: real, limits: Gates.Limits)
    requires limits.maxPositionWeight.Some? && limits.maxPositionWeight.value >= 0.0 && current >= 0.0
    ensures var target := Target(score, current, limits);
            var limit := limits.maxPositionWeight.value;
            && (score.None? || score.value == 0.0 ==> target == current)
            && (score.Some? && score.value > 0.0 ==> current <= target && (target <= limit || target == current))
            && (score.Some? && score.value < 0.0 ==> 0.0 <= target <= current)
            && (score.Some? ==> Abs(target - current) <= Abs(score.value) * limit)
  {
    RoundsTowardZero(Wanted(score, current, limits));
    if score.Some? {
      StepNotNegative(Abs(score.value), limits.maxPositionWeight.value);
    }
  }

  lemma StepNotNegative(a: real, limit: real)
    requires a >= 0.0 && limit >= 0.0
    ensures a * limit >= 0.0
  {
  }

  // ----- the proposal --------------------------------------------------------------------------

  datatype Row = Row(address: Address, score: Option<real>, current: real, target: real)

  datatype Proposal = Proposal(rebalance: bool, rows: seq<Row>, cashCurrent: real, cashTarget: real,
                               residual: real)

  function WeightOf(current: map<Address, real>, address: Address): real {
    if address in current then current[address] else 0.0
  }

  function Called(reports: seq<Report>): set<Address> {
    set r, c | r in reports && c in r.calls :: c.address
  }

  /** Nobody who reported called anything. */
  predicate AllAbstained(reports: seq<Report>) {
    forall r :: r in reports ==> r.calls == []
  }

  /** Why a cycle keeps every holding: too few seats, all abstaining, or no position limit. */
  predicate Keeps(reports: seq<Report>, quorum: Option<int>, limits: Gates.Limits) {
    quorum.None? || |reports| < quorum.value || AllAbstained(reports) || limits.maxPositionWeight.None?
  }

  /** The change one row keeps; nothing when the cycle keeps every holding. */
  function Change(score: Option<real>, held: real, keeps: bool, limits: Gates.Limits): real {
    if keeps || limits.maxPositionWeight.None? then 0.0 else Kept(held, Wanted(score, held, limits))
  }

  /** What rounding that change left in cash. */
  function Dust(score: Option<real>, held: real, keeps: bool, limits: Gates.Limits): real {
    if keeps || limits.maxPositionWeight.None? then 0.0
    else Wanted(score, held, limits) - Kept(held, Wanted(score, held, limits))
  }

  /** What one asset's row says, given what the seats said of it. */
  function RowFor(said: seq<Contribution>, held: real, keeps: bool, limits: Gates.Limits, address: Address): Row {
    Row(address, Score(said), held, held + Change(Score(said), held, keeps, limits))
  }

  function Rows(rowOf: Address -> Row, addresses: seq<Address>): seq<Row> {
    if addresses == [] then []
    else
      var n := |addresses| - 1;
      Rows(rowOf, addresses[..n]) + [rowOf(addresses[n])]
  }

  /** What all the rows' roundings left in cash. */
  function Residual(dustOf: Row -> real, rows: seq<Row>): real {
    if rows == [] then 0.0
    else Residual(dustOf, rows[..|rows| - 1]) + dustOf(rows[|rows| - 1])
  }

  /** How much weight the rows move out of cash. */
  function Moved(rows: seq<Row>): real {
    if rows == [] then 0.0
    else Moved(rows[..|rows| - 1]) + (rows[|rows| - 1].target - rows[|rows| - 1].current)
  }

  lemma OneMore(rowOf: Address -> Row, dustOf: Row -> real, addresses: seq<Address>, i: nat)
    requires i < |addresses|
    ensures var rows, row := Rows(rowOf, addresses[..i]), rowOf(addresses[i]);
            && Rows(rowOf, addresses[..i + 1]) == rows + [row]
            && Moved(rows + [row]) == Moved(rows) + (row.target - row.current)
            && Residual(dustOf, rows + [row]) == Residual(dustOf, rows) + dustOf(row)
  {
    assert addresses[..i + 1][..i] == addresses[..i];
    var rows, row := Rows(rowOf, addresses[..i]), rowOf(addresses[i]);
    assert (rows + [row])[..|rows + [row]| - 1] == rows;
  }

  method Finish(rowOf: Address -> Row, dustOf: Row -> real, addresses: seq<Address>)
    returns (rows: seq<Row>, moved: real, residual: real)
    ensures rows == Rows(rowOf, addresses) && moved == Moved(rows) && residual == Residual(dustOf, rows)
  {
    rows, moved, residual := [], 0.0, 0.0;
    for i := 0 to |addresses|
      invariant rows == Rows(rowOf, addresses[..i])
      invariant moved == Moved(rows) && residual == Residual(dustOf, rows)
    {
      var row := rowOf(addresses[i]);
      OneMore(rowOf, dustOf, addresses, i);
      rows := rows + [row];
      moved := moved + (row.target - row.current);
      residual := residual + dustOf(row);
    }
    assert addresses[..|addresses|] == addresses;
  }

  /** From reports and book, the row of each address. */
  function RowsFrom(reports: seq<Report>, current: map<Address, real>, keeps: bool,
                    limits: Gates.Limits): Address -> Row {
    (address: Address) => RowFor(Said(reports, address), WeightOf(current, address), keeps, limits, address)
  }

  function DustFrom(keeps: bool, limits: Gates.Limits): Row -> real {
    (row: Row) => Dust(row.score, row.current, keeps, limits)
  }

  function Decided(reports: seq<Report>, current: map<Address, real>, cashWeight: real,
                   quorum: Option<int>, limits: Gates.Limits): Proposal
  {
    var keeps := Keeps(reports, quorum, limits);
    var rows := Rows(RowsFrom(reports, current, keeps, limits), InOrder(Called(reports) + current.Keys));
    Proposal(!keeps, rows, cashWeight, cashWeight - Moved(rows), Residual(DustFrom(keeps, limits), rows))
  }

  method Aggregated(reports: seq<Report>, current: map<Address, real>, cashWeight: real,
                    quorum: Option<int>, limits: Gates.Limits) returns (p: Proposal)
    ensures p == Decided(reports, current, cashWeight, quorum, limits)
  {
    var keeps := Keeps(reports, quorum, limits);
    var rows, moved, residual := Finish(RowsFrom(reports, current, keeps, limits), DustFrom(keeps, limits),
                                        InOrder(Called(reports) + current.Keys));
    return Proposal(!keeps, rows, cashWeight, cashWeight - moved, residual);
  }

  lemma {:induction false} RowAt(rowOf: Address -> Row, addresses: seq<Address>, i: nat)
    requires i < |addresses|
    ensures |Rows(rowOf, addresses)| == |addresses| && Rows(rowOf, addresses)[i] == rowOf(addresses[i])
    decreases |addresses|
  {
    var n := |addresses| - 1;
    if n > 0 {
      RowAt(rowOf, addresses[..n], if i < n then i else 0);
    }
  }

  /** What a proposal promises of each row: where its target lies, and that a cycle without a
      rebalance leaves every weight where it is. */
  lemma EveryRowIsBounded(reports: seq<Report>, current: map<Address, real>, cashWeight: real,
                          quorum: Option<int>, limits: Gates.Limits, row: Row)
    requires limits.maxPositionWeight.Some? ==> limits.maxPositionWeight.value >= 0.0
    requires forall a :: a in current ==> current[a] >= 0.0
    requires row in Decided(reports, current, cashWeight, quorum, limits).rows
    ensures row.address in Called(reports) + current.Keys && row.current == WeightOf(current, row.address)
    ensures 0.0 <= row.target
    ensures row.target > row.current ==> limits.maxPositionWeight.Some? && row.target <= limits.maxPositionWeight.value
    ensures row.target != row.current ==>
              var score := Score(Said(reports, row.address));
              && !Keeps(reports, quorum, limits) && score.Some?
              && (score.value > 0.0 <==> row.target > row.current)
  {
    var keeps := Keeps(reports, quorum, limits);
    var addresses := InOrder(Called(reports) + current.Keys);
    var rowOf := RowsFrom(reports, current, keeps, limits);
    var i :| 0 <= i < |Rows(rowOf, addresses)| && Rows(rowOf, addresses)[i] == row;
    if addresses != [] {
      RowAt(rowOf, addresses, 0);
      RowAt(rowOf, addresses, i);
      if !keeps {
        TargetIsBounded(row.score, row.current, limits);
      }
    }
  }

  // ----- reports in any arrangement -------------------------------------------------------------

  lemma {:induction false} DirectionOf(a: seq<Contribution>, b: seq<Contribution>)
    ensures DirectionSum(a + b) == DirectionSum(a) + DirectionSum(b)
    ensures DirectionCount(a + b) == DirectionCount(a) + DirectionCount(b)
  {
    if a == [] {
      assert a + b == b;
    } else {
      DirectionOf(a[1..], b);
      assert (a + b)[1..] == a[1..] + b;
    }
  }

  lemma {:induction false} HighestOf(a: seq<Contribution>, b: seq<Contribution>)
    ensures HighestCaution(a + b) == Higher(HighestCaution(a), HighestCaution(b))
  {
    if a == [] {
      assert a + b == b;
    } else {
      HighestOf(a[1..], b);
      assert (a + b)[1..] == a[1..] + b;
    }
  }

  lemma SaidFirst(one: Report, rest: seq<Report>, address: Address)
    ensures Said([one] + rest, address) == SaidBy(one.kind, one.calls, address) + Said(rest, address)
  {
    assert ([one] + rest)[1..] == rest;
  }

  lemma {:induction false} SaidOf(a: seq<Report>, b: seq<Report>, address: Address)
    ensures Said(a + b, address) == Said(a, address) + Said(b, address)
  {
    if a == [] {
      assert a + b == b;
    } else {
      SaidOf(a[1..], b, address);
      SaidStep(a[0], a[1..], b, address);
      assert a == [a[0]] + a[1..];
    }
  }

  lemma SaidStep(one: Report, rest: seq<Report>, b: seq<Report>, address: Address)
    requires Said(rest + b, address) == Said(rest, address) + Said(b, address)
    ensures Said(([one] + rest) + b, address) == Said([one] + rest, address) + Said(b, address)
  {
    assert ([one] + rest) + b == [one] + (rest + b);
    SaidFirst(one, rest, address);
    SaidFirst(one, rest + b, address);
    Regroup(SaidBy(one.kind, one.calls, address), Said(rest, address), Said(b, address));
  }

  /** Three runs of contributions swap their first two without changing any figure. */
  lemma SwapFigures(x: seq<Contribution>, y: seq<Contribution>, z: seq<Contribution>)
    ensures DirectionSum(x + (y + z)) == DirectionSum(y + (x + z))
    ensures DirectionCount(x + (y + z)) == DirectionCount(y + (x + z))
    ensures HighestCaution(x + (y + z)) == HighestCaution(y + (x + z))
  {
    DirectionOf(x, y + z);
    DirectionOf(y, z);
    DirectionOf(y, x + z);
    DirectionOf(x, z);
    HighestOf(x, y + z);
    HighestOf(y, z);
    HighestOf(y, x + z);
    HighestOf(x, z);
  }

  predicate SameFigures(a: seq<Contribution>, b: seq<Contribution>) {
    && DirectionSum(a) == DirectionSum(b)
    && DirectionCount(a) == DirectionCount(b)
    && HighestCaution(a) == HighestCaution(b)
  }

  lemma SameScore(a: seq<Contribution>, b: seq<Contribution>)
    requires SameFigures(a, b)
    ensures Score(a) == Score(b)
  {
  }

  lemma SameAfter(x: seq<Contribution>, a: seq<Contribution>, b: seq<Contribution>)
    requires SameFigures(a, b)
    ensures SameFigures(x + a, x + b)
  {
    DirectionOf(x, a);
    DirectionOf(x, b);
    HighestOf(x, a);
    HighestOf(x, b);
  }

  /** Taking one report out of the middle and putting it first changes no figure. */
  lemma FirstOrLater(left: seq<Report>, one: Report, right: seq<Report>, address: Address)
    ensures SameFigures(Said(left + ([one] + right), address), Said([one] + (left + right), address))
  {
    SaidOf(left, [one] + right, address);
    SaidOf([one], right, address);
    SaidOf([one], left + right, address);
    SaidOf(left, right, address);
    SwapFigures(Said(left, address), Said([one], address), Said(right, address));
  }

  lemma Without<T>(a: seq<T>, left: seq<T>, right: seq<T>)
    requires a != [] && multiset(a) == multiset(left + ([a[0]] + right))
    ensures multiset(a[1..]) == multiset(left + right)
  {
    TailMultiset(a);
    assert multiset(left + ([a[0]] + right)) == multiset(left + right) + multiset{a[0]};
  }

  /** Where the first of one arrangement stands in the other. */
  lemma PickOut<T>(a: seq<T>, b: seq<T>) returns (left: seq<T>, right: seq<T>)
    requires a != [] && multiset(a) == multiset(b)
    ensures b == left + ([a[0]] + right) && multiset(a[1..]) == multiset(left + right)
  {
    assert a[0] in multiset(b);
    var k :| 0 <= k < |b| && b[k] == a[0];
    left, right := b[..k], b[k + 1..];
    assert b == left + ([a[0]] + right);
    Without(a, left, right);
  }

  /** One asset's figures come out the same for any arrangement of the same reports. */
  lemma {:induction false} FiguresIgnoreOrder(a: seq<Report>, b: seq<Report>, address: Address)
    requires multiset(a) == multiset(b)
    ensures SameFigures(Said(a, address), Said(b, address))
    decreases |a|
  {
    if a == [] {
      assert |multiset(b)| == 0;
    } else {
      var left, right := PickOut(a, b);
      FiguresIgnoreOrder(a[1..], left + right, address);
      FirstOrLater(left, a[0], right, address);
      assert a == [a[0]] + a[1..];
      SaidOf([a[0]], a[1..], address);
      SaidOf([a[0]], left + right, address);
      SameAfter(Said([a[0]], address), Said(a[1..], address), Said(left + right, address));
    }
  }

  lemma {:induction false} RowsAgree(f: Address -> Row, g: Address -> Row, addresses: seq<Address>)
    requires forall a :: f(a) == g(a)
    ensures Rows(f, addresses) == Rows(g, addresses)
  {
    if addresses != [] {
      RowsAgree(f, g, addresses[..|addresses| - 1]);
    }
  }

  lemma RowIgnoresOrder(a: seq<Report>, b: seq<Report>, address: Address, held: real, keeps: bool, limits: Gates.Limits)
    requires multiset(a) == multiset(b)
    ensures RowFor(Said(a, address), held, keeps, limits, address)
            == RowFor(Said(b, address), held, keeps, limits, address)
  {
    FiguresIgnoreOrder(a, b, address);
    SameScore(Said(a, address), Said(b, address));
  }

  lemma SameMembers<T>(a: seq<T>, b: seq<T>)
    requires multiset(a) == multiset(b)
    ensures |a| == |b| && forall x :: x in a <==> x in b
  {
    assert |a| == |multiset(a)| == |multiset(b)| == |b|;
    forall x ensures x in a <==> x in b {
      assert x in a <==> x in multiset(a);
      assert x in b <==> x in multiset(b);
    }
  }

  /** The whole proposal is the same for any arrangement of the same reports. */
  lemma ProposalIgnoresReportOrder(a: seq<Report>, b: seq<Report>, current: map<Address, real>,
                                   cashWeight: real, quorum: Option<int>, limits: Gates.Limits)
    requires multiset(a) == multiset(b)
    ensures Decided(a, current, cashWeight, quorum, limits) == Decided(b, current, cashWeight, quorum, limits)
  {
    SameMembers(a, b);
    assert Called(a) == Called(b);
    assert Keeps(a, quorum, limits) == Keeps(b, quorum, limits);
    var keeps := Keeps(a, quorum, limits);
    var f, g := RowsFrom(a, current, keeps, limits), RowsFrom(b, current, keeps, limits);
    forall address ensures f(address) == g(address) {
      RowIgnoresOrder(a, b, address, WeightOf(current, address), keeps, limits);
    }
    RowsAgree(f, g, InOrder(Called(a) + current.Keys));
  }
}

/** What a proposal's figures come from: the calls themselves, the limit, and the book. */
module Scores {
  import opened Wrappers
  import opened Ordering
  import opened Aggregate
  import Gates

  // ----- the calls on one asset ----------------------------------------------------------------

  function OnAsset(calls: seq<Call>, address: Address): seq<Call> {
    if calls == [] then []
    else (if calls[0].address == address then [calls[0]] else []) + OnAsset(calls[1..], address)
  }

  /** Every call on an asset in the reports of one kind. */
  function CallsOn(reports: seq<Report>, kind: Kind, address: Address): seq<Call> {
    if reports == [] then []
    else (if reports[0].kind == kind then OnAsset(reports[0].calls, address) else [])
         + CallsOn(reports[1..], kind, address)
  }

  lemma {:induction false} OnAssetAre(calls: seq<Call>, address: Address, c: Call)
    ensures c in OnAsset(calls, address) <==> c in calls && c.address == address
  {
    if calls != [] {
      OnAssetAre(calls[1..], address, c);
      assert c in calls <==> c == calls[0] || c in calls[1..];
    }
  }

  lemma {:induction false} CallsOnAre(reports: seq<Report>, kind: Kind, address: Address, c: Call)
    ensures c in CallsOn(reports, kind, address) <==>
            c.address == address && exists r :: r in reports && r.kind == kind && c in r.calls
  {
    if reports != [] {
      CallsOnAre(reports[1..], kind, address, c);
      OnAssetAre(reports[0].calls, address, c);
      assert forall r :: r in reports <==> r == reports[0] || r in reports[1..];
    }
  }

  /** The confidences of the calls that say one word, added up. */
  function Confidence(calls: seq<Call>, word: Word): real {
    if calls == [] then 0.0
    else (if calls[0].word == word then calls[0].confidence else 0.0) + Confidence(calls[1..], word)
  }

  /** The surest call for caution; nothing when there is none. */
  ghost predicate IsCaution(calls: seq<Call>, caution: real) {
    if exists c :: c in calls && c.word == CautionWord then
      && (exists c :: c in calls && c.word == CautionWord && c.confidence == caution)
      && (forall c :: c in calls && c.word == CautionWord ==> c.confidence <= caution)
    else caution == 0.0
  }

  lemma {:induction false} ConfidenceAdds(a: seq<Call>, b: seq<Call>, word: Word)
    ensures Confidence(a + b, word) == Confidence(a, word) + Confidence(b, word)
  {
    if a == [] {
      assert a + b == b;
    } else {
      ConfidenceAdds(a[1..], b, word);
      assert (a + b)[1..] == a[1..] + b;
    }
  }

  lemma {:induction false} ReportSays(kind: Kind, calls: seq<Call>, address: Address)
    ensures var said, on := SaidBy(kind, calls, address), OnAsset(calls, address);
            && DirectionSum(said)
               == (if kind == Direction then Confidence(on, BuyWord) - Confidence(on, SellWord) else 0.0)
            && DirectionCount(said) == if kind == Direction then |on| else 0
  {
    if calls != [] {
      ReportSays(kind, calls[1..], address);
      var first := if calls[0].address == address then [Contribute(kind, calls[0])] else [];
      DirectionOf(first, SaidBy(kind, calls[1..], address));
      var head := if calls[0].address == address then [calls[0]] else [];
      ConfidenceAdds(head, OnAsset(calls[1..], address), BuyWord);
      ConfidenceAdds(head, OnAsset(calls[1..], address), SellWord);
    }
  }

  lemma {:induction false} DirectionSays(reports: seq<Report>, address: Address)
    ensures var said, on := Said(reports, address), CallsOn(reports, Direction, address);
            && DirectionSum(said) == Confidence(on, BuyWord) - Confidence(on, SellWord)
            && DirectionCount(said) == |on|
  {
    if reports != [] {
      var r := reports[0];
      DirectionSays(reports[1..], address);
      ReportSays(r.kind, r.calls, address);
      DirectionOf(SaidBy(r.kind, r.calls, address), Said(reports[1..], address));
      var head := if r.kind == Direction then OnAsset(r.calls, address) else [];
      ConfidenceAdds(head, CallsOn(reports[1..], Direction, address), BuyWord);
      ConfidenceAdds(head, CallsOn(reports[1..], Direction, address), SellWord);
    }
  }

  /** What a highest caution is of some calls, none when none asks. */
  ghost predicate Highest(x: Option<real>, calls: seq<Call>) {
    && (x.None? ==> forall c :: c in calls ==> c.word != CautionWord)
    && (x.Some? ==> exists c :: c in calls && c.word == CautionWord && c.confidence == x.value)
    && (x.Some? ==> forall c :: c in calls && c.word == CautionWord ==> c.confidence <= x.value)
  }

  lemma HigherOfBoth(x: Option<real>, a: seq<Call>, y: Option<real>, b: seq<Call>)
    requires Highest(x, a) && Highest(y, b)
    ensures Highest(Higher(x, y), a + b)
  {
    assert forall c :: c in a + b <==> c in a || c in b;
  }

  lemma {:induction false} ReportCautions(kind: Kind, calls: seq<Call>, address: Address)
    ensures Highest(HighestCaution(SaidBy(kind, calls, address)),
                    if kind == Condition then OnAsset(calls, address) else [])
  {
    if calls != [] {
      ReportCautions(kind, calls[1..], address);
      var c := calls[0];
      var first := if c.address == address then [Contribute(kind, c)] else [];
      HighestOf(first, SaidBy(kind, calls[1..], address));
      var head := if kind == Condition && c.address == address then [c] else [];
      OneCaution(kind, c, address, first, head);
      HigherOfBoth(HighestCaution(first), head, HighestCaution(SaidBy(kind, calls[1..], address)),
                   if kind == Condition then OnAsset(calls[1..], address) else []);
    }
  }

  lemma OneCaution(kind: Kind, c: Call, address: Address, first: seq<Contribution>, head: seq<Call>)
    requires first == if c.address == address then [Contribute(kind, c)] else []
    requires head == if kind == Condition && c.address == address then [c] else []
    ensures Highest(HighestCaution(first), head)
  {
    assert first != [] ==> first[1..] == [];
    if head != [] && c.word == CautionWord {
      assert c in head && HighestCaution(first) == Some(c.confidence);
    } else if first != [] {
      assert first[0].kind == Condition && first[0].word == CautionWord ==> false;
      assert HighestCaution(first[1..]) == None && HighestCaution(first) == None;
    }
  }

  lemma {:induction false} Cautions(reports: seq<Report>, address: Address)
    ensures Highest(HighestCaution(Said(reports, address)), CallsOn(reports, Condition, address))
  {
    if reports != [] {
      var r := reports[0];
      Cautions(reports[1..], address);
      ReportCautions(r.kind, r.calls, address);
      HighestOf(SaidBy(r.kind, r.calls, address), Said(reports[1..], address));
      HigherOfBoth(HighestCaution(SaidBy(r.kind, r.calls, address)),
                   if r.kind == Condition then OnAsset(r.calls, address) else [],
                   HighestCaution(Said(reports[1..], address)), CallsOn(reports[1..], Condition, address));
    }
  }

  function Times(a: real, n: real): real { a * n }

  function Ratio(a: real, n: real): real
    requires n != 0.0
  {
    a / n
  }

  /** The score the calls on an asset make: buys less sells over all direction calls, holds among them, less
      what the surest call for caution takes. */
  ghost predicate ScoreOf(directions: seq<Call>, caution: real, score: Option<real>) {
    && (score.None? <==> directions == [])
    && (score.Some? ==>
          score.value == Times(Ratio(Confidence(directions, BuyWord) - Confidence(directions, SellWord),
                                     |directions| as real), 1.0 - caution))
  }

  lemma ScoreIsFromCalls(reports: seq<Report>, address: Address, caution: real)
    requires IsCaution(CallsOn(reports, Condition, address), caution)
    ensures ScoreOf(CallsOn(reports, Direction, address), caution, Score(Said(reports, address)))
  {
    DirectionSays(reports, address);
    Cautions(reports, address);
    OneHighest(HighestCaution(Said(reports, address)), CallsOn(reports, Condition, address), caution);
    ScoreMade(Said(reports, address), CallsOn(reports, Direction, address), caution);
  }

  lemma ScoreMade(said: seq<Contribution>, on: seq<Call>, caution: real)
    requires DirectionCount(said) == |on| && CautionOf(said) == caution
    requires DirectionSum(said) == Confidence(on, BuyWord) - Confidence(on, SellWord)
    ensures ScoreOf(on, caution, Score(said))
  {
  }

  lemma OneHighest(x: Option<real>, calls: seq<Call>, caution: real)
    requires Highest(x, calls) && IsCaution(calls, caution)
    ensures (if x.None? then 0.0 else x.value) == caution
  {
  }

  // ----- every row -----------------------------------------------------------------------------

  /** A row's own address leads to it. */
  lemma RowOf(reports: seq<Report>, current: map<Address, real>, cashWeight: real, quorum: Option<int>,
              limits: Gates.Limits, row: Row)
    requires row in Decided(reports, current, cashWeight, quorum, limits).rows
    ensures row == RowFor(Said(reports, row.address), WeightOf(current, row.address), Keeps(reports, quorum, limits),
                          limits, row.address)
    ensures row.address in Called(reports) + current.Keys
  {
    var keeps := Keeps(reports, quorum, limits);
    var addresses := InOrder(Called(reports) + current.Keys);
    var rowOf := RowsFrom(reports, current, keeps, limits);
    var i :| 0 <= i < |Rows(rowOf, addresses)| && Rows(rowOf, addresses)[i] == row;
    if addresses != [] {
      RowAt(rowOf, addresses, 0);
      RowAt(rowOf, addresses, i);
    }
  }

  /** The score of every row, from the calls of the reports alone. */
  lemma EveryScoreIsTheCalls(reports: seq<Report>, current: map<Address, real>, cashWeight: real,
                             quorum: Option<int>, limits: Gates.Limits, row: Row, caution: real)
    requires row in Decided(reports, current, cashWeight, quorum, limits).rows
    requires IsCaution(CallsOn(reports, Condition, row.address), caution)
    ensures row.score.Some? <==>
            exists r, c :: r in reports && r.kind == Direction && c in r.calls && c.address == row.address
    ensures ScoreOf(CallsOn(reports, Direction, row.address), caution, row.score)
  {
    RowOf(reports, current, cashWeight, quorum, limits, row);
    ScoreIsFromCalls(reports, row.address, caution);
    var on := CallsOn(reports, Direction, row.address);
    if on != [] {
      assert on[0] in on;
      CallsOnAre(reports, Direction, row.address, on[0]);
    }
    if r, c :| r in reports && r.kind == Direction && c in r.calls && c.address == row.address {
      CallsOnAre(reports, Direction, row.address, c);
    }
  }

  predicate HasRow(rows: seq<Row>, address: Address) { exists i :: 0 <= i < |rows| && rows[i].address == address }

  ghost predicate IsCalled(reports: seq<Report>, address: Address) {
    exists r, c :: r in reports && c in r.calls && c.address == address
  }

  /** One row for each asset that is held or called, by address, with its weight in the book. */
  lemma OneRowEach(reports: seq<Report>, current: map<Address, real>, cashWeight: real, quorum: Option<int>,
                   limits: Gates.Limits)
    ensures var rows := Decided(reports, current, cashWeight, quorum, limits).rows;
            && (forall i, j :: 0 <= i < j < |rows| ==> rows[i].address < rows[j].address)
            && (forall row :: row in rows ==>
                  row.current == if row.address in current then current[row.address] else 0.0)
            && (forall a :: HasRow(rows, a) <==> a in current || IsCalled(reports, a))
  {
    var addresses := InOrder(Called(reports) + current.Keys);
    var rows := Decided(reports, current, cashWeight, quorum, limits).rows;
    RowsAreThese(RowsFrom(reports, current, Keeps(reports, quorum, limits), limits), addresses, rows);
    forall row | row in rows ensures row.current == if row.address in current then current[row.address] else 0.0 {
      RowOf(reports, current, cashWeight, quorum, limits, row);
    }
    forall a ensures HasRow(rows, a) <==> a in current || IsCalled(reports, a) {
      assert a in Called(reports) <==> IsCalled(reports, a);
    }
  }

  lemma RowsAreThese(rowOf: Address -> Row, addresses: seq<Address>, rows: seq<Row>)
    requires rows == Rows(rowOf, addresses) && forall a :: rowOf(a).address == a
    requires forall i, j :: 0 <= i < j < |addresses| ==> addresses[i] < addresses[j]
    ensures forall i, j :: 0 <= i < j < |rows| ==> rows[i].address < rows[j].address
    ensures forall a :: HasRow(rows, a) <==> a in addresses
  {
    RowsAre(rowOf, addresses);
    forall a ensures HasRow(rows, a) <==> a in addresses {
      if a in addresses {
        var i :| 0 <= i < |addresses| && addresses[i] == a;
        assert rows[i].address == a;
      }
    }
  }

  lemma RowsAre(rowOf: Address -> Row, addresses: seq<Address>)
    ensures |Rows(rowOf, addresses)| == |addresses|
    ensures forall i :: 0 <= i < |addresses| ==> Rows(rowOf, addresses)[i] == rowOf(addresses[i])
  {
    forall i | 0 <= i < |addresses| ensures |Rows(rowOf, addresses)| == |addresses|
      ensures Rows(rowOf, addresses)[i] == rowOf(addresses[i])
    {
      RowAt(rowOf, addresses, i);
    }
    if addresses != [] {
      RowAt(rowOf, addresses, 0);
    }
  }

  // ----- the target ----------------------------------------------------------------------------

  /** What a score asks for under a limit: so much of the limit, but not past it and not below nothing. */
  function Asked(row: Row, limit: real): real {
    if row.score.None? then 0.0
    else
      var step := row.score.value * limit;
      if step > limit - row.current && row.score.value > 0.0 then
        if row.current >= limit then 0.0 else limit - row.current
      else if step < -row.current && row.score.value < 0.0 then -row.current
      else step
  }

  predicate Millionths(x: real) { (x * 1000000.0).Floor as real == x * 1000000.0 }

  /** A cycle rebalances when enough seats reported, one of them called something, and the limit is known. */
  lemma RebalancesExactlyWhen(reports: seq<Report>, current: map<Address, real>, cashWeight: real,
                              quorum: Option<int>, limits: Gates.Limits)
    ensures Decided(reports, current, cashWeight, quorum, limits).rebalance <==>
            && quorum.Some? && |reports| >= quorum.value && limits.maxPositionWeight.Some?
            && exists r, c :: r in reports && c in r.calls
  {
    if r :| r in reports && r.calls != [] {
      assert r.calls[0] in r.calls;
    }
  }

  /** Every target: the weight moved by what is asked, to the millionth below, and all of it when nothing
      is left; without a rebalance the weight as it is. */
  lemma EveryTargetIsTheScores(reports: seq<Report>, current: map<Address, real>, cashWeight: real,
                               quorum: Option<int>, limits: Gates.Limits, row: Row)
    requires limits.maxPositionWeight.Some? ==> limits.maxPositionWeight.value >= 0.0
    requires forall a :: a in current ==> current[a] >= 0.0
    requires row in Decided(reports, current, cashWeight, quorum, limits).rows
    ensures if !Decided(reports, current, cashWeight, quorum, limits).rebalance then row.target == row.current
            else MovesAsAsked(row, limits.maxPositionWeight.value)
  {
    RowOf(reports, current, cashWeight, quorum, limits, row);
    if !Keeps(reports, quorum, limits) {
      AsksWhatIsWanted(row, limits);
      MovesBy(row, limits.maxPositionWeight.value, Asked(row, limits.maxPositionWeight.value));
    }
  }

  lemma MovesBy(row: Row, limit: real, asked: real)
    requires asked == Asked(row, limit) && row.target == row.current + Kept(row.current, asked)
    ensures MovesAsAsked(row, limit)
  {
    KeptIs(row.current, asked);
  }

  ghost predicate MovesAsAsked(row: Row, limit: real) {
    var asked, moved := Asked(row, limit), row.target - row.current;
    && (asked >= 0.0 ==> 0.0 <= moved <= asked < moved + 0.000001)
    && (asked <= 0.0 ==> moved - 0.000001 < asked <= moved <= 0.0)
    && (row.current + asked == 0.0 ==> row.target == 0.0)
    && (row.current + asked != 0.0 ==> Millionths(moved))
  }

  lemma AsksWhatIsWanted(row: Row, limits: Gates.Limits)
    requires limits.maxPositionWeight.Some? && limits.maxPositionWeight.value >= 0.0 && row.current >= 0.0
    ensures Asked(row, limits.maxPositionWeight.value) == Wanted(row.score, row.current, limits)
  {
    if row.score.Some? {
      StepIs(row.score.value, limits.maxPositionWeight.value);
    }
  }

  lemma StepIs(score: real, limit: real)
    requires limit >= 0.0
    ensures StepOf(score, limit) == (if score < 0.0 then -(score * limit) else score * limit)
    ensures StepOf(score, limit) >= 0.0 && (score == 0.0 ==> score * limit == 0.0)
  {
    StepNotNegative(Abs(score), limit);
  }

  lemma KeptIs(current: real, change: real)
    ensures change >= 0.0 ==> 0.0 <= Kept(current, change) <= change < Kept(current, change) + 0.000001
    ensures change <= 0.0 ==> Kept(current, change) - 0.000001 < change <= Kept(current, change) <= 0.0
    ensures current + change == 0.0 ==> current + Kept(current, change) == 0.0
    ensures current + change != 0.0 ==> Millionths(Kept(current, change))
  {
    RoundsTowardZero(change);
    WholeMillionths(Gates.Truncate(change * 1000000.0));
  }

  lemma WholeMillionths(k: int)
    ensures Millionths(k as real / 1000000.0)
  {
    assert k as real / 1000000.0 * 1000000.0 == k as real;
  }

  // ----- what the rows add up to ---------------------------------------------------------------

  function Sum(f: Row -> real, rows: seq<Row>): real {
    if rows == [] then 0.0 else f(rows[0]) + Sum(f, rows[1..])
  }

  lemma {:induction false} SumOneMore(f: Row -> real, rows: seq<Row>)
    requires rows != []
    ensures Sum(f, rows) == Sum(f, rows[..|rows| - 1]) + f(rows[|rows| - 1])
  {
    if |rows| > 1 {
      SumOneMore(f, rows[1..]);
      assert rows[..|rows| - 1][1..] == rows[1..][..|rows[1..]| - 1];
    }
  }

  function TargetOf(): Row -> real { (row: Row) => row.target }

  function CurrentOf(): Row -> real { (row: Row) => row.current }

  function AskedOf(limit: real): Row -> real { (row: Row) => Asked(row, limit) }

  lemma {:induction false} MovedIs(rows: seq<Row>)
    ensures Moved(rows) == Sum(TargetOf(), rows) - Sum(CurrentOf(), rows)
  {
    if rows != [] {
      MovedIs(rows[..|rows| - 1]);
      SumOneMore(TargetOf(), rows);
      SumOneMore(CurrentOf(), rows);
    }
  }

  lemma {:induction false} ResidualIs(dustOf: Row -> real, limit: real, rows: seq<Row>)
    requires forall row :: row in rows ==> dustOf(row) == Asked(row, limit) - (row.target - row.current)
    ensures Residual(dustOf, rows) == Sum(AskedOf(limit), rows) - (Sum(TargetOf(), rows) - Sum(CurrentOf(), rows))
  {
    if rows != [] {
      assert rows[|rows| - 1] in rows;
      ResidualIs(dustOf, limit, rows[..|rows| - 1]);
      SumOneMore(TargetOf(), rows);
      SumOneMore(CurrentOf(), rows);
      SumOneMore(AskedOf(limit), rows);
    }
  }

  lemma {:induction false} NoResidual(dustOf: Row -> real, rows: seq<Row>)
    requires forall row :: row in rows ==> dustOf(row) == 0.0
    ensures Residual(dustOf, rows) == 0.0
  {
    if rows != [] {
      assert rows[|rows| - 1] in rows;
      NoResidual(dustOf, rows[..|rows| - 1]);
    }
  }

  /** What rounding leaves of each row, from the row itself. */
  lemma DustIs(reports: seq<Report>, current: map<Address, real>, cashWeight: real, quorum: Option<int>,
               limits: Gates.Limits, row: Row)
    requires limits.maxPositionWeight.Some? ==> limits.maxPositionWeight.value >= 0.0
    requires forall a :: a in current ==> current[a] >= 0.0
    requires row in Decided(reports, current, cashWeight, quorum, limits).rows
    ensures DustFrom(Keeps(reports, quorum, limits), limits)(row)
            == if Keeps(reports, quorum, limits) then 0.0
               else Asked(row, limits.maxPositionWeight.value) - (row.target - row.current)
  {
    RowOf(reports, current, cashWeight, quorum, limits, row);
    if !Keeps(reports, quorum, limits) {
      AsksWhatIsWanted(row, limits);
    }
  }

  /** Weight is neither made nor lost: cash and targets add up to what cash and weights did. */
  lemma WeightIsKept(reports: seq<Report>, current: map<Address, real>, cashWeight: real,
                     quorum: Option<int>, limits: Gates.Limits)
    ensures var p := Decided(reports, current, cashWeight, quorum, limits);
            && p.cashCurrent == cashWeight
            && p.cashTarget + Sum(TargetOf(), p.rows) == cashWeight + Sum(CurrentOf(), p.rows)
  {
    MovedIs(Decided(reports, current, cashWeight, quorum, limits).rows);
  }

  /** What was asked is what moved and what rounding left. */
  lemma ResidualIsWhatIsLeft(reports: seq<Report>, current: map<Address, real>, cashWeight: real,
                             quorum: Option<int>, limits: Gates.Limits, p: Proposal)
    requires limits.maxPositionWeight.Some? ==> limits.maxPositionWeight.value >= 0.0
    requires forall a :: a in current ==> current[a] >= 0.0
    requires p == Decided(reports, current, cashWeight, quorum, limits)
    ensures p.residual == if p.rebalance then Sum(AskedOf(limits.maxPositionWeight.value), p.rows)
                                              - (Sum(TargetOf(), p.rows) - Sum(CurrentOf(), p.rows))
                          else 0.0
  {
    var keeps := Keeps(reports, quorum, limits);
    forall row | row in p.rows
      ensures DustFrom(keeps, limits)(row)
              == if keeps then 0.0 else Asked(row, limits.maxPositionWeight.value) - (row.target - row.current)
    {
      DustIs(reports, current, cashWeight, quorum, limits, row);
    }
    if keeps {
      NoResidual(DustFrom(keeps, limits), p.rows);
    } else {
      ResidualIs(DustFrom(keeps, limits), limits.maxPositionWeight.value, p.rows);
    }
  }

  // ----- a surer sell --------------------------------------------------------------------------

  /** A lower score never asks for a higher target. */
  lemma TargetFollowsScore(lower: real, higher: real, current: real, limits: Gates.Limits)
    requires limits.maxPositionWeight.Some? && limits.maxPositionWeight.value >= 0.0 && current >= 0.0
    requires lower <= higher
    ensures Target(Some(lower), current, limits) <= Target(Some(higher), current, limits)
  {
    var limit := limits.maxPositionWeight.value;
    var low, high := StepsFollow(lower, higher, limit);
    TargetsFollow(lower, higher, current, limits, limit, low, high);
  }

  lemma StepsFollow(lower: real, higher: real, limit: real) returns (low: real, high: real)
    requires limit >= 0.0 && lower <= higher
    ensures low <= high
    ensures StepOf(lower, limit) == (if lower < 0.0 then -low else low)
    ensures StepOf(higher, limit) == (if higher < 0.0 then -high else high)
    ensures (lower >= 0.0 ==> low >= 0.0) && (lower <= 0.0 ==> low <= 0.0)
    ensures (higher >= 0.0 ==> high >= 0.0) && (higher <= 0.0 ==> high <= 0.0)
  {
    low, high := Times(lower, limit), Times(higher, limit);
    ScaledFollows(lower, higher, limit);
    StepSigns(lower, limit, low);
    StepSigns(higher, limit, high);
  }

  lemma TargetsFollow(lower: real, higher: real, current: real, limits: Gates.Limits, limit: real, low: real,
                      high: real)
    requires limits.maxPositionWeight == Some(limit) && current >= 0.0 && lower <= higher && low <= high
    requires StepOf(lower, limit) == if lower < 0.0 then -low else low
    requires StepOf(higher, limit) == if higher < 0.0 then -high else high
    requires (lower >= 0.0 ==> low >= 0.0) && (lower <= 0.0 ==> low <= 0.0)
    requires (higher >= 0.0 ==> high >= 0.0) && (higher <= 0.0 ==> high <= 0.0)
    ensures Target(Some(lower), current, limits) <= Target(Some(higher), current, limits)
  {
    TargetIs(lower, current, limits, limit, low);
    TargetIs(higher, current, limits, limit, high);
    MovedFollows(lower, higher, current, limit - current, low, high);
  }

  lemma MovedFollows(lower: real, higher: real, current: real, room: real, low: real, high: real)
    requires current >= 0.0 && lower <= higher && low <= high
    requires (lower >= 0.0 ==> low >= 0.0) && (lower <= 0.0 ==> low <= 0.0)
    requires (higher >= 0.0 ==> high >= 0.0) && (higher <= 0.0 ==> high <= 0.0)
    ensures Kept(current, MoveOf(lower, current, room, low)) <= Kept(current, MoveOf(higher, current, room, high))
  {
    MovesFollow(lower, higher, current, room, low, high);
    KeptFollows(current, MoveOf(lower, current, room, low), MoveOf(higher, current, room, high));
  }

  function MoveOf(score: real, current: real, room: real, step: real): real {
    if score == 0.0 then 0.0
    else if score > 0.0 then (if room <= 0.0 then 0.0 else if step <= room then step else room)
    else if -step <= current then step else -current
  }

  lemma MovesFollow(lower: real, higher: real, current: real, room: real, low: real, high: real)
    requires current >= 0.0 && lower <= higher && low <= high
    requires (lower >= 0.0 ==> low >= 0.0) && (lower <= 0.0 ==> low <= 0.0)
    requires (higher >= 0.0 ==> high >= 0.0) && (higher <= 0.0 ==> high <= 0.0)
    ensures -current <= MoveOf(lower, current, room, low) <= MoveOf(higher, current, room, high)
  {
  }

  lemma ScaledFollows(a: real, b: real, n: real)
    requires a <= b && n >= 0.0
    ensures Times(a, n) <= Times(b, n) && Times(0.0, n) == 0.0
  {
    assert (b - a) * n >= 0.0;
  }

  lemma StepSigns(score: real, limit: real, step: real)
    requires limit >= 0.0 && step == Times(score, limit)
    ensures StepOf(score, limit) == (if score < 0.0 then -step else step)
    ensures (score >= 0.0 ==> step >= 0.0) && (score <= 0.0 ==> step <= 0.0)
  {
    StepIs(score, limit);
    ScaledFollows(if score < 0.0 then score else 0.0, if score < 0.0 then 0.0 else score, limit);
  }

  /** Where a score leads, given the step it makes. */
  lemma TargetIs(score: real, current: real, limits: Gates.Limits, limit: real, step: real)
    requires limits.maxPositionWeight == Some(limit)
    requires StepOf(score, limit) == if score < 0.0 then -step else step
    ensures Target(Some(score), current, limits)
            == current + Kept(current, MoveOf(score, current, limit - current, step))
  {
  }

  lemma KeptFollows(current: real, low: real, high: real)
    requires current >= 0.0 && -current <= low <= high
    ensures Kept(current, low) <= Kept(current, high)
  {
    RoundsTowardZero(low);
    RoundsTowardZero(high);
    FloorsFollow(low * 1000000.0, high * 1000000.0);
  }

  lemma FloorsFollow(x: real, y: real)
    requires x <= y
    ensures Gates.Truncate(x) <= Gates.Truncate(y)
  {
  }

  /** One call's confidence changed. */
  function Surer(reports: seq<Report>, i: nat, j: nat, confidence: real): seq<Report>
    requires i < |reports| && j < |reports[i].calls|
  {
    var calls := reports[i].calls;
    reports[i := reports[i].(calls := calls[j := calls[j].(confidence := confidence)])]
  }

  lemma {:induction false} SurerOnAsset(calls: seq<Call>, j: nat, confidence: real, address: Address)
    requires j < |calls|
    ensures var more := calls[j := calls[j].(confidence := confidence)];
            var a, b := OnAsset(calls, address), OnAsset(more, address);
            && |a| == |b|
            && forall word :: Confidence(b, word) == Confidence(a, word)
                 + if calls[j].address == address && calls[j].word == word then confidence - calls[j].confidence
                   else 0.0
  {
    var more := calls[j := calls[j].(confidence := confidence)];
    if j > 0 {
      SurerOnAsset(calls[1..], j - 1, confidence, address);
      assert more[1..] == calls[1..][j - 1 := calls[j].(confidence := confidence)];
    } else {
      assert more[1..] == calls[1..];
    }
    var a := if calls[0].address == address then [calls[0]] else [];
    var b := if more[0].address == address then [more[0]] else [];
    forall word
      ensures Confidence(OnAsset(calls, address), word)
              == Confidence(a, word) + Confidence(OnAsset(calls[1..], address), word)
      ensures Confidence(OnAsset(more, address), word)
              == Confidence(b, word) + Confidence(OnAsset(more[1..], address), word)
    {
      ConfidenceAdds(a, OnAsset(calls[1..], address), word);
      ConfidenceAdds(b, OnAsset(more[1..], address), word);
    }
  }

  lemma {:induction false} SurerCalls(reports: seq<Report>, i: nat, j: nat, confidence: real, kind: Kind,
                                      address: Address)
    requires i < |reports| && j < |reports[i].calls|
    ensures var call, more := reports[i].calls[j], Surer(reports, i, j, confidence);
            var a, b := CallsOn(reports, kind, address), CallsOn(more, kind, address);
            && |a| == |b|
            && (forall word :: Confidence(b, word) == Confidence(a, word)
                  + if reports[i].kind == kind && call.address == address && call.word == word
                    then confidence - call.confidence else 0.0)
            && (reports[i].kind != kind ==> a == b)
  {
    var more := Surer(reports, i, j, confidence);
    if i > 0 {
      SurerCalls(reports[1..], i - 1, j, confidence, kind, address);
      assert more[1..] == Surer(reports[1..], i - 1, j, confidence);
    } else {
      SurerOnAsset(reports[0].calls, j, confidence, address);
      assert more[1..] == reports[1..];
    }
    var a := if reports[0].kind == kind then OnAsset(reports[0].calls, address) else [];
    var b := if more[0].kind == kind then OnAsset(more[0].calls, address) else [];
    forall word
      ensures Confidence(CallsOn(reports, kind, address), word)
              == Confidence(a, word) + Confidence(CallsOn(reports[1..], kind, address), word)
      ensures Confidence(CallsOn(more, kind, address), word)
              == Confidence(b, word) + Confidence(CallsOn(more[1..], kind, address), word)
    {
      ConfidenceAdds(a, CallsOn(reports[1..], kind, address), word);
      ConfidenceAdds(b, CallsOn(more[1..], kind, address), word);
    }
  }

  lemma Quotients(a: real, b: real, n: real, left: real)
    requires a <= b && n > 0.0
    ensures left >= 0.0 ==> Times(Ratio(a, n), left) <= Times(Ratio(b, n), left)
    ensures left <= 0.0 ==> Times(Ratio(a, n), left) >= Times(Ratio(b, n), left)
  {
    var x, y := Ratio(a, n), Ratio(b, n);
    assert x * n == a && y * n == b;
    if x > y {
      Gates.Scale(y, x, n);
    }
    Turned(x, y, left);
  }

  lemma Turned(x: real, y: real, left: real)
    requires x <= y
    ensures left >= 0.0 ==> Times(x, left) <= Times(y, left)
    ensures left <= 0.0 ==> Times(x, left) >= Times(y, left)
  {
    assert left >= 0.0 ==> (y - x) * left >= 0.0;
    assert left <= 0.0 ==> (y - x) * left <= 0.0;
  }

  /** A surer sell never raises its asset's target, as long as the surest call for caution is no more than certain;
      past certainty, where caution turns calls around, it never lowers it. */
  lemma SurerSellNeverRaises(reports: seq<Report>, i: nat, j: nat, confidence: real, current: map<Address, real>,
                             cashWeight: real, quorum: Option<int>, limits: Gates.Limits, row: Row, after: Row,
                             caution: real)
    requires i < |reports| && j < |reports[i].calls|
    requires reports[i].kind == Direction && reports[i].calls[j].word == SellWord
    requires confidence >= reports[i].calls[j].confidence
    requires limits.maxPositionWeight.Some? ==> limits.maxPositionWeight.value >= 0.0
    requires forall a :: a in current ==> current[a] >= 0.0
    requires row in Decided(reports, current, cashWeight, quorum, limits).rows
    requires after in Decided(Surer(reports, i, j, confidence), current, cashWeight, quorum, limits).rows
    requires row.address == after.address && IsCaution(CallsOn(reports, Condition, row.address), caution)
    ensures after.current == row.current
    ensures caution <= 1.0 ==> after.target <= row.target
    ensures caution >= 1.0 ==> after.target >= row.target
  {
    var more := Surer(reports, i, j, confidence);
    RowOf(reports, current, cashWeight, quorum, limits, row);
    RowOf(more, current, cashWeight, quorum, limits, after);
    SameAbstainers(reports, i, j, confidence);
    if !Keeps(reports, quorum, limits) && row.score.Some? {
      SurerScore(reports, i, j, confidence, row.address, row.score, after.score, caution);
      if after.score.value <= row.score.value {
        TargetFollowsScore(after.score.value, row.score.value, row.current, limits);
      }
      if after.score.value >= row.score.value {
        TargetFollowsScore(row.score.value, after.score.value, row.current, limits);
      }
    } else {
      SurerHasScore(reports, i, j, confidence, row.address);
    }
  }

  lemma SameAbstainers(reports: seq<Report>, i: nat, j: nat, confidence: real)
    requires i < |reports| && j < |reports[i].calls|
    ensures AllAbstained(Surer(reports, i, j, confidence)) == AllAbstained(reports)
  {
    var more := Surer(reports, i, j, confidence);
    assert reports[i] in reports && more[i] in more;
  }

  lemma SurerHasScore(reports: seq<Report>, i: nat, j: nat, confidence: real, address: Address)
    requires i < |reports| && j < |reports[i].calls|
    ensures Score(Said(Surer(reports, i, j, confidence), address)).Some? == Score(Said(reports, address)).Some?
  {
    SurerCalls(reports, i, j, confidence, Direction, address);
    DirectionSays(reports, address);
    DirectionSays(Surer(reports, i, j, confidence), address);
  }

  lemma SurerScore(reports: seq<Report>, i: nat, j: nat, confidence: real, address: Address, before: Option<real>,
                   after: Option<real>, caution: real)
    requires i < |reports| && j < |reports[i].calls|
    requires reports[i].kind == Direction && reports[i].calls[j].word == SellWord
    requires confidence >= reports[i].calls[j].confidence && IsCaution(CallsOn(reports, Condition, address), caution)
    requires before == Score(Said(reports, address)) && before.Some?
    requires after == Score(Said(Surer(reports, i, j, confidence), address))
    ensures after.Some?
    ensures (caution <= 1.0 ==> after.value <= before.value) && (caution >= 1.0 ==> after.value >= before.value)
  {
    var more := Surer(reports, i, j, confidence);
    SurerCalls(reports, i, j, confidence, Direction, address);
    SurerCalls(reports, i, j, confidence, Condition, address);
    ScoreIsFromCalls(reports, address, caution);
    ScoreIsFromCalls(more, address, caution);
    LowerScore(CallsOn(reports, Direction, address), CallsOn(more, Direction, address), caution, before, after);
  }

  lemma LowerScore(a: seq<Call>, b: seq<Call>, caution: real, before: Option<real>, after: Option<real>)
    requires |a| == |b| && ScoreOf(a, caution, before) && ScoreOf(b, caution, after)
    requires Confidence(b, BuyWord) == Confidence(a, BuyWord) && Confidence(b, SellWord) >= Confidence(a, SellWord)
    requires before.Some?
    ensures after.Some?
    ensures (caution <= 1.0 ==> after.value <= before.value) && (caution >= 1.0 ==> after.value >= before.value)
  {
    Quotients(Confidence(b, BuyWord) - Confidence(b, SellWord), Confidence(a, BuyWord) - Confidence(a, SellWord),
              |a| as real, 1.0 - caution);
  }
}

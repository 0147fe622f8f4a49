# openfund, modelled

A verification project for the parts of openfund that decide about money. It follows the program's own
division into files and proves, for all inputs, what each part promises the next.

- **Money.** `Aggregate` turns the seats' reports into target weights, `Sizing` and `Intents` turn targets
  into split orders, `Judging` is the money side of the gates and of the plan as written, `Gates` and
  `Settle` hold the limits and the cash floor, `Ledger` folds what happened into average-cost books.
  `PlanHolds` joins them: a plan sized from a proposal on the same book is not contradicted by the gates
  it is judged by. `Booking` joins the admission of paper buys with the ledger that books them. What the
  figures are is said again from the inputs alone: `Scores` from the seats' calls, `Trades` over the orders
  of a plan, `Statements` over the events of a book.
- **Market sessions and rounds.** `Sessions` is the weekly closed span, the staleness rule, its inversion by
  bisection and the inference of the span; `RoundWalk` the backward walk over a feed's rounds; `AbiCodec`
  the hand-written Multicall3 codec. `Closing` says what a closed second and an inferred span are, week by
  week, and `RoundReasons` which rounds a series has and why it ends.
- **Record and replay.** `Replay` is the recorder, the replayer, and a deterministic client run on both.
- **The snapshot's bytes.** `Json` prints documents and parses them by RFC 8259, `JsonRoundTrip` proves one
  undoes the other, `Canonical` is the sorted form that is hashed, `Snapshot` what refuses stocks and readings
  and how stocks and holdings are reported.
- **Orders and restarts.** `Orders` is the state machine and every run of committed transactions, `Store` the
  database connection with its transactions and crashes, `Recovery` what a start settles, `Lock` the
  single-owner row under any interleaving of processes.
- **Agents.** `FanOut` is the bounded-width scheduler with its two deadlines, `Votes` the reading of the risk
  agent's reply and the override rule. `Starting` says who is started in a turn, and `Replies` what is read
  of a reply, line by line.

`Basics`, `Ordering`, `Totals` and `Wrappers` are shared: small definitions, sorting and why it ignores input
order, sums over a map, options and results.

Code that changes state step by step is modelled by methods with the same loops and by classes with the
same fields (`Replay.Recorder`, `Replay.Replayer`, `Store.Connection`, `Lock.Table`), each proved against a
function or predicate about which the laws are then proved. Raw units and times are integers, USD and
weights are reals; each rounding the program makes on purpose is written out. What another process, the
network or the clock does is an arbitrary function or value. Addresses are numbers, ordered as their
lower-case text is.

## Where the program does not keep a promise as stated

- A sale split evenly over raw units can leave a part above the per-trade limit, because the larger parts
  round up by one unit: `PlanHolds.SellPartCanPassTheLimit` gives three units, `PlanHolds.SellPartsFit` the
  exact condition, `PlanHolds.SellPartsAlmostFit` how far over it can be, `PlanHolds.PlanSellsPassExactly` the
  condition over a whole plan. The order-size gate then refuses that order.
- A buy is split over whole cents, so under a limit that holds a fraction of a cent the same can happen to it:
  `PlanHolds.BuyPartCanPassTheLimit`, with the exact condition in `PlanHolds.BuyPartsFitExactly` and, over a
  whole plan, `PlanHolds.PlanBuysPassExactly`. Under a limit of whole cents it never does:
  `PlanHolds.PlanBuysPassOrderSize`.
- A basis can fall below zero when acquired values are not whole quanta of 10**-30, because a partial
  disposal rounds its part to whole quanta: `Ledger.BasisCanBeNegative`. It does so exactly when the part lies
  past the half quantum above the basis's last whole one (`Ledger.NegativeExactlyWhen`, and
  `Ledger.FoldBelowZeroExactlyWhen` over whole histories), so never when every acquired value is whole quanta
  (`Ledger.BasisNeverNegative`).
- A capture times an exchange in whole milliseconds, and inside the wait the client itself times. A call the
  client gave up on can so be recorded as having come in time, and is replayed that way:
  `Replay.LatenessCanGoUnseen`. A replay is the live run over again if and only if it holds no such exchange:
  `Replay.ReplayIsTheLiveRun`, step by step `Replay.EveryStepIsTheLiveOne`.
- The staleness spans miss a round's own second when the limit is negative, and only then:
  `Sessions.StaleSpansAreTheRule`.
- The restart's branch for an order in flight that is booked says it serves either book, but a live order
  cannot be confirmed by it: `Recovery.BookedInFlight`. No run reaches that branch:
  `Recovery.NoneInFlightIsBooked`.
- The ledger knows transfers, but the journal's table lists four kinds and a transfer is not one of them, so
  keeping one is refused: `Store.Connection.AppendEvent`.
- The documentation of the integer bound says 2**53; the code refuses from 2**53 on, and `Canonical` follows
  the code.

## Model

| member | source | states |
|---|---|---|
| Sessions.ContainsInPeriod | src/fund/adapters/chain_4663.py:727-729 | Within one period of the week, closed means before that week's end of the span, also for a span that wraps past Monday. |
| Sessions.ClosedMs | src/fund/adapters/chain_4663.py:731-744 | The week-by-week sum equals the number of milliseconds in [since, until) whose second the span contains, for every valid span and every pair of instants; starting one week early is enough. |
| Sessions.ClosedCountAdditive | src/fund/adapters/chain_4663.py:731-744 | Closed time is additive over adjacent intervals. |
| Sessions.ClosedCountOfSeconds | src/fund/adapters/chain_4663.py:731-744 | Between whole seconds, closed milliseconds are a thousand times the closed seconds. |
| Sessions.Freshness | src/fund/adapters/chain_4663.py:280-318 | The verdict on a reading: none for no reading or one dated inside the closed span, otherwise whether its open-session age is within the limit, closed time taken out. |
| Sessions.OpenAgeMonotone | src/fund/adapters/chain_4663.py:813-831 | Open-session age never falls as time passes, which is what makes bisecting for the first stale second sound. |
| Sessions.StaleSpans | src/fund/adapters/chain_4663.py:813-831 | The returned spans hold exactly the seconds that lie strictly after some round, before the next one, at an open age past the limit. |
| Sessions.StaleSpansAreTheRule | src/fund/adapters/chain_4663.py:280-318 | For ascending rounds outside the closure, a second lies in a span if and only if the freshness verdict of the newest round at it is false, given a limit of zero or more; with a negative limit exactly the round's own second is missed. |
| Sessions.GapIsEmpty | src/fund/adapters/chain_4663.py:763-810 | No pooled week position lies inside a gap, nor inside it a week on, the wrapping last gap included. |
| Sessions.ProposalIsValid | src/fund/adapters/chain_4663.py:716-729 | What a positive guard leaves of a gap is a span a closure accepts. |
| Sessions.ProposalIsClear | src/fund/adapters/chain_4663.py:763-810 | The proposal from the widest gap is valid, and no second within the guard of a pooled round of any week lies inside it. |
| Sessions.CompleteWeeks | src/fund/adapters/chain_4663.py:796-803 | The weekends reported are those of exactly the weeks that have a round before the span and one from its end on, once each and in order, each as the last round before the span and the first after it. |
| Sessions.InferClosure | src/fund/adapters/chain_4663.py:763-810 | A proposed closure is valid and contradicted by no round of any feed; with two or more rounds it is refused if and only if no span survives the guard or the complete weeks, all of them counted, are too few, and is the shrunk widest gap otherwise; the constructor refuses exactly what is not a span of one week, and with a positive guard never. |
| Sessions.PoolHoldsEveryRound | src/fund/adapters/chain_4663.py:772-776 | Every round of every feed is in the pool the span is inferred from. |
| Closing.ContainsIsWeekly | src/fund/adapters/chain_4663.py:727-729 | A second is closed if and only if it lies in the span of some week, counted from its Monday. |
| Closing.ValidExactly | src/fund/adapters/chain_4663.py:720-722 | A span is accepted if and only if it starts within the week and some moment is closed and some is open. |
| Closing.FreshExactly | src/fund/adapters/chain_4663.py:297-318 | A verdict is given unless nothing was read or the reading lies in some week's span; it is fresh if and only if no more than the limit has passed outside the span. |
| Closing.PoolIsEveryRound | src/fund/adapters/chain_4663.py:775-775 | The pool is the rounds of every feed, each as often as it was published. |
| Closing.PositionsAre | src/fund/adapters/chain_4663.py:779-779 | The positions are exactly the pooled rounds' seconds after their Mondays. |
| Closing.WidestIs | src/fund/adapters/chain_4663.py:780-782 | The gap chosen runs between neighbouring positions, around the week's end for the last; none is wider, and of those as wide none starts later. |
| Closing.ShrinkExactly | src/fund/adapters/chain_4663.py:783-784 | What the guard leaves starts and ends on the grid, and less than one mark more is cut than the guard asks, on either side. |
| Closing.WrapKeepsTheSpan | src/fund/adapters/chain_4663.py:785-786 | A span brought back into the week is as long as before and at the same place in the week. |
| RoundWalk.WalkBack | src/fund/adapters/chain_4663.py:618-649 | One step of the walk over one batch, and the verdict it gives, if any; what is kept and why it stops is RoundReasons.EverySeriesEndsRight. |
| RoundWalk.PriceSeries | src/fund/adapters/chain_4663.py:503-560 | The chunked loop makes, for any answers at all, the series of which the laws below speak; it ends because each step reads at least one round. |
| RoundWalk.InChunks | src/fund/adapters/chain_4663.py:503-560 | Whatever the chain answers: points are consecutive ids of one phase down from the head, at most max(1, cap) of them, times never rising, adjacent answers within the ratio; covered if and only if the oldest point is at or before the window start, and no other is; each reason with its verdict. |
| RoundWalk.TakeKeepsTheChain | src/fund/adapters/chain_4663.py:618-649 | A batch that gives no verdict has kept at least one round, and what is kept is still a chain. |
| RoundWalk.ChunksDoNotMatter | src/fund/adapters/chain_4663.py:503-560 | When rounds are answered on their own, the walk in chunks of any size equals asking for them one at a time. |
| RoundWalk.PointsAreInOrder | src/fund/adapters/chain_4663.py:549-560 | Handed on oldest first, ids are consecutive in one phase and times never fall. |
| RoundReasons.EverySeriesEndsRight | src/fund/adapters/chain_4663.py:521-649 | For any answers: every point below the head is the answer given for it, every answer that can be kept is kept, and the walk ends for just the reason its next answer gives. A failed read ends it if and only if that batch could not be read; a bad round if and only if the answer is missing, has another id, or is not sane; an out-of-order one if and only if the answer is good and later; a scale break if and only if it is good, no later and that far off. Otherwise the window, the phase's start or the cap ended it, in that order. |
| AbiCodec.EncodeAggregate3 | src/fund/adapters/chain_4663.py:179-191 | The bytes are the selector and the Solidity Contract ABI Specification's encoding of one (address, bool, bytes)[] argument. |
| AbiCodec.Offsets | src/fund/adapters/chain_4663.py:179-191 | The running position gives each tuple's head as the specification defines it. |
| AbiCodec.PaddedToWords | src/fund/adapters/chain_4663.py:183-185 | A byte string stands behind its length and is padded with zeros, fewer than a word of them, to whole words. |
| AbiCodec.BigEndianIs | src/fund/adapters/chain_4663.py:171-172 | The bytes of a number are its digits to base 256, the most significant first. |
| AbiCodec.EncodedCallsReadBack | src/fund/adapters/chain_4663.py:179-191 | Reading those bytes by the specification's offsets gives back every target and byte string in order, each allowed to fail, for byte strings of any length. |
| AbiCodec.DecodeAggregate3 | src/fund/adapters/chain_4663.py:194-205 | What the decoder makes of any bytes, those past the end read as absent. |
| AbiCodec.DecodeUndoesEncoding | src/fund/adapters/chain_4663.py:194-205 | The decoder undoes the specification's encoding of any (bool, bytes)[]. |
| Ledger.Walk | src/fund/core/ledger.py:374-432 | A book's result is the fold over that book's events alone; what the fold's figures are is Statements.FoldIsStated. |
| Ledger.FoldReconciles | src/fund/core/ledger.py:374-432 | After every accepted sequence the held bases sum to opened plus realised less costs, despite the rounded share, and every held amount is strictly positive. |
| Ledger.StepReconciles | src/fund/core/ledger.py:374-432 | Each event keeps the books reconciled, whatever share of a basis a disposal takes. |
| Ledger.RoundingDrift | src/fund/core/ledger.py:73-77 | Against an unrounded ledger: the same events accepted, the same units held, and after k partial disposals of an asset bases that differ by at most k half quanta, counted again from zero when all of it goes. |
| Ledger.BasisNeverNegative | src/fund/core/ledger.py:387-402 | When every acquired value is a whole number of quanta of 10**-30, in however many decimal places it is written, no basis is ever negative. |
| Ledger.FewPlacesAreFine | src/fund/core/cash.py:60-66 | A value made of at most thirty decimal places, amount and mark together, is such a whole number of quanta. |
| Ledger.NegativeExactlyWhen | src/fund/core/ledger.py:73-77 | Rounding to a quantum takes more than the whole of a basis if and only if the unrounded part lies above the half quantum over the basis's last whole one, or on it with an odd number below. |
| Ledger.HalfQuantumIsSafe | src/fund/core/ledger.py:73-77 | A basis at most half a quantum above a whole number of them never falls below zero. |
| Ledger.FoldBelowZeroExactlyWhen | src/fund/core/ledger.py:374-402 | Over a whole history, no basis is ever below zero if and only if no event disposes of a part that rounds to more than the basis, which can be told before the event is folded. |
| Ledger.BasisCanBeNegative | src/fund/core/ledger.py:387-402 | A value of seven tenths of a quantum and a disposal of six sevenths of it leave a basis below zero. |
| Ledger.Value | src/fund/core/ledger.py:516-528 | Cash and positions are the fold's holdings at their marks; NAV is their sum, and equals opened plus realised plus unrealised less costs, exactly; opened, realised, costs and expenses are the fold's; it is refused only when the fold fails, or for an asset without a mark that is the cash asset or is held. |
| Ledger.FillMovesCash | src/fund/core/ledger.py:470-476 | A fill moves the booked cash by exactly its cash leg at the mark. |
| Statements.FoldIsStated | src/fund/core/ledger.py:374-432 | Every figure of a book from its events alone: units, decimals and basis of each asset; opened, the worth of what came in as capital less the bases that left as capital; realised, what was received or paid for less the bases it took; costs, the worth of the fees at their marks; expenses, what inference cost. |
| Statements.RefusedExactlyWhen | src/fund/core/ledger.py:374-432 | A book is refused if and only if one of its events cannot follow those before it, for the first such event's reason: its order filled already, other decimals, or more given than held. |
| Statements.BookIs | src/fund/core/ledger.py:225-233 | A book's events are those that name it, the live fills and inference for the real book, the paper fills for the paper book, in their order. |
| Statements.FormedExactly | src/fund/core/ledger.py:118-214 | An event is let in if and only if its amounts are positive at positive marks of their own assets, a fill names its order and trades two assets, one of them cash, and an inference names its seat and costs no less than nothing. |
| Gates.FundKeepsFloor | src/fund/core/gates.py:185-201 | The funded share is between none and all, and what it pays for is the lesser of what is wanted and what cash holds above the floor. |
| Gates.SplitIsFewest | src/fund/core/gates.py:204-214 | The number of orders covers the move within the per-trade limit, and no smaller number does. |
| Aggregate.Aggregated | src/fund/core/aggregate.py:166-238 | The loops make the whole proposal, of which the laws below speak: a row for every called or held asset in address order, its score, its target, cash less what moved, and what rounding left. |
| Aggregate.TargetIsBounded | src/fund/core/aggregate.py:210-221 | A raise never passes the position limit, a cut never passes zero, a move is never larger than its step, and without a score the target is the weight as it stands. |
| Aggregate.RoundsTowardZero | src/fund/core/aggregate.py:225-231 | The kept change is within a millionth of the wanted one, on zero's side of it. |
| Aggregate.EveryRowIsBounded | src/fund/core/aggregate.py:166-238 | What the planner may rely on of every row, and that a weight moves only when the cycle rebalances and a score of that sign asks for it. |
| Aggregate.ProposalIgnoresReportOrder | src/fund/core/aggregate.py:140-154 | The proposal is the same for any arrangement of the same reports. |
| Scores.EveryScoreIsTheCalls | src/fund/core/aggregate.py:140-183 | A row has a score if and only if a direction report calls its asset, and the score is the confidences of the buys less those of the sells, over the number of the calls, holds included, times one less the surest caution of a condition report. |
| Scores.OneRowEach | src/fund/core/aggregate.py:171-187 | One row for each asset that is held or called and for no other, by address, with its weight in the book. |
| Scores.RebalancesExactlyWhen | src/fund/core/aggregate.py:189-197 | The cycle rebalances if and only if enough seats reported, one of them called something, and the position limit is known. |
| Scores.EveryTargetIsTheScores | src/fund/core/aggregate.py:199-231 | Every target is the weight moved by what its score asks, within the limit or what is held, to the millionth toward no move, and to exactly zero when all of it is to go; without a rebalance the weight as it is. |
| Scores.WeightIsKept | src/fund/core/aggregate.py:233-236 | Cash and targets add up to what cash and weights did. |
| Scores.ResidualIsWhatIsLeft | src/fund/core/aggregate.py:223-231 | What the scores asked for is what moved and what rounding left. |
| Scores.SurerSellNeverRaises | src/fund/core/aggregate.py:140-231 | A surer sell call never raises its asset's target while the surest caution is at most certain; were it more, it would never lower it. |
| Sizing.BookAt | src/fund/core/plan.py:108-123 | The book's NAV is cash plus every marked position, each held as the ledger holds it; it is refused if and only if a held position has no mark or the book is worth nothing. |
| Sizing.Size | src/fund/core/plan.py:167-234 | The loops make the plan, or its first fault, of which Trades.PlanSellsExactly, Trades.PlanBuysExactly, Trades.FundedExactly and Trades.PlanRefusedExactly say every figure. |
| Sizing.UnitsFit | src/fund/core/cash.py:87-90 | The units bought for an amount are worth at most it, and one more would be worth more. |
| Sizing.SoldWithinCut | src/fund/core/plan.py:203-208 | What a row sells is at most what is held and worth at most what its cut takes the position down by. |
| Trades.PlanSellsExactly | src/fund/core/plan.py:199-215 | Over the orders of a plan: of an asset whose row falls it sells all that is held when the target is zero and otherwise the most units worth no more than the fall, unless that is worth less than the minimum order; in the fewest even parts, each at the mark. |
| Trades.PlanBuysExactly | src/fund/core/plan.py:218-232 | Over the orders of a plan: of an asset whose row rises it spends the funded share of the rise to the whole cent below, unless that is dust, in the fewest even parts, each in units of cash rounded down; nothing when nothing is funded. |
| Trades.NothingAgainstTheRow | src/fund/core/plan.py:199-232 | Nothing is sold of an asset whose row does not fall, and nothing bought of one whose row does not rise. |
| Trades.ProceedsAreTheSells | src/fund/core/plan.py:216-216 | The proceeds of a plan are what its sell orders are worth. |
| Trades.FundedExactly | src/fund/core/plan.py:218-221 | What is wanted is what the rises cost, and the share funded is all of it, none, or what cash and proceeds above the floor cover; no share while the floor is unknown. |
| Trades.PlanInOrder | src/fund/core/plan.py:200-233 | Sells come before buys, and each side goes by address. |
| Trades.PlanRefusedExactly | src/fund/core/plan.py:186-197 | A plan is made if and only if there is no rebalance, or cash has its mark, no row is in the way of the sells, and with a floor none in the way of the buys. |
| Trades.RefusalIsTheFirst | src/fund/core/plan.py:193-206 | The refusal is that of the first row by address that is in the way. |
| Intents.EvenPartsAreEven | src/fund/core/plan.py:161-164 | The parts add up to the total, differ by at most one, and the larger come first. |
| Intents.LargestPartFits | src/fund/core/plan.py:161-164 | The largest part is within a bound that all the parts together would reach. |
| PlanHolds.EachPositionStaysBetween | src/fund/core/plan.py:167-234 | After every order of a plan each position lies between its weight before and its target, and no more units are sold than are held. |
| PlanHolds.OtherPositionsStay | src/fund/core/plan.py:167-234 | A position no row speaks of is not traded. |
| PlanHolds.PlanKeepsFloor | src/fund/core/plan.py:216-232 | Cash after the whole plan is at least the lesser of the floor and cash with proceeds; with the floor unresolved nothing is bought. |
| PlanHolds.FloorDropsNothing | src/fund/core/gates.py:579-614 | When cash with proceeds reaches the floor, settling every order of the plan keeps them all and drops none. |
| PlanHolds.GatesSeeThePlan | src/fund/core/gates.py:533-546 | The gates' own figure for every position after the plan, recomputed from the marks, is the planner's. |
| PlanHolds.PlanPassesPositionWeight | src/fund/core/gates.py:440-451 | No order of a plan whose targets keep the position limit is refused by that limit. |
| PlanHolds.PlanFromReportsHolds | src/fund/core/plan.py:167-234 | All of it end to end: for any reports, the proposal they make of a book and the plan sized from it keep targets, holdings, position weights and the cash floor. |
| PlanHolds.KeptRowsStay | src/fund/core/aggregate.py:157-163 | A cycle without a rebalance orders nothing and its targets are the weights as they stand. |
| PlanHolds.SellPartsFit | src/fund/core/plan.py:207-213 | All parts of a sale are within the per-trade limit if and only if the sale, each part rounded up to the largest, is within that many limits. |
| PlanHolds.SellPartsAlmostFit | src/fund/core/plan.py:207-213 | No part of a sale is worth as much as the limit and one raw unit more. |
| PlanHolds.SellPartCanPassTheLimit | src/fund/core/gates.py:377-383 | Three one-dollar units under a limit of a dollar and a half: the split gives two parts, and the order-size gate refuses the first. |
| PlanHolds.BuyPartsFit | src/fund/core/plan.py:223-232 | Under a limit of whole cents every part of a buy is within it. |
| PlanHolds.BuyPartsFitExactly | src/fund/core/plan.py:223-232 | Under any limit all parts of a buy are within it if and only if the largest part, its cents rounded up to a whole number for each part, buys no more units of cash than the limit does. |
| PlanHolds.BuyPartCanPassTheLimit | src/fund/core/gates.py:377-383 | Three dollars and a cent under a limit of 1.505 dollars: the split gives two parts, and the order-size gate refuses the first. |
| PlanHolds.PlanBuysPassOrderSize | src/fund/core/gates.py:377-383 | Over the orders of a whole plan: under a limit of whole cents the order-size gate refuses no buy. |
| PlanHolds.PlanBuysPassExactly | src/fund/core/gates.py:377-383 | Over the orders of a whole plan, under any limit: the order-size gate passes every buy of a row if and only if the largest part of its funded raise buys no more units of cash than the limit does. |
| PlanHolds.PlanSellsPassExactly | src/fund/core/gates.py:377-383 | Over the orders of a whole plan: the order-size gate passes every sell of a row if and only if that row's sale, each part rounded up to the largest, is within as many limits as it has parts. |
| Judging.Evaluate | src/fund/core/gates.py:533-576 | Turnover over what every order is worth, and for each order the size gate on its worth and the position gate on the position after all orders, all recomputed from the marks. |
| Judging.Write | src/fund/core/plan.py:316-378 | Each order's part number, part count and the weights just before and after it. |
| Judging.ShownFiguresChain | src/fund/core/plan.py:334-361 | An asset's first order is part one and starts at the book's weight, each next starts where the last ended, and the last is part n of n and ends at the weight after the plan. |
| Settle.CashAfter | src/fund/core/cash.py:117-125 | Cash once the orders still to run have run; an order without a worth refuses. |
| Settle.SettleFloor | src/fund/core/gates.py:579-614 | Every sell and filled order is kept, with exactly the longest run of unfilled buys that meets the floor, or none; the dropped ones last first; and when it refuses. |
| Settle.SettlingTwiceChangesNothing | src/fund/core/gates.py:579-614 | Settling what was kept keeps it all, with the same verdict. |
| Settle.VetoedSellKeepsNoMore | src/fund/core/gates.py:579-614 | Taking away a sell never enlarges the buys that are kept. |
| Settle.TurnKeepsTheKept | src/fund/core/gates.py:586-596 | Once the sells are done, one buy's turn drops no other buy that was kept, and its fill leaves at least the floor. |
| Settle.AdmissionKeepsFloor | src/fund/core/gates.py:586-596 | Over any run of admitted and refused buys, booked cash never falls below the floor and no kept buy is dropped before its turn. |
| Booking.OneWorth | src/fund/core/cash.py:60-66 | An amount at a mark is worth to the ledger what its raw units are worth to the planner and the gates. |
| Booking.LedgerFollows | src/fund/core/ledger.py:470-477 | While fills give what their orders sell, the booked cash the floor is judged on is the ledger's own cash at its mark, turn after turn. |
| Booking.LedgerKeepsFloor | src/fund/core/gates.py:586-596 | After any run of admitted and refused buys that filled one, the ledger's own cash is at or above the floor, and no buy kept at first was dropped before its turn. |
| Replay.FieldsKeepBytes | src/fund/adapters/cache.py:98-110 | Bytes survive being kept as text or base64, so fields are equal only for equal bytes. |
| Replay.KeysTellRequestsApart | src/fund/adapters/cache.py:194-206 | Two requests share a queue exactly when they are the same request. |
| Replay.SplitUndoesJoin | src/fund/adapters/cache.py:127-132 | A URL made of an endpoint and a path splits back into them unless another endpoint's URL as long also starts it. |
| Replay.SplitTakesTheFirstLongest | src/fund/adapters/cache.py:127-132 | Whatever the URL, the endpoint named is the longest whose base starts it, the first listed of those as long; none when no base does. |
| Replay.OnlyCookiesAreDropped | src/fund/adapters/cache.py:168-169 | All headers are kept, in their order, but those that set a cookie, in any case of letters. |
| Replay.Recorder.Send | src/fund/adapters/cache.py:150-174 | One exchange is kept: what was asked, what came back and when, headers filtered, or that nothing did. |
| Replay.Recorder.Finish | src/fund/adapters/cache.py:150-174 | An exchange that ends after later ones began changes only its own record. |
| Replay.Replayer.constructor | src/fund/adapters/cache.py:194-201 | The queues hold each request's exchanges in the order they were recorded. |
| Replay.Replayer.Send | src/fund/adapters/cache.py:203-218 | The next recorded answer to this request, counted by how often it was asked; otherwise a miss that changes nothing. |
| Replay.Replayer.ReadClock | src/fund/adapters/cache.py:220-226 | The next reading of the tape, or a miss at its end. |
| Replay.Replayer.Unused | src/fund/adapters/cache.py:228-230 | The exchanges not asked for are those recorded less those served. |
| Replay.ReplayedViewIsLive | src/fund/adapters/cache.py:184-186 | The recorder times the call inside the client's own wait and in whole milliseconds: a replayed exchange is seen as the live one was if and only if the client did not give up on a call the recorder times at no more than the deadline. |
| Replay.LatenessCanGoUnseen | src/fund/adapters/http.py:114-135 | Two exchanges the live client gave up on and the replayed one sees end: an error 400 microseconds after the deadline, and one 100 microseconds before it that reached the client 100 microseconds after. |
| Replay.AnswersAreItsOwn | src/fund/adapters/cache.py:203-218 | Whatever else is asked in between, the asks of one request get that request's recorded answers in order, and then misses. |
| Replay.InterleavingDoesNotMatter | src/fund/adapters/cache.py:203-218 | Two interleavings that ask a request equally often get the same answers to it, ask by ask. |
| Replay.EveryInterleavingIsServed | src/fund/adapters/cache.py:203-218 | Any interleaving of the recorded requests is served to the end, each time with the next of that request's own answers. |
| Replay.UnrecordedIsAlwaysMissed | src/fund/adapters/cache.py:207-211 | A request the capture does not hold is a miss whatever was asked before, and an answer is always one recorded for that request. |
| Replay.ReplayIsTheLiveRun | src/fund/adapters/cache.py:141-230 | A deterministic client on the replayer ends where it ended live, having heard and asked the same, if and only if no exchange of the run came late unseen. |
| Replay.EveryStepIsTheLiveOne | src/fund/adapters/cache.py:141-230 | And it is where it was live after every number of steps under the same condition, and only then. |
| Replay.ReplayLeavesNothing | src/fund/adapters/cache.py:228-230 | The client hears live what it hears replayed if and only if no exchange came late unseen; then it stops, having asked for every exchange and read every clock reading. |
| JsonRoundTrip.ParsePrinted | src/fund/core/snapshot.py:194-208 | A parser by RFC 8259, sections 2 to 7, undoes the printer for every nested float-free document. |
| JsonRoundTrip.StringReadsBack | src/fund/core/snapshot.py:184-191 | A quoted string reads back whatever characters it holds, escapes and control characters included. |
| JsonRoundTrip.NumberReadsBack | src/fund/core/snapshot.py:184-191 | A printed integer reads back. |
| Json.EscapesAreShortest | src/fund/core/snapshot.py:184-191 | Escapes are the shortest JSON has, other control characters go as small hexadecimal, and everything else stands for itself. |
| Json.BlockGrows | src/fund/core/snapshot.py:196-207 | A block has a line for each text, one space further in than its brackets, and a comma at the end of all lines but the last. |
| Json.LineGrows | src/fund/core/snapshot.py:205-206 | A line has its texts between brackets with a comma and a space between each two. |
| Json.WhatIsOnALine | src/fund/core/snapshot.py:194-208 | An array stands on one line when nothing in it nests, and in a block when something does; an object stands in a block unless it is empty. |
| Canonical.EmitIsPrinted | src/fund/core/snapshot.py:194-208 | Sorting keys while printing is printing the document with its keys sorted. |
| Canonical.TextLeIs | src/fund/core/snapshot.py:202-202 | Keys go by the smaller character where they first differ, a text before those it begins. |
| Canonical.WritableExactly | src/fund/core/snapshot.py:184-191 | A document may be written if and only if it holds no float and no integer from 2**53 on, either way, however deep. |
| Canonical.CanonicalParsesBack | src/fund/core/snapshot.py:211-215 | The canonical bytes of every document that may be written parse back to it, keys in order. |
| Canonical.EqualBytesEqualDocuments | src/fund/core/snapshot.py:211-215 | Two documents have equal bytes if and only if they are the same document, whatever order their keys were put in. |
| Snapshot.PassesExactlyWhen | src/fund/core/snapshot.py:407-428 | A stock passes if and only if its mark and every round of its series were read at the pinned block, by chain, number, time and hash, and dated no later, the series is its own, and the newest round is the one its mark was read from, where both were read. |
| Snapshot.CheckStock | src/fund/core/snapshot.py:418-428 | A stock is refused for the first of these that fails. |
| Snapshot.NoHoldingIsDropped | src/fund/core/snapshot.py:535-579 | A stock or outside asset that is held, or whose balance could not be read, is listed, with the stock judged for it if there is one and as an outside asset otherwise, whatever the stocks were judged to be. |
| Snapshot.NothingElseIsListed | src/fund/core/snapshot.py:535-579 | Besides these only cash and gas are listed. |
| Snapshot.HoldingsInOrder | src/fund/core/snapshot.py:541-579 | Cash and gas are always listed, and the list goes by symbol, then by address. |
| Snapshot.ShowHoldings | src/fund/core/snapshot.py:535-579 | The holdings: cash and gas, then what is held or unread, as a judged stock where there is one, sorted by symbol and address. |
| Snapshot.Assemble | src/fund/core/snapshot.py:446-530 | A report is refused if and only if the block lacks its hash or time, a stock is read twice or fails its checks, or a mark of cash or gas or a balance is not pinned; the refusal says which. Otherwise it holds the stocks by symbol and identity, the holdings, a count for each status, the summary lines and the findings. |
| Snapshot.StockOrderDoesNotMatter | src/fund/core/snapshot.py:446-448 | The order stocks come in decides neither whether the report is refused nor one byte of its entries, holdings, counts, summary lines and findings. |
| Snapshot.CountsAreRight | src/fund/core/snapshot.py:487-489 | Every status is counted as often as it occurs. |
| Orders.Transition | src/fund/core/orders.py:63-75 | A move succeeds if and only if the table has it and the order it makes is consistent; id, key and mode stay. |
| Orders.TransitionExactly | src/fund/core/orders.py:43-75 | The whole table, state by state, with what each move needs: a reason for unknown, failed and refused, evidence for a confirmed live order and for no paper one; what the order then is, field by field. |
| Orders.HonestExactly | src/fund/treasurer/execute.py:319-325 | An outcome confirms with a fill, fails without one, or is unknown with neither fill nor fee. |
| Orders.AddExactly | src/fund/store/orders.py:47-64 | A stored order stands if and only if key and sale agree, and refuses otherwise; a new one is written last if and only if it is prepared and its key is unused. |
| Orders.SentAndSettled | src/fund/treasurer/execute.py:522-532 | A prepared order that is sent ends in its outcome's state, reason and evidence, with its fill and then its fee booked, and nothing else touched. |
| Orders.StepKeepsSound | src/fund/store/journal.py:30-42 | Every committed transaction keeps orders and journal in step. |
| Orders.EveryRunIsSound | src/fund/core/orders.py:45-60 | Over every run, crashes between transactions included: an order is confirmed if and only if the journal holds exactly one fill for it, none has two, and a refused one was never sent. |
| Orders.RunsContinue | src/fund/core/orders.py:63-75 | Ids, keys and modes never change, an order's state is one that moves lead to from any earlier one, the journal only grows, and what is final stays. |
| Orders.StepMovesOnce | src/fund/core/orders.py:63-75 | One transaction leaves an order as it is or makes one move of the table, to a consistent order. |
| Orders.ReachesExactly | src/fund/core/orders.py:43-50 | Where moves lead: from prepared anywhere, from submitted and unknown to each other, confirmed and failed, and from a final state nowhere else. |
| Store.Connection.Begin | src/fund/store/db.py:30-42 | A transaction is begun, or joined if one is open; what a crash leaves is unchanged. |
| Store.Connection.End | src/fund/store/db.py:30-42 | Its beginner commits or rolls it back; anyone who joined leaves that to them. |
| Store.Connection.AddOrder | src/fund/store/orders.py:47-64 | An order is written prepared; one stored already stands as it is; another order under the id or a used key refuses and changes nothing. |
| Store.Connection.MoveOrder | src/fund/store/orders.py:70-85 | The stored order becomes what the table of moves makes of it, or nothing changes. |
| Store.Connection.AppendEvent | src/fund/store/journal.py:30-42 | An event is kept after all others; a second fill for an order, or a kind the table does not list, refuses. |
| Store.Connection.SettleOrder | src/fund/treasurer/execute.py:527-532 | Fill, fee and state are one write: all of it, or nothing, whether a part is refused or the process dies before any of the writes or before the commit; a process that lives through them settles. |
| Store.Connection.RunOrder | src/fund/treasurer/execute.py:505-533 | Wherever the process dies, what is stored is what some of the order's own transactions, in their order, make of it; if it lives, all of them for a prepared order and none for any other. |
| Store.Connection.ResolveAll | src/fund/run/startup.py:97-133 | The loop is the recovery below, up to as many orders as the process lives for. |
| Store.ActsAreRuns | src/fund/store/db.py:30-42 | What the transactions of one act make of the tables is what a run with them at its end reaches. |
| Recovery.ResolvedMeansFinal | src/fund/run/startup.py:97-133 | A start that is not refused leaves every order final. |
| Recovery.InterruptedThenResumed | src/fund/run/startup.py:97-133 | Killed after settling any number of orders and started again, a start ends in the same store with the same verdict as one that was not. |
| Recovery.ResolveIsIdempotent | src/fund/run/startup.py:97-133 | A second start changes nothing and says the same, also after a refusal. |
| Recovery.StartRefusesExactlyWhen | src/fund/run/startup.py:97-133 | On every reachable store a start keeps orders and journal in step, and is refused if and only if some live order in flight is not settled by the chain. |
| Recovery.BookedInFlight | src/fund/run/startup.py:111-114 | The branch for an order in flight with a fill confirms it if and only if it is a paper order; for a live one it fails for want of evidence. |
| Recovery.NoneInFlightIsBooked | src/fund/run/startup.py:13-16 | No run leaves an order in flight with a fill, so that branch is never reached. |
| Lock.Table.Enter | src/fund/run/startup.py:79-89 | The row becomes mine if and only if it is free, mine, or held on my host by a process that died; otherwise it is left as it is. |
| Lock.Table.Leave | src/fund/run/startup.py:92-94 | The row is freed if it is still mine, and left otherwise. |
| Lock.OneOwner | src/fund/run/startup.py:74-94 | Over every interleaving of entering, leaving, starting and dying, at most one live process is inside. |
| Lock.RowChangesHands | src/fund/run/startup.py:74-94 | The row changes only by a claim's commit while nobody else is inside, or by its holder leaving. |
| Lock.NeverTakenFromElsewhere | src/fund/run/startup.py:8-11 | A lock held on one host is never taken over from another. |
| Lock.NextStartTakesOver | src/fund/run/startup.py:8-11 | After a holder of this host died, the next start gets in. |
| Lock.HandsOver | src/fund/run/startup.py:92-94 | Whoever leaves frees the row, and the next to start gets in. |
| Lock.OthersAreRefused | src/fund/run/startup.py:84-87 | A live holder, or one of another host, keeps others out. |
| FanOut.RunCycle | src/fund/agents/runner.py:219-286 | The cycle is what so many turns of the loop make of the seats in the given world: it stops at the first turn that leaves nobody queued or running, no turn but the last opens after the cycle's deadline, and their number is bounded by it. Whom a turn starts is Starting.FirstTurnStarts and Starting.QueuedBehindFullWidth. Every slot is filled as its seat's finish says; every finish has the cause it shows at the very look that decided it; a seat is noted as never started if and only if it was not; every seat finishes once and starts at most once, in turn; at most width run; the failed seats are listed in their order, and the cycle is partial if and only if there is one. |
| FanOut.EveryTurnKeeps | src/fund/agents/runner.py:219-284 | After any number of turns: each seat is queued, running or finished, and only one of these; at most width run; starts are in turn; and every finish so far has its cause. |
| FanOut.LateTurnIsLast | src/fund/agents/runner.py:250-284 | A turn that opens after the cycle's deadline leaves nobody queued or running. |
| FanOut.StillWithinItsTime | src/fund/agents/runner.py:275-284 | Whoever is left running after a turn was looked at in that turn, had not ended then, and was within its own time; and the turn did not open after the cycle's deadline. |
| Starting.FirstTurnStarts | src/fund/agents/runner.py:250-268 | A first turn in time starts the first seats of the list, as many as there is room for. |
| Starting.QueuedBehindFullWidth | src/fund/agents/runner.py:251-268 | While someone stays queued after a turn in time, as many processes as may were running at some moment of that turn. |
| Starting.NeverStartedOnlyWhen | src/fund/agents/runner.py:269-274 | A seat is given up unstarted only in a turn after the deadline in which it was still queued, and in every turn before that all places were taken. |
| Starting.StartsAreTheQueue | src/fund/agents/runner.py:251-268 | In a turn in time the seats started are the front of the queue, in its order, and nobody else leaves it. |
| Starting.LateExactly | src/fund/agents/runner.py:250-250 | A turn opens late if and only if more than the cycle's limit has passed on the clock since the first reading, the pauses of the turns before included. |
| Starting.WithinExactly | src/fund/agents/runner.py:275-284 | Whoever still runs after a turn was found alive, within its own limit on that clock, at a reading of that turn. |
| FanOut.PollAll | src/fund/agents/runner.py:275-284 | Each running process is looked at once, one after another, as the next row decides. |
| FanOut.PollDecides | src/fund/agents/runner.py:275-284 | A process stays running if and only if at its own look it has not ended, the cycle is not over and its time is not up; otherwise it is finished for just that cause, in that order of precedence. |
| FanOut.Collect | src/fund/agents/runner.py:231-247 | A running seat leaves its place, and its slot gets its result, a crash when there is none, or why it was killed whatever it had written. |
| FanOut.FinishKeepsSound | src/fund/agents/runner.py:223-247 | Finishing a running seat keeps queue, running and finished a partition of the seats. |
| Votes.Parse | src/fund/agents/risk.py:158-227 | The clear votes and the overall vote of the whole reply; unreadable if and only if its first RISK line names another plan, or no order of a plan that has some is voted on. |
| Votes.VotesAreTheClearOnes | src/fund/agents/risk.py:186-227 | An order gets a vote if and only if some line counts for it, all that do say so, and none names it under another symbol. |
| Votes.LineOrderDoesNotMatter | src/fund/agents/risk.py:186-227 | Rearranging the lines of a reply changes the clear vote read for no order, nor whether any vote was read. |
| Votes.OverallIsTheFirst | src/fund/agents/risk.py:213-216 | The overall vote is that of the first OVERALL line, whatever later ones say. |
| Replies.HeadIsTheFirst | src/fund/agents/risk.py:182-186 | The reply names the plan of its first RISK line, and none if it has no such line. |
| Replies.VoteIsTheFirstLine | src/fund/agents/risk.py:192-217 | An order's vote is that of the first line that counts for it; its reason is the rest of that line and the text that follows, up to the next vote or the first OVERALL line. |
| Replies.OverallIsTheFirstLine | src/fund/agents/risk.py:213-217 | There is an overall vote if and only if a line gives one; it is the first one's, with the text that follows. |
| Votes.Decide | src/fund/agents/risk.py:230-282 | A decision is made if and only if every order that passes the override rule has a worth. Then an order is approved if and only if it passes that rule and the floor does not drop it, with every rule against it listed, and the floor's outcome is that of the orders so passed; otherwise an order without a worth is named. |
| Votes.PassingTakes | src/fund/agents/risk.py:241-259 | Passing takes every gate, a clear approval of this order, and no overall veto. |
| Replies.HeldAgainst | src/fund/agents/risk.py:243-257 | Which rules are held against an order besides its gates: that there was no reply, no clear vote, a vote to veto, an overall veto; each if and only if it is so, once, in that order. |
| Votes.ApprovedSurvives | src/fund/agents/risk.py:264-271 | An approved order of the plan is among those the floor kept. |

## Left out

- Network, subprocess, SQLite and file input and output, and the command-line entry points.
- Decimal contexts: the 28-digit default, the 100-digit context that raises when inexact, and the pre-division of a disposal's share to 100 digits are exact arithmetic here.
- The per-trade limit is taken to be positive, as an amount; the program would divide by zero, or count backwards, on others.
- Hex text in the codec: bytes stand for pairs of hex digits, and byte strings are shorter than 2**256.
- UTF-8 and base64 in the recorder are any two codecs that undo themselves; the canonical text is characters, and UTF-8 is taken to be injective on them.
- A parser for fractions and exponents: no document prints one.
- Hashes, signatures, UUIDs and idempotency keys as text: order ids and keys are numbers, distinct for distinct orders.
- Reason strings, notes, symbols' letter case, and the `as_dict` renderings.
- The gates that are not about money: tradeable, mandate, quote, quorum, snapshot age, context budget. They are single comparisons; `Votes` takes their verdict as given.
- The regular expressions that classify reply lines: `Votes` starts from classified lines.
- How the snapshot judges a stock and renders a record: each stock comes with its entry, status, rule and findings, each holding with its entry and summary line. The parts of the document that do not come from stocks and wallet, such as its rules and the pinned inputs, are left out.
- The rest of the evidence a proposed closure carries: labels, which feed a round came from, and the largest gaps the span does not explain. None of it decides anything.
- `daily_closes`, decimals, balances, beacons and the pause reads of the chain reader.
- The revision column of the order table: a move reads and writes its row in one write transaction, so no other writer can come between.
- What a live order's evidence holds: an order carries evidence or it does not.
- `Store.Connection.ResolveAll`: the process may die between orders; that dying inside one order's settlement leaves the store as before it is `Store.Connection.SettleOrder`.
- The same seat named twice in one cycle: seats are distinct. The program would overwrite the first process's place.
- `FanOut.RunCycle`: a clock reading and a poll are values at their own moment; how long a start, a kill or a file read takes is part of the drift between readings.
- `Lock.OneOwner`: a process id is taken to name one live process of its host at a time, and a process not to enter while it is inside.
- Confidence weights are any numbers: the bound on a target is stated in terms of its score.

/** The walk back over a Chainlink feed's rounds. */
module RoundWalk {
  // Newest first, in chunks, until the window start is reached or one of six early stops says why
  // not. The chain is any function from the rounds asked for to what came back, so every claim here
  // holds whatever an endpoint answers.

  import opened Basics
  import opened Wrappers

  const PHASE: int := 0x1_0000_0000_0000_0000

  /** One round. The phase is the high part of its id, the aggregator's round the low 64 bits. */
  datatype Round = Round(roundId: int, answer: int, updatedAt: int, answeredInRound: int) {
    function Number(): int { roundId % PHASE }
  }

  /** One call's result: None is a revert, or fewer than the five words of a round. */
  type Answer = Option<Round>

  /** What a batch of calls came back as: None is a failed read. */
  type Read = seq<int> -> Option<seq<Answer>>

  /** A batch is answered in full or it has failed: the reader counts the results. */
  ghost predicate Counts(read: Read) {
    forall batch :: read(batch).Some? ==> |read(batch).value| == |batch|
  }

  datatype Reason = ReachesWindow | PhaseStart | RoundCap | ScaleBreak | ReadFailed | BadRound
    | DatedAfter

  /** Why the walk stopped, and whether the points reach the window start. */
  datatype Coverage = Coverage(value: Option<bool>, reason: Reason)

  datatype Series = Series(points: seq<Round>, coverage: Coverage)

  /** Chainlink's own sanity rules: no round that fails one is a price. */
  predicate Sane(r: Round) {
    r.answer > 0 && r.updatedAt != 0 && r.answeredInRound >= r.roundId
  }

  /** The larger answer is at least `ratio` times the smaller: the feed changed its units. */
  predicate BreaksScale(a: Round, b: Round, ratio: int) {
    Max(a.answer, b.answer) >= ratio * Min(a.answer, b.answer)
  }

  /** Round numbers from `number` down, `count` of them or as many as there are. */
  function Batch(number: int, count: int): (b: seq<int>)
    requires number >= 0 && count >= 0
    ensures |b| == Min(number, count)
    ensures forall i :: 0 <= i < |b| ==> b[i] == number - i
    decreases count
  {
    if number == 0 || count == 0 then [] else [number] + Batch(number - 1, count - 1)
  }

  /** A verdict given while reading a batch: only a scale break is a definite one. */
  predicate Midway(c: Coverage) {
    (c.reason == ScaleBreak && c.value == Some(false))
    || (c.reason in {ReadFailed, BadRound, DatedAfter} && c.value == None)
  }

  /** What the walk does with the answer for `wanted`, given the round that follows it. */
  function Judge(newer: Round, wanted: int, answer: Answer, ratio: int): (stop: Option<Coverage>)
    ensures stop.Some? ==> Midway(stop.value)
    ensures stop.None? && wanted == newer.roundId - 1 ==>
              answer.Some? && Follows(newer, answer.value, ratio)
  {
    if answer.None? || answer.value.roundId != wanted || !Sane(answer.value) then
      Some(Coverage(None, BadRound))
    else if answer.value.updatedAt > newer.updatedAt then Some(Coverage(None, DatedAfter))
    else if BreaksScale(answer.value, newer, ratio) then Some(Coverage(Some(false), ScaleBreak))
    else None
  }

  // ----- what the points always are ------------------------------------------------------------

  /** `older` may stand just behind `newer`: the next id down, no later, on the same scale. */
  ghost predicate Follows(newer: Round, older: Round, ratio: int) {
    && older.roundId == newer.roundId - 1
    && older.updatedAt <= newer.updatedAt
    && !BreaksScale(older, newer, ratio)
    && Sane(older)
  }

  /** Newest first: consecutive rounds of one phase down from the head. */
  ghost predicate Chain(walked: seq<Round>, head: Round, ratio: int) {
    && walked != [] && walked[0] == head
    && (forall i :: 0 < i < |walked| ==> Follows(walked[i - 1], walked[i], ratio))
    && |walked| <= Max(1, head.Number())
  }

  predicate Reaches(r: Round, windowStartMs: int) {
    r.updatedAt * 1000 <= windowStartMs
  }

  /** Every point but the oldest is dated after the window start. */
  ghost predicate OnlyOldestMayReach(walked: seq<Round>, windowStartMs: int) {
    forall i :: 0 <= i < |walked| - 1 ==> !Reaches(walked[i], windowStartMs)
  }

  lemma {:induction false} ChainIds(walked: seq<Round>, head: Round, ratio: int, i: nat)
    requires Chain(walked, head, ratio) && i < |walked|
    ensures walked[i].roundId == head.roundId - i
  {
    if i > 0 {
      ChainIds(walked, head, ratio, i - 1);
      assert Follows(walked[i - 1], walked[i], ratio);
    }
  }

  /** Down to the phase's round 1, a round's place below the head is its number. */
  lemma ChainNumbers(walked: seq<Round>, head: Round, ratio: int)
    requires Chain(walked, head, ratio) && |walked| <= Max(1, head.Number())
    ensures var oldest := walked[|walked| - 1];
            oldest.Number() == head.Number() - (|walked| - 1)
            && oldest.roundId == head.roundId / PHASE * PHASE + oldest.Number()
            && (oldest.Number() >= 1 ==> (oldest.roundId - 1) % PHASE == oldest.Number() - 1)
  {
    ChainIds(walked, head, ratio, |walked| - 1);
    var k := |walked| - 1;
    assert head.roundId - k == head.roundId / PHASE * PHASE + (head.Number() - k);
  }

  // ----- the reference: one round at a time ----------------------------------------------------

  /** One answer per round, however the rounds are grouped into batches. */
  ghost predicate PerRound(read: Read, round: int -> Answer) {
    forall batch :: read(batch) == Some(seq(|batch|, i requires 0 <= i < |batch| => round(batch[i])))
  }

  /** The stops that need no read: the window reached, the phase's start, the cap on rounds. */
  function Enough(walked: seq<Round>, windowStartMs: int, maxRounds: int): Option<Coverage>
    requires walked != []
  {
    var oldest := walked[|walked| - 1];
    if Reaches(oldest, windowStartMs) then Some(Coverage(Some(true), ReachesWindow))
    else if oldest.Number() - 1 < 1 then Some(Coverage(Some(false), PhaseStart))
    else if |walked| >= maxRounds then Some(Coverage(Some(false), RoundCap))
    else None
  }

  /** The walk with no chunks and no failed reads: each round is asked for on its own. */
  ghost function OneByOne(walked: seq<Round>, round: int -> Answer, windowStartMs: int,
                          maxRounds: int, ratio: int): Series
    requires walked != []
    decreases Max(0, maxRounds - |walked|)
  {
    var enough := Enough(walked, windowStartMs, maxRounds);
    if enough.Some? then Series(walked, enough.value)
    else
      var oldest := walked[|walked| - 1];
      var answer := round((oldest.roundId - 1) % PHASE);
      var stop := Judge(oldest, oldest.roundId - 1, answer, ratio);
      if stop.Some? then Series(walked, stop.value)
      else OneByOne(walked + [answer.value], round, windowStartMs, maxRounds, ratio)
  }

  /** Keeping one more good round keeps the chain, and the reference would have kept it too. */
  lemma KeepOne(walked: seq<Round>, head: Round, answer: Answer, windowStartMs: int, ratio: int)
    requires Chain(walked, head, ratio) && OnlyOldestMayReach(walked, windowStartMs)
    requires walked[|walked| - 1].Number() >= 2 && !Reaches(walked[|walked| - 1], windowStartMs)
    requires Judge(walked[|walked| - 1], walked[|walked| - 1].roundId - 1, answer, ratio).None?
    ensures answer.Some?
    ensures var longer := walked + [answer.value];
            Chain(longer, head, ratio) && OnlyOldestMayReach(longer, windowStartMs)
            && longer[|walked|].Number() == walked[|walked| - 1].Number() - 1
  {
    ChainNumbers(walked, head, ratio);
    var longer := walked + [answer.value];
    assert Follows(longer[|walked| - 1], longer[|walked|], ratio);
    forall i | 0 < i < |longer| ensures Follows(longer[i - 1], longer[i], ratio) {
      assert i < |walked| ==> Follows(walked[i - 1], walked[i], ratio);
    }
  }

  /** A batch's answers taken in order: the points kept, and the verdict if one stops the walk. */
  function Take(walked: seq<Round>, answers: seq<Answer>, windowStartMs: int, ratio: int):
      (r: (seq<Round>, Option<Coverage>))
    requires walked != []
    ensures walked <= r.0 && |r.0| <= |walked| + |answers|
    ensures r.1.Some? ==> Midway(r.1.value)
    decreases |answers|
  {
    if answers == [] then (walked, None)
    else
      var newer := walked[|walked| - 1];
      var stop := Judge(newer, newer.roundId - 1, answers[0], ratio);
      if stop.Some? then (walked, stop)
      else
        var longer := walked + [answers[0].value];
        if Reaches(answers[0].value, windowStartMs) then (longer, None)
        else Take(longer, answers[1..], windowStartMs, ratio)
  }

  /** A batch that reads at least one round and gives no verdict has kept at least one. */
  lemma {:induction false} TakeKeepsTheChain(walked: seq<Round>, head: Round, answers: seq<Answer>,
                                             windowStartMs: int, ratio: int)
    requires Chain(walked, head, ratio) && OnlyOldestMayReach(walked, windowStartMs)
    requires walked[|walked| - 1].Number() > |answers| && !Reaches(walked[|walked| - 1], windowStartMs)
    ensures var (longer, stop) := Take(walked, answers, windowStartMs, ratio);
            && Chain(longer, head, ratio) && OnlyOldestMayReach(longer, windowStartMs)
            && (stop.Some? ==> !Reaches(longer[|longer| - 1], windowStartMs))
            && (stop.None? && answers != [] ==> |longer| > |walked|)
    decreases |answers|
  {
    if answers != [] && Judge(walked[|walked| - 1], walked[|walked| - 1].roundId - 1, answers[0], ratio).None? {
      KeepOne(walked, head, answers[0], windowStartMs, ratio);
      var longer := walked + [answers[0].value];
      if !Reaches(answers[0].value, windowStartMs) {
        TakeKeepsTheChain(longer, head, answers[1..], windowStartMs, ratio);
      }
    }
  }

  /** Taking a batch is taking its rounds one by one. */
  lemma {:induction false} TakeIsOneByOne(walked: seq<Round>, head: Round, answers: seq<Answer>,
                                          round: int -> Answer, windowStartMs: int, maxRounds: int,
                                          ratio: int)
    requires Chain(walked, head, ratio) && OnlyOldestMayReach(walked, windowStartMs)
    requires walked[|walked| - 1].Number() > |answers| && !Reaches(walked[|walked| - 1], windowStartMs)
    requires forall i :: 0 <= i < |answers| ==> answers[i] == round(walked[|walked| - 1].Number() - 1 - i)
    requires |walked| + |answers| <= maxRounds
    ensures var (longer, stop) := Take(walked, answers, windowStartMs, ratio);
            OneByOne(walked, round, windowStartMs, maxRounds, ratio)
            == if stop.Some? then Series(longer, stop.value)
               else OneByOne(longer, round, windowStartMs, maxRounds, ratio)
    decreases |answers|
  {
    ChainNumbers(walked, head, ratio);
    if answers != [] && Judge(walked[|walked| - 1], walked[|walked| - 1].roundId - 1, answers[0], ratio).None? {
      KeepOne(walked, head, answers[0], windowStartMs, ratio);
      var longer := walked + [answers[0].value];
      if !Reaches(answers[0].value, windowStartMs) {
        TakeIsOneByOne(longer, head, answers[1..], round, windowStartMs, maxRounds, ratio);
      }
    }
  }

  // ----- the walk ------------------------------------------------------------------------------

  /** One batch, taken as far as its rounds hold up; `stop` says why the walk is over, if this ended it. */
  method WalkBack(walked: seq<Round>, number: int, count: int, windowStartMs: int, ratio: int,
                  read: Read)
    returns (longer: seq<Round>, stop: Option<Coverage>)
    requires Counts(read) && walked != [] && !Reaches(walked[|walked| - 1], windowStartMs)
    requires number == walked[|walked| - 1].Number() - 1 >= 1 && count >= 1
    ensures (longer, stop) == AfterBatch(walked, read(Batch(number, count)), windowStartMs, ratio)
  {
    longer, stop := walked, None;
    var batch := Batch(number, count);
    var results := read(batch);
    if results.None? {
      return walked, Some(Coverage(None, ReadFailed));
    }
    var phase := walked[|walked| - 1].roundId / PHASE;
    for i := 0 to |batch|
      invariant longer != [] && longer[|longer| - 1].roundId == phase * PHASE + number + 1 - i
      invariant Take(walked, results.value, windowStartMs, ratio)
                == Take(longer, results.value[i..], windowStartMs, ratio)
    {
      var wanted := phase * PHASE + batch[i];
      var newer := longer[|longer| - 1];
      var verdict := Judge(newer, wanted, results.value[i], ratio);
      if verdict.Some? {
        return longer, verdict;
      }
      longer := longer + [results.value[i].value];
      if Reaches(results.value[i].value, windowStartMs) {
        return longer, None;
      }
      assert results.value[i..][1..] == results.value[i + 1..];
    }
  }

  /** What a walk step does with the batch it asks for. */
  function AfterBatch(walked: seq<Round>, answers: Option<seq<Answer>>, windowStartMs: int,
                      ratio: int): (seq<Round>, Option<Coverage>)
    requires walked != []
  {
    if answers.None? then (walked, Some(Coverage(None, ReadFailed)))
    else Take(walked, answers.value, windowStartMs, ratio)
  }

  /** The walk in chunks, on whatever the chain answers. It ends, because a step reads a round. */
  ghost function InChunks(walked: seq<Round>, head: Round, read: Read, chunk: int,
                          windowStartMs: int, maxRounds: int, ratio: int): (s: Series)
    requires Counts(read) && chunk >= 1 && |walked| <= Max(1, maxRounds)
    requires Chain(walked, head, ratio) && OnlyOldestMayReach(walked, windowStartMs)
    ensures WellWalked(s, head, windowStartMs, maxRounds, ratio)
    decreases Max(1, maxRounds) - |walked|
  {
    var enough := Enough(walked, windowStartMs, maxRounds);
    if enough.Some? then Series(walked, enough.value)
    else
      var answers := read(NextBatch(walked, maxRounds, chunk));
      assert answers.Some? ==> |answers.value| == |NextBatch(walked, maxRounds, chunk)|;
      var (longer, stop) := AfterBatch(walked, answers, windowStartMs, ratio);
      if answers.None? then Series(longer, stop.value)
      else
        TakeKeepsTheChain(walked, head, answers.value, windowStartMs, ratio);
        if stop.Some? then Series(longer, stop.value)
        else InChunks(longer, head, read, chunk, windowStartMs, maxRounds, ratio)
  }

  /** The rounds the next step asks for. */
  function NextBatch(walked: seq<Round>, maxRounds: int, chunk: int): (b: seq<int>)
    requires walked != [] && walked[|walked| - 1].Number() >= 2 && |walked| < maxRounds && chunk >= 1
    ensures 1 <= |b| <= walked[|walked| - 1].Number() - 1 && |walked| + |b| <= maxRounds
  {
    Batch(walked[|walked| - 1].Number() - 1, Min(chunk, maxRounds - |walked|))
  }

  /** What every series is, whatever the chain answered. */
  ghost predicate WellWalked(s: Series, head: Round, windowStartMs: int, maxRounds: int, ratio: int) {
    && Chain(s.points, head, ratio)
    && |s.points| <= Max(1, maxRounds)
    && OnlyOldestMayReach(s.points, windowStartMs)
    && (s.coverage.value == Some(true) <==> Reaches(s.points[|s.points| - 1], windowStartMs))
    && (s.coverage.reason == PhaseStart ==> s.points[|s.points| - 1].Number() <= 1)
    && (s.coverage.reason == RoundCap ==> |s.points| == Max(1, maxRounds))
    && (s.coverage.value == Some(false) <==> s.coverage.reason in {PhaseStart, RoundCap, ScaleBreak})
    && (s.coverage.value == None <==> s.coverage.reason in {ReadFailed, BadRound, DatedAfter})
  }

  /** The next batch's answers, when rounds are answered on their own. */
  lemma NextAnswers(walked: seq<Round>, read: Read, round: int -> Answer, maxRounds: int, chunk: int)
    requires walked != [] && walked[|walked| - 1].Number() >= 2 && |walked| < maxRounds && chunk >= 1
    requires PerRound(read, round)
    ensures var answers := read(NextBatch(walked, maxRounds, chunk));
            answers.Some? && |answers.value| == |NextBatch(walked, maxRounds, chunk)|
            && forall i :: 0 <= i < |answers.value| ==>
                 answers.value[i] == round(walked[|walked| - 1].Number() - 1 - i)
  {
  }

  /** When batches are answered round by round, the chunk makes no difference. */
  lemma {:induction false} ChunksDoNotMatter(walked: seq<Round>, head: Round, read: Read, chunk: int,
                                             round: int -> Answer, windowStartMs: int, maxRounds: int,
                                             ratio: int)
    requires Counts(read) && chunk >= 1 && |walked| <= Max(1, maxRounds) && PerRound(read, round)
    requires Chain(walked, head, ratio) && OnlyOldestMayReach(walked, windowStartMs)
    ensures InChunks(walked, head, read, chunk, windowStartMs, maxRounds, ratio)
            == OneByOne(walked, round, windowStartMs, maxRounds, ratio)
    decreases Max(1, maxRounds) - |walked|
  {
    if Enough(walked, windowStartMs, maxRounds).None? {
      NextAnswers(walked, read, round, maxRounds, chunk);
      var answers := read(NextBatch(walked, maxRounds, chunk)).value;
      TakeKeepsTheChain(walked, head, answers, windowStartMs, ratio);
      TakeIsOneByOne(walked, head, answers, round, windowStartMs, maxRounds, ratio);
      var (longer, stop) := Take(walked, answers, windowStartMs, ratio);
      if stop.None? {
        ChunksDoNotMatter(longer, head, read, chunk, round, windowStartMs, maxRounds, ratio);
      }
    }
  }

  /** `windowS` seconds before the block, but not before time zero. */
  function WindowStart(blockMs: int, windowS: int): int { Max(0, blockMs - windowS * 1000) }

  /** What one more chunk adds keeps the walk going to the same end. */
  lemma OneChunkOn(walked: seq<Round>, head: Round, read: Read, chunk: int, windowStartMs: int, maxRounds: int,
                   ratio: int, longer: seq<Round>, stop: Option<Coverage>)
    requires Counts(read) && chunk >= 1 && |walked| <= Max(1, maxRounds)
    requires Chain(walked, head, ratio) && OnlyOldestMayReach(walked, windowStartMs)
    requires Enough(walked, windowStartMs, maxRounds).None?
    requires (longer, stop) == AfterBatch(walked, read(NextBatch(walked, maxRounds, chunk)), windowStartMs, ratio)
    ensures Chain(longer, head, ratio) && OnlyOldestMayReach(longer, windowStartMs)
    ensures |longer| <= Max(1, maxRounds) && (stop.None? ==> |longer| > |walked|)
    ensures InChunks(walked, head, read, chunk, windowStartMs, maxRounds, ratio)
            == if stop.Some? then Series(longer, stop.value)
               else InChunks(longer, head, read, chunk, windowStartMs, maxRounds, ratio)
  {
    var answers := read(NextBatch(walked, maxRounds, chunk));
    if answers.Some? {
      TakeKeepsTheChain(walked, head, answers.value, windowStartMs, ratio);
    }
  }

  /** The whole walk, batch after batch; without a head to start from there is no series. */
  method PriceSeries(latest: Option<Round>, blockMs: int, windowS: int, maxRounds: int, chunk: int,
                     ratio: int, read: Read) returns (series: Option<Series>)
    requires Counts(read) && chunk >= 1
    ensures series == if latest.None? then None
                      else Some(InChunks([latest.value], latest.value, read, chunk,
                                         WindowStart(blockMs, windowS), maxRounds, ratio))
  {
    if latest.None? {
      return None;
    }
    var head := latest.value;
    var windowStartMs := WindowStart(blockMs, windowS);
    var walked := [head];
    var coverage: Option<Coverage> := None;
    ghost var result := InChunks(walked, head, read, chunk, windowStartMs, maxRounds, ratio);
    while coverage.None?
      invariant Chain(walked, head, ratio) && |walked| <= Max(1, maxRounds)
      invariant OnlyOldestMayReach(walked, windowStartMs)
      invariant result == if coverage.Some? then Series(walked, coverage.value)
                          else InChunks(walked, head, read, chunk, windowStartMs, maxRounds, ratio)
      decreases coverage.None?, Max(1, maxRounds) - |walked|
    {
      coverage := Enough(walked, windowStartMs, maxRounds);
      if coverage.None? {
        var number := walked[|walked| - 1].Number() - 1;
        ghost var before := walked;
        walked, coverage := WalkBack(walked, number, Min(chunk, maxRounds - |walked|),
                                     windowStartMs, ratio, read);
        OneChunkOn(before, head, read, chunk, windowStartMs, maxRounds, ratio, walked, coverage);
      }
    }
    return Some(Series(walked, coverage.value));
  }

  /** The same points as the series is handed on: oldest first. */
  function OldestFirst(points: seq<Round>): seq<Round> {
    seq(|points|, i requires 0 <= i < |points| => points[|points| - 1 - i])
  }

  /** Oldest first, a walked series is consecutive ids with times that never fall. */
  lemma {:induction false} PointsAreInOrder(points: seq<Round>, head: Round, ratio: int, i: nat, j: nat)
    requires Chain(points, head, ratio) && i <= j < |points|
    ensures OldestFirst(points)[j].roundId == OldestFirst(points)[i].roundId + (j - i)
    ensures OldestFirst(points)[i].updatedAt <= OldestFirst(points)[j].updatedAt
    ensures OldestFirst(points)[i].roundId / PHASE == head.roundId / PHASE
    decreases j - i
  {
    ChainIds(points, head, ratio, |points| - 1 - i);
    ChainIds(points, head, ratio, |points| - 1 - j);
    var k := |points| - 1 - i;
    assert head.roundId - k == head.roundId / PHASE * PHASE + (head.Number() - k);
    if i < j {
      PointsAreInOrder(points, head, ratio, i + 1, j);
      assert Follows(points[k - 1], points[k], ratio);
    }
  }
}

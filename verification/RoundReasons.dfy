/** What a walked series says of the answers it was given. */
module RoundReasons {
  // Each point is the answer the chain gave for it, and each stop has its reason in the answer, or the failed
  // read, below the oldest point. Both are said of the rounds' own fields.

  import opened Basics
  import opened Wrappers
  import opened RoundWalk

  // ----- what was asked ------------------------------------------------------------------------

  /** How many rounds had been kept when the batch that holds round `i` was asked for. */
  function Kept(i: nat, chunk: int): int
    requires chunk >= 1
  {
    if i == 0 then 0 else (i - 1) / chunk * chunk + 1
  }

  lemma KeptIs(i: nat, j: nat, chunk: int)
    requires chunk >= 1 && i >= 1 && (i - 1) % chunk == 0 && i <= j < i + chunk
    ensures Kept(j, chunk) == i
  {
    var q := (i - 1) / chunk;
    assert i - 1 == chunk * q;
    Quotient(j - 1, chunk, q, j - i);
  }

  lemma Quotient(a: int, d: int, q: int, r: int)
    requires d >= 1 && a == d * q + r && 0 <= r < d
    ensures a / d == q && a % d == r
  {
    var e := a / d - q;
    assert d * (a / d) == d * q + d * e;
    assert -d < d * e < d;
    assert e >= 1 ==> d * e >= d;
    assert e <= -1 ==> d * e <= -d;
  }

  /** The batch that was asked for with `points[..kept]` at hand. */
  function Asked(points: seq<Round>, kept: int, chunk: int, maxRounds: int): seq<int>
    requires 1 <= kept <= |points| && chunk >= 1
  {
    var number := points[kept - 1].Number() - 1;
    if number < 0 || maxRounds < kept then [] else Batch(number, Min(chunk, maxRounds - kept))
  }

  /** Round `i` of a series was asked for: its batch failed, or holds an answer for it. */
  ghost predicate Heard(points: seq<Round>, i: nat, read: Read, chunk: int, maxRounds: int,
                        answers: Option<seq<Answer>>)
    requires 1 <= i <= |points| && chunk >= 1
  {
    var kept := Kept(i, chunk);
    && 1 <= kept <= i
    && answers == read(Asked(points, kept, chunk, maxRounds))
    && (answers.Some? ==> i - kept < |answers.value|)
  }

  /** Every point but the head is what the chain answered for it. */
  ghost predicate AllAnswered(points: seq<Round>, read: Read, chunk: int, maxRounds: int)
    requires chunk >= 1
  {
    forall i :: 1 <= i < |points| ==> PointAnswered(points, i, read, chunk, maxRounds)
  }

  ghost predicate PointAnswered(points: seq<Round>, i: nat, read: Read, chunk: int, maxRounds: int)
    requires 1 <= i < |points| && chunk >= 1
  {
    exists answers :: Heard(points, i, read, chunk, maxRounds, Some(answers))
                      && answers[i - Kept(i, chunk)] == Some(points[i])
  }

  // ----- what an answer does -------------------------------------------------------------------

  /** The round that was asked for, and one Chainlink's rules let through. */
  predicate Good(oldest: Round, answer: Answer) {
    && answer.Some? && answer.value.roundId == oldest.roundId - 1
    && answer.value.answer > 0 && answer.value.updatedAt != 0 && answer.value.answeredInRound >= answer.value.roundId
  }

  predicate Later(oldest: Round, answer: Answer) { answer.Some? && answer.value.updatedAt > oldest.updatedAt }

  predicate OffScale(oldest: Round, answer: Answer, ratio: int) {
    answer.Some? &&
    if answer.value.answer >= oldest.answer then answer.value.answer >= ratio * oldest.answer
    else oldest.answer >= ratio * answer.value.answer
  }

  /** The reason an answer below the oldest point ends the walk for; none when it is kept. */
  ghost predicate EndsFor(oldest: Round, answer: Answer, ratio: int, reason: Option<Reason>) {
    && (reason == Some(BadRound) <==> !Good(oldest, answer))
    && (reason == Some(DatedAfter) <==> Good(oldest, answer) && Later(oldest, answer))
    && (reason == Some(ScaleBreak) <==>
          Good(oldest, answer) && !Later(oldest, answer) && OffScale(oldest, answer, ratio))
    && (reason == None <==> Good(oldest, answer) && !Later(oldest, answer) && !OffScale(oldest, answer, ratio))
  }

  lemma JudgeEndsFor(oldest: Round, answer: Answer, ratio: int)
    ensures var stop := Judge(oldest, oldest.roundId - 1, answer, ratio);
            EndsFor(oldest, answer, ratio, if stop.None? then None else Some(stop.value.reason))
  {
  }

  // ----- one batch -----------------------------------------------------------------------------

  /** What has been kept of a batch, and why it stopped. */
  ghost predicate TakenFrom(kept: int, answers: seq<Answer>, r: (seq<Round>, Option<Coverage>), windowStartMs: int,
                            ratio: int)
  {
    var points := r.0;
    && 1 <= kept <= |points| <= kept + |answers|
    && (forall i :: kept <= i < |points| ==> answers[i - kept] == Some(points[i]))
    && (r.1.Some? ==>
          |points| - kept < |answers|
          && EndsFor(points[|points| - 1], answers[|points| - kept], ratio, Some(r.1.value.reason)))
    && (r.1.None? ==> |points| == kept + |answers| || Reaches(points[|points| - 1], windowStartMs))
  }

  lemma {:induction false} TakeIs(kept: int, walked: seq<Round>, answers: seq<Answer>, j: nat, windowStartMs: int,
                                  ratio: int)
    requires 1 <= kept && j <= |answers| && |walked| == kept + j
    requires forall i :: kept <= i < |walked| ==> answers[i - kept] == Some(walked[i])
    ensures TakenFrom(kept, answers, Take(walked, answers[j..], windowStartMs, ratio), windowStartMs, ratio)
    decreases |answers| - j
  {
    if j < |answers| {
      var newer := walked[|walked| - 1];
      JudgeEndsFor(newer, answers[j], ratio);
      var stop := Judge(newer, newer.roundId - 1, answers[j], ratio);
      if stop.None? {
        var longer := walked + [answers[j].value];
        assert answers[j..][1..] == answers[j + 1..];
        if !Reaches(answers[j].value, windowStartMs) {
          TakeIs(kept, longer, answers, j + 1, windowStartMs, ratio);
        }
      }
    }
  }

  // ----- the whole series ----------------------------------------------------------------------

  /** What was asked for is the same however much longer the series becomes. */
  lemma AskedBefore(walked: seq<Round>, points: seq<Round>, i: nat, read: Read, chunk: int, maxRounds: int)
    requires walked <= points && 1 <= i < |walked| && chunk >= 1
    requires PointAnswered(walked, i, read, chunk, maxRounds)
    ensures PointAnswered(points, i, read, chunk, maxRounds)
  {
    var answers :| Heard(walked, i, read, chunk, maxRounds, Some(answers))
                   && answers[i - Kept(i, chunk)] == Some(walked[i]);
    assert Asked(points, Kept(i, chunk), chunk, maxRounds) == Asked(walked, Kept(i, chunk), chunk, maxRounds);
    assert Heard(points, i, read, chunk, maxRounds, Some(answers));
  }

  /** Why the walk ended where it did. */
  ghost predicate EndsRight(s: Series, read: Read, chunk: int, windowStartMs: int, maxRounds: int, ratio: int)
    requires chunk >= 1
  {
    s.points != [] &&
    var oldest, reason := s.points[|s.points| - 1], s.coverage.reason;
    && (reason == ReachesWindow <==> oldest.updatedAt * 1000 <= windowStartMs)
    && (reason == PhaseStart <==> oldest.updatedAt * 1000 > windowStartMs && oldest.Number() <= 1)
    && (reason == RoundCap <==>
          oldest.updatedAt * 1000 > windowStartMs && oldest.Number() > 1 && |s.points| >= maxRounds)
    && (reason !in {ReachesWindow, PhaseStart, RoundCap} ==>
          exists answers :: Heard(s.points, |s.points|, read, chunk, maxRounds, answers)
            && Stopped(s, answers, |s.points| - Kept(|s.points|, chunk), ratio))
    && s.coverage.value == match reason
         case ReachesWindow => Some(true)
         case PhaseStart => Some(false)
         case RoundCap => Some(false)
         case ScaleBreak => Some(false)
         case _ => None
  }

  /** The read failed, or the answer below the oldest point ended the walk for just this reason. */
  ghost predicate Stopped(s: Series, answers: Option<seq<Answer>>, at: int, ratio: int) {
    && s.points != []
    && (s.coverage.reason == ReadFailed <==> answers.None?)
    && (answers.Some? ==>
          0 <= at < |answers.value|
          && EndsFor(s.points[|s.points| - 1], answers.value[at], ratio, Some(s.coverage.reason)))
  }

  /** The rounds at hand are as many as whole chunks, unless the walk is over. */
  predicate Aligned(walked: seq<Round>, chunk: int, windowStartMs: int, maxRounds: int)
    requires walked != [] && chunk >= 1
  {
    (|walked| - 1) % chunk == 0 || Enough(walked, windowStartMs, maxRounds).Some?
  }

  lemma {:induction false} SeriesIs(walked: seq<Round>, head: Round, read: Read, chunk: int, windowStartMs: int,
                                    maxRounds: int, ratio: int, s: Series)
    requires Counts(read) && chunk >= 1 && |walked| <= Max(1, maxRounds)
    requires Chain(walked, head, ratio) && OnlyOldestMayReach(walked, windowStartMs)
    requires AllAnswered(walked, read, chunk, maxRounds) && Aligned(walked, chunk, windowStartMs, maxRounds)
    requires s == InChunks(walked, head, read, chunk, windowStartMs, maxRounds, ratio)
    ensures AllAnswered(s.points, read, chunk, maxRounds)
    ensures EndsRight(s, read, chunk, windowStartMs, maxRounds, ratio)
    decreases Max(1, maxRounds) - |walked|
  {
    if Enough(walked, windowStartMs, maxRounds).None? {
      var answers := read(NextBatch(walked, maxRounds, chunk));
      var (longer, stop) := AfterBatch(walked, answers, windowStartMs, ratio);
      OneChunkOn(walked, head, read, chunk, windowStartMs, maxRounds, ratio, longer, stop);
      OneBatch(walked, head, read, chunk, windowStartMs, maxRounds, ratio, answers, longer, stop);
      if stop.None? {
        SeriesIs(longer, head, read, chunk, windowStartMs, maxRounds, ratio, s);
      } else {
        StoppedBy(walked, s, answers, read, chunk, windowStartMs, maxRounds, ratio);
      }
    }
  }

  /** What one batch adds, and where that leaves the walk. */
  lemma OneBatch(walked: seq<Round>, head: Round, read: Read, chunk: int, windowStartMs: int, maxRounds: int,
                 ratio: int, answers: Option<seq<Answer>>, longer: seq<Round>, stop: Option<Coverage>)
    requires Counts(read) && chunk >= 1 && |walked| <= Max(1, maxRounds)
    requires Chain(walked, head, ratio) && OnlyOldestMayReach(walked, windowStartMs)
    requires AllAnswered(walked, read, chunk, maxRounds) && Aligned(walked, chunk, windowStartMs, maxRounds)
    requires Enough(walked, windowStartMs, maxRounds).None?
    requires answers == read(NextBatch(walked, maxRounds, chunk))
    requires (longer, stop) == AfterBatch(walked, answers, windowStartMs, ratio)
    requires Chain(longer, head, ratio)
    ensures walked <= longer && AllAnswered(longer, read, chunk, maxRounds)
    ensures stop.None? ==> Aligned(longer, chunk, windowStartMs, maxRounds)
    ensures stop.Some? ==> !Reaches(longer[|longer| - 1], windowStartMs) && |longer| < maxRounds
                           && longer[|longer| - 1].Number() > 1 && Midway(stop.value)
    ensures if answers.None? then longer == walked && stop == Some(Coverage(None, ReadFailed))
            else TakenFrom(|walked|, answers.value, (longer, stop), windowStartMs, ratio)
                 && (stop.Some? ==> stop.value.reason != ReadFailed)
  {
    if answers.Some? {
      TakeIs(|walked|, walked, answers.value, 0, windowStartMs, ratio);
      assert answers.value[0..] == answers.value;
      TakeKeepsTheChain(walked, head, answers.value, windowStartMs, ratio);
      BatchAnswered(walked, longer, stop, answers.value, read, chunk, windowStartMs, maxRounds, ratio);
      ChainNumbers(walked, head, ratio);
      ChainNumbers(longer, head, ratio);
      if stop.None? {
        StaysAligned(walked, longer, NextBatch(walked, maxRounds, chunk), chunk, windowStartMs, maxRounds);
      }
    }
  }

  lemma BatchAnswered(walked: seq<Round>, longer: seq<Round>, stop: Option<Coverage>, answers: seq<Answer>, read: Read,
                      chunk: int, windowStartMs: int, maxRounds: int, ratio: int)
    requires walked != [] && chunk >= 1 && Counts(read) && AllAnswered(walked, read, chunk, maxRounds)
    requires Enough(walked, windowStartMs, maxRounds).None? && Aligned(walked, chunk, windowStartMs, maxRounds)
    requires read(NextBatch(walked, maxRounds, chunk)) == Some(answers) && walked <= longer
    requires TakenFrom(|walked|, answers, (longer, stop), windowStartMs, ratio)
    ensures AllAnswered(longer, read, chunk, maxRounds)
  {
    forall i | 1 <= i < |longer| ensures PointAnswered(longer, i, read, chunk, maxRounds) {
      if i < |walked| {
        AskedBefore(walked, longer, i, read, chunk, maxRounds);
      } else {
        KeptIs(|walked|, i, chunk);
        assert Asked(longer, |walked|, chunk, maxRounds) == NextBatch(walked, maxRounds, chunk);
        assert Heard(longer, i, read, chunk, maxRounds, Some(answers));
      }
    }
  }

  lemma StaysAligned(walked: seq<Round>, longer: seq<Round>, batch: seq<int>, chunk: int, windowStartMs: int,
                     maxRounds: int)
    requires walked != [] && chunk >= 1 && Enough(walked, windowStartMs, maxRounds).None?
    requires Aligned(walked, chunk, windowStartMs, maxRounds) && batch == NextBatch(walked, maxRounds, chunk)
    requires |longer| == |walked| + |batch| || (longer != [] && Reaches(longer[|longer| - 1], windowStartMs))
    requires |longer| > |walked|
    requires |longer| - |walked| == walked[|walked| - 1].Number() - longer[|longer| - 1].Number()
    ensures Aligned(longer, chunk, windowStartMs, maxRounds)
  {
    if !Reaches(longer[|longer| - 1], windowStartMs) && |batch| == chunk {
      WholeChunks(|walked| - 1, chunk);
    }
  }

  lemma WholeChunks(n: int, chunk: int)
    requires chunk >= 1 && n >= 0 && n % chunk == 0
    ensures (n + chunk) % chunk == 0
  {
    var q := n / chunk;
    assert n == chunk * q;
    Quotient(n + chunk, chunk, q + 1, 0);
  }

  lemma StoppedBy(walked: seq<Round>, s: Series, answers: Option<seq<Answer>>, read: Read, chunk: int,
                  windowStartMs: int, maxRounds: int, ratio: int)
    requires walked != [] && chunk >= 1 && Counts(read) && walked <= s.points
    requires Enough(walked, windowStartMs, maxRounds).None? && Aligned(walked, chunk, windowStartMs, maxRounds)
    requires answers == read(NextBatch(walked, maxRounds, chunk))
    requires s.coverage.reason in {ReadFailed, BadRound, DatedAfter, ScaleBreak} && Midway(s.coverage)
    requires !Reaches(s.points[|s.points| - 1], windowStartMs)
    requires s.points[|s.points| - 1].Number() > 1 && |s.points| < maxRounds
    requires if answers.None? then s.points == walked && s.coverage.reason == ReadFailed
             else TakenFrom(|walked|, answers.value, (s.points, Some(s.coverage)), windowStartMs, ratio)
                  && s.coverage.reason != ReadFailed
    ensures EndsRight(s, read, chunk, windowStartMs, maxRounds, ratio)
  {
    KeptIs(|walked|, |s.points|, chunk);
    assert Asked(s.points, |walked|, chunk, maxRounds) == NextBatch(walked, maxRounds, chunk);
    assert Heard(s.points, |s.points|, read, chunk, maxRounds, answers);
    assert Stopped(s, answers, |s.points| - |walked|, ratio);
  }

  /** A feed's whole series, whatever the chain answers: its points are the head and then the answers given for
      them, and it ends at the first of the window's start, the phase's start, the cap, a failed read, or an
      answer that cannot be kept, and says which. */
  lemma EverySeriesEndsRight(head: Round, blockMs: int, windowS: int, maxRounds: int, chunk: int, ratio: int,
                             read: Read, s: Series)
    requires Counts(read) && chunk >= 1
    requires s == InChunks([head], head, read, chunk, WindowStart(blockMs, windowS), maxRounds, ratio)
    ensures s.points != [] && s.points[0] == head && AllAnswered(s.points, read, chunk, maxRounds)
    ensures EndsRight(s, read, chunk, if blockMs < windowS * 1000 then 0 else blockMs - windowS * 1000, maxRounds,
                      ratio)
  {
    SeriesIs([head], head, read, chunk, WindowStart(blockMs, windowS), maxRounds, ratio, s);
  }
}

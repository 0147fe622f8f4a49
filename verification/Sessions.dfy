/** Market sessions and the staleness rule. */
module Sessions {
  // The weekly closed span, how much closed time lies between two instants, when a feed's newest
  // round was stale, and how a span is inferred from the rounds themselves.
  //
  // Each loop is proved against a pointwise definition that no loop appears in: closed time is the
  // number of closed milliseconds, and a stale span is the set of stale seconds.

  import opened Basics
  import opened Wrappers
  import opened Ordering

  const WEEK_S: int := 7 * 86400

  // The epoch fell on a Thursday: the first Monday came four days after it.
  const MONDAY_OFFSET_S: int := 4 * 86400

  /** How far into its week a second is; weeks begin on Monday at midnight UTC. */
  function WeekPosition(epochS: int): int {
    (epochS - MONDAY_OFFSET_S) % WEEK_S
  }

  /** The part of each week in which a market is shut, from `startS` up to `endS` after its Monday. */
  datatype WeeklyClosure = WeeklyClosure(startS: int, endS: int) {
    predicate Valid() {
      0 <= startS < WEEK_S && startS < endS < startS + WEEK_S
    }

    predicate Contains(epochS: int) {
      var p := WeekPosition(epochS);
      startS <= p < endS || startS <= p + WEEK_S < endS
    }

    /** The number of milliseconds m in [since, until) whose second lies in the span. */
    ghost function ClosedCount(since: int, until: int): (n: int)
      decreases until - since
    {
      if until <= since then 0
      else ClosedCount(since, until - 1) + if Contains((until - 1) / 1000) then 1 else 0
    }

    /** The number of seconds in [since, until) that lie in the span. */
    ghost function ClosedSeconds(since: int, until: int): (n: int)
      ensures 0 <= n <= if until <= since then 0 else until - since
      decreases until - since
    {
      if until <= since then 0
      else ClosedSeconds(since, until - 1) + if Contains(until - 1) then 1 else 0
    }
  }

  // ----- closed time ---------------------------------------------------------------------------

  /** The instant, in seconds, at which week number `week` starts: a Monday 00:00Z. */
  function Monday(week: int): int {
    week * WEEK_S + MONDAY_OFFSET_S
  }

  /** In the period that starts where one week's span starts, closed means before its end. */
  lemma ContainsInPeriod(c: WeeklyClosure, week: int, t: int)
    requires c.Valid()
    requires Monday(week) + c.startS <= t < Monday(week + 1) + c.startS
    ensures c.Contains(t) <==> t < Monday(week) + c.endS
  {
    var offset := t - Monday(week);
    if offset < WEEK_S {
      assert WeekPosition(t) == offset;
    } else {
      assert WeekPosition(t) == offset - WEEK_S;
    }
  }

  /** Closed time is additive over adjacent intervals. */
  lemma {:induction false} ClosedCountAdditive(c: WeeklyClosure, a: int, b: int, d: int)
    requires a <= b <= d
    ensures c.ClosedCount(a, d) == c.ClosedCount(a, b) + c.ClosedCount(b, d)
    decreases d - b
  {
    if b < d {
      ClosedCountAdditive(c, a, b, d - 1);
    }
  }

  /** In one period the closed milliseconds of [a, b) are those before the span's end. */
  lemma {:induction false} ClosedCountInPeriod(c: WeeklyClosure, week: int, a: int, b: int)
    requires c.Valid()
    requires (Monday(week) + c.startS) * 1000 <= a <= b <= (Monday(week + 1) + c.startS) * 1000
    ensures c.ClosedCount(a, b) == Max(0, Min((Monday(week) + c.endS) * 1000, b) - a)
    decreases b - a
  {
    if a < b {
      ClosedCountInPeriod(c, week, a, b - 1);
      ContainsInPeriod(c, week, (b - 1) / 1000);
    }
  }

  /** `x` moved into [since, until]. */
  function Clamp(since: int, until: int, x: int): int { Min(until, Max(since, x)) }

  /** One week's overlap is the closed time between two starts of the span. */
  lemma ClosedCountOneWeek(c: WeeklyClosure, week: int, since: int, until: int)
    requires c.Valid() && since < until
    requires (Monday(week) + c.startS) * 1000 < until
    ensures var start, end := (Monday(week) + c.startS) * 1000, (Monday(week) + c.endS) * 1000;
            var next := (Monday(week + 1) + c.startS) * 1000;
            c.ClosedCount(since, Clamp(since, until, next))
            == c.ClosedCount(since, Clamp(since, until, start))
               + Max(0, Min(end, until) - Max(start, since))
  {
    var start, next := (Monday(week) + c.startS) * 1000, (Monday(week + 1) + c.startS) * 1000;
    var lo, hi := Clamp(since, until, start), Clamp(since, until, next);
    ClosedCountAdditive(c, since, lo, hi);
    if lo < hi {
      ClosedCountInPeriod(c, week, lo, hi);
    }
  }

  /** Closed time between two instants, one week's overlap after another. */
  method ClosedMs(c: WeeklyClosure, sinceMs: int, untilMs: int) returns (total: int)
    requires c.Valid()
    ensures total == c.ClosedCount(sinceMs, untilMs)
  {
    if untilMs <= sinceMs {
      return 0;
    }
    // The span of the week before may still be open at `sinceMs`.
    ghost var week := (sinceMs / 1000 - MONDAY_OFFSET_S) / WEEK_S - 1;
    var monday := (sinceMs / 1000 - MONDAY_OFFSET_S) / WEEK_S * WEEK_S + MONDAY_OFFSET_S;
    var base := (monday - WEEK_S) * 1000;
    total := 0;
    while base + c.startS * 1000 < untilMs
      invariant base == Monday(week) * 1000
      invariant total == c.ClosedCount(sinceMs, Clamp(sinceMs, untilMs, base + c.startS * 1000))
      decreases untilMs - base
    {
      var start, end := base + c.startS * 1000, base + c.endS * 1000;
      ClosedCountOneWeek(c, week, sinceMs, untilMs);
      total := total + Max(0, Min(end, untilMs) - Max(start, sinceMs));
      base := base + WEEK_S * 1000;
      week := week + 1;
    }
  }

  /** Between whole seconds, the closed milliseconds are the closed seconds, exactly. */
  lemma {:induction false} ClosedCountOfSeconds(c: WeeklyClosure, a: int, b: int)
    requires a <= b
    ensures c.ClosedCount(a * 1000, b * 1000) == 1000 * c.ClosedSeconds(a, b)
    decreases b - a
  {
    if a < b {
      ClosedCountOfSeconds(c, a, b - 1);
      ClosedCountAdditive(c, a * 1000, (b - 1) * 1000, b * 1000);
      ClosedCountInSecond(c, b - 1, b * 1000);
    }
  }

  /** A second is closed or open as a whole. */
  lemma {:induction false} ClosedCountInSecond(c: WeeklyClosure, second: int, until: int)
    requires second * 1000 <= until <= (second + 1) * 1000
    ensures c.ClosedCount(second * 1000, until)
            == if c.Contains(second) then until - second * 1000 else 0
    decreases until - second * 1000
  {
    if second * 1000 < until {
      ClosedCountInSecond(c, second, until - 1);
      assert (until - 1) / 1000 == second;
    }
  }

  // ----- freshness -----------------------------------------------------------------------------

  /** Open-session time between two seconds: the age, less its closed seconds. */
  ghost function OpenAge(closure: Option<WeeklyClosure>, a: int, t: int): int {
    t - a - if closure.Some? then closure.value.ClosedSeconds(a, t) else 0
  }

  /**
   The verdict on the newest reading at `asOfMs`: true is fresh, false stale, None
   undetermined. A reading dated inside the closed span contradicts the span.
   */
  ghost function Verdict(readingMs: Option<int>, limitS: int, asOfMs: int,
                         closure: Option<WeeklyClosure>): Option<bool> {
    if readingMs.None? then None
    else if closure.None? then Some(asOfMs - readingMs.value <= limitS * 1000)
    else if closure.value.Contains(readingMs.value / 1000) then None
    else Some(asOfMs - readingMs.value - closure.value.ClosedCount(readingMs.value, asOfMs)
              <= limitS * 1000)
  }

  method Freshness(readingMs: Option<int>, heartbeatS: int, marginS: int, asOfMs: int,
                   closure: Option<WeeklyClosure>) returns (verdict: Option<bool>)
    requires closure.Some? ==> closure.value.Valid()
    ensures verdict == Verdict(readingMs, heartbeatS + marginS, asOfMs, closure)
  {
    if readingMs.None? {
      return None;
    }
    var limitMs := (heartbeatS + marginS) * 1000;
    var ageMs := asOfMs - readingMs.value;
    if closure.None? {
      return Some(ageMs <= limitMs);
    }
    if closure.value.Contains(readingMs.value / 1000) {
      return None;
    }
    var closedMs := ClosedMs(closure.value, readingMs.value, asOfMs);
    return Some(ageMs - closedMs <= limitMs);
  }

  /** At whole seconds the verdict compares the open age with the limit. */
  lemma VerdictAtSeconds(a: int, limitS: int, t: int, closure: Option<WeeklyClosure>)
    requires a <= t
    requires closure.Some? ==> !closure.value.Contains(a)
    ensures Verdict(Some(a * 1000), limitS, t * 1000, closure)
            == Some(OpenAge(closure, a, t) <= limitS)
  {
    if closure.Some? {
      ClosedCountOfSeconds(closure.value, a, t);
    }
  }

  /** Open age never falls as time passes, so the first stale second can be bisected for. */
  lemma {:induction false} OpenAgeMonotone(closure: Option<WeeklyClosure>, a: int, t: int, u: int)
    requires a <= t <= u
    ensures OpenAge(closure, a, t) <= OpenAge(closure, a, u)
    decreases u - t
  {
    if t < u {
      OpenAgeMonotone(closure, a, t, u - 1);
    }
  }

  // ----- stale spans ---------------------------------------------------------------------------

  ghost predicate InSpans(spans: seq<(int, int)>, t: int) {
    exists k :: 0 <= k < |spans| && spans[k].0 <= t < spans[k].1
  }

  /** Where round `j` stops being the newest: the next round, or the end of the window. */
  function RoundEnd(times: seq<int>, until: int, j: nat): int
    requires j < |times|
  {
    if j + 1 < |times| then times[j + 1] else until
  }

  /** Second `t` falls strictly after round `j`, before the next, and past the limit. */
  ghost predicate StaleAfter(times: seq<int>, until: int, limitS: int,
                             closure: Option<WeeklyClosure>, j: nat, t: int) {
    j < |times| && times[j] < t < RoundEnd(times, until, j)
    && OpenAge(closure, times[j], t) > limitS
  }

  ghost predicate StaleBefore(times: seq<int>, until: int, limitS: int,
                              closure: Option<WeeklyClosure>, n: nat, t: int) {
    exists j: nat :: j < n && StaleAfter(times, until, limitS, closure, j, t)
  }

  method FindOpenAge(closure: Option<WeeklyClosure>, a: int, t: int) returns (age: int)
    requires a <= t && (closure.Some? ==> closure.value.Valid())
    ensures age == OpenAge(closure, a, t)
  {
    var closedMs := 0;
    if closure.Some? {
      closedMs := ClosedMs(closure.value, a * 1000, t * 1000);
      ClosedCountOfSeconds(closure.value, a, t);
    }
    age := t - a - closedMs / 1000;
  }

  /** For each round, from which second on it was stale while still the newest: bisected for. */
  method StaleSpans(times: seq<int>, untilS: int, limitS: int, closure: Option<WeeklyClosure>)
    returns (spans: seq<(int, int)>)
    requires closure.Some? ==> closure.value.Valid()
    ensures forall t :: InSpans(spans, t)
                   <==> StaleBefore(times, untilS, limitS, closure, |times|, t)
  {
    spans := [];
    for i := 0 to |times|
      invariant forall t :: InSpans(spans, t)
                       <==> StaleBefore(times, untilS, limitS, closure, i, t)
    {
      var a, b := times[i], RoundEnd(times, untilS, i);
      var past := false;
      if a < b {
        var age := FindOpenAge(closure, a, b);
        past := limitS < age;
      }
      ghost var before := spans;
      if past {
        var lo, hi := a, b;
        while hi - lo > 1
          invariant a <= lo < hi <= b
          invariant lo == a || OpenAge(closure, a, lo) <= limitS
          invariant OpenAge(closure, a, hi) > limitS
        {
          var mid := (lo + hi) / 2;
          var age := FindOpenAge(closure, a, mid);
          if age > limitS {
            hi := mid;
          } else {
            lo := mid;
          }
        }
        spans := spans + [(hi, b)];
        forall t ensures hi <= t < b <==> StaleAfter(times, untilS, limitS, closure, i, t) {
          if hi <= t < b {
            OpenAgeMonotone(closure, a, hi, t);
          } else if a < t < hi {
            OpenAgeMonotone(closure, a, t, lo);
          }
        }
        SpanAppended(before, (hi, b));
      } else {
        forall t ensures !StaleAfter(times, untilS, limitS, closure, i, t) {
          if a < t < b {
            OpenAgeMonotone(closure, a, t, b);
          }
        }
      }
      forall t ensures InSpans(spans, t)
                  <==> StaleBefore(times, untilS, limitS, closure, i + 1, t) {
        assert InSpans(spans, t)
          <==> InSpans(before, t) || StaleAfter(times, untilS, limitS, closure, i, t);
      }
    }
  }

  lemma SpanAppended(spans: seq<(int, int)>, span: (int, int))
    ensures forall t :: InSpans(spans + [span], t) <==> InSpans(spans, t) || span.0 <= t < span.1
  {
    forall t ensures InSpans(spans + [span], t) <==> InSpans(spans, t) || span.0 <= t < span.1 {
      var longer := spans + [span];
      if InSpans(spans, t) {
        var k :| 0 <= k < |spans| && spans[k].0 <= t < spans[k].1;
        assert longer[k] == spans[k];
      }
      if span.0 <= t < span.1 {
        assert longer[|spans|] == span;
      }
    }
  }

  ghost predicate Ascending(times: seq<int>) {
    forall i, j :: 0 <= i < j < |times| ==> times[i] <= times[j]
  }

  /** Round `i` is the newest at second `t`. */
  ghost predicate NewestAt(times: seq<int>, i: nat, t: int) {
    i < |times| && times[i] <= t && (i + 1 < |times| ==> t < times[i + 1])
  }

  /**
   The spans are exactly the staleness rule: a second lies in one if and only if the newest
   round's verdict at that second is false. A negative limit misses one second a round.
   */
  lemma StaleSpansAreTheRule(times: seq<int>, until: int, limitS: int,
                             closure: Option<WeeklyClosure>, spans: seq<(int, int)>, i: nat, t: int)
    requires Ascending(times) && NewestAt(times, i, t) && t < until
    requires closure.Some? ==> closure.value.Valid() && !closure.value.Contains(times[i])
    requires forall u :: InSpans(spans, u)
                    <==> StaleBefore(times, until, limitS, closure, |times|, u)
    ensures InSpans(spans, t)
            <==> t != times[i] && Verdict(Some(times[i] * 1000), limitS, t * 1000, closure) == Some(false)
    ensures limitS >= 0 ==>
              (InSpans(spans, t)
               <==> Verdict(Some(times[i] * 1000), limitS, t * 1000, closure) == Some(false))
    ensures limitS < 0 && t == times[i] ==>
              !InSpans(spans, t)
              && Verdict(Some(times[i] * 1000), limitS, t * 1000, closure) == Some(false)
  {
    VerdictAtSeconds(times[i], limitS, t, closure);
    assert forall j: nat :: StaleAfter(times, until, limitS, closure, j, t) ==> j == i;
    if t != times[i] && OpenAge(closure, times[i], t) > limitS {
      assert StaleAfter(times, until, limitS, closure, i, t);
    }
  }

  // ----- inferring the span --------------------------------------------------------------------

  /** A stretch of the week between two pooled positions; `before` may pass WEEK_S. */
  datatype Gap = Gap(after: int, before: int)

  datatype Refusal = TooFewRounds | NoSpanSurvives | TooFewWeekends

  /** What the inference found: the quiet stretch, the proposal, and the weeks that show it. */
  datatype Evidence = Evidence(quiet: Gap, closure: Option<WeeklyClosure>,
                               weekends: seq<(int, int)>, refusal: Option<Refusal>)

  /** The constructor of a closure refuses a span that is not within one week. */
  datatype NotASpan = NotASpan(startS: int, endS: int)

  function Pool(rounds: seq<seq<int>>): seq<int> {
    if rounds == [] then [] else rounds[0] + Pool(rounds[1..])
  }

  lemma {:induction false} PoolHoldsEveryRound(rounds: seq<seq<int>>, feed: nat, k: nat)
    requires feed < |rounds| && k < |rounds[feed]|
    ensures rounds[feed][k] in Pool(rounds)
  {
    if feed > 0 {
      PoolHoldsEveryRound(rounds[1..], feed - 1, k);
    }
  }

  /** Drops each repeat that stands next to its equal. */
  function Distinct(s: seq<int>): (r: seq<int>)
    ensures forall x :: x in r <==> x in s
    ensures s != [] ==> r != [] && r[0] == s[0]
  {
    if s == [] then []
    else if |s| > 1 && s[0] == s[1] then Distinct(s[1..])
    else [s[0]] + Distinct(s[1..])
  }

  lemma {:induction false} DistinctAscends(s: seq<int>)
    requires Sorted(IntLe, s)
    ensures forall i, j :: 0 <= i < j < |Distinct(s)| ==> Distinct(s)[i] < Distinct(s)[j]
  {
    if s != [] {
      DistinctAscends(s[1..]);
      var rest := Distinct(s[1..]);
      if !(|s| > 1 && s[0] == s[1]) {
        forall j | 0 <= j < |rest| ensures s[0] < rest[j] {
          assert rest[j] in s[1..];
          var k :| 1 <= k < |s| && s[k] == rest[j];
          assert IntLe(s[0], s[1]) && (k == 1 || IntLe(s[1], s[k]));
        }
      }
    }
  }

  /** Each round's place in its week. */
  function WeekPositions(times: seq<int>): seq<int> {
    seq(|times|, i requires 0 <= i < |times| => WeekPosition(times[i]))
  }

  /** Every pooled round's place in the week, in order, once each. */
  function Positions(times: seq<int>): seq<int> {
    Distinct(Sort(IntLe, WeekPositions(times)))
  }

  ghost predicate StrictlyAscending(s: seq<int>) {
    forall i, j :: 0 <= i < j < |s| ==> s[i] < s[j]
  }

  ghost predicate InOneWeek(s: seq<int>) {
    forall i :: 0 <= i < |s| ==> 0 <= s[i] < WEEK_S
  }

  lemma PositionsHold(times: seq<int>)
    ensures StrictlyAscending(Positions(times))
    ensures forall t :: t in times ==> WeekPosition(t) in Positions(times)
    ensures InOneWeek(Positions(times))
    ensures times != [] ==> Positions(times) != []
  {
    var raw := WeekPositions(times);
    SortSorts(IntLe, raw);
    SortHolds(IntLe, raw);
    DistinctAscends(Sort(IntLe, raw));
    RawPositionsHold(times);
    assert times != [] ==> WeekPosition(times[0]) in raw;
    forall i | 0 <= i < |Positions(times)| ensures 0 <= Positions(times)[i] < WEEK_S {
      assert Positions(times)[i] in raw;
    }
  }

  lemma RawPositionsHold(times: seq<int>)
    ensures forall t :: t in times ==> WeekPosition(t) in WeekPositions(times)
    ensures forall p :: p in WeekPositions(times) ==> 0 <= p < WEEK_S
  {
    forall t | t in times ensures WeekPosition(t) in WeekPositions(times) {
      var i :| 0 <= i < |times| && times[i] == t;
      assert WeekPositions(times)[i] == WeekPosition(t);
    }
  }

  /** The gap after position `i`, the last one running on to the first of the next week. */
  function GapAt(positions: seq<int>, i: nat): Gap
    requires i < |positions|
  {
    if i + 1 < |positions| then Gap(positions[i], positions[i + 1])
    else Gap(positions[i], positions[0] + WEEK_S)
  }

  /** The order the largest gap is chosen by: width, then where it starts. */
  predicate NoWider(g: Gap, h: Gap) {
    var gw, hw := g.before - g.after, h.before - h.after;
    gw < hw || (gw == hw && g.after <= h.after)
  }

  function WidestFrom(positions: seq<int>, i: nat): (g: Gap)
    requires i < |positions|
    ensures exists k :: i <= k < |positions| && g == GapAt(positions, k)
    ensures forall k :: i <= k < |positions| ==> NoWider(GapAt(positions, k), g)
    decreases |positions| - i
  {
    if i + 1 == |positions| then GapAt(positions, i)
    else
      var rest := WidestFrom(positions, i + 1);
      if NoWider(GapAt(positions, i), rest) then rest else GapAt(positions, i)
  }

  /** The index of the first time at or after `x`. */
  function BisectLeft(times: seq<int>, x: int): (i: nat)
    ensures i <= |times|
    ensures forall k :: 0 <= k < i ==> times[k] < x
    ensures i < |times| ==> times[i] >= x
  {
    if times == [] || times[0] >= x then 0 else 1 + BisectLeft(times[1..], x)
  }

  /** Week `week` has rounds on both sides of the span: `w`, the last before, the first after. */
  ghost predicate SpanShown(times: seq<int>, startS: int, endS: int, week: int, w: (int, int)) {
    && w.0 < Monday(week) + startS && Monday(week) + endS <= w.1
    && w.0 in times && w.1 in times
    && (forall t :: t in times ==> !(w.0 < t < Monday(week) + startS))
    && (forall t :: t in times ==> !(Monday(week) + endS <= t < w.1))
  }

  /** No pooled position lies inside a gap, nor inside it a week later. */
  lemma GapIsEmpty(positions: seq<int>, k: nat, p: int)
    requires StrictlyAscending(positions)
    requires InOneWeek(positions)
    requires k < |positions| && p in positions
    ensures var g := GapAt(positions, k);
            !(g.after < p < g.before) && !(g.after < p + WEEK_S < g.before)
  {
    var i :| 0 <= i < |positions| && positions[i] == p;
    assert i == 0 || positions[0] < positions[i];
    if i > k + 1 {
      assert positions[k + 1] < p;
    } else if k + 1 < |positions| {
      assert 0 <= positions[k + 1] < WEEK_S;
    }
  }

  /** Every second within the guard of a pooled round is open, in every week. */
  ghost predicate Clear(c: WeeklyClosure, times: seq<int>, guardS: int) {
    forall t, u :: t in times && t - guardS < u < t + guardS ==> !c.Contains(u)
  }

  /** What is left of a gap inside the guard, cut to multiples of the grid. */
  function Shrink(gap: Gap, guardS: int, gridS: int): (span: (int, int))
    requires gridS > 0
    ensures gap.after + guardS <= span.0 && span.1 <= gap.before - guardS
  {
    var low, high := gap.after + guardS, gap.before - guardS;
    assert (-low / gridS) * gridS <= -low;
    assert (-(-low / gridS)) * gridS == -((-low / gridS) * gridS);
    (-(-low / gridS) * gridS, high / gridS * gridS)
  }

  /** The span brought back into the week it starts in. */
  function Wrap(span: (int, int)): WeeklyClosure {
    if span.0 >= WEEK_S then WeeklyClosure(span.0 - WEEK_S, span.1 - WEEK_S)
    else WeeklyClosure(span.0, span.1)
  }

  /** A second within the guard of a round is outside any span shrunk from a gap by the guard. */
  lemma GuardedSpanIsClear(positions: seq<int>, k: nat, guardS: int, span: (int, int), t: int, u: int)
    requires StrictlyAscending(positions)
    requires InOneWeek(positions)
    requires k < |positions| && WeekPosition(t) in positions
    requires GapAt(positions, k).after + guardS <= span.0 && span.1 <= GapAt(positions, k).before - guardS
    requires t - guardS < u < t + guardS
    ensures !Wrap(span).Contains(u)
  {
    var p, q := WeekPosition(t), WeekPosition(u);
    var turns := (t - MONDAY_OFFSET_S) / WEEK_S - (u - MONDAY_OFFSET_S) / WEEK_S;
    GapIsEmpty(positions, k, p);
    assert q - (u - t) == p + turns * WEEK_S;
    assert k == 0 || positions[0] < positions[k];
  }

  /** A gap is at most a week wide, so what the guard leaves of it is a span within one week. */
  lemma ProposalIsValid(positions: seq<int>, k: nat, guardS: int, gridS: int)
    requires StrictlyAscending(positions) && InOneWeek(positions)
    requires k < |positions| && gridS > 0 && guardS > 0
    ensures var span := Shrink(GapAt(positions, k), guardS, gridS);
            span.0 < span.1 ==> Wrap(span).Valid()
  {
    assert k == 0 || positions[0] < positions[k];
  }

  /** The proposal from the widest gap is clear of every round it was derived from. */
  lemma ProposalIsClear(times: seq<int>, guardS: int, gridS: int)
    requires Positions(times) != [] && gridS > 0 && guardS > 0
    ensures var span := Shrink(WidestFrom(Positions(times), 0), guardS, gridS);
            span.0 < span.1 ==> Wrap(span).Valid() && Clear(Wrap(span), times, guardS)
  {
    var positions := Positions(times);
    PositionsHold(times);
    var gap := WidestFrom(positions, 0);
    var k: nat :| k < |positions| && gap == GapAt(positions, k);
    ProposalIsValid(positions, k, guardS, gridS);
    var span := Shrink(gap, guardS, gridS);
    forall t, u | t in times && t - guardS < u < t + guardS ensures !Wrap(span).Contains(u) {
      GuardedSpanIsClear(positions, k, guardS, span, t, u);
    }
  }

  /** Week `week` has a round before the span and one at or after its end. */
  ghost predicate Complete(times: seq<int>, startS: int, endS: int, week: int) {
    && (exists t :: t in times && t < Monday(week) + startS)
    && (exists t :: t in times && t >= Monday(week) + endS)
  }

  /** The weekends are those of exactly the complete weeks, once each and in order. */
  ghost predicate WeeksShown(times: seq<int>, startS: int, endS: int, weeks: seq<int>, weekends: seq<(int, int)>) {
    && |weeks| == |weekends| && StrictlyAscending(weeks)
    && (forall k :: 0 <= k < |weeks| ==> SpanShown(times, startS, endS, weeks[k], weekends[k]))
    && (forall week :: week in weeks <==> Complete(times, startS, endS, week))
  }

  /** Rounds on both sides are found where the bisections land, and only there. */
  lemma BisectionsDecide(times: seq<int>, startS: int, endS: int, week: int)
    requires Sorted(IntLe, times) && startS < endS
    ensures var i, j := BisectLeft(times, Monday(week) + startS), BisectLeft(times, Monday(week) + endS);
            Complete(times, startS, endS, week) <==> i > 0 && j < |times|
  {
    var i, j := BisectLeft(times, Monday(week) + startS), BisectLeft(times, Monday(week) + endS);
    if i > 0 && j < |times| {
      assert times[0] in times && times[j] in times;
    }
  }

  /** The last of the times below `lo` is the last before it, and the first from `hi` on the first after. */
  lemma BisectionsNeighbour(times: seq<int>, lo: int, hi: int, t: int)
    requires Sorted(IntLe, times) && t in times
    requires BisectLeft(times, lo) > 0 && BisectLeft(times, hi) < |times|
    ensures !(times[BisectLeft(times, lo) - 1] < t < lo) && !(hi <= t < times[BisectLeft(times, hi)])
  {
    var k :| 0 <= k < |times| && times[k] == t;
    NotBetweenBefore(times, BisectLeft(times, lo), lo, k);
    NotBetweenAfter(times, BisectLeft(times, hi), hi, k);
  }

  lemma NotBetweenBefore(times: seq<int>, i: nat, lo: int, k: nat)
    requires Sorted(IntLe, times) && 0 < i <= |times| && k < |times| && (i < |times| ==> times[i] >= lo)
    ensures !(times[i - 1] < times[k] < lo)
  {
    InTurn(times, k, i - 1);
    if i < |times| {
      InTurn(times, i, k);
    }
  }

  lemma NotBetweenAfter(times: seq<int>, j: nat, hi: int, k: nat)
    requires Sorted(IntLe, times) && j < |times| && k < |times| && (forall n :: 0 <= n < j ==> times[n] < hi)
    ensures !(hi <= times[k] < times[j])
  {
    InTurn(times, j, k);
  }

  lemma InTurn(times: seq<int>, i: nat, j: nat)
    requires Sorted(IntLe, times) && i < |times| && j < |times|
    ensures i <= j ==> times[i] <= times[j]
  {
    assert i < j ==> IntLe(times[i], times[j]);
  }

  lemma BisectionsShow(times: seq<int>, startS: int, endS: int, week: int)
    requires Sorted(IntLe, times) && startS < endS
    requires BisectLeft(times, Monday(week) + startS) > 0 && BisectLeft(times, Monday(week) + endS) < |times|
    ensures var i, j := BisectLeft(times, Monday(week) + startS), BisectLeft(times, Monday(week) + endS);
            SpanShown(times, startS, endS, week, (times[i - 1], times[j]))
  {
    forall t | t in times {
      BisectionsNeighbour(times, Monday(week) + startS, Monday(week) + endS, t);
    }
  }

  /** The same of the weeks before `week` only. */
  ghost predicate WeeksShownBefore(times: seq<int>, startS: int, endS: int, weeks: seq<int>,
                                   weekends: seq<(int, int)>, week: int) {
    && |weeks| == |weekends| && StrictlyAscending(weeks)
    && (forall k :: 0 <= k < |weeks| ==> weeks[k] < week && SpanShown(times, startS, endS, weeks[k], weekends[k]))
    && (forall w :: w in weeks <==> w < week && Complete(times, startS, endS, w))
  }

  lemma OneWeekOn(times: seq<int>, startS: int, endS: int, weeks: seq<int>, weekends: seq<(int, int)>,
                  week: int, w: (int, int))
    requires WeeksShownBefore(times, startS, endS, weeks, weekends, week)
    ensures !Complete(times, startS, endS, week) ==>
              WeeksShownBefore(times, startS, endS, weeks, weekends, week + 1)
    ensures Complete(times, startS, endS, week) && SpanShown(times, startS, endS, week, w) ==>
              WeeksShownBefore(times, startS, endS, weeks + [week], weekends + [w], week + 1)
  {
  }

  /** One week on, whatever the bisections found. */
  lemma WeekDone(times: seq<int>, startS: int, endS: int, weeks: seq<int>, weekends: seq<(int, int)>,
                 week: int, i: nat, j: nat)
    requires Sorted(IntLe, times) && startS < endS && WeeksShownBefore(times, startS, endS, weeks, weekends, week)
    requires i == BisectLeft(times, Monday(week) + startS) && j == BisectLeft(times, Monday(week) + endS)
    ensures var found := i > 0 && j < |times|;
            WeeksShownBefore(times, startS, endS, if found then weeks + [week] else weeks,
                             if found then weekends + [(times[i - 1], times[j])] else weekends, week + 1)
  {
    BisectionsDecide(times, startS, endS, week);
    if i > 0 && j < |times| {
      BisectionsShow(times, startS, endS, week);
      OneWeekOn(times, startS, endS, weeks, weekends, week, (times[i - 1], times[j]));
    } else {
      OneWeekOn(times, startS, endS, weeks, weekends, week, (0, 0));
    }
  }

  /** No week is complete before the one the first round falls in, or once the span starts at the last. */
  lemma CompleteOnlyBetween(times: seq<int>, startS: int, endS: int, week: int)
    requires times != [] && Sorted(IntLe, times) && 0 <= startS < WEEK_S && startS < endS
    requires Complete(times, startS, endS, week)
    ensures (times[0] - MONDAY_OFFSET_S) / WEEK_S <= week && Monday(week) + startS < times[|times| - 1]
  {
    var t :| t in times && t < Monday(week) + startS;
    var u :| u in times && u >= Monday(week) + endS;
    FirstToLast(times, t);
    FirstToLast(times, u);
    WeekOf(times[0], week, startS);
  }

  lemma FirstToLast(times: seq<int>, t: int)
    requires Sorted(IntLe, times) && t in times
    ensures times[0] <= t <= times[|times| - 1]
  {
    var i :| 0 <= i < |times| && times[i] == t;
    InTurn(times, 0, i);
    InTurn(times, i, |times| - 1);
  }

  lemma WeekOf(t: int, week: int, startS: int)
    requires t < Monday(week) + startS && startS < WEEK_S
    ensures (t - MONDAY_OFFSET_S) / WEEK_S <= week
  {
  }

  /** Bisecting for both ends of the span, week by week from the first round's on. */
  method CompleteWeeks(times: seq<int>, start: int, end: int) returns (weekends: seq<(int, int)>)
    requires |times| >= 2 && Sorted(IntLe, times)
    requires 0 <= start < WEEK_S && start < end
    ensures exists weeks :: WeeksShown(times, start, end, weeks, weekends)
  {
    weekends := [];
    ghost var weeks: seq<int> := [];
    ghost var week := (times[0] - MONDAY_OFFSET_S) / WEEK_S;
    var monday := (times[0] - MONDAY_OFFSET_S) / WEEK_S * WEEK_S + MONDAY_OFFSET_S;
    NoneBefore(times, start, end, week);
    while monday + start < times[|times| - 1]
      invariant monday == Monday(week) && WeeksShownBefore(times, start, end, weeks, weekends, week)
      decreases times[|times| - 1] - monday - start
    {
      var i, j := BisectLeft(times, monday + start), BisectLeft(times, monday + end);
      WeekDone(times, start, end, weeks, weekends, week, i, j);
      if i > 0 && j < |times| {
        weekends, weeks := weekends + [(times[i - 1], times[j])], weeks + [week];
      }
      monday := monday + WEEK_S;
      week := week + 1;
    }
    NoneAfter(times, start, end, weeks, weekends, week);
  }

  lemma NoneBefore(times: seq<int>, startS: int, endS: int, week: int)
    requires times != [] && Sorted(IntLe, times) && 0 <= startS < WEEK_S && startS < endS
    requires week == (times[0] - MONDAY_OFFSET_S) / WEEK_S
    ensures WeeksShownBefore(times, startS, endS, [], [], week)
  {
    forall w | Complete(times, startS, endS, w) ensures w >= week {
      CompleteOnlyBetween(times, startS, endS, w);
    }
  }

  lemma NoneAfter(times: seq<int>, startS: int, endS: int, weeks: seq<int>, weekends: seq<(int, int)>, week: int)
    requires times != [] && Sorted(IntLe, times) && 0 <= startS < WEEK_S && startS < endS
    requires WeeksShownBefore(times, startS, endS, weeks, weekends, week)
    requires Monday(week) + startS >= times[|times| - 1]
    ensures WeeksShown(times, startS, endS, weeks, weekends)
  {
    forall w | Complete(times, startS, endS, w) ensures w < week {
      CompleteOnlyBetween(times, startS, endS, w);
    }
  }

  /** What the guard leaves of the widest gap, a negative guard among them, is not a span of one week. */
  ghost predicate NoClosure(times: seq<int>, guardS: int, gridS: int)
    requires gridS > 0
  {
    && |times| >= 2 && Positions(times) != []
    && var span := Shrink(WidestFrom(Positions(times), 0), guardS, gridS);
       span.0 < span.1 && !Wrap(span).Valid()
  }

  /** From the rounds of every feed, a span of the week that all of them leave empty. */
  method InferClosure(rounds: seq<seq<int>>, guardS: int, gridS: int, minWeekends: int)
    returns (r: Result<Evidence, NotASpan>)
    requires gridS > 0
    ensures guardS > 0 ==> r.Ok?
    ensures r.Err? <==> NoClosure(Pool(rounds), guardS, gridS)
    ensures r.Ok? && r.value.closure.Some? ==> r.value.closure.value.Valid()
    ensures r.Ok? && r.value.closure.Some? && guardS > 0 ==>
              Clear(r.value.closure.value, Pool(rounds), guardS)
    ensures r.Ok? ==> Founded(Sort(IntLe, Pool(rounds)), Positions(Pool(rounds)), guardS, gridS,
                              minWeekends, r.value)
  {
    var times := Sort(IntLe, Pool(rounds));
    SortSorts(IntLe, Pool(rounds));
    SortHolds(IntLe, Pool(rounds));
    if |times| < 2 {
      return Ok(Evidence(Gap(0, 0), None, [], Some(TooFewRounds)));
    }
    PositionsHold(Pool(rounds));
    var gap := WidestFrom(Positions(Pool(rounds)), 0);
    var span := Shrink(gap, guardS, gridS);
    if guardS > 0 {
      ProposalIsClear(Pool(rounds), guardS, gridS);
    }
    if span.1 <= span.0 {
      return Ok(Evidence(gap, None, [], Some(NoSpanSurvives)));
    }
    var closure := Wrap(span);
    if !closure.Valid() {
      return Err(NotASpan(closure.startS, closure.endS));
    }
    var weekends := CompleteWeeks(times, closure.startS, closure.endS);
    if |weekends| < minWeekends {
      return Ok(Evidence(gap, None, weekends, Some(TooFewWeekends)));
    }
    return Ok(Evidence(gap, Some(closure), weekends, None));
  }

  /** What the evidence says is what the rounds show. */
  ghost predicate Founded(times: seq<int>, positions: seq<int>, guardS: int, gridS: int,
                          minWeekends: int, e: Evidence)
    requires gridS > 0
  {
    if |times| < 2 then e.refusal == Some(TooFewRounds) && e.closure == None
    else
      positions != [] && e.quiet == WidestFrom(positions, 0) && e.refusal != Some(TooFewRounds)
      && var span := Shrink(e.quiet, guardS, gridS);
         (e.refusal == Some(NoSpanSurvives) <==> span.1 <= span.0)
         && (e.refusal == Some(TooFewWeekends) <==> span.0 < span.1 && |e.weekends| < minWeekends)
         && (e.refusal == None <==> e.closure == Some(Wrap(span)))
         && (e.refusal != None <==> e.closure == None)
         && (span.0 < span.1 && e.refusal != Some(NoSpanSurvives) ==>
               exists weeks :: WeeksShown(times, Wrap(span).startS, Wrap(span).endS, weeks, e.weekends))
  }
}

/** What closed means, week by week, and what a proposed closure is cut from. */
module Closing {
  import opened Basics
  import opened Wrappers
  import opened Ordering
  import opened Sessions

  // ----- the weekly span -----------------------------------------------------------------------

  /** Where Monday 00:00Z of a week lies; week 0 began on 5 January 1970. */
  function MondayOf(week: int): int { 345_600 + 604_800 * week }

  /** A second is closed when it lies in some week's span. */
  ghost predicate ClosedAt(c: WeeklyClosure, t: int) {
    exists week :: MondayOf(week) + c.startS <= t < MondayOf(week) + c.endS
  }

  lemma ContainsIsWeekly(c: WeeklyClosure, t: int)
    requires c.Valid()
    ensures c.Contains(t) <==> ClosedAt(c, t)
  {
    var week := (t - c.startS - 345_600) / 604_800;
    assert Monday(week) == MondayOf(week) && Monday(week + 1) == MondayOf(week) + 604_800;
    ContainsInPeriod(c, week, t);
    if c.Contains(t) {
      assert MondayOf(week) + c.startS <= t < MondayOf(week) + c.endS;
    }
    if other :| MondayOf(other) + c.startS <= t < MondayOf(other) + c.endS {
      assert other == week;
    }
  }

  /** A span the constructor accepts starts within its week and leaves the market open for some of every week and
      shut for some. */
  lemma ValidExactly(c: WeeklyClosure)
    ensures c.Valid() <==>
              0 <= c.startS < 604_800 && (exists t :: c.Contains(t)) && (exists t :: !c.Contains(t))
  {
    if c.Valid() {
      Inside(c);
      Outside(c);
    }
  }

  lemma Inside(c: WeeklyClosure)
    requires c.Valid()
    ensures exists t :: c.Contains(t)
  {
    var t := MondayOf(0) + c.startS;
    ContainsIsWeekly(c, t);
  }

  lemma Outside(c: WeeklyClosure)
    requires c.Valid()
    ensures exists t :: !c.Contains(t)
  {
    var t := MondayOf(0) + c.endS;
    ContainsInPeriod(c, 0, t);
  }

  // ----- freshness -----------------------------------------------------------------------------

  /** The milliseconds from one instant to a later one that lie outside the span; back in time, all of them, as
      less than nothing. */
  ghost function OpenMs(closure: Option<WeeklyClosure>, since: int, until: int): int
    decreases until - since
  {
    if until <= since then until - since
    else OpenMs(closure, since, until - 1)
         + if closure.Some? && closure.value.Contains((until - 1) / 1000) then 0 else 1
  }

  lemma {:induction false} OpenMsIs(closure: Option<WeeklyClosure>, since: int, until: int)
    ensures OpenMs(closure, since, until)
            == until - since - if closure.Some? then closure.value.ClosedCount(since, until) else 0
    decreases until - since
  {
    if since < until {
      OpenMsIs(closure, since, until - 1);
    }
  }

  /** A verdict is given unless nothing was read or the reading lies in the closed span; it is fresh while no more
      than the limit has passed outside the span. */
  lemma FreshExactly(readingMs: Option<int>, limitS: int, asOfMs: int, closure: Option<WeeklyClosure>)
    requires closure.Some? ==> closure.value.Valid()
    ensures var verdict := Verdict(readingMs, limitS, asOfMs, closure);
            && (verdict.None? <==>
                  readingMs.None? || (closure.Some? && ClosedAt(closure.value, readingMs.value / 1000)))
            && (verdict.Some? ==> (verdict.value <==> OpenMs(closure, readingMs.value, asOfMs) <= limitS * 1000))
  {
    if readingMs.Some? {
      OpenMsIs(closure, readingMs.value, asOfMs);
      if closure.Some? {
        ContainsIsWeekly(closure.value, readingMs.value / 1000);
      }
    }
  }

  // ----- what a proposal is cut from -----------------------------------------------------------

  /** The pool is every round of every feed, as often as it was published. */
  lemma {:induction false} PoolIsEveryRound(rounds: seq<seq<int>>, more: seq<int>)
    ensures Pool([]) == [] && Pool(rounds + [more]) == Pool(rounds) + more
  {
    if rounds == [] {
      assert ([] + [more])[0] == more && ([] + [more])[1..] == [];
      assert rounds + [more] == [] + [more];
    } else {
      PoolIsEveryRound(rounds[1..], more);
      assert (rounds + [more])[1..] == rounds[1..] + [more];
    }
  }

  /** The positions are the places in their weeks of the pooled rounds, and no others. */
  lemma PositionsAre(times: seq<int>, p: int)
    ensures p in Positions(times) <==> exists t :: t in times && p == (t - 345_600) % 604_800
  {
    var raw := WeekPositions(times);
    SortHolds(IntLe, raw);
    PositionsHold(times);
    if p in Positions(times) {
      var k :| 0 <= k < |raw| && raw[k] == p;
      assert times[k] in times;
    }
  }

  /** The widest gap runs from one position to the next, around the end of the week for the last; no other is wider,
      and of those as wide none starts later. */
  lemma WidestIs(positions: seq<int>) returns (k: nat)
    requires StrictlyAscending(positions) && positions != []
    ensures k < |positions|
    ensures var g := WidestFrom(positions, 0);
            && g.after == positions[k]
            && g.before == (if k + 1 < |positions| then positions[k + 1] else positions[0] + 604_800)
            && forall j :: 0 <= j < |positions| ==>
                 var next := if j + 1 < |positions| then positions[j + 1] else positions[0] + 604_800;
                 next - positions[j] < g.before - g.after
                 || (next - positions[j] == g.before - g.after && positions[j] <= g.after)
  {
    var g := WidestFrom(positions, 0);
    k :| k < |positions| && g == GapAt(positions, k);
    forall j | 0 <= j < |positions|
      ensures var next := if j + 1 < |positions| then positions[j + 1] else positions[0] + 604_800;
              next - positions[j] < g.before - g.after
              || (next - positions[j] == g.before - g.after && positions[j] <= g.after)
    {
      assert NoWider(GapAt(positions, j), g);
    }
  }

  /** What the guard leaves of a gap starts and ends on the grid, and no more is cut than that takes. */
  lemma ShrinkExactly(gap: Gap, guardS: int, gridS: int)
    requires gridS > 0
    ensures var span := Shrink(gap, guardS, gridS);
            && span.0 % gridS == 0 && span.1 % gridS == 0
            && span.0 - gridS < gap.after + guardS <= span.0
            && span.1 <= gap.before - guardS < span.1 + gridS
  {
    var low, high := gap.after + guardS, gap.before - guardS;
    OnGrid(high, gridS);
    OnGrid(-low, gridS);
    Negated(-low / gridS, gridS);
  }

  lemma OnGrid(x: int, gridS: int)
    requires gridS > 0
    ensures x / gridS * gridS <= x < x / gridS * gridS + gridS && (x / gridS * gridS) % gridS == 0
  {
    Whole(x / gridS, gridS);
  }

  lemma Whole(q: int, gridS: int)
    requires gridS > 0
    ensures (q * gridS) % gridS == 0
  {
    var e := q * gridS / gridS - q;
    assert gridS * (q * gridS / gridS) == q * gridS + gridS * e - 0 * gridS;
    assert e >= 1 ==> gridS * e >= gridS;
    assert e <= -1 ==> gridS * e <= -gridS;
  }

  lemma Negated(q: int, gridS: int)
    requires gridS > 0
    ensures -q * gridS == -(q * gridS) && (-q * gridS) % gridS == 0
  {
    Whole(-q, gridS);
  }

  /** Brought back into its week, a span is as long as it was and at the same place in the week. */
  lemma WrapKeepsTheSpan(span: (int, int))
    requires 0 <= span.0 < 2 * 604_800
    ensures var c := Wrap(span);
            0 <= c.startS < 604_800 && c.endS - c.startS == span.1 - span.0 && (span.0 - c.startS) % 604_800 == 0
  {
  }
}

/** Limits on positions, cash and single trades. */
module Gates {
  // How far a score may move a position, how buys are funded, and how a move is split. Weights are
  // fractions of the NAV and money is USD, both exact.

  import opened Wrappers

  /** None is unresolved, and blocks. */
  datatype Limits = Limits(maxPositionWeight: Option<real>, cashFloorUsd: Option<real>,
                           minOrderUsd: Option<real>, maxTradeUsd: Option<real>,
                           turnoverMaxBps: Option<real>)

  // ----- moving one position ------------------------------------------------------------------

  /** The rise a step is allowed: all of it, or what room is left under the limit. */
  function RaiseBy(current: real, step: real, limits: Limits): Option<real> {
    if limits.maxPositionWeight.None? then None
    else
      var room := limits.maxPositionWeight.value - current;
      if room <= 0.0 then Some(0.0) else Some(if step <= room then step else room)
  }

  /** The cut a step is allowed: all of it, or all that is there. */
  function CutBy(current: real, step: real): real { if step <= current then step else current }

  // ----- funding and splitting -----------------------------------------------------------------

  /** What proportion of the buys can be paid from the cash that is above the floor. */
  function Fund(cashUsd: real, proceedsUsd: real, wantedUsd: real, limits: Limits): Option<real> {
    if limits.cashFloorUsd.None? then None
    else if wantedUsd <= 0.0 then Some(1.0)
    else
      var spare := cashUsd + proceedsUsd - limits.cashFloorUsd.value;
      if spare <= 0.0 then Some(0.0)
      else if wantedUsd <= spare then Some(1.0)
      else Some(spare / wantedUsd)
  }

  /** What is funded costs at most what cash holds above the floor, and never more than is wanted. */
  lemma FundKeepsFloor(cashUsd: real, proceedsUsd: real, wantedUsd: real, limits: Limits)
    requires wantedUsd >= 0.0 && Fund(cashUsd, proceedsUsd, wantedUsd, limits).Some?
    ensures var share := Fund(cashUsd, proceedsUsd, wantedUsd, limits).value;
            var spare := cashUsd + proceedsUsd - limits.cashFloorUsd.value;
            && 0.0 <= share <= 1.0
            && wantedUsd * share == if wantedUsd <= spare then wantedUsd
                                    else if spare > 0.0 then spare else 0.0
  {
  }

  /** How many orders a move is made in; too small a move is not made. */
  function Split(worthUsd: real, limits: Limits): Option<int>
    requires limits.maxTradeUsd.Some? ==> limits.maxTradeUsd.value > 0.0
  {
    if limits.maxTradeUsd.None? || limits.minOrderUsd.None? then None
    else if worthUsd < limits.minOrderUsd.value then Some(0)
    else
      var size := limits.maxTradeUsd.value;
      var whole := Truncate(worthUsd / size);
      var rest := worthUsd - whole as real * size;
      Some(whole + if rest != 0.0 then 1 else 0)
  }

  /** Toward zero, as decimal division keeps its whole part. */
  function Truncate(x: real): int { if x >= 0.0 then x.Floor else -((-x).Floor) }

  /** n parts of a non-negative worth are enough exactly when n sizes cover it, and Split is least. */
  lemma SplitIsFewest(worthUsd: real, limits: Limits, n: int)
    requires limits.maxTradeUsd.Some? && limits.maxTradeUsd.value > 0.0 && limits.minOrderUsd.Some?
    requires worthUsd >= 0.0 && worthUsd >= limits.minOrderUsd.value
    ensures var count := Split(worthUsd, limits).value;
            && count >= 0
            && worthUsd <= count as real * limits.maxTradeUsd.value
            && (worthUsd <= n as real * limits.maxTradeUsd.value ==> count <= n)
  {
    var size := limits.maxTradeUsd.value;
    CeilingIsLeast(worthUsd, size, n);
  }

  lemma CeilingIsLeast(w: real, size: real, n: int)
    requires size > 0.0 && w >= 0.0
    ensures var whole := (w / size).Floor;
            && whole >= 0 && whole as real * size <= w < (whole + 1) as real * size
            && (w <= n as real * size ==> whole <= n && (w != whole as real * size ==> whole + 1 <= n))
  {
    WholeSizes(w, size);
    if w <= n as real * size {
      ScaleBack(w / size, n as real, size);
    }
  }

  lemma Quotient(w: real, size: real)
    requires size > 0.0 && w >= 0.0
    ensures w / size * size == w && w / size >= 0.0
  {
  }

  lemma Between(lo: real, q: real, hi: real, w: real, size: real)
    requires size > 0.0 && q * size == w && lo <= q < hi
    ensures lo * size <= w < hi * size
  {
    Scale(lo, q, size);
    Scale(q, hi, size);
  }

  lemma WholeSizes(w: real, size: real)
    requires size > 0.0 && w >= 0.0
    ensures var whole := (w / size).Floor;
            whole >= 0 && whole as real * size <= w < (whole + 1) as real * size
    ensures w / size * size == w
  {
    Quotient(w, size);
    var q := w / size;
    Between(q.Floor as real, q, (q.Floor + 1) as real, w, size);
  }

  lemma Scale(a: real, b: real, size: real)
    requires size > 0.0
    ensures a <= b ==> a * size <= b * size
    ensures a < b ==> a * size < b * size
  {
  }

  lemma ScaleBack(a: real, b: real, size: real)
    requires size > 0.0 && a * size <= b * size
    ensures a <= b
  {
  }
}

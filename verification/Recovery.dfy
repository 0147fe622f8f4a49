/** What a start finds of the run before it, and settles, order by order, before a cycle may begin. */
module Recovery {
  import opened Wrappers
  import opened Orders

  const STALE_INTENT := "stale-intent: found at startup, never sent"
  const NO_FILL := "found at startup with no fill"
  const ITS_FILL := "found at startup: the journal holds its fill"

  /** What the chain says of a live order in flight, when it says anything. */
  type Reader = Order -> Option<Reply>

  predicate InFlight(o: Order) { o.state == Submitted || o.state == Unknown }

  /** Order i settled, by what was booked when the start began. */
  function ResolveAt(db: Db, i: nat, booked: set<int>, read: Reader): Result<Db, Trouble>
    requires i < |db.orders|
  {
    var o := db.orders[i];
    if o.state == Prepared then Move(db, o.id, Refused, Some(STALE_INTENT), false)
    else if !InFlight(o) then Ok(db)
    else if o.id in booked then Move(db, o.id, Confirmed, Some(ITS_FILL), false)
    else if o.mode == Live then
      var outcome := read(o);
      if outcome.None? || outcome.value.state == Unknown then Err(NotReady(o.id))
      else Settle(db, o.id, outcome.value)
    else Move(db, o.id, Failed, Some(NO_FILL), false)
  }

  /** The orders from i up to n, each in its own transaction, up to the first that cannot be settled. */
  function ResolveUpTo(db: Db, i: nat, n: nat, booked: set<int>, read: Reader): (Db, Option<Trouble>)
    requires i <= n <= |db.orders|
    decreases n - i
  {
    if i == n then (db, None)
    else match ResolveAt(db, i, booked, read)
      case Err(t) => (db, Some(t))
      case Ok(next) =>
        MoveKeepsRows(db, i, booked, read);
        ResolveUpTo(next, i + 1, n, booked, read)
  }

  /** A whole start: what is stored after it, and why the cycle is refused if it is. */
  function Resolve(db: Db, read: Reader): (Db, Option<Trouble>) {
    ResolveUpTo(db, 0, |db.orders|, Booked(db.events), read)
  }

  lemma MoveKeepsRows(db: Db, i: nat, booked: set<int>, read: Reader)
    requires i < |db.orders| && ResolveAt(db, i, booked, read).Ok?
    ensures |ResolveAt(db, i, booked, read).value.orders| == |db.orders|
  {
  }

  /** Settling one order makes it final, and touches no other order and no other order's fills. */
  lemma OneOrderSettled(db: Db, i: nat, booked: set<int>, read: Reader)
    requires i < |db.orders| && WrittenOnce(db.orders) && ResolveAt(db, i, booked, read).Ok?
    ensures var next := ResolveAt(db, i, booked, read).value;
            && |next.orders| == |db.orders|
            && next.orders == db.orders[i := next.orders[i]] && Final(next.orders[i].state)
            && next.orders[i].id == db.orders[i].id && next.orders[i].key == db.orders[i].key
            && WrittenOnce(next.orders)
            && forall id :: id != db.orders[i].id ==> (id in Booked(next.events) <==> id in Booked(db.events))
  {
    var o := db.orders[i];
    FindsIt(db.orders, i);
    if InFlight(o) && o.id !in booked && o.mode == Live {
      SettleIs(db, o.id, read(o).value);
    }
  }

  /** A start settles nothing but what it finds unsettled. */
  lemma FinalIsLeft(db: Db, i: nat, booked: set<int>, read: Reader)
    requires i < |db.orders| && Final(db.orders[i].state)
    ensures ResolveAt(db, i, booked, read) == Ok(db)
  {
  }

  lemma {:induction false} UpToSettles(db: Db, i: nat, n: nat, booked: set<int>, read: Reader)
    requires i <= n <= |db.orders| && WrittenOnce(db.orders)
    ensures var (after, trouble) := ResolveUpTo(db, i, n, booked, read);
            && |after.orders| == |db.orders| && WrittenOnce(after.orders)
            && (forall k :: 0 <= k < |db.orders| ==> after.orders[k].id == db.orders[k].id)
            && (forall k :: 0 <= k < i || n <= k < |db.orders| ==> after.orders[k] == db.orders[k])
            && (trouble.None? ==> forall k :: i <= k < n ==> Final(after.orders[k].state))
            && (forall k :: 0 <= k < i || n <= k < |db.orders| ==>
                  (db.orders[k].id in Booked(after.events) <==> db.orders[k].id in Booked(db.events)))
    decreases n - i
  {
    if i < n && ResolveAt(db, i, booked, read).Ok? {
      OneOrderSettled(db, i, booked, read);
      UpToSettles(ResolveAt(db, i, booked, read).value, i + 1, n, booked, read);
    }
  }

  /** A start that is not refused leaves every order final. */
  lemma ResolvedMeansFinal(db: Db, read: Reader)
    requires WrittenOnce(db.orders) && Resolve(db, read).1.None?
    ensures forall i :: 0 <= i < |Resolve(db, read).0.orders| ==> Final(Resolve(db, read).0.orders[i].state)
  {
    UpToSettles(db, 0, |db.orders|, Booked(db.events), read);
  }

  // ----- interrupted and run again -------------------------------------------------------------

  lemma {:induction false} SkipsFinal(db: Db, i: nat, m: nat, n: nat, booked: set<int>, read: Reader)
    requires i <= m <= n <= |db.orders| && forall k :: i <= k < m ==> Final(db.orders[k].state)
    ensures ResolveUpTo(db, i, n, booked, read) == ResolveUpTo(db, m, n, booked, read)
    decreases m - i
  {
    if i < m {
      FinalIsLeft(db, i, booked, read);
      SkipsFinal(db, i + 1, m, n, booked, read);
    }
  }

  /** Only what is said of the orders still to settle matters of the bookings. */
  lemma {:induction false} BookingsThatMatter(db: Db, i: nat, n: nat, a: set<int>, b: set<int>, read: Reader)
    requires i <= n <= |db.orders| && WrittenOnce(db.orders)
    requires forall k :: i <= k < n ==> (db.orders[k].id in a <==> db.orders[k].id in b)
    ensures ResolveUpTo(db, i, n, a, read) == ResolveUpTo(db, i, n, b, read)
    decreases n - i
  {
    if i < n && ResolveAt(db, i, a, read).Ok? {
      OneOrderSettled(db, i, a, read);
      var next := ResolveAt(db, i, a, read).value;
      BookingsThatMatter(next, i + 1, n, a, b, read);
    }
  }

  lemma {:induction false} GoesOn(db: Db, i: nat, m: nat, n: nat, booked: set<int>, read: Reader)
    requires i <= m <= n <= |db.orders| && WrittenOnce(db.orders)
    requires ResolveUpTo(db, i, m, booked, read).1.None?
    ensures |ResolveUpTo(db, i, m, booked, read).0.orders| == |db.orders|
    ensures ResolveUpTo(db, i, n, booked, read)
            == ResolveUpTo(ResolveUpTo(db, i, m, booked, read).0, m, n, booked, read)
    decreases m - i
  {
    if i < m {
      OneOrderSettled(db, i, booked, read);
      GoesOn(ResolveAt(db, i, booked, read).value, i + 1, m, n, booked, read);
    }
  }

  /** Killed after settling any number of orders and started again, a start ends as it would have. */
  lemma InterruptedThenResumed(db: Db, m: nat, read: Reader)
    requires m <= |db.orders| && WrittenOnce(db.orders)
    requires ResolveUpTo(db, 0, m, Booked(db.events), read).1.None?
    ensures Resolve(ResolveUpTo(db, 0, m, Booked(db.events), read).0, read) == Resolve(db, read)
  {
    var n, booked := |db.orders|, Booked(db.events);
    var part := ResolveUpTo(db, 0, m, booked, read).0;
    UpToSettles(db, 0, m, booked, read);
    GoesOn(db, 0, m, n, booked, read);
    SkipsFinal(part, 0, m, n, Booked(part.events), read);
    BookingsThatMatter(part, m, n, Booked(part.events), booked, read);
  }

  lemma {:induction false} StopsSomewhere(db: Db, i: nat, n: nat, booked: set<int>, read: Reader) returns (m: nat)
    requires i <= n <= |db.orders| && WrittenOnce(db.orders)
    ensures i <= m <= n && ResolveUpTo(db, i, m, booked, read) == (ResolveUpTo(db, i, n, booked, read).0, None)
    decreases n - i
  {
    if i == n || ResolveAt(db, i, booked, read).Err? {
      m := i;
    } else {
      OneOrderSettled(db, i, booked, read);
      m := StopsSomewhere(ResolveAt(db, i, booked, read).value, i + 1, n, booked, read);
    }
  }

  /** A second start finds what the first left, and says the same. */
  lemma ResolveIsIdempotent(db: Db, read: Reader)
    requires WrittenOnce(db.orders)
    ensures Resolve(Resolve(db, read).0, read) == Resolve(db, read)
  {
    var m := StopsSomewhere(db, 0, |db.orders|, Booked(db.events), read);
    InterruptedThenResumed(db, m, read);
  }

  // ----- on the worlds a run can reach ---------------------------------------------------------

  /** Whether the chain settles a live order in flight, with what a settled order must carry. */
  predicate Settleable(o: Order, read: Reader) {
    InFlight(o) && o.mode == Live ==>
      var outcome := read(o);
      && outcome.Some? && outcome.value.state != Unknown
      && Consistent(o.(state := outcome.value.state, reason := outcome.value.reason,
                        evidence := outcome.value.evidence))
  }

  /** What was booked when the start began says the same of every order still to settle. */
  ghost predicate SaysTheSame(db: Db, i: nat, booked: set<int>) {
    forall k :: i <= k < |db.orders| ==> (db.orders[k].id in booked <==> db.orders[k].id in Booked(db.events))
  }

  /** The transaction that settles an order which is not final. */
  function SettlingStep(o: Order, read: Reader): Step
    requires o.mode == Live && InFlight(o) ==> read(o).Some?
  {
    if o.state == Prepared then Refuses(o.id, STALE_INTENT)
    else if o.mode == Live && InFlight(o) then Settles(o.id, read(o).value)
    else FailsUnfilled(o.id, NO_FILL)
  }

  lemma SettlingIsAStep(db: Db, i: nat, booked: set<int>, read: Reader)
    requires i < |db.orders| && !Final(db.orders[i].state)
    requires db.orders[i].id !in booked && db.orders[i].id !in Booked(db.events)
    requires var o := db.orders[i]; o.mode == Live && InFlight(o) ==> read(o).Some? && read(o).value.state != Unknown
    ensures ResolveAt(db, i, booked, read) == Do(db, SettlingStep(db.orders[i], read))
  {
  }

  lemma UnsettledIsUnbooked(w: World, i: nat)
    requires Sound(w) && i < |w.db.orders| && !Final(w.db.orders[i].state)
    ensures w.db.orders[i].id !in Booked(w.db.events)
  {
    BookedIsFilled(w.db.events, w.db.orders[i].id);
    assert Accounted(w.db.orders[i], w.db.events, w.sent);
  }

  lemma SettlingKeepsSound(w: World, i: nat, booked: set<int>, read: Reader)
    requires Sound(w) && i < |w.db.orders| && SaysTheSame(w.db, i, booked)
    requires ResolveAt(w.db, i, booked, read).Ok?
    ensures Sound(World(ResolveAt(w.db, i, booked, read).value, w.sent))
  {
    if Final(w.db.orders[i].state) {
      FinalIsLeft(w.db, i, booked, read);
    } else {
      UnsettledIsUnbooked(w, i);
      SettlingIsAStep(w.db, i, booked, read);
      StepKeepsSound(w, SettlingStep(w.db.orders[i], read));
    }
  }

  /** An order is settled exactly when the chain settles it, if it is live and in flight. */
  lemma SettledExactlyWhen(w: World, i: nat, booked: set<int>, read: Reader)
    requires Sound(w) && i < |w.db.orders| && SaysTheSame(w.db, i, booked)
    ensures ResolveAt(w.db, i, booked, read).Ok? <==> Settleable(w.db.orders[i], read)
  {
    var o := w.db.orders[i];
    FindsIt(w.db.orders, i);
    if !Final(o.state) {
      UnsettledIsUnbooked(w, i);
      if o.mode == Live && InFlight(o) && read(o).Some? && read(o).value.state != Unknown {
        SettleSucceedsWhen(w.db, i, read(o).value);
      }
    }
  }

  lemma SettleSucceedsWhen(db: Db, i: nat, outcome: Reply)
    requires WrittenOnce(db.orders) && i < |db.orders| && db.orders[i].id !in Booked(db.events)
    requires InFlight(db.orders[i]) && outcome.state != Unknown
    ensures var o := db.orders[i];
            Settle(db, o.id, outcome).Ok? <==>
            Consistent(o.(state := outcome.state, reason := outcome.reason, evidence := outcome.evidence))
  {
    FindsIt(db.orders, i);
  }

  lemma StillTheSame(db: Db, i: nat, booked: set<int>, read: Reader)
    requires i < |db.orders| && WrittenOnce(db.orders) && SaysTheSame(db, i, booked)
    requires ResolveAt(db, i, booked, read).Ok?
    ensures var next := ResolveAt(db, i, booked, read).value;
            && |next.orders| == |db.orders| && SaysTheSame(next, i + 1, booked)
            && forall k :: i < k < |next.orders| ==> next.orders[k] == db.orders[k]
  {
    OneOrderSettled(db, i, booked, read);
    var next := ResolveAt(db, i, booked, read).value;
    forall k | i < k < |next.orders|
      ensures next.orders[k] == db.orders[k]
            && (next.orders[k].id in booked <==> next.orders[k].id in Booked(next.events))
    {
      assert db.orders[k].id != db.orders[i].id;
    }
  }

  /** The next world of a start: sound, and as much to settle. */
  lemma StartStep(w: World, i: nat, booked: set<int>, read: Reader) returns (next: World)
    requires Sound(w) && i < |w.db.orders| && SaysTheSame(w.db, i, booked)
    requires ResolveAt(w.db, i, booked, read).Ok?
    ensures next == World(ResolveAt(w.db, i, booked, read).value, w.sent)
    ensures Sound(next) && |next.db.orders| == |w.db.orders| && SaysTheSame(next.db, i + 1, booked)
    ensures forall k :: i < k < |w.db.orders| ==> next.db.orders[k] == w.db.orders[k]
  {
    next := World(ResolveAt(w.db, i, booked, read).value, w.sent);
    SettlingKeepsSound(w, i, booked, read);
    StillTheSame(w.db, i, booked, read);
  }

  ghost predicate AllSettleable(orders: seq<Order>, i: nat, read: Reader) {
    forall k :: i <= k < |orders| ==> Settleable(orders[k], read)
  }

  lemma SettleableFrom(a: seq<Order>, b: seq<Order>, i: nat, read: Reader)
    requires i < |a| == |b| && forall k :: i < k < |a| ==> b[k] == a[k]
    ensures AllSettleable(a, i, read) <==> Settleable(a[i], read) && AllSettleable(b, i + 1, read)
  {
    if Settleable(a[i], read) && AllSettleable(b, i + 1, read) {
      forall k | i <= k < |a| ensures Settleable(a[k], read) {
        assert k == i || b[k] == a[k];
      }
    }
    if AllSettleable(a, i, read) {
      forall k | i < k < |b| ensures Settleable(b[k], read) {
        assert b[k] == a[k];
      }
    }
  }

  /** What is kept from one order of a start to the next. */
  type Keeps = (Db, nat) -> bool

  /** From any store that is kept, an order is settled exactly when it can be, and the next store is kept. */
  ghost predicate Carries(keeps: Keeps, booked: set<int>, read: Reader) {
    forall db, i: nat :: keeps(db, i) && i < |db.orders| ==> CarriesAt(keeps, db, i, booked, read)
  }

  ghost predicate CarriesAt(keeps: Keeps, db: Db, i: nat, booked: set<int>, read: Reader)
    requires i < |db.orders|
  {
    match ResolveAt(db, i, booked, read)
    case Err(_) => !Settleable(db.orders[i], read)
    case Ok(next) =>
      && Settleable(db.orders[i], read) && keeps(next, i + 1) && |next.orders| == |db.orders|
      && forall k :: i < k < |db.orders| ==> next.orders[k] == db.orders[k]
  }

  /** Such a start ends in a kept store, and is refused exactly when some order cannot be settled. */
  lemma {:induction false} StartCarries(keeps: Keeps, db: Db, i: nat, booked: set<int>, read: Reader) returns (m: nat)
    requires Carries(keeps, booked, read) && i <= |db.orders| && keeps(db, i)
    ensures keeps(ResolveUpTo(db, i, |db.orders|, booked, read).0, m)
    ensures ResolveUpTo(db, i, |db.orders|, booked, read).1.None? <==> AllSettleable(db.orders, i, read)
    decreases |db.orders| - i
  {
    m := i;
    if i < |db.orders| {
      assert CarriesAt(keeps, db, i, booked, read);
      var r := ResolveAt(db, i, booked, read);
      if r.Ok? {
        m := StartCarries(keeps, r.value, i + 1, booked, read);
        SettleableFrom(db.orders, r.value.orders, i, read);
      }
    }
  }

  /** Soundness is carried. */
  ghost function SoundFrom(sent: set<int>, booked: set<int>): Keeps {
    (db: Db, i: nat) => IsSoundFrom(db, sent, i, booked)
  }

  ghost predicate IsSoundFrom(db: Db, sent: set<int>, i: nat, booked: set<int>) {
    Sound(World(db, sent)) && SaysTheSame(db, i, booked)
  }

  lemma SoundnessCarries(sent: set<int>, booked: set<int>, read: Reader)
    ensures Carries(SoundFrom(sent, booked), booked, read)
  {
    forall db, i: nat | SoundFrom(sent, booked)(db, i) && i < |db.orders|
      ensures CarriesAt(SoundFrom(sent, booked), db, i, booked, read)
    {
      SettledExactlyWhen(World(db, sent), i, booked, read);
      if ResolveAt(db, i, booked, read).Ok? {
        var next := StartStep(World(db, sent), i, booked, read);
      }
    }
  }

  /** A start keeps the books and the orders in step even when it is refused, and it is refused exactly
      when some live order in flight is not settled by the chain. */
  lemma StartRefusesExactlyWhen(steps: seq<Step>, read: Reader)
    ensures var w := Run(steps);
            && Sound(World(Resolve(w.db, read).0, w.sent))
            && (Resolve(w.db, read).1.None? <==> AllSettleable(w.db.orders, 0, read))
  {
    EveryRunIsSound(steps);
    var w := Run(steps);
    var booked := Booked(w.db.events);
    SoundnessCarries(w.sent, booked, read);
    var m := StartCarries(SoundFrom(w.sent, booked), w.db, 0, booked, read);
  }

  // ----- the branch no run reaches -------------------------------------------------------------

  /** An order in flight with a fill is confirmed by it exactly when it is a paper order: a live one
      would need its evidence, which that branch does not give it. */
  lemma BookedInFlight(db: Db, i: nat, booked: set<int>, read: Reader)
    requires i < |db.orders| && WrittenOnce(db.orders) && InFlight(db.orders[i]) && db.orders[i].id in booked
    ensures ResolveAt(db, i, booked, read).Ok? <==> db.orders[i].mode == Paper
    ensures db.orders[i].mode == Live ==> ResolveAt(db, i, booked, read) == Err(Inconsistent(db.orders[i].id))
  {
    FindsIt(db.orders, i);
  }

  /** No run leaves an order in flight with a fill. */
  lemma NoneInFlightIsBooked(steps: seq<Step>, i: nat)
    requires i < |Run(steps).db.orders| && InFlight(Run(steps).db.orders[i])
    ensures Run(steps).db.orders[i].id !in Booked(Run(steps).db.events)
  {
    EveryRunIsSound(steps);
    BookedIsFilled(Run(steps).db.events, Run(steps).db.orders[i].id);
  }
}

/**
 Orders, the journal of what moved value, and what every committed write of either keeps. A run of
 the fund, crashes included, is a sequence of committed transactions.
 */
module Orders {
  import opened Wrappers

  datatype State = Prepared | Submitted | Unknown | Confirmed | Failed | Refused

  datatype Mode = Paper | Live

  /** `evidence` is whether the order carries what the chain shows of it. */
  datatype Order = Order(id: int, key: int, mode: Mode, sell: int, state: State,
                         reason: Option<string>, evidence: bool)

  // ----- the moves -----------------------------------------------------------------------------

  function Moves(state: State): set<State> {
    match state
    case Prepared => {Submitted, Refused}
    case Submitted => {Confirmed, Failed, Unknown}
    case Unknown => {Confirmed, Failed, Submitted}
    case _ => {}
  }

  predicate Final(state: State) { Moves(state) == {} }

  /** What an order requires of its own fields. */
  predicate Consistent(o: Order) {
    && (o.state in {Unknown, Failed, Refused} ==> o.reason.Some? && o.reason.value != "")
    && (o.evidence ==> o.state !in {Prepared, Submitted, Refused} && o.mode == Live)
    && (o.state == Confirmed && o.mode == Live ==> o.evidence)
  }

  datatype Trouble = IllegalMove(id: int) | Inconsistent(id: int) | NoOrder(id: int) | AnotherOrder(id: int)
                   | NotPrepared(id: int) | KeyTaken(id: int) | AlreadyFilled(id: int) | KindNotKept
                   | NotReady(id: int)

  /** The order in state `to`, if that is a move and the order it makes is consistent. */
  function Transition(o: Order, to: State, reason: Option<string>, evidence: bool): (r: Result<Order, Trouble>)
    ensures r.Ok? <==> to in Moves(o.state) && Consistent(o.(state := to, reason := reason, evidence := evidence))
    ensures r.Ok? ==> r.value.id == o.id && r.value.key == o.key && r.value.mode == o.mode && r.value.sell == o.sell
                      && r.value.state == to && !Final(o.state)
  {
    if to !in Moves(o.state) then Err(IllegalMove(o.id))
    else
      var moved := o.(state := to, reason := reason, evidence := evidence);
      if Consistent(moved) then Ok(moved) else Err(Inconsistent(o.id))
  }

  // ----- the two tables ------------------------------------------------------------------------

  datatype Event = Opening | Fill(order: int) | Fee(about: Option<int>) | Inference | Transfer

  /** The orders in the order they were written, and the events in the order they were kept. */
  datatype Db = Db(orders: seq<Order>, events: seq<Event>)

  function Fills(events: seq<Event>, id: int): nat {
    if events == [] then 0
    else Fills(events[..|events| - 1], id) + if events[|events| - 1] == Fill(id) then 1 else 0
  }

  /** The orders the journal holds a fill for. */
  function Booked(events: seq<Event>): set<int> {
    set e | e in events && e.Fill? :: e.order
  }

  lemma {:induction false} BookedIsFilled(events: seq<Event>, id: int)
    ensures id in Booked(events) <==> Fills(events, id) > 0
  {
    if events != [] {
      var n := |events| - 1;
      BookedIsFilled(events[..n], id);
      assert events == events[..n] + [events[n]];
      assert id in Booked(events) <==> Fill(id) in events;
      assert id in Booked(events[..n]) <==> Fill(id) in events[..n];
    }
  }

  lemma FillsOneMore(events: seq<Event>, e: Event, id: int)
    ensures Fills(events + [e], id) == Fills(events, id) + if e == Fill(id) then 1 else 0
  {
    assert (events + [e])[..|events + [e]| - 1] == events;
  }

  /** One event kept: the journal knows four kinds, and one fill an order. */
  function Append(db: Db, e: Event): Result<Db, Trouble> {
    if e.Transfer? then Err(KindNotKept)
    else if e.Fill? && e.order in Booked(db.events) then Err(AlreadyFilled(e.order))
    else Ok(db.(events := db.events + [e]))
  }

  /** Where an order is stored. */
  function IndexOf(orders: seq<Order>, id: int): (i: int)
    ensures -1 <= i < |orders| && (i >= 0 ==> orders[i].id == id)
    ensures i < 0 ==> forall k :: 0 <= k < |orders| ==> orders[k].id != id
  {
    if orders == [] then -1
    else if orders[|orders| - 1].id == id then |orders| - 1
    else IndexOf(orders[..|orders| - 1], id)
  }

  /** Write an order prepared; one that is stored already stands as it is. */
  function Add(db: Db, o: Order): Result<Db, Trouble> {
    var i := IndexOf(db.orders, o.id);
    if i >= 0 then
      if db.orders[i].key != o.key || db.orders[i].sell != o.sell then Err(AnotherOrder(o.id)) else Ok(db)
    else if o.state != Prepared then Err(NotPrepared(o.id))
    else if exists k :: 0 <= k < |db.orders| && db.orders[k].key == o.key then Err(KeyTaken(o.id))
    else Ok(db.(orders := db.orders + [o]))
  }

  function Move(db: Db, id: int, to: State, reason: Option<string>, evidence: bool): Result<Db, Trouble> {
    var i := IndexOf(db.orders, id);
    if i < 0 then Err(NoOrder(id))
    else match Transition(db.orders[i], to, reason, evidence)
      case Err(t) => Err(t)
      case Ok(moved) => Ok(db.(orders := db.orders[i := moved]))
  }

  // ----- one committed transaction -------------------------------------------------------------

  /** What came of a submission, and what it booked. */
  datatype Outcome = Outcome(state: State, reason: Option<string>, fill: bool, fee: bool, evidence: bool)

  /** Confirmed and filled go together, and nothing is booked while the outcome is open. */
  predicate Honest(o: Outcome) {
    && o.state in {Confirmed, Failed, Unknown}
    && (o.fill <==> o.state == Confirmed)
    && (o.fee ==> o.state != Unknown)
  }

  /** An executor's word, which refuses to be anything else. */
  type Reply = o: Outcome | Honest(o) witness Outcome(Unknown, None, false, false, false)

  /** Everything an outcome books and the move it makes: all of it or none. */
  function Settle(db: Db, id: int, o: Outcome): Result<Db, Trouble> {
    var filled := if o.fill then Append(db, Fill(id)) else Ok(db);
    if filled.Err? then filled
    else
      var paid := if o.fee then Append(filled.value, Fee(Some(id))) else filled;
      if paid.Err? then paid else Move(paid.value, id, o.state, o.reason, o.evidence)
  }

  datatype Step =
    | Adds(order: Order)
    | Keeps(event: Event)
    | Refuses(id: int, reason: string)
    | Sends(id: int)
    | Settles(id: int, outcome: Reply)
    | FailsUnfilled(id: int, reason: string)

  /** The stored state, and which orders were ever sent. */
  datatype World = World(db: Db, sent: set<int>)

  /** What one transaction makes of the tables, or why it is refused. */
  function Do(db: Db, step: Step): Result<Db, Trouble> {
    match step
    case Adds(o) => Add(db, o)
    case Keeps(e) => if e.Fill? then Err(AlreadyFilled(e.order)) else Append(db, e)
    case Refuses(id, reason) => Move(db, id, Refused, Some(reason), false)
    case Sends(id) => Move(db, id, Submitted, None, false)
    case Settles(id, o) => Settle(db, id, o)
    case FailsUnfilled(id, reason) =>
      if id in Booked(db.events) then Err(AlreadyFilled(id)) else Move(db, id, Failed, Some(reason), false)
  }

  /** The tables after one transaction; one that is refused leaves them as they were. */
  function Next(db: Db, step: Step): Db {
    match Do(db, step)
    case Err(_) => db
    case Ok(next) => next
  }

  function Apply(w: World, step: Step): World {
    World(Next(w.db, step), if step.Sends? && Do(w.db, step).Ok? then w.sent + {step.id} else w.sent)
  }

  function Run(steps: seq<Step>): World {
    if steps == [] then World(Db([], []), {})
    else Apply(Run(steps[..|steps| - 1]), steps[|steps| - 1])
  }

  // ----- what every run keeps ------------------------------------------------------------------

  ghost predicate WrittenOnce(orders: seq<Order>) {
    forall i, j :: 0 <= i < j < |orders| ==> orders[i].id != orders[j].id && orders[i].key != orders[j].key
  }

  /** What the state of one order says of the journal and of whether it was sent. */
  predicate Accounted(o: Order, events: seq<Event>, sent: set<int>) {
    && Fills(events, o.id) == (if o.state == Confirmed then 1 else 0)
    && (o.id in sent <==> o.state !in {Prepared, Refused})
  }

  ghost predicate Sound(w: World) {
    && WrittenOnce(w.db.orders)
    && (forall i :: 0 <= i < |w.db.orders| ==> Accounted(w.db.orders[i], w.db.events, w.sent))
    && (forall id :: Fills(w.db.events, id) > 0 || id in w.sent ==>
            exists i :: 0 <= i < |w.db.orders| && w.db.orders[i].id == id)
  }

  lemma FindsIt(orders: seq<Order>, i: nat)
    requires WrittenOnce(orders) && i < |orders|
    ensures IndexOf(orders, orders[i].id) == i
  {
  }

  /** One order replaced by itself in another state, with what that does to its own fills and sending. */
  lemma ReplaceKeepsSound(w: World, i: nat, moved: Order, events: seq<Event>, sent: set<int>)
    requires Sound(w) && i < |w.db.orders|
    requires moved.id == w.db.orders[i].id && moved.key == w.db.orders[i].key && Accounted(moved, events, sent)
    requires forall id :: id != moved.id ==>
            Fills(events, id) == Fills(w.db.events, id) && (id in sent <==> id in w.sent)
    ensures Sound(World(Db(w.db.orders[i := moved], events), sent))
  {
    var orders, after := w.db.orders, w.db.orders[i := moved];
    forall k | 0 <= k < |after| ensures Accounted(after[k], events, sent) {
      if k != i {
        assert Accounted(orders[k], w.db.events, w.sent) && orders[k].id != orders[i].id;
      }
    }
    forall id | Fills(events, id) > 0 || id in sent ensures exists k :: 0 <= k < |after| && after[k].id == id {
      if id == moved.id {
        assert after[i].id == id;
      } else {
        var k :| 0 <= k < |orders| && orders[k].id == id;
        assert after[k].id == id;
      }
    }
  }

  /** A move of one order keeps all of the above, given what becomes of its own fills and sending. */
  lemma MoveKeepsSound(w: World, id: int, to: State, reason: Option<string>, evidence: bool,
                       events: seq<Event>, sent: set<int>)
    requires Sound(w) && Move(w.db, id, to, reason, evidence).Ok?
    requires forall other :: other != id ==>
            Fills(events, other) == Fills(w.db.events, other) && (other in sent <==> other in w.sent)
    requires Fills(events, id) == (if to == Confirmed then 1 else 0)
    requires id in sent <==> to !in {Prepared, Refused}
    ensures Sound(World(Db(Move(w.db, id, to, reason, evidence).value.orders, events), sent))
  {
    var i := IndexOf(w.db.orders, id);
    var moved := Transition(w.db.orders[i], to, reason, evidence).value;
    ReplaceKeepsSound(w, i, moved, events, sent);
  }

  /** A stored order that can still move has no fill; it was sent unless it is prepared. */
  lemma MovableIsUnfilled(w: World, id: int, to: State, reason: Option<string>, evidence: bool)
    requires Sound(w) && Move(w.db, id, to, reason, evidence).Ok?
    ensures Fills(w.db.events, id) == 0
    ensures var o := w.db.orders[IndexOf(w.db.orders, id)];
            to in Moves(o.state) && (id in w.sent <==> o.state != Prepared)
  {
  }

  /** What a settlement adds to the journal. */
  function BookedBy(events: seq<Event>, id: int, o: Outcome): seq<Event> {
    var filled := if o.fill then events + [Fill(id)] else events;
    if o.fee then filled + [Fee(Some(id))] else filled
  }

  lemma FillsBooked(events: seq<Event>, id: int, o: Outcome, other: int)
    ensures Fills(BookedBy(events, id, o), other) == Fills(events, other) + if o.fill && other == id then 1 else 0
  {
    var filled := if o.fill then events + [Fill(id)] else events;
    FillsOneMore(events, Fill(id), other);
    FillsOneMore(filled, Fee(Some(id)), other);
  }

  lemma SettleIs(db: Db, id: int, o: Outcome)
    requires Settle(db, id, o).Ok?
    ensures Move(db, id, o.state, o.reason, o.evidence).Ok?
    ensures Settle(db, id, o).value
         == Db(Move(db, id, o.state, o.reason, o.evidence).value.orders, BookedBy(db.events, id, o))
  {
  }

  lemma BookingKeepsSound(w: World, id: int, o: Outcome, events: seq<Event>)
    requires Sound(w) && Honest(o) && Move(w.db, id, o.state, o.reason, o.evidence).Ok?
    requires events == BookedBy(w.db.events, id, o)
    ensures Sound(World(Db(Move(w.db, id, o.state, o.reason, o.evidence).value.orders, events), w.sent))
  {
    MovableIsUnfilled(w, id, o.state, o.reason, o.evidence);
    forall other ensures Fills(events, other) == Fills(w.db.events, other) + (if o.fill && other == id then 1 else 0) {
      FillsBooked(w.db.events, id, o, other);
    }
    MoveKeepsSound(w, id, o.state, o.reason, o.evidence, events, w.sent);
  }

  lemma SettleKeepsSound(w: World, id: int, o: Outcome)
    requires Sound(w) && Honest(o) && Settle(w.db, id, o).Ok?
    ensures Sound(World(Settle(w.db, id, o).value, w.sent))
  {
    SettleIs(w.db, id, o);
    BookingKeepsSound(w, id, o, BookedBy(w.db.events, id, o));
  }

  lemma AddKeepsSound(w: World, o: Order)
    requires Sound(w) && Add(w.db, o).Ok?
    ensures Sound(World(Add(w.db, o).value, w.sent))
  {
    var after := Add(w.db, o).value;
    if after != w.db {
      forall i | 0 <= i < |after.orders| ensures Accounted(after.orders[i], after.events, w.sent) {
        if i == |w.db.orders| {
          assert Fills(w.db.events, o.id) == 0 && o.id !in w.sent;
        }
      }
      forall id | Fills(after.events, id) > 0 || id in w.sent
        ensures exists i :: 0 <= i < |after.orders| && after.orders[i].id == id
      {
        var i :| 0 <= i < |w.db.orders| && w.db.orders[i].id == id;
        assert after.orders[i].id == id;
      }
    }
  }

  lemma KeepKeepsSound(w: World, e: Event)
    requires Sound(w) && !e.Fill? && Append(w.db, e).Ok?
    ensures Sound(World(Append(w.db, e).value, w.sent))
  {
    forall id ensures Fills(w.db.events + [e], id) == Fills(w.db.events, id) {
      FillsOneMore(w.db.events, e, id);
    }
  }

  /** A move without any booking: a refusal, a sending or a failure. */
  lemma PlainMoveKeepsSound(w: World, id: int, to: State, reason: Option<string>)
    requires Sound(w) && to in {Refused, Submitted, Failed} && Move(w.db, id, to, reason, false).Ok?
    ensures Sound(World(Move(w.db, id, to, reason, false).value, if to == Submitted then w.sent + {id} else w.sent))
  {
    MovableIsUnfilled(w, id, to, reason, false);
    MoveKeepsSound(w, id, to, reason, false, w.db.events, if to == Submitted then w.sent + {id} else w.sent);
  }

  /** Soundness survives each transaction. */
  lemma StepKeepsSound(w: World, step: Step)
    requires Sound(w)
    ensures Sound(Apply(w, step))
  {
    if Do(w.db, step).Ok? {
      match step
      case Adds(o) => AddKeepsSound(w, o);
      case Keeps(e) => KeepKeepsSound(w, e);
      case Refuses(id, reason) => PlainMoveKeepsSound(w, id, Refused, Some(reason));
      case Sends(id) => PlainMoveKeepsSound(w, id, Submitted, None);
      case Settles(id, o) => SettleKeepsSound(w, id, o);
      case FailsUnfilled(id, reason) => PlainMoveKeepsSound(w, id, Failed, Some(reason));
    }
  }

  /** Over every run, crashes and restarts included: an order is confirmed exactly when the journal
      holds exactly one fill for it, no order has two, and one that was refused was never sent. */
  lemma {:induction false} EveryRunIsSound(steps: seq<Step>)
    ensures Sound(Run(steps))
    ensures var w := Run(steps);
            forall i :: 0 <= i < |w.db.orders| ==>
              var o := w.db.orders[i];
              && (o.state == Confirmed <==> Fills(w.db.events, o.id) == 1)
              && Fills(w.db.events, o.id) <= 1
              && (o.state == Refused ==> o.id !in w.sent)
  {
    if steps != [] {
      EveryRunIsSound(steps[..|steps| - 1]);
      StepKeepsSound(Run(steps[..|steps| - 1]), steps[|steps| - 1]);
    }
  }

  // ----- the tables, entry by entry ------------------------------------------------------------

  /** From prepared an order may be sent or refused; from sent or unknown it may be confirmed, failed, or the other of
      the two; from anything else nothing. It says why when it failed, was refused or is unknown; only a live order
      the chain may have seen carries evidence, and a live one is not confirmed without. */
  lemma TransitionExactly(o: Order, to: State, reason: Option<string>, evidence: bool)
    ensures Transition(o, to, reason, evidence).Ok? <==>
              && (match to
                  case Prepared => false
                  case Refused => o.state == Prepared
                  case Submitted => o.state == Prepared || o.state == Unknown
                  case Unknown => o.state == Submitted
                  case Confirmed => o.state == Submitted || o.state == Unknown
                  case Failed => o.state == Submitted || o.state == Unknown)
              && (to == Unknown || to == Failed || to == Refused ==> reason.Some? && |reason.value| > 0)
              && (evidence ==> o.mode == Live && (to == Unknown || to == Confirmed || to == Failed))
              && (to == Confirmed && o.mode == Live ==> evidence)
    ensures Transition(o, to, reason, evidence).Ok? ==>
              Transition(o, to, reason, evidence).value == Order(o.id, o.key, o.mode, o.sell, to, reason, evidence)
  {
  }

  /** What an executor may say: a confirmed order filled, a failed one did not, and of one that is unknown neither a
      fill nor a fee. */
  lemma HonestExactly(o: Outcome)
    ensures Honest(o) <==>
              match o.state
              case Confirmed => o.fill
              case Failed => !o.fill
              case Unknown => !o.fill && !o.fee
              case _ => false
  {
  }

  /** Written again, an order stands as it is if it has the same key and sells the same, and is refused otherwise; a
      new one is written prepared, under a key of its own. */
  lemma AddExactly(db: Db, o: Order)
    ensures var stored := exists k :: 0 <= k < |db.orders| && db.orders[k].id == o.id;
            var i := IndexOf(db.orders, o.id);
            && (stored <==> i >= 0)
            && (Add(db, o) == Ok(db) <==> stored && db.orders[i].key == o.key && db.orders[i].sell == o.sell)
            && (Add(db, o) == Err(AnotherOrder(o.id)) <==>
                  stored && !(db.orders[i].key == o.key && db.orders[i].sell == o.sell))
            && (Add(db, o) == Ok(db.(orders := db.orders + [o])) <==>
                  !stored && o.state == Prepared && forall k :: 0 <= k < |db.orders| ==> db.orders[k].key != o.key)
  {
    assert |db.orders + [o]| == |db.orders| + 1;
  }

  lemma {:induction false} IndexStays(orders: seq<Order>, id: int, i: nat, moved: Order)
    requires i == IndexOf(orders, id) && moved.id == id
    ensures IndexOf(orders[i := moved], id) == i
    decreases |orders|
  {
    var n := |orders| - 1;
    if orders[n].id != id {
      IndexStays(orders[..n], id, i, moved);
      assert orders[i := moved][..n] == orders[..n][i := moved];
    }
  }

  /** A prepared order that is sent and has an outcome to its name ends as that outcome says, with its fill and its fee
      kept, and nothing else is touched. */
  lemma SentAndSettled(db: Db, i: nat, o: Reply)
    requires i < |db.orders| && i == IndexOf(db.orders, db.orders[i].id) && db.orders[i].state == Prepared
    requires db.orders[i].id !in Booked(db.events)
    requires o.state == Confirmed || (o.reason.Some? && |o.reason.value| > 0)
    requires o.evidence ==> db.orders[i].mode == Live
    requires o.state == Confirmed && db.orders[i].mode == Live ==> o.evidence
    ensures var id := db.orders[i].id;
            var after := Next(Next(db, Sends(id)), Settles(id, o));
            && after.orders
               == db.orders[i := db.orders[i].(state := o.state, reason := o.reason, evidence := o.evidence)]
            && after.events == db.events + (if o.fill then [Fill(id)] else []) + if o.fee then [Fee(Some(id))] else []
  {
    var id := db.orders[i].id;
    var sent := db.orders[i].(state := Submitted, reason := None, evidence := false);
    IndexStays(db.orders, id, i, sent);
    assert Next(db, Sends(id)) == Db(db.orders[i := sent], db.events);
    assert db.orders[i := sent][i := db.orders[i].(state := o.state, reason := o.reason, evidence := o.evidence)]
        == db.orders[i := db.orders[i].(state := o.state, reason := o.reason, evidence := o.evidence)];
  }

  // ----- where an order can get to -------------------------------------------------------------

  ghost predicate Path(states: seq<State>) {
    states != [] && forall k :: 0 <= k < |states| - 1 ==> states[k + 1] in Moves(states[k])
  }

  /** Some number of moves leads from one state to the other. */
  ghost predicate Reaches(a: State, b: State) {
    exists states :: Path(states) && states[0] == a && states[|states| - 1] == b
  }

  lemma ReachesItself(a: State)
    ensures Reaches(a, a)
  {
    assert Path([a]);
  }

  lemma ReachesByMove(a: State, b: State)
    requires b in Moves(a)
    ensures Reaches(a, b)
  {
    assert Path([a, b]);
  }

  lemma ReachesOn(a: State, b: State, c: State)
    requires Reaches(a, b) && Reaches(b, c)
    ensures Reaches(a, c)
  {
    var p :| Path(p) && p[0] == a && p[|p| - 1] == b;
    var q :| Path(q) && q[0] == b && q[|q| - 1] == c;
    var whole := p + q[1..];
    forall k | 0 <= k < |whole| - 1 ensures whole[k + 1] in Moves(whole[k]) {
      if k >= |p| - 1 {
        assert whole[k + 1] == q[k + 2 - |p|] && whole[k] == q[k + 1 - |p|];
      }
    }
    assert Path(whole) && whole[|whole| - 1] == c;
  }

  /** Once sent, an order is never prepared again nor refused, and nothing leaves a final state. */
  lemma {:induction false} ReachesExactly(a: State, b: State)
    ensures Reaches(a, b) <==> a == b || (a == Prepared && b != Prepared)
                               || (a in {Submitted, Unknown} && b in {Submitted, Unknown, Confirmed, Failed})
  {
    if Reaches(a, b) {
      var p :| Path(p) && p[0] == a && p[|p| - 1] == b;
      NeverBack(p);
    }
    ReachesItself(a);
    if a == Prepared && b != Prepared {
      assert Path([Prepared, Refused]) && Path([Prepared, Submitted]);
      assert b !in {Refused, Submitted} ==> Path([Prepared, Submitted, b]);
    }
    if a in {Submitted, Unknown} && b in {Submitted, Unknown, Confirmed, Failed} && a != b {
      assert Path([a, b]);
    }
  }

  lemma {:induction false} NeverBack(p: seq<State>)
    requires Path(p)
    ensures var a, b := p[0], p[|p| - 1];
            a == b || (a == Prepared && b != Prepared)
            || (a in {Submitted, Unknown} && b in {Submitted, Unknown, Confirmed, Failed})
    decreases |p|
  {
    if |p| > 1 {
      assert p[0 + 1] in Moves(p[0]);
      forall k | 0 <= k < |p[1..]| - 1 ensures p[1..][k + 1] in Moves(p[1..][k]) {
        assert p[k + 1 + 1] in Moves(p[k + 1]);
      }
      NeverBack(p[1..]);
    }
  }

  /** What a later world may differ in: an order keeps its place, id, key and mode, and is in a state that
      moves lead to from the one it had; one that was final is as it was; nothing is taken out of the journal. */
  ghost predicate Continues(before: World, after: World) {
    && |before.db.orders| <= |after.db.orders|
    && before.db.events <= after.db.events
    && before.sent <= after.sent
    && forall i :: 0 <= i < |before.db.orders| ==> Follows(before.db.orders[i], after.db.orders[i])
  }

  ghost predicate Follows(o: Order, p: Order) {
    && p.id == o.id && p.key == o.key && p.mode == o.mode && p.sell == o.sell
    && Reaches(o.state, p.state)
    && (Final(o.state) ==> p == o)
  }

  /** A transaction moves an order at most once, and as the table allows. */
  ghost predicate MovesOnce(o: Order, p: Order) {
    && p.id == o.id && p.key == o.key && p.mode == o.mode && p.sell == o.sell
    && (p == o || (p.state in Moves(o.state) && Consistent(p)))
  }

  lemma StepMovesOnce(w: World, step: Step)
    ensures var after := Apply(w, step);
            && |w.db.orders| <= |after.db.orders| && w.db.events <= after.db.events && w.sent <= after.sent
            && forall i :: 0 <= i < |w.db.orders| ==> MovesOnce(w.db.orders[i], after.db.orders[i])
  {
  }

  lemma StepContinues(w: World, step: Step)
    ensures Continues(w, Apply(w, step))
  {
    var after := Apply(w, step);
    StepMovesOnce(w, step);
    forall i | 0 <= i < |w.db.orders| ensures Follows(w.db.orders[i], after.db.orders[i]) {
      OnceFollows(w.db.orders[i], after.db.orders[i]);
    }
  }

  lemma OnceFollows(o: Order, p: Order)
    requires MovesOnce(o, p)
    ensures Follows(o, p)
  {
    ReachesItself(o.state);
    if p != o {
      ReachesByMove(o.state, p.state);
    }
  }

  lemma FollowsOn(a: Order, b: Order, c: Order)
    requires Follows(a, b) && Follows(b, c)
    ensures Follows(a, c)
  {
    ReachesOn(a.state, b.state, c.state);
  }

  lemma {:induction false} ContinuesOn(a: World, b: World, c: World)
    requires Continues(a, b) && Continues(b, c)
    ensures Continues(a, c)
  {
    forall i | 0 <= i < |a.db.orders| ensures Follows(a.db.orders[i], c.db.orders[i]) {
      FollowsOn(a.db.orders[i], b.db.orders[i], c.db.orders[i]);
    }
  }

  /** Ids and keys never change, states change as the moves lead, the journal only grows, and what is final
      stays as it is. */
  lemma {:induction false} RunsContinue(steps: seq<Step>, n: nat)
    requires n <= |steps|
    ensures Continues(Run(steps[..n]), Run(steps))
    decreases |steps| - n
  {
    if n == |steps| {
      assert steps[..n] == steps;
      StaysAsItIs(Run(steps));
    } else {
      RunsContinue(steps, n + 1);
      assert steps[..n + 1][..n] == steps[..n];
      StepContinues(Run(steps[..n]), steps[n]);
      ContinuesOn(Run(steps[..n]), Run(steps[..n + 1]), Run(steps));
    }
  }

  lemma StaysAsItIs(w: World)
    ensures Continues(w, w)
  {
    forall i | 0 <= i < |w.db.orders| ensures Follows(w.db.orders[i], w.db.orders[i]) {
      ReachesItself(w.db.orders[i].state);
    }
  }
}

/** The one database file, its transactions, and the writes the treasurer and a start make through it. */
module Store {
  import opened Wrappers
  import opened Orders
  import opened Recovery

  /** The transactions that commit, one after another; a refused one changes nothing. */
  function DoAll(db: Db, steps: seq<Step>): Db
    decreases |steps|
  {
    if steps == [] then db else Next(DoAll(db, steps[..|steps| - 1]), steps[|steps| - 1])
  }

  /** A settlement's writes and its commit. */
  function Parts(o: Reply): nat { (if o.fill then 1 else 0) + (if o.fee then 1 else 0) + 2 }

  class Connection {
    var current: Db
    /** What the disk holds, while a transaction is open. */
    var saved: Option<Db>

    constructor ()
      ensures current == Db([], []) && saved == None
    {
      current, saved := Db([], []), None;
    }

    /** What a crash leaves. */
    function Durable(): Db
      reads this
    {
      saved.GetOr(current)
    }

    /** Begin a transaction, or join the one that is open. */
    method Begin() returns (mine: bool)
      modifies this`saved
      ensures mine <==> old(saved).None?
      ensures saved == if mine then Some(current) else old(saved)
      ensures Durable() == old(Durable())
    {
      mine := saved.None?;
      if mine {
        saved := Some(current);
      }
    }

    /** Commit or roll back, unless the transaction is someone else's to end. */
    method End(mine: bool, ok: bool)
      requires mine ==> saved.Some?
      modifies this
      ensures saved == if mine then None else old(saved)
      ensures current == if mine && !ok then old(saved).value else old(current)
      ensures mine && !ok ==> Durable() == old(Durable())
      ensures mine && ok ==> Durable() == old(current)
    {
      if mine {
        if !ok {
          current := saved.value;
        }
        saved := None;
      }
    }

    /** The process dies: what was not committed is gone. */
    method Die()
      modifies this
      ensures saved == None && current == old(Durable()) && Durable() == old(Durable())
    {
      current, saved := Durable(), None;
    }

    method AddOrder(o: Order) returns (r: Result<Order, Trouble>)
      modifies this
      ensures saved == old(saved)
      ensures match Add(old(current), o)
              case Ok(db) => current == db && r == Ok(db.orders[IndexOf(db.orders, o.id)])
              case Err(t) => current == old(current) && r == Err(t)
    {
      var mine := Begin();
      var i := IndexOf(current.orders, o.id);
      if i >= 0 {
        var stored := current.orders[i];
        var same := stored.key == o.key && stored.sell == o.sell;
        End(mine, same);
        return if same then Ok(stored) else Err(AnotherOrder(o.id));
      }
      if o.state != Prepared {
        End(mine, false);
        return Err(NotPrepared(o.id));
      }
      if exists k :: 0 <= k < |current.orders| && current.orders[k].key == o.key {
        End(mine, false);
        return Err(KeyTaken(o.id));
      }
      current := current.(orders := current.orders + [o]);
      End(mine, true);
      return Ok(o);
    }

    method MoveOrder(id: int, to: State, reason: Option<string>, evidence: bool) returns (r: Result<Order, Trouble>)
      modifies this
      ensures saved == old(saved)
      ensures match Move(old(current), id, to, reason, evidence)
              case Ok(db) => current == db && r == Ok(db.orders[IndexOf(old(current).orders, id)])
              case Err(t) => current == old(current) && r == Err(t)
    {
      var mine := Begin();
      var i := IndexOf(current.orders, id);
      if i < 0 {
        End(mine, false);
        return Err(NoOrder(id));
      }
      r := Transition(current.orders[i], to, reason, evidence);
      if r.Ok? {
        current := current.(orders := current.orders[i := r.value]);
      }
      End(mine, r.Ok?);
    }

    method AppendEvent(e: Event) returns (r: Result<nat, Trouble>)
      modifies this
      ensures saved == old(saved)
      ensures match Append(old(current), e)
              case Ok(db) => current == db && r == Ok(|db.events|)
              case Err(t) => current == old(current) && r == Err(t)
    {
      var mine := Begin();
      if e.Transfer? {
        End(mine, false);
        return Err(KindNotKept);
      }
      if e.Fill? && e.order in Booked(current.events) {
        End(mine, false);
        return Err(AlreadyFilled(e.order));
      }
      current := current.(events := current.events + [e]);
      r := Ok(|current.events|);
      End(mine, true);
    }

    /** The fill, the fee and the order's state, one write: all of it, or nothing, wherever it fails
        or the process dies. `lives` counts what the process lives for: each write, then the commit. */
    method SettleOrder(id: int, o: Reply, lives: nat) returns (trouble: Option<Trouble>, died: bool)
      requires saved.None?
      modifies this
      ensures saved.None?
      ensures died ==> current == old(current)
      ensures !died ==> match Settle(old(current), id, o)
                        case Ok(db) => current == db && trouble == None
                        case Err(t) => current == old(current) && trouble == Some(t)
      ensures died ==> lives < Parts(o)
      ensures Settle(old(current), id, o).Ok? && lives < Parts(o) ==> died
    {
      trouble, died := None, false;
      var mine := Begin();
      var left := lives;
      if o.fill {
        if left == 0 {
          Die();
          return None, true;
        }
        var filled := AppendEvent(Fill(id));
        if filled.Err? {
          End(mine, false);
          return Some(filled.error), false;
        }
        left := left - 1;
      }
      if o.fee {
        if left == 0 {
          Die();
          return None, true;
        }
        var paid := AppendEvent(Fee(Some(id)));
        assert paid.Ok?;
        left := left - 1;
      }
      if left == 0 {
        Die();
        return None, true;
      }
      var moved := MoveOrder(id, o.state, o.reason, o.evidence);
      if moved.Err? {
        End(mine, false);
        return Some(moved.error), false;
      }
      left := left - 1;
      if left == 0 {
        Die();
        return None, true;
      }
      End(mine, true);
    }

    /** One prepared order through admission, the venue and the books. Wherever the process dies, what
        is stored is what some of the order's own transactions, in their order, make of it. */
    method RunOrder(id: int, refusal: Option<string>, outcome: Reply, lives: nat)
      returns (died: bool, ghost steps: seq<Step>)
      requires saved.None?
      modifies this
      ensures saved.None? && current == DoAll(old(current), steps)
      ensures steps <= (if refusal.Some? then [Refuses(id, refusal.value)] else [Sends(id), Settles(id, outcome)])
      ensures var i := IndexOf(old(current).orders, id);
              if i < 0 || old(current).orders[i].state != Prepared then steps == [] && !died
              else !died ==> steps == if refusal.Some? then [Refuses(id, refusal.value)]
                                      else [Sends(id), Settles(id, outcome)]
      ensures died ==> lives <= Parts(outcome)
    {
      died, steps := false, [];
      var i := IndexOf(current.orders, id);
      if i < 0 || current.orders[i].state != Prepared {
        return;
      }
      if lives == 0 {
        Die();
        return true, [];
      }
      if refusal.Some? {
        var refused := MoveOrder(id, Refused, refusal, false);
        steps := [Refuses(id, refusal.value)];
        DoOne(old(current), steps[0]);
        return;
      }
      var sent := MoveOrder(id, Submitted, None, false);
      if sent.Err? {
        return;
      }
      steps := [Sends(id)];
      DoOne(old(current), steps[0]);
      ghost var before := current;
      var trouble;
      trouble, died := SettleOrder(id, outcome, lives - 1);
      if !died {
        steps := steps + [Settles(id, outcome)];
        DoNext(old(current), [Sends(id)], Settles(id, outcome));
      }
    }

    /** The recovery of a start, order by order, for as many orders as the process `lives`. */
    method ResolveAll(read: Reader, lives: nat) returns (trouble: Option<Trouble>)
      requires saved.None? && WrittenOnce(current.orders)
      modifies this
      ensures saved.None?
      ensures var n := if lives < |old(current).orders| then lives else |old(current).orders|;
              (current, trouble) == ResolveUpTo(old(current), 0, n, Booked(old(current).events), read)
    {
      var booked := Booked(current.events);
      var found := current.orders;
      var n := if lives < |found| then lives else |found|;
      trouble := None;
      for i := 0 to n
        invariant saved.None? && |current.orders| == |found| && WrittenOnce(current.orders)
        invariant forall k :: i <= k < |found| ==> current.orders[k] == found[k]
        invariant ResolveUpTo(current, i, n, booked, read) == ResolveUpTo(old(current), 0, n, booked, read)
      {
        var o := found[i];
        FindsIt(current.orders, i);
        ghost var before := current;
        if o.state == Prepared {
          var r := MoveOrder(o.id, Refused, Some(STALE_INTENT), false);
          if r.Err? { return Some(r.error); }
        } else if InFlight(o) {
          if o.id in booked {
            var r := MoveOrder(o.id, Confirmed, Some(ITS_FILL), false);
            if r.Err? { return Some(r.error); }
          } else if o.mode == Live {
            var outcome := read(o);
            if outcome.None? || outcome.value.state == Unknown {
              return Some(NotReady(o.id));
            }
            var why, died := SettleOrder(o.id, outcome.value, Parts(outcome.value));
            if why.Some? { return why; }
          } else {
            var r := MoveOrder(o.id, Failed, Some(NO_FILL), false);
            if r.Err? { return Some(r.error); }
          }
        }
        OneOrderSettled(before, i, booked, read);
      }
    }
  }

  lemma DoOne(db: Db, step: Step)
    ensures DoAll(db, [step]) == Next(db, step)
  {
    assert [step][..0] == [];
  }

  lemma DoNext(db: Db, steps: seq<Step>, step: Step)
    ensures DoAll(db, steps + [step]) == Next(DoAll(db, steps), step)
  {
    assert (steps + [step])[..|steps + [step]| - 1] == steps;
  }

  lemma RunNext(before: seq<Step>, step: Step)
    ensures Run(before + [step]).db == Next(Run(before).db, step)
  {
    assert (before + [step])[..|before + [step]| - 1] == before;
  }

  lemma ActNext(before: seq<Step>, steps: seq<Step>, step: Step, longer: seq<Step>)
    requires Run(before + steps).db == DoAll(Run(before).db, steps) && longer == steps + [step]
    ensures Run(before + longer).db == DoAll(Run(before).db, longer)
  {
    assert before + longer == (before + steps) + [step];
    RunNext(before + steps, step);
    DoNext(Run(before).db, steps, step);
  }

  /** What the transactions of one act make of the tables is what a run with them at its end reaches. */
  lemma {:induction false} ActsAreRuns(before: seq<Step>, steps: seq<Step>)
    ensures Run(before + steps).db == DoAll(Run(before).db, steps)
    decreases |steps|
  {
    if steps == [] {
      NothingDone(before);
    } else {
      var fewer, last := steps[..|steps| - 1], steps[|steps| - 1];
      ActsAreRuns(before, fewer);
      ActNext(before, fewer, last, steps);
    }
  }

  lemma NothingDone(before: seq<Step>)
    ensures Run(before + []).db == DoAll(Run(before).db, [])
  {
    assert before + [] == before;
  }
}

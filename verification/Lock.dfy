/** The single-owner lock. */
module Lock {
  // One row naming a process, taken over only from a process that has died on the same host. Any
  // number of processes enter, leave, start and die in any interleaving; a process id names one live
  // process of its host at a time, and a process does not enter twice at once.

  import opened Wrappers

  datatype Process = Process(host: int, pid: int)

  datatype Row = Free | Held(owner: Process)

  // ----- the claim -----------------------------------------------------------------------------

  /** Whether `me` may have the lock: it is free, or mine, or its holder was mine to outlive and died. */
  predicate MayTake(row: Row, me: Process, alive: set<Process>) {
    row.Held? && row.owner != me ==> row.owner.host == me.host && row.owner !in alive
  }

  class Table {
    var row: Row

    constructor ()
      ensures row == Free
    {
      row := Free;
    }

    /** One transaction: the row becomes mine, or it is left and I am refused. */
    method Enter(me: Process, alive: set<Process>) returns (entered: bool)
      modifies this
      ensures entered <==> MayTake(old(row), me, alive)
      ensures row == if entered then Held(me) else old(row)
    {
      if row.Free? {
        row := Held(me);
      } else if row.owner != me {
        if row.owner.host != me.host || row.owner in alive {
          return false;
        }
        row := Held(me);
      }
      return true;
    }

    /** Give the lock up, if it is still mine. */
    method Leave(me: Process)
      modifies this
      ensures row == if old(row) == Held(me) then Free else old(row)
    {
      if row == Held(me) {
        row := Free;
      }
    }
  }

  // ----- every interleaving --------------------------------------------------------------------

  /** Where a live process is: outside, in the entering transaction before or after its write, inside,
      or in the leaving transaction. */
  datatype Place = Outside | Entering | Claimed | Inside | Leaving

  /** The committed row, the process whose transaction is open, and every live process's place. */
  datatype World = World(row: Row, writer: Option<Process>, at: map<Process, Place>)

  datatype Event =
    | Starts(p: Process)
    | Dies(p: Process)
    | Begins(p: Process)
    | Claims(p: Process)
    | Commits(p: Process)
    | Quits(p: Process)
    | Releases(p: Process)

  predicate IsAt(w: World, p: Process, place: Place) { p in w.at && w.at[p] == place }

  /** One event, when it can happen. A database has one writing transaction at a time; a dead process's
      is rolled back. */
  function After(w: World, e: Event): World {
    match e
    case Starts(p) => if p in w.at then w else w.(at := w.at[p := Outside])
    case Dies(p) => World(w.row, if w.writer == Some(p) then None else w.writer, w.at - {p})
    case Begins(p) =>
      if IsAt(w, p, Outside) && w.writer.None? then World(w.row, Some(p), w.at[p := Entering]) else w
    case Claims(p) =>
      if !IsAt(w, p, Entering) then w
      else if MayTake(w.row, p, w.at.Keys) then w.(at := w.at[p := Claimed])
      else World(w.row, None, w.at[p := Outside])
    case Commits(p) =>
      if IsAt(w, p, Claimed) then World(Held(p), None, w.at[p := Inside]) else w
    case Quits(p) =>
      if IsAt(w, p, Inside) && w.writer.None? then World(w.row, Some(p), w.at[p := Leaving]) else w
    case Releases(p) =>
      if IsAt(w, p, Leaving) then World(if w.row == Held(p) then Free else w.row, None, w.at[p := Outside]) else w
  }

  function Run(events: seq<Event>): World {
    if events == [] then World(Free, None, map[])
    else After(Run(events[..|events| - 1]), events[|events| - 1])
  }

  /** Inside the block, its leaving transaction included. */
  predicate Owns(w: World, p: Process) { IsAt(w, p, Inside) || IsAt(w, p, Leaving) }

  predicate InTransaction(w: World, p: Process) { IsAt(w, p, Entering) || IsAt(w, p, Claimed) || IsAt(w, p, Leaving) }

  /** The row names whoever is inside; one transaction is open at a time; and nobody is inside while a
      claim awaits its commit. */
  ghost predicate Sound(w: World) {
    && (forall p :: Owns(w, p) ==> w.row == Held(p))
    && (forall p :: InTransaction(w, p) <==> w.writer == Some(p))
    && (forall p, q :: IsAt(w, p, Claimed) && q != p ==> !Owns(w, q))
  }

  lemma EventKeepsSound(w: World, e: Event)
    requires Sound(w)
    ensures Sound(After(w, e))
  {
    var next := After(w, e);
    forall p ensures Owns(next, p) ==> next.row == Held(p)
      ensures InTransaction(next, p) <==> next.writer == Some(p)
    {
      Known(w, p, e.p);
      Known(w, e.p, p);
    }
    forall p, q | IsAt(next, p, Claimed) && q != p ensures !Owns(next, q) {
      Known(w, p, q);
      Known(w, q, e.p);
    }
  }

  /** What is known of two processes. */
  lemma Known(w: World, p: Process, q: Process)
    requires Sound(w)
    ensures Owns(w, p) ==> w.row == Held(p)
    ensures InTransaction(w, p) <==> w.writer == Some(p)
    ensures IsAt(w, p, Claimed) && q != p ==> !Owns(w, q)
  {
  }

  lemma {:induction false} EveryRunIsSound(events: seq<Event>)
    ensures Sound(Run(events))
  {
    if events != [] {
      EveryRunIsSound(events[..|events| - 1]);
      EventKeepsSound(Run(events[..|events| - 1]), events[|events| - 1]);
    }
  }

  /** At most one live process is ever inside. */
  lemma OneOwner(events: seq<Event>, p: Process, q: Process)
    requires Owns(Run(events), p) && Owns(Run(events), q)
    ensures p == q
  {
    EveryRunIsSound(events);
  }

  /** The row changes only at a commit: to the claimer, from free, from the claimer itself, or from a
      holder of the same host that was dead when the claim was made and owns nothing now; or to free,
      when its holder leaves. */
  lemma RowChangesHands(events: seq<Event>, e: Event)
    ensures var before, after := Run(events), After(Run(events), e);
            before.row != after.row ==>
              || (e.Commits? && after.row == Held(e.p) && forall q :: q != e.p ==> !Owns(before, q))
              || (e.Releases? && before.row == Held(e.p) && after.row == Free)
  {
    EveryRunIsSound(events);
  }

  /** What a claim found, for as long as it is not committed: the row was its to take. */
  ghost predicate ClaimStands(w: World) {
    forall p :: IsAt(w, p, Claimed) ==> w.row.Held? ==> w.row.owner == p || w.row.owner.host == p.host
  }

  lemma {:induction false} ClaimsStand(events: seq<Event>)
    ensures ClaimStands(Run(events))
  {
    if events != [] {
      var w, e := Run(events[..|events| - 1]), events[|events| - 1];
      ClaimsStand(events[..|events| - 1]);
      EveryRunIsSound(events[..|events| - 1]);
      ClaimStep(w, e);
    }
  }

  lemma ClaimStep(w: World, e: Event)
    requires Sound(w) && ClaimStands(w)
    ensures ClaimStands(After(w, e))
  {
    var next := After(w, e);
    forall p | IsAt(next, p, Claimed) && next.row.Held? ensures next.row.owner == p || next.row.owner.host == p.host {
      assert IsAt(w, p, Claimed) || !IsAt(w, p, Claimed);
      Known(w, p, e.p);
      Known(w, e.p, p);
    }
  }

  /** No host's lock passes to another host. */
  lemma NeverTakenFromElsewhere(events: seq<Event>, e: Event)
    requires Run(events).row.Held? && After(Run(events), e).row.Held?
    ensures After(Run(events), e).row.owner.host == Run(events).row.owner.host
  {
    ClaimsStand(events);
  }

  /** A runner that died on this host does not keep the next one out: three events let it in. */
  lemma NextStartTakesOver(events: seq<Event>, p: Process)
    requires var w := Run(events); IsAt(w, p, Outside) && w.writer.None? && MayTake(w.row, p, w.at.Keys)
    ensures var w := Run(events + [Begins(p)] + [Claims(p)] + [Commits(p)]); Owns(w, p) && w.row == Held(p)
  {
    RunsOn(events, Begins(p));
    RunsOn(events + [Begins(p)], Claims(p));
    RunsOn(events + [Begins(p)] + [Claims(p)], Commits(p));
    assert Run(events).at[p := Entering].Keys == Run(events).at.Keys;
  }

  /** Whoever leaves frees the row, and the next to start gets in. */
  lemma HandsOver(events: seq<Event>, p: Process, q: Process)
    requires IsAt(Run(events), p, Inside) && Run(events).writer.None? && p != q && IsAt(Run(events), q, Outside)
    ensures Run(events + [Quits(p)] + [Releases(p)]).row == Free
    ensures IsAt(Run(events + [Quits(p)] + [Releases(p)]), p, Outside)
    ensures Owns(Run(events + [Quits(p)] + [Releases(p)] + [Begins(q)] + [Claims(q)] + [Commits(q)]), q)
  {
    EveryRunIsSound(events);
    Known(Run(events), p, q);
    RunsOn(events, Quits(p));
    RunsOn(events + [Quits(p)], Releases(p));
    NextStartTakesOver(events + [Quits(p)] + [Releases(p)], q);
  }

  lemma RunsOn(events: seq<Event>, e: Event)
    ensures Run(events + [e]) == After(Run(events), e)
  {
    assert (events + [e])[..|events + [e]| - 1] == events;
  }

  /** And a live holder, or one of another host, does. */
  lemma OthersAreRefused(w: World, p: Process)
    requires Sound(w) && IsAt(w, p, Entering) && w.row.Held? && w.row.owner != p
    requires w.row.owner in w.at || w.row.owner.host != p.host
    ensures After(w, Claims(p)) == World(w.row, None, w.at[p := Outside])
  {
  }
}

/** Who is started in a turn, and who never is. */
module Starting {
  import opened Basics
  import opened Wrappers
  import opened FanOut

  function Room(limits: Limits): nat { if limits.width > 0 then limits.width else 0 }

  // ----- the notes of a turn -------------------------------------------------------------------

  /** What a turn may note: a start at the time of one of its readings, a finish at one of them, and giving up
      only someone who was queued. */
  ghost predicate NotedIn(n: Note, w: World, turn: nat, first: nat, end: nat, queue: seq<Seat>) {
    match n
    case Started(_, at) => exists r: nat :: first <= r < end && at == At(w, r, turn)
    case Finished(seat, cause, t, r) => t == turn && first <= r < end && (cause == NeverStarted ==> seat in queue)
  }

  /** All notes from `from` on. */
  ghost predicate AllNotedIn(log: seq<Note>, from: nat, w: World, turn: nat, first: nat, end: nat, queue: seq<Seat>) {
    forall k :: from <= k < |log| ==> NotedIn(log[k], w, turn, first, end, queue)
  }

  lemma NotedWider(n: Note, w: World, turn: nat, first: nat, end: nat, later: nat, queue: seq<Seat>, longer: seq<Seat>)
    requires NotedIn(n, w, turn, first, end, queue) && end <= later && forall s :: s in queue ==> s in longer
    ensures NotedIn(n, w, turn, first, later, longer)
  {
    if n.Started? {
      var r: nat :| first <= r < end && n.at == At(w, r, turn);
      assert first <= r < later;
    }
  }

  lemma AllNotedWider(log: seq<Note>, from: nat, w: World, turn: nat, first: nat, end: nat, later: nat,
                      queue: seq<Seat>, longer: seq<Seat>)
    requires AllNotedIn(log, from, w, turn, first, end, queue)
    requires end <= later && forall s :: s in queue ==> s in longer
    ensures AllNotedIn(log, from, w, turn, first, later, longer)
  {
    forall k | from <= k < |log| ensures NotedIn(log[k], w, turn, first, later, longer) {
      NotedWider(log[k], w, turn, first, end, later, queue, longer);
    }
  }

  /** Filling up moves seats from the queue to the running, in order, and notes each start. */
  lemma {:induction false} FillingUp(c: Cycle, w: World, limits: Limits, turn: nat, o: Cycle, first: nat, from: nat)
    requires o == FilledUp(c, w, limits, turn) && first <= c.reading && from <= |c.fan.log|
    requires AllNotedIn(c.fan.log, from, w, turn, first, c.reading, [])
    ensures StartedIn(o.fan.log) + o.fan.queue == StartedIn(c.fan.log) + c.fan.queue
    ensures |o.fan.running| == |c.fan.running| + (|c.fan.queue| - |o.fan.queue|) && |o.fan.queue| <= |c.fan.queue|
    ensures o.fan.queue == [] || |o.fan.running| >= limits.width
    ensures |o.fan.running| <= if |c.fan.running| < limits.width then limits.width else |c.fan.running|
    ensures c.fan.log <= o.fan.log && c.reading <= o.reading
    ensures AllNotedIn(o.fan.log, from, w, turn, first, o.reading, [])
    decreases |c.fan.queue|
  {
    if c.fan.queue != [] && |c.fan.running| < limits.width {
      var next := Cycle(StartNext(c.fan, At(w, c.reading, turn)), c.reading + 1);
      OneMoreNote(c.fan.log, Started(c.fan.queue[0], At(w, c.reading, turn)));
      Moves(StartedIn(c.fan.log), c.fan.queue);
      AllNotedWider(c.fan.log, from, w, turn, first, c.reading, c.reading + 1, [], []);
      forall k | from <= k < |next.fan.log| ensures NotedIn(next.fan.log[k], w, turn, first, next.reading, []) {
        assert k < |c.fan.log| ==> next.fan.log[k] == c.fan.log[k];
        assert first <= c.reading < next.reading;
      }
      FillingUp(next, w, limits, turn, o, first, from);
    }
  }

  /** Giving up notes the seats that were queued, and those only. */
  lemma {:induction false} GivingUp(f: Fan, w: World, turn: nat, reading: nat, g: Fan, from: nat, queue: seq<Seat>)
    requires g == GivenUp(f, w, turn, reading) && from <= |f.log| && (forall s :: s in f.queue ==> s in queue)
    requires AllNotedIn(f.log, from, w, turn, reading, reading + 1, queue)
    ensures f.log <= g.log && AllNotedIn(g.log, from, w, turn, reading, reading + 1, queue)
    decreases |f.queue|
  {
    if f.queue != [] {
      assert f.queue[0] in f.queue;
      GivingUp(GiveUp(f, w.results, turn, reading), w, turn, reading, g, from, queue);
    }
  }

  lemma {:induction false} Polling(f: Fan, jobs: seq<Job>, w: World, limits: Limits, over: bool, turn: nat,
                                   reading: nat, p: Cycle, first: nat, from: nat, queue: seq<Seat>)
    requires p == Polled(f, jobs, w, limits, over, turn, reading) && first <= reading && from <= |f.log|
    requires AllNotedIn(f.log, from, w, turn, first, reading, queue)
    ensures f.log <= p.fan.log && reading <= p.reading && p.fan.queue == f.queue
    ensures StartedIn(p.fan.log) == StartedIn(f.log)
    ensures AllNotedIn(p.fan.log, from, w, turn, first, p.reading, queue)
    decreases |jobs|
  {
    if jobs != [] {
      var next := LookedAt(f, jobs[0], w, limits, over, turn, reading);
      var verdict := Verdict(w, limits, jobs[0], over, turn, reading);
      AllNotedWider(f.log, from, w, turn, first, reading, reading + 1, queue, queue);
      if verdict.Some? {
        OneMoreNote(f.log, Finished(jobs[0].seat, verdict.value, turn, reading));
      }
      Polling(next, jobs[1..], w, limits, over, turn, reading + 1, p, first, from, queue);
    }
  }

  /** What one turn does to queue and log. */
  lemma OneTurn(c: Cycle, w: World, limits: Limits, turn: nat, next: Cycle)
    requires next == TurnOf(c, w, limits, turn)
    ensures c.fan.log <= next.fan.log && c.reading < next.reading
    ensures AllNotedIn(next.fan.log, |c.fan.log|, w, turn, c.reading, next.reading, c.fan.queue)
    ensures !Late(w, limits, turn, c.reading) ==>
              StartedIn(next.fan.log) + next.fan.queue == StartedIn(c.fan.log) + c.fan.queue
  {
    var o := Opened(c, w, limits, turn);
    if Late(w, limits, turn, c.reading) {
      GivingUp(c.fan, w, turn, c.reading, o.fan, |c.fan.log|, c.fan.queue);
    } else {
      FillingUp(Cycle(c.fan, c.reading + 1), w, limits, turn, o, c.reading, |c.fan.log|);
      AllNotedWider(o.fan.log, |c.fan.log|, w, turn, c.reading, o.reading, o.reading, [], c.fan.queue);
    }
    Polling(o.fan, o.fan.running, w, limits, Late(w, limits, turn, c.reading), turn, o.reading, next, c.reading,
            |c.fan.log|, c.fan.queue);
  }

  // ----- over the turns of a cycle -------------------------------------------------------------

  /** What the log holds of turn n: starts at the times of its readings, finishes at its readings, and giving up
      only of who was queued. */
  lemma NotesOfTurn(cycles: nat -> Cycle, late: Lateness, seats: seq<Seat>, w: World, limits: Limits, n: nat)
    requires Turns(cycles, late, seats, w, limits)
    ensures cycles(n).fan.log <= cycles(n + 1).fan.log && cycles(n).reading < cycles(n + 1).reading
    ensures AllNotedIn(cycles(n + 1).fan.log, |cycles(n).fan.log|, w, n, cycles(n).reading, cycles(n + 1).reading,
                       cycles(n).fan.queue)
  {
    assert Turning(cycles, late, w, limits, n);
    OneTurn(cycles(n), w, limits, n, cycles(n + 1));
  }

  /** Nobody leaves the queue but by being started, in order, until the deadline. */
  lemma StartsAreTheQueue(cycles: nat -> Cycle, late: Lateness, seats: seq<Seat>, w: World, limits: Limits, n: nat)
    requires Turns(cycles, late, seats, w, limits) && !late(n)
    ensures StartedIn(cycles(n + 1).fan.log) + cycles(n + 1).fan.queue
            == StartedIn(cycles(n).fan.log) + cycles(n).fan.queue
  {
    assert Turning(cycles, late, w, limits, n);
    OneTurn(cycles(n), w, limits, n, cycles(n + 1));
  }

  /** A turn is late when, at the reading that opens it, more than the limit has passed since the first: the clock's
      own drift and fifty milliseconds for each turn before. */
  lemma LateExactly(cycles: nat -> Cycle, late: Lateness, seats: seq<Seat>, w: World, limits: Limits, n: nat)
    requires Turns(cycles, late, seats, w, limits)
    ensures late(n) <==> w.drift(cycles(n).reading) - w.drift(0) + 50 * n > limits.cycleDeadline
  {
    assert Turning(cycles, late, w, limits, n);
  }

  /** Whoever still runs after a turn was within its limit at its own look, by the same clock. */
  lemma WithinExactly(cycles: nat -> Cycle, late: Lateness, seats: seq<Seat>, w: World, limits: Limits, n: nat,
                      job: Job) returns (reading: nat)
    requires Distinct(seats) && Turns(cycles, late, seats, w, limits) && job in cycles(n + 1).fan.running
    ensures cycles(n).reading < reading < cycles(n + 1).reading && !late(n) && !w.ended(job.seat, reading)
    ensures w.drift(reading) + 50 * n - job.since <= limits.workerDeadline
  {
    reading := StillWithinItsTime(cycles, late, seats, w, limits, n, job);
  }

  /** At some moment of the turn, as many processes ran as may. */
  ghost predicate FullIn(before: seq<Note>, after: seq<Note>, limits: Limits) {
    exists k :: |before| <= k <= |after| && |LiveIn(after[..k])| == Room(limits)
  }

  /** While someone stays queued after a turn that opened in time, all places were taken in that turn. */
  lemma QueuedBehindFullWidth(cycles: nat -> Cycle, late: Lateness, seats: seq<Seat>, w: World, limits: Limits, n: nat)
    requires Distinct(seats) && Turns(cycles, late, seats, w, limits) && !late(n) && cycles(n + 1).fan.queue != []
    ensures FullIn(cycles(n).fan.log, cycles(n + 1).fan.log, limits)
  {
    EveryTurnKeeps(cycles, late, seats, w, limits, n);
    assert Turning(cycles, late, w, limits, n);
    FullAfterOpening(cycles(n), seats, w, limits, late, n, cycles(n + 1));
  }

  lemma FullAfterOpening(c: Cycle, seats: seq<Seat>, w: World, limits: Limits, late: Lateness, turn: nat, next: Cycle)
    requires Kept(c.fan, seats, w, limits, late) && Distinct(seats) && InTurn(c.fan, seats)
    requires late(turn) == Late(w, limits, turn, c.reading) && !late(turn) && next == TurnOf(c, w, limits, turn)
    requires next.fan.queue != []
    ensures FullIn(c.fan.log, next.fan.log, limits)
  {
    var o := Opened(c, w, limits, turn);
    FillingUp(Cycle(c.fan, c.reading + 1), w, limits, turn, o, c.reading, |c.fan.log|);
    Polling(o.fan, o.fan.running, w, limits, false, turn, o.reading, next, o.reading, |o.fan.log|, []);
    OpenedKeeps(c, seats, w, limits, late, turn, o);
    FullAt(c.fan, o.fan, next.fan, seats, w, limits, late);
  }

  lemma FullAt(before: Fan, o: Fan, after: Fan, seats: seq<Seat>, w: World, limits: Limits, late: Lateness)
    requires Kept(o, seats, w, limits, late) && before.log <= o.log <= after.log
    requires |o.running| >= limits.width
    ensures FullIn(before.log, after.log, limits)
  {
    LiveIsRunning(o, seats, limits.width, w.results);
    assert after.log[..|o.log|] == o.log;
  }

  lemma LiveIsRunning(f: Fan, seats: seq<Seat>, width: int, results: Results)
    requires Sound(f, seats, width, results)
    ensures |LiveIn(f.log)| == |f.running| <= if width > 0 then width else 0
  {
    assert f.log[..|f.log|] == f.log;
    assert |SeatsOf(f.running)| == |f.running|;
  }

  /** A first turn in time starts as many seats as there is room for, from the first. */
  lemma FirstTurnStarts(cycles: nat -> Cycle, late: Lateness, seats: seq<Seat>, w: World, limits: Limits)
    requires Turns(cycles, late, seats, w, limits) && !late(0)
    ensures StartedIn(cycles(1).fan.log) == seats[..Min(Room(limits), |seats|)]
  {
    assert Turning(cycles, late, w, limits, 0);
    var c := cycles(0);
    var o := Opened(c, w, limits, 0);
    FillingUp(Cycle(c.fan, c.reading + 1), w, limits, 0, o, c.reading, |c.fan.log|);
    Polling(o.fan, o.fan.running, w, limits, false, 0, o.reading, cycles(1), o.reading, |o.fan.log|, []);
    FrontOf(StartedIn(o.fan.log), o.fan.queue, seats);
  }

  lemma FrontOf(front: seq<Seat>, back: seq<Seat>, seats: seq<Seat>)
    requires front + back == seats
    ensures front == seats[..|front|]
  {
  }

  /** The queue only gets shorter. */
  lemma QueueShrinks(cycles: nat -> Cycle, late: Lateness, seats: seq<Seat>, w: World, limits: Limits, n: nat, s: Seat)
    requires Distinct(seats) && Turns(cycles, late, seats, w, limits) && s in cycles(n + 1).fan.queue
    ensures !late(n) && s in cycles(n).fan.queue
  {
    if late(n) {
      LateTurnIsLast(cycles, late, seats, w, limits, n);
    } else {
      StartsAreTheQueue(cycles, late, seats, w, limits, n);
      EveryTurnKeeps(cycles, late, seats, w, limits, n);
      EveryTurnKeeps(cycles, late, seats, w, limits, n + 1);
      NotesOfTurn(cycles, late, seats, w, limits, n);
      StillBehind(StartedIn(cycles(n).fan.log), cycles(n).fan.queue, StartedIn(cycles(n + 1).fan.log),
                  cycles(n + 1).fan.queue, s);
      StartedGrows(cycles(n).fan.log, cycles(n + 1).fan.log);
    }
  }

  lemma {:induction false} StartedGrows(log: seq<Note>, longer: seq<Note>)
    requires log <= longer
    ensures |StartedIn(log)| <= |StartedIn(longer)|
    decreases |longer|
  {
    if log != longer {
      var n := |longer| - 1;
      assert log <= longer[..n];
      StartedGrows(log, longer[..n]);
    }
  }

  lemma StillBehind(a: seq<Seat>, queue: seq<Seat>, b: seq<Seat>, rest: seq<Seat>, s: Seat)
    requires a + queue == b + rest && s in rest
    ensures |a| <= |b| ==> s in queue
  {
    var i :| 0 <= i < |rest| && rest[i] == s;
    if |a| <= |b| {
      assert (a + queue)[|b| + i] == (b + rest)[|b| + i] == s;
    }
  }

  lemma {:induction false} QueuedFromTheStart(cycles: nat -> Cycle, late: Lateness, seats: seq<Seat>, w: World,
                                              limits: Limits, m: nat, n: nat, s: Seat)
    requires Distinct(seats) && Turns(cycles, late, seats, w, limits) && s in cycles(m).fan.queue && n <= m
    ensures s in cycles(n).fan.queue && (n < m ==> !late(n))
    decreases m - n
  {
    if n < m {
      QueuedFromTheStart(cycles, late, seats, w, limits, m, n + 1, s);
      QueueShrinks(cycles, late, seats, w, limits, n, s);
    }
  }

  /** Turn n opened in time, and whoever is still queued after it had to wait for a place. */
  ghost predicate Waited(cycles: nat -> Cycle, late: Lateness, limits: Limits, n: nat, s: Seat) {
    !late(n) && s in cycles(n + 1).fan.queue && FullIn(cycles(n).fan.log, cycles(n + 1).fan.log, limits)
  }

  /** A seat is never started only when the deadline passed while it was queued behind a full width in every
      turn before. */
  lemma {:induction false} NeverStartedOnlyWhen(cycles: nat -> Cycle, late: Lateness, seats: seq<Seat>, w: World,
                                                limits: Limits, m: nat, note: Note)
    requires Distinct(seats) && Turns(cycles, late, seats, w, limits)
    requires note in cycles(m).fan.log && note.Finished? && note.cause == NeverStarted
    ensures note.turn < m && late(note.turn) && note.seat in cycles(note.turn).fan.queue
    ensures forall n: nat :: n < note.turn ==> Waited(cycles, late, limits, n, note.seat)
  {
    if m == 0 {
      assert false;
    } else {
      NotesOfTurn(cycles, late, seats, w, limits, m - 1);
      if note in cycles(m - 1).fan.log {
        NeverStartedOnlyWhen(cycles, late, seats, w, limits, m - 1, note);
      } else {
        NewNote(cycles(m - 1).fan.log, cycles(m).fan.log, note, w, m - 1, cycles(m - 1).reading, cycles(m).reading,
                cycles(m - 1).fan.queue);
        EveryTurnKeeps(cycles, late, seats, w, limits, m);
        WasLate(cycles(m).fan, w, limits, late, note);
        forall n: nat | n < note.turn ensures Waited(cycles, late, limits, n, note.seat) {
          WaitedTo(cycles, late, seats, w, limits, note.turn, n, note.seat);
        }
      }
    }
  }

  lemma WasLate(f: Fan, w: World, limits: Limits, late: Lateness, note: Note)
    requires Caused(f, w, limits, late) && note in f.log && note.Finished? && note.cause == NeverStarted
    ensures late(note.turn)
  {
    assert Gave(note, f.log, w, limits, late);
  }

  lemma WaitedTo(cycles: nat -> Cycle, late: Lateness, seats: seq<Seat>, w: World, limits: Limits, m: nat, n: nat,
                 s: Seat)
    requires Distinct(seats) && Turns(cycles, late, seats, w, limits) && s in cycles(m).fan.queue && n < m
    ensures Waited(cycles, late, limits, n, s)
  {
    QueuedFromTheStart(cycles, late, seats, w, limits, m, n, s);
    QueuedFromTheStart(cycles, late, seats, w, limits, m, n + 1, s);
    QueuedBehindFullWidth(cycles, late, seats, w, limits, n);
  }

  lemma NewNote(log: seq<Note>, longer: seq<Note>, note: Note, w: World, turn: nat, first: nat, end: nat,
                queue: seq<Seat>)
    requires log <= longer && note in longer && note !in log && note.Finished?
    requires AllNotedIn(longer, |log|, w, turn, first, end, queue)
    ensures NotedIn(note, w, turn, first, end, queue)
  {
    assert longer == log + longer[|log|..];
    var j :| 0 <= j < |longer| - |log| && longer[|log|..][j] == note;
    assert longer[|log| + j] == note;
  }
}

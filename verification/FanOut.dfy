/** How the seats of a cycle are run. */
module FanOut {
  // At most `width` run at a time, each until its own deadline and all until the cycle's. What processes
  // do, and how long anything takes, is arbitrary.

  import opened Wrappers

  type Seat = string

  datatype Status = Good | NoCall | Failed

  datatype Slot = Pending | Done(status: Status, reason: string)

  /** Why a seat finished: its process ended, was killed at its own or the cycle's deadline, or never was. */
  datatype Cause = Ended | WorkerDeadline | CycleDeadline | NeverStarted

  /** `turn` counts the turns of the loop, which is also how often it has paused; `reading` is the look at
      the world that decided. */
  datatype Note =
    | Started(seat: Seat, at: int)
    | Finished(seat: Seat, cause: Cause, turn: nat, reading: nat)

  datatype Job = Job(seat: Seat, since: int)

  /** The queue, the running processes in the order they began, a slot a seat, and the log. */
  datatype Fan = Fan(queue: seq<Seat>, running: seq<Job>, slots: map<Seat, Slot>, log: seq<Note>)

  /** What a process's result file holds once it has ended; nothing readable is Pending. */
  type Results = Seat -> Slot

  /** What is written for a seat that finished. */
  function Collected(found: Slot, cause: Cause): (slot: Slot)
    ensures slot.Done?
  {
    match cause
    case Ended => if found.Pending? then Done(Failed, "crashed") else found
    case WorkerDeadline => Done(Failed, "worker deadline")
    case CycleDeadline => Done(Failed, "cycle deadline")
    case NeverStarted => Done(Failed, "cycle deadline")
  }

  /** What the world does: when each process has ended, what the clock reads less the pauses, and what
      the result files hold. */
  datatype World = World(drift: nat -> int, ended: (Seat, nat) -> bool, results: Results)

  datatype Limits = Limits(width: int, cycleDeadline: int, workerDeadline: int)

  const PAUSE := 50

  /** The time at a reading of the clock, after so many pauses. */
  function At(w: World, reading: nat, pauses: nat): int { w.drift(reading) + PAUSE * pauses }

  // ----- the log -------------------------------------------------------------------------------

  function StartedIn(log: seq<Note>): seq<Seat> {
    if log == [] then []
    else StartedIn(log[..|log| - 1]) + if log[|log| - 1].Started? then [log[|log| - 1].seat] else []
  }

  function FinishedIn(log: seq<Note>): seq<Seat> {
    if log == [] then []
    else FinishedIn(log[..|log| - 1]) + if log[|log| - 1].Finished? then [log[|log| - 1].seat] else []
  }

  function Without(seats: seq<Seat>, seat: Seat): seq<Seat> {
    if seats == [] then []
    else if seats[0] == seat then seats[1..]
    else [seats[0]] + Without(seats[1..], seat)
  }

  /** Who is running after a log: started and not finished. */
  function LiveIn(log: seq<Note>): seq<Seat> {
    if log == [] then []
    else
      var before, last := LiveIn(log[..|log| - 1]), log[|log| - 1];
      if last.Started? then before + [last.seat] else Without(before, last.seat)
  }

  ghost predicate Narrow(log: seq<Note>, width: int) {
    forall k :: 0 <= k <= |log| ==> |LiveIn(log[..k])| <= if width > 0 then width else 0
  }

  function SeatsOf(running: seq<Job>): seq<Seat> {
    seq(|running|, i requires 0 <= i < |running| => running[i].seat)
  }

  ghost predicate Distinct(seats: seq<Seat>) {
    forall i, j :: 0 <= i < j < |seats| ==> seats[i] != seats[j]
  }

  // ----- what the loop keeps -------------------------------------------------------------------

  /** Every seat is queued, running or finished, and only one of them, once. */
  ghost predicate Parted(f: Fan, seats: seq<Seat>) {
    multiset(f.queue) + multiset(SeatsOf(f.running)) + multiset(FinishedIn(f.log)) == multiset(seats)
  }

  /** A seat's slot is pending until it finishes, and then says why and with what. */
  ghost predicate Told(f: Fan, seats: seq<Seat>, results: Results) {
    && (forall s :: s in f.slots <==> s in seats)
    && (forall s :: s in seats ==> (f.slots[s].Pending? <==> s !in FinishedIn(f.log)))
    && (forall n :: n in f.log && n.Finished? ==>
            n.seat in f.slots && f.slots[n.seat] == Collected(results(n.seat), n.cause))
  }

  /** Which turns come after the cycle's deadline. */
  type Lateness = nat -> bool

  /** Every seat finished for the reason its note gives, and was never started exactly when the log has no
      start of it; every running process is noted with when it began. */
  ghost predicate Caused(f: Fan, w: World, limits: Limits, late: Lateness) {
    && (forall n :: n in f.log && n.Finished? ==> Gave(n, f.log, w, limits, late))
    && (forall n :: n in f.log && n.Finished? ==> (n.cause == NeverStarted <==> n.seat !in StartedIn(f.log)))
    && (forall j :: j in f.running ==> Started(j.seat, j.since) in f.log)
  }

  /** At the very look that decided: the process had ended; or it had not, and its own time was up in a turn
      before the cycle's deadline, or the turn came after it. */
  ghost predicate Gave(n: Note, log: seq<Note>, w: World, limits: Limits, late: Lateness)
    requires n.Finished?
  {
    match n.cause
    case Ended => w.ended(n.seat, n.reading)
    case WorkerDeadline =>
      && !w.ended(n.seat, n.reading) && !late(n.turn)
      && exists at :: Started(n.seat, at) in log && At(w, n.reading, n.turn) - at > limits.workerDeadline
    case CycleDeadline => !w.ended(n.seat, n.reading) && late(n.turn)
    case NeverStarted => late(n.turn)
  }

  ghost predicate Sound(f: Fan, seats: seq<Seat>, width: int, results: Results) {
    && Parted(f, seats)
    && SeatsOf(f.running) == LiveIn(f.log)
    && Narrow(f.log, width)
    && Told(f, seats, results)
  }

  /** Seats start in the order they were given, none skipped while the queue stands. */
  ghost predicate InTurn(f: Fan, seats: seq<Seat>) {
    StartedIn(f.log) <= seats && (f.queue != [] ==> StartedIn(f.log) + f.queue == seats)
  }

  lemma OneMoreNote(log: seq<Note>, n: Note)
    ensures StartedIn(log + [n]) == StartedIn(log) + if n.Started? then [n.seat] else []
    ensures FinishedIn(log + [n]) == FinishedIn(log) + if n.Finished? then [n.seat] else []
    ensures LiveIn(log + [n]) == if n.Started? then LiveIn(log) + [n.seat] else Without(LiveIn(log), n.seat)
  {
    assert (log + [n])[..|log + [n]| - 1] == log;
  }

  lemma StaysNarrow(log: seq<Note>, n: Note, width: int)
    requires Narrow(log, width) && |LiveIn(log + [n])| <= if width > 0 then width else 0
    ensures Narrow(log + [n], width)
  {
    forall k | 0 <= k <= |log + [n]| ensures |LiveIn((log + [n])[..k])| <= if width > 0 then width else 0 {
      if k <= |log| {
        assert (log + [n])[..k] == log[..k];
      } else {
        assert (log + [n])[..k] == log + [n];
      }
    }
  }

  lemma {:induction false} WithoutIs(seats: seq<Seat>, seat: Seat)
    ensures |Without(seats, seat)| <= |seats|
    ensures seat !in seats ==> Without(seats, seat) == seats
    ensures seat in seats ==> multiset(Without(seats, seat)) == multiset(seats) - multiset{seat}
  {
    if seats != [] {
      WithoutIs(seats[1..], seat);
      assert seats == [seats[0]] + seats[1..];
    }
  }

  /** Nobody is in two places. */
  lemma OnlyHere(f: Fan, seats: seq<Seat>, s: Seat)
    requires Parted(f, seats) && Distinct(seats)
    ensures multiset(f.queue)[s] + multiset(SeatsOf(f.running))[s] + multiset(FinishedIn(f.log))[s] <= 1
    ensures s in f.queue || s in SeatsOf(f.running) || s in FinishedIn(f.log) ==> s in seats
  {
    AtMostOnce(seats, s);
    assert multiset(seats)[s]
           == multiset(f.queue)[s] + multiset(SeatsOf(f.running))[s] + multiset(FinishedIn(f.log))[s];
  }

  lemma {:induction false} AtMostOnce(seats: seq<Seat>, s: Seat)
    requires Distinct(seats)
    ensures multiset(seats)[s] <= 1
  {
    if seats != [] {
      AtMostOnce(seats[1..], s);
      assert seats == [seats[0]] + seats[1..];
      if s == seats[0] {
        assert s !in seats[1..];
      }
    }
  }

  // ----- the three things that happen to a seat ------------------------------------------------

  function StartNext(f: Fan, now: int): Fan
    requires f.queue != []
  {
    Fan(f.queue[1..], f.running + [Job(f.queue[0], now)], f.slots, f.log + [Started(f.queue[0], now)])
  }

  function WithoutJob(running: seq<Job>, seat: Seat): seq<Job> {
    if running == [] then []
    else if running[0].seat == seat then running[1..]
    else [running[0]] + WithoutJob(running[1..], seat)
  }

  function Finish(f: Fan, n: Note, results: Results): Fan
    requires n.Finished?
  {
    Fan(f.queue, WithoutJob(f.running, n.seat), f.slots[n.seat := Collected(results(n.seat), n.cause)], f.log + [n])
  }

  function GiveUp(f: Fan, results: Results, turn: nat, reading: nat): Fan
    requires f.queue != []
  {
    var seat := f.queue[0];
    Fan(f.queue[1..], f.running, f.slots[seat := Collected(results(seat), NeverStarted)],
        f.log + [Finished(seat, NeverStarted, turn, reading)])
  }

  lemma StartKeepsSound(f: Fan, seats: seq<Seat>, width: int, results: Results, now: int, next: Fan)
    requires Sound(f, seats, width, results) && InTurn(f, seats) && f.queue != [] && |f.running| < width
    requires next == StartNext(f, now)
    ensures Sound(next, seats, width, results) && InTurn(next, seats)
  {
    var seat := f.queue[0];
    OneMoreNote(f.log, Started(seat, now));
    StartKeepsParted(f, seats, now);
    assert |LiveIn(next.log)| == |f.running| + 1;
    StaysNarrow(f.log, Started(seat, now), width);
  }

  lemma StartKeepsParted(f: Fan, seats: seq<Seat>, now: int)
    requires Parted(f, seats) && InTurn(f, seats) && f.queue != []
    ensures Parted(StartNext(f, now), seats) && InTurn(StartNext(f, now), seats)
    ensures SeatsOf(StartNext(f, now).running) == SeatsOf(f.running) + [f.queue[0]]
  {
    OneMoreNote(f.log, Started(f.queue[0], now));
    HeadOff(f.queue);
    Moves(StartedIn(f.log), f.queue);
    LastJob(f.running, Job(f.queue[0], now));
  }

  lemma Moves(started: seq<Seat>, queue: seq<Seat>)
    requires queue != []
    ensures (started + [queue[0]]) + queue[1..] == started + queue
  {
  }

  lemma LastJob(running: seq<Job>, job: Job)
    ensures SeatsOf(running + [job]) == SeatsOf(running) + [job.seat]
  {
  }

  lemma HeadOff(queue: seq<Seat>)
    requires queue != []
    ensures queue == [queue[0]] + queue[1..] && multiset(queue) == multiset(queue[1..]) + multiset{queue[0]}
  {
    assert queue == [queue[0]] + queue[1..];
  }

  lemma {:induction false} JobsWithout(running: seq<Job>, seat: Seat)
    ensures SeatsOf(WithoutJob(running, seat)) == Without(SeatsOf(running), seat)
    ensures forall j :: j in WithoutJob(running, seat) ==> j in running
  {
    if running != [] {
      JobsWithout(running[1..], seat);
      assert SeatsOf(running)[1..] == SeatsOf(running[1..]);
    }
  }

  /** A slot filled for a seat that had none, and the note of why, keep every slot told. */
  lemma FillKeepsTold(f: Fan, next: Fan, seats: seq<Seat>, results: Results, n: Note)
    requires n.Finished? && Told(f, seats, results) && n.seat in seats && n.seat !in FinishedIn(f.log)
    requires next.slots == f.slots[n.seat := Collected(results(n.seat), n.cause)] && next.log == f.log + [n]
    ensures Told(next, seats, results)
  {
    OneMoreNote(f.log, n);
    forall m | m in next.log && m.Finished?
      ensures m.seat in next.slots && next.slots[m.seat] == Collected(results(m.seat), m.cause)
    {
      if m in f.log {
        NotedIsFinished(f.log, m);
      }
    }
  }

  lemma {:induction false} NotedIsFinished(log: seq<Note>, n: Note)
    requires n in log && n.Finished?
    ensures n.seat in FinishedIn(log)
  {
    if log[|log| - 1] != n {
      NotedIsFinished(log[..|log| - 1], n);
    }
  }

  lemma FinishKeepsParted(f: Fan, seats: seq<Seat>, n: Note, results: Results)
    requires n.Finished? && Parted(f, seats) && n.seat in SeatsOf(f.running)
    ensures Parted(Finish(f, n, results), seats)
    ensures SeatsOf(Finish(f, n, results).running) == Without(SeatsOf(f.running), n.seat)
  {
    OneMoreNote(f.log, n);
    JobsWithout(f.running, n.seat);
    WithoutIs(SeatsOf(f.running), n.seat);
  }

  lemma FinishKeepsSound(f: Fan, seats: seq<Seat>, width: int, results: Results, n: Note)
    requires n.Finished? && Sound(f, seats, width, results) && Distinct(seats) && n.seat in SeatsOf(f.running)
    ensures Sound(Finish(f, n, results), seats, width, results)
    ensures StartedIn(Finish(f, n, results).log) == StartedIn(f.log)
  {
    OneMoreNote(f.log, n);
    OnlyHere(f, seats, n.seat);
    FinishKeepsParted(f, seats, n, results);
    FillKeepsTold(f, Finish(f, n, results), seats, results, n);
    LeavesNarrow(f.log, n, width);
  }

  lemma LeavesNarrow(log: seq<Note>, n: Note, width: int)
    requires Narrow(log, width) && n.Finished?
    ensures Narrow(log + [n], width)
  {
    OneMoreNote(log, n);
    WithoutIs(LiveIn(log), n.seat);
    assert log[..|log|] == log;
    StaysNarrow(log, n, width);
  }

  lemma GiveUpKeepsParted(f: Fan, seats: seq<Seat>, results: Results, turn: nat, reading: nat)
    requires Parted(f, seats) && f.queue != []
    ensures Parted(GiveUp(f, results, turn, reading), seats)
  {
    OneMoreNote(f.log, Finished(f.queue[0], NeverStarted, turn, reading));
    HeadOff(f.queue);
  }

  lemma GiveUpKeepsSound(f: Fan, seats: seq<Seat>, width: int, results: Results, turn: nat, reading: nat)
    requires Sound(f, seats, width, results) && Distinct(seats) && f.queue != []
    ensures Sound(GiveUp(f, results, turn, reading), seats, width, results)
    ensures StartedIn(GiveUp(f, results, turn, reading).log) == StartedIn(f.log)
  {
    var n := Finished(f.queue[0], NeverStarted, turn, reading);
    OneMoreNote(f.log, n);
    GiveUpKeepsParted(f, seats, results, turn, reading);
    OnlyHere(f, seats, n.seat);
    QueuedIsNotLive(f, seats);
    WithoutIs(LiveIn(f.log), n.seat);
    FillKeepsTold(f, GiveUp(f, results, turn, reading), seats, results, n);
    LeavesNarrow(f.log, n, width);
  }

  lemma QueuedIsNotLive(f: Fan, seats: seq<Seat>)
    requires Parted(f, seats) && Distinct(seats) && f.queue != [] && SeatsOf(f.running) == LiveIn(f.log)
    ensures f.queue[0] !in LiveIn(f.log)
  {
    OnlyHere(f, seats, f.queue[0]);
  }

  // ----- why each thing happened ---------------------------------------------------------------

  /** Whoever was started is running or finished, and whoever runs was started. */
  lemma {:induction false} StartedIsSomewhere(log: seq<Note>, s: Seat)
    ensures s in StartedIn(log) ==> s in LiveIn(log) || s in FinishedIn(log)
    ensures s in LiveIn(log) ==> s in StartedIn(log)
  {
    if log != [] {
      var before, last := log[..|log| - 1], log[|log| - 1];
      StartedIsSomewhere(before, s);
      WithoutOthers(LiveIn(before), last.seat, s);
    }
  }

  lemma {:induction false} WithoutOthers(seats: seq<Seat>, seat: Seat, s: Seat)
    ensures s in Without(seats, seat) ==> s in seats
    ensures s in seats && s != seat ==> s in Without(seats, seat)
  {
    if seats != [] && seats[0] != seat {
      WithoutOthers(seats[1..], seat, s);
    }
  }

  /** What is noted of a start: the seat had not finished. */
  lemma StartKeepsCaused(f: Fan, next: Fan, n: Note, w: World, limits: Limits, late: Lateness)
    requires n.Started? && Caused(f, w, limits, late) && next.log == f.log + [n]
    requires n.seat !in FinishedIn(f.log)
    requires forall j :: j in next.running ==> j in f.running || n == Started(j.seat, j.since)
    ensures Caused(next, w, limits, late)
  {
    OneMoreNote(f.log, n);
    forall m | m in next.log && m.Finished?
      ensures Gave(m, next.log, w, limits, late) && (m.cause == NeverStarted <==> m.seat !in StartedIn(next.log))
    {
      NotedIsFinished(f.log, m);
      GaveStill(m, f.log, n, w, limits, late);
    }
  }

  lemma GaveStill(n: Note, log: seq<Note>, more: Note, w: World, limits: Limits, late: Lateness)
    requires n.Finished? && Gave(n, log, w, limits, late)
    ensures Gave(n, log + [more], w, limits, late)
  {
    if n.cause == WorkerDeadline {
      var at :| Started(n.seat, at) in log && At(w, n.reading, n.turn) - at > limits.workerDeadline;
      assert Started(n.seat, at) in log + [more];
    }
  }

  /** What is noted of a finish: its cause, and whether the seat had been started. */
  lemma FinishKeepsCaused(f: Fan, next: Fan, n: Note, w: World, limits: Limits, late: Lateness)
    requires n.Finished? && Caused(f, w, limits, late) && next.log == f.log + [n]
    requires Gave(n, f.log, w, limits, late) && (n.cause == NeverStarted <==> n.seat !in StartedIn(f.log))
    requires forall j :: j in next.running ==> j in f.running
    ensures Caused(next, w, limits, late)
  {
    OneMoreNote(f.log, n);
    forall m | m in next.log && m.Finished? ensures Gave(m, next.log, w, limits, late) {
      GaveStill(m, f.log, n, w, limits, late);
    }
  }

  /** What every part of the loop keeps. */
  ghost predicate Kept(f: Fan, seats: seq<Seat>, w: World, limits: Limits, late: Lateness) {
    && Sound(f, seats, limits.width, w.results)
    && Caused(f, w, limits, late)
  }

  lemma StartKeeps(f: Fan, seats: seq<Seat>, w: World, limits: Limits, late: Lateness, now: int, next: Fan)
    requires Kept(f, seats, w, limits, late) && Distinct(seats) && InTurn(f, seats)
    requires f.queue != [] && |f.running| < limits.width && next == StartNext(f, now)
    ensures Kept(next, seats, w, limits, late) && InTurn(next, seats)
  {
    StartKeepsSound(f, seats, limits.width, w.results, now, next);
    OnlyHere(f, seats, f.queue[0]);
    StartKeepsCaused(f, next, Started(f.queue[0], now), w, limits, late);
  }

  lemma GiveUpKeeps(f: Fan, seats: seq<Seat>, w: World, limits: Limits, late: Lateness, turn: nat, reading: nat,
                    next: Fan)
    requires Kept(f, seats, w, limits, late) && Distinct(seats) && f.queue != [] && late(turn)
    requires next == GiveUp(f, w.results, turn, reading)
    ensures Kept(next, seats, w, limits, late) && StartedIn(next.log) == StartedIn(f.log)
  {
    var n := Finished(f.queue[0], NeverStarted, turn, reading);
    GiveUpKeepsSound(f, seats, limits.width, w.results, turn, reading);
    OnlyHere(f, seats, n.seat);
    QueuedIsNotLive(f, seats);
    StartedIsSomewhere(f.log, n.seat);
    FinishKeepsCaused(f, next, n, w, limits, late);
  }

  lemma FinishKeeps(f: Fan, seats: seq<Seat>, w: World, limits: Limits, late: Lateness, n: Note)
    requires Kept(f, seats, w, limits, late) && Distinct(seats) && n.Finished? && n.cause != NeverStarted
    requires n.seat in SeatsOf(f.running) && Gave(n, f.log, w, limits, late)
    ensures Kept(Finish(f, n, w.results), seats, w, limits, late)
    ensures StartedIn(Finish(f, n, w.results).log) == StartedIn(f.log)
  {
    FinishKeepsSound(f, seats, limits.width, w.results, n);
    JobsWithout(f.running, n.seat);
    StartedIsSomewhere(f.log, n.seat);
    FinishKeepsCaused(f, Finish(f, n, w.results), n, w, limits, late);
  }

  // ----- the turns of the loop -----------------------------------------------------------------

  /** The fan, and how often the world has been looked at. */
  datatype Cycle = Cycle(fan: Fan, reading: nat)

  function Begun(seats: seq<Seat>): Fan { Fan(seats, [], map s | s in seats :: Pending, []) }

  /** A turn that opens with this reading comes after the cycle's deadline. */
  predicate Late(w: World, limits: Limits, turn: nat, reading: nat) {
    At(w, reading, turn) - At(w, 0, 0) > limits.cycleDeadline
  }

  /** Every seat started that there is room for. */
  function FilledUp(c: Cycle, w: World, limits: Limits, turn: nat): Cycle
    decreases |c.fan.queue|
  {
    if c.fan.queue == [] || |c.fan.running| >= limits.width then c
    else FilledUp(Cycle(StartNext(c.fan, At(w, c.reading, turn)), c.reading + 1), w, limits, turn)
  }

  /** Every seat that was not started given up. */
  function GivenUp(f: Fan, w: World, turn: nat, reading: nat): Fan
    decreases |f.queue|
  {
    if f.queue == [] then f else GivenUp(GiveUp(f, w.results, turn, reading), w, turn, reading)
  }

  /** What becomes of a process that is looked at: nothing while it runs within its limits. */
  function Verdict(w: World, limits: Limits, job: Job, over: bool, turn: nat, reading: nat): Option<Cause> {
    if w.ended(job.seat, reading) then Some(Ended)
    else if over then Some(CycleDeadline)
    else if At(w, reading, turn) - job.since > limits.workerDeadline then Some(WorkerDeadline)
    else None
  }

  function LookedAt(f: Fan, job: Job, w: World, limits: Limits, over: bool, turn: nat, reading: nat): Fan {
    var verdict := Verdict(w, limits, job, over, turn, reading);
    if verdict.None? then f else Finish(f, Finished(job.seat, verdict.value, turn, reading), w.results)
  }

  /** Each of the jobs looked at in turn, one reading each. */
  function Polled(f: Fan, jobs: seq<Job>, w: World, limits: Limits, over: bool, turn: nat, reading: nat): Cycle
    decreases |jobs|
  {
    if jobs == [] then Cycle(f, reading)
    else Polled(LookedAt(f, jobs[0], w, limits, over, turn, reading), jobs[1..], w, limits, over, turn, reading + 1)
  }

  function Opened(c: Cycle, w: World, limits: Limits, turn: nat): Cycle {
    if Late(w, limits, turn, c.reading) then Cycle(GivenUp(c.fan, w, turn, c.reading), c.reading + 1)
    else FilledUp(Cycle(c.fan, c.reading + 1), w, limits, turn)
  }

  /** One turn: start what there is room for, or give up the rest; then look at every process. */
  function TurnOf(c: Cycle, w: World, limits: Limits, turn: nat): Cycle {
    var o := Opened(c, w, limits, turn);
    Polled(o.fan, o.fan.running, w, limits, Late(w, limits, turn, c.reading), turn, o.reading)
  }

  function AfterTurns(seats: seq<Seat>, w: World, limits: Limits, n: nat): Cycle {
    if n == 0 then Cycle(Begun(seats), 1) else TurnOf(AfterTurns(seats, w, limits, n - 1), w, limits, n - 1)
  }

  function TurnsOf(seats: seq<Seat>, w: World, limits: Limits): nat -> Cycle {
    (n: nat) => AfterTurns(seats, w, limits, n)
  }

  function LateIn(seats: seq<Seat>, w: World, limits: Limits): Lateness {
    (n: nat) => Late(w, limits, n, AfterTurns(seats, w, limits, n).reading)
  }

  predicate Idle(f: Fan) { f.queue == [] && f.running == [] }

  // ----- what a turn does ----------------------------------------------------------------------

  ghost predicate StartsKeep(keeps: Fan -> bool, width: int) {
    forall f, now :: keeps(f) && f.queue != [] && |f.running| < width ==> keeps(StartNext(f, now))
  }

  /** What every start keeps, filling up keeps; and then there is nobody or no room left. */
  lemma {:induction false} FilledUpIs(c: Cycle, keeps: Fan -> bool, w: World, limits: Limits, turn: nat, o: Cycle)
    requires StartsKeep(keeps, limits.width) && keeps(c.fan) && o == FilledUp(c, w, limits, turn)
    ensures keeps(o.fan) && o.reading >= c.reading
    ensures o.fan.queue == [] || |o.fan.running| >= limits.width
    decreases |c.fan.queue|
  {
    if c.fan.queue != [] && |c.fan.running| < limits.width {
      var next := StartNext(c.fan, At(w, c.reading, turn));
      FilledUpIs(Cycle(next, c.reading + 1), keeps, w, limits, turn, o);
    }
  }

  lemma FilledUpKeeps(c: Cycle, seats: seq<Seat>, w: World, limits: Limits, late: Lateness, turn: nat, o: Cycle)
    requires Kept(c.fan, seats, w, limits, late) && Distinct(seats) && InTurn(c.fan, seats)
    requires o == FilledUp(c, w, limits, turn)
    ensures Kept(o.fan, seats, w, limits, late) && InTurn(o.fan, seats) && o.reading >= c.reading
  {
    var keeps := (f: Fan) => Kept(f, seats, w, limits, late) && InTurn(f, seats);
    forall f, now | keeps(f) && f.queue != [] && |f.running| < limits.width ensures keeps(StartNext(f, now)) {
      StartKeeps(f, seats, w, limits, late, now, StartNext(f, now));
    }
    FilledUpIs(c, keeps, w, limits, turn, o);
  }

  lemma {:induction false} GivenUpKeeps(f: Fan, seats: seq<Seat>, w: World, limits: Limits, late: Lateness,
                                        turn: nat, reading: nat, g: Fan)
    requires Kept(f, seats, w, limits, late) && Distinct(seats) && late(turn)
    requires g == GivenUp(f, w, turn, reading)
    ensures Kept(g, seats, w, limits, late)
    ensures g.queue == [] && g.running == f.running && StartedIn(g.log) == StartedIn(f.log)
    decreases |f.queue|
  {
    if f.queue != [] {
      var next := GiveUp(f, w.results, turn, reading);
      GiveUpKeeps(f, seats, w, limits, late, turn, reading, next);
      GivenUpKeeps(next, seats, w, limits, late, turn, reading, g);
    }
  }

  lemma TwiceIn(seats: seq<Seat>, i: nat, j: nat)
    requires i < j < |seats| && seats[i] == seats[j]
    ensures multiset(seats)[seats[i]] >= 2
  {
    assert seats == seats[..i] + ([seats[i]] + (seats[i + 1..j] + ([seats[j]] + seats[j + 1..])));
  }

  /** Nobody runs twice. */
  lemma RunningDistinct(f: Fan, seats: seq<Seat>)
    requires Parted(f, seats) && Distinct(seats)
    ensures Distinct(SeatsOf(f.running))
  {
    var running := SeatsOf(f.running);
    forall i, j | 0 <= i < j < |running| ensures running[i] != running[j] {
      if running[i] == running[j] {
        TwiceIn(running, i, j);
        OnlyHere(f, seats, running[i]);
      }
    }
  }

  lemma {:induction false} OthersStay(running: seq<Job>, seat: Seat, job: Job)
    ensures job in running && job.seat != seat ==> job in WithoutJob(running, seat)
    ensures job in WithoutJob(running, seat) ==> job in running
  {
    if running != [] && running[0].seat != seat {
      OthersStay(running[1..], seat, job);
    }
  }

  lemma {:induction false} ItLeaves(running: seq<Job>, job: Job)
    requires Distinct(SeatsOf(running)) && job in running
    ensures job !in WithoutJob(running, job.seat) && Distinct(SeatsOf(WithoutJob(running, job.seat)))
    decreases |running|
  {
    var seats := SeatsOf(running);
    assert SeatsOf(running[1..]) == seats[1..];
    if running[0].seat == job.seat {
      FirstIsAlone(running);
      JobIsSeated(running[1..], job);
    } else {
      ItLeaves(running[1..], job);
      StaysFirst(running, job.seat);
    }
  }

  lemma StaysFirst(running: seq<Job>, seat: Seat)
    requires running != [] && Distinct(SeatsOf(running)) && Distinct(SeatsOf(WithoutJob(running[1..], seat)))
    requires running[0].seat != seat
    ensures Distinct(SeatsOf(WithoutJob(running, seat)))
  {
    var rest := WithoutJob(running[1..], seat);
    var seats := SeatsOf([running[0]] + rest);
    forall j | 0 < j < |seats| ensures seats[0] != seats[j] {
      OthersStay(running[1..], seat, rest[j - 1]);
      assert rest[j - 1] in rest && rest[j - 1] in running[1..];
      var k :| 1 <= k < |running| && running[k] == rest[j - 1];
      assert SeatsOf(running)[0] != SeatsOf(running)[k];
    }
    assert seats[1..] == SeatsOf(rest);
    forall i, j | 0 < i < j < |seats| ensures seats[i] != seats[j] {
      assert seats[1..][i - 1] != seats[1..][j - 1];
    }
  }

  /** The jobs still to be looked at are running, each once. */
  ghost predicate Ahead(f: Fan, jobs: seq<Job>) {
    && Distinct(SeatsOf(f.running)) && Distinct(SeatsOf(jobs))
    && forall j :: j in jobs ==> j in f.running
  }

  lemma StillAhead(f: Fan, jobs: seq<Job>, n: Note, results: Results)
    requires Ahead(f, jobs) && jobs != [] && n.Finished? && n.seat == jobs[0].seat
    ensures Ahead(f, jobs[1..]) && Ahead(Finish(f, n, results), jobs[1..])
    ensures jobs[0] !in Finish(f, n, results).running
  {
    assert SeatsOf(jobs)[1..] == SeatsOf(jobs[1..]);
    assert jobs[0] in f.running;
    ItLeaves(f.running, jobs[0]);
    forall j | j in jobs[1..] ensures j in WithoutJob(f.running, n.seat) {
      var k :| 1 <= k < |jobs| && jobs[k] == j;
      assert SeatsOf(jobs)[0] != SeatsOf(jobs)[k];
      OthersStay(f.running, n.seat, j);
    }
  }

  lemma LookKeepsAhead(f: Fan, jobs: seq<Job>, w: World, limits: Limits, over: bool, turn: nat, reading: nat)
    requires Ahead(f, jobs) && jobs != []
    ensures var next := LookedAt(f, jobs[0], w, limits, over, turn, reading);
            && Ahead(next, jobs[1..]) && next.queue == f.queue && f.log <= next.log
            && (jobs[0] in next.running <==> Verdict(w, limits, jobs[0], over, turn, reading).None?)
            && (forall j :: j in next.running ==> j in f.running)
            && (forall j :: j in f.running && j.seat != jobs[0].seat ==> j in next.running)
  {
    var verdict := Verdict(w, limits, jobs[0], over, turn, reading);
    StillAhead(f, jobs, Finished(jobs[0].seat, Ended, turn, reading), w.results);
    assert jobs[0] in jobs;
    if verdict.Some? {
      StillAhead(f, jobs, Finished(jobs[0].seat, verdict.value, turn, reading), w.results);
      forall j ensures j in f.running && j.seat != jobs[0].seat ==> j in WithoutJob(f.running, jobs[0].seat) {
        OthersStay(f.running, jobs[0].seat, j);
      }
      JobsWithout(f.running, jobs[0].seat);
    }
  }

  /** Whoever is not looked at stays, and nothing noted is unsaid. */
  lemma {:induction false} PollLeavesOthers(f: Fan, jobs: seq<Job>, w: World, limits: Limits, over: bool, turn: nat,
                                            reading: nat)
    requires Ahead(f, jobs)
    ensures var p := Polled(f, jobs, w, limits, over, turn, reading);
            && p.fan.queue == f.queue && f.log <= p.fan.log && p.reading == reading + |jobs|
            && (forall j :: j in p.fan.running ==> j in f.running)
            && (forall j :: j in f.running && j.seat !in SeatsOf(jobs) ==> j in p.fan.running)
    decreases |jobs|
  {
    if jobs != [] {
      LookKeepsAhead(f, jobs, w, limits, over, turn, reading);
      assert SeatsOf(jobs) == [jobs[0].seat] + SeatsOf(jobs[1..]);
      PollLeavesOthers(LookedAt(f, jobs[0], w, limits, over, turn, reading), jobs[1..], w, limits, over, turn,
                       reading + 1);
    }
  }

  /** Each process is looked at once, at a reading of its own, and stays running exactly when it has not
      ended, the cycle is not over and its time is not up; otherwise it is finished for just that cause. */
  lemma {:induction false} PollDecides(f: Fan, jobs: seq<Job>, w: World, limits: Limits, over: bool, turn: nat,
                                       reading: nat, i: nat)
    requires Ahead(f, jobs) && i < |jobs|
    ensures var p, verdict := Polled(f, jobs, w, limits, over, turn, reading),
                              Verdict(w, limits, jobs[i], over, turn, reading + i);
            && (jobs[i] in p.fan.running <==> verdict.None?)
            && (verdict.Some? ==> Finished(jobs[i].seat, verdict.value, turn, reading + i) in p.fan.log)
    decreases |jobs|
  {
    if i > 0 {
      LookKeepsAhead(f, jobs, w, limits, over, turn, reading);
      PollDecides(LookedAt(f, jobs[0], w, limits, over, turn, reading), jobs[1..], w, limits, over, turn,
                  reading + 1, i - 1);
    } else {
      FirstDecided(f, jobs, w, limits, over, turn, reading);
    }
  }

  lemma FirstDecided(f: Fan, jobs: seq<Job>, w: World, limits: Limits, over: bool, turn: nat, reading: nat)
    requires Ahead(f, jobs) && jobs != []
    ensures var p, verdict := Polled(f, jobs, w, limits, over, turn, reading).fan,
                              Verdict(w, limits, jobs[0], over, turn, reading);
            && (jobs[0] in p.running <==> verdict.None?)
            && (verdict.Some? ==> Finished(jobs[0].seat, verdict.value, turn, reading) in p.log)
  {
    var next := LookedAt(f, jobs[0], w, limits, over, turn, reading);
    LookKeepsAhead(f, jobs, w, limits, over, turn, reading);
    PollLeavesOthers(next, jobs[1..], w, limits, over, turn, reading + 1);
    FirstIsAlone(jobs);
    StaysNoted(next.log, Polled(next, jobs[1..], w, limits, over, turn, reading + 1).fan.log);
  }

  lemma StaysNoted(log: seq<Note>, longer: seq<Note>)
    requires log <= longer
    ensures forall n :: n in log ==> n in longer
  {
  }

  lemma FirstIsAlone(jobs: seq<Job>)
    requires jobs != [] && Distinct(SeatsOf(jobs))
    ensures jobs[0].seat !in SeatsOf(jobs[1..])
  {
    forall k | 0 <= k < |jobs| - 1 ensures SeatsOf(jobs[1..])[k] != jobs[0].seat {
      assert SeatsOf(jobs)[0] != SeatsOf(jobs)[k + 1];
    }
  }

  lemma JobIsSeated(jobs: seq<Job>, job: Job)
    ensures job in jobs ==> job.seat in SeatsOf(jobs)
  {
    if job in jobs {
      var i :| 0 <= i < |jobs| && jobs[i] == job;
      assert SeatsOf(jobs)[i] == job.seat;
    }
  }

  lemma {:induction false} PolledKeeps(f: Fan, jobs: seq<Job>, seats: seq<Seat>, w: World, limits: Limits,
                                       late: Lateness, turn: nat, reading: nat, p: Cycle)
    requires Kept(f, seats, w, limits, late) && Distinct(seats) && Ahead(f, jobs)
    requires p == Polled(f, jobs, w, limits, late(turn), turn, reading)
    ensures Kept(p.fan, seats, w, limits, late) && StartedIn(p.fan.log) == StartedIn(f.log)
    decreases |jobs|
  {
    if jobs != [] {
      var over := late(turn);
      LookKeepsAhead(f, jobs, w, limits, over, turn, reading);
      var next := LookedAt(f, jobs[0], w, limits, over, turn, reading);
      LookKeeps(f, jobs[0], seats, w, limits, late, turn, reading, next);
      PolledKeeps(next, jobs[1..], seats, w, limits, late, turn,
                  reading + 1, p);
    }
  }

  lemma LookKeeps(f: Fan, job: Job, seats: seq<Seat>, w: World, limits: Limits, late: Lateness, turn: nat,
                  reading: nat, next: Fan)
    requires Kept(f, seats, w, limits, late) && Distinct(seats) && job in f.running
    requires next == LookedAt(f, job, w, limits, late(turn), turn, reading)
    ensures Kept(next, seats, w, limits, late) && StartedIn(next.log) == StartedIn(f.log)
  {
    var verdict := Verdict(w, limits, job, late(turn), turn, reading);
    if verdict.Some? {
      JobIsSeated(f.running, job);
      FinishKeeps(f, seats, w, limits, late, Finished(job.seat, verdict.value, turn, reading));
    }
  }

  lemma OpenedKeeps(c: Cycle, seats: seq<Seat>, w: World, limits: Limits, late: Lateness, turn: nat, o: Cycle)
    requires Kept(c.fan, seats, w, limits, late) && Distinct(seats) && InTurn(c.fan, seats)
    requires late(turn) == Late(w, limits, turn, c.reading) && o == Opened(c, w, limits, turn)
    ensures Kept(o.fan, seats, w, limits, late) && InTurn(o.fan, seats)
    ensures o.reading > c.reading && (late(turn) ==> o.fan.queue == [])
  {
    if late(turn) {
      GivenUpKeeps(c.fan, seats, w, limits, late, turn, c.reading, o.fan);
    } else {
      FilledUpKeeps(Cycle(c.fan, c.reading + 1), seats, w, limits, late, turn, o);
    }
  }

  /** A turn keeps everything, and one after the cycle's deadline leaves nobody queued or running. */
  lemma TurnKeeps(c: Cycle, seats: seq<Seat>, w: World, limits: Limits, late: Lateness, turn: nat, next: Cycle)
    requires Kept(c.fan, seats, w, limits, late) && Distinct(seats) && InTurn(c.fan, seats)
    requires late(turn) == Late(w, limits, turn, c.reading) && next == TurnOf(c, w, limits, turn)
    ensures Kept(next.fan, seats, w, limits, late) && InTurn(next.fan, seats) && next.reading > c.reading
    ensures late(turn) ==> Idle(next.fan)
  {
    var o := Opened(c, w, limits, turn);
    OpenedKeeps(c, seats, w, limits, late, turn, o);
    RunningDistinct(o.fan, seats);
    PolledKeeps(o.fan, o.fan.running, seats, w, limits, late, turn, o.reading, next);
    PollLeavesOthers(o.fan, o.fan.running, w, limits, late(turn), turn, o.reading);
    if late(turn) {
      NoneLeftRunning(o.fan, w, limits, turn, o.reading);
    }
  }

  lemma NoneLeftRunning(f: Fan, w: World, limits: Limits, turn: nat, reading: nat)
    requires Ahead(f, f.running)
    ensures Polled(f, f.running, w, limits, true, turn, reading).fan.running == []
  {
    var left := Polled(f, f.running, w, limits, true, turn, reading).fan.running;
    PollLeavesOthers(f, f.running, w, limits, true, turn, reading);
    if left != [] {
      assert left[0] in left && left[0] in f.running;
      var i :| 0 <= i < |f.running| && f.running[i] == left[0];
      PollDecides(f, f.running, w, limits, true, turn, reading, i);
      assert false;
    }
  }

  // ----- the whole cycle -----------------------------------------------------------------------

  /** The clock, less the pauses, never goes back. */
  ghost predicate Steady(w: World) {
    forall j: nat, k: nat :: j <= k ==> w.drift(j) <= w.drift(k)
  }

  lemma BeginsKept(seats: seq<Seat>, w: World, limits: Limits, late: Lateness, f: Fan)
    requires f == Begun(seats)
    ensures Kept(f, seats, w, limits, late) && InTurn(f, seats)
  {
    assert SeatsOf(f.running) == [];
  }

  /** The fan after each number of turns, and which turns come after the cycle's deadline. */
  ghost predicate Turning(cycles: nat -> Cycle, late: Lateness, w: World, limits: Limits, k: nat) {
    && cycles(k + 1) == TurnOf(cycles(k), w, limits, k)
    && late(k) == Late(w, limits, k, cycles(k).reading)
  }

  ghost predicate Turns(cycles: nat -> Cycle, late: Lateness, seats: seq<Seat>, w: World, limits: Limits) {
    && cycles(0) == Cycle(Begun(seats), 1)
    && forall k: nat :: Turning(cycles, late, w, limits, k)
  }

  lemma TheseAreTurns(seats: seq<Seat>, w: World, limits: Limits)
    ensures Turns(TurnsOf(seats, w, limits), LateIn(seats, w, limits), seats, w, limits)
  {
  }

  /** After any number of turns: each seat queued, running or finished; never more than `width` at a time;
      seats started in turn; and every finish for the cause its note gives. */
  lemma {:induction false} EveryTurnKeeps(cycles: nat -> Cycle, late: Lateness, seats: seq<Seat>, w: World,
                                          limits: Limits, n: nat)
    requires Distinct(seats) && Turns(cycles, late, seats, w, limits)
    ensures Kept(cycles(n).fan, seats, w, limits, late) && InTurn(cycles(n).fan, seats)
  {
    if n == 0 {
      BeginsKept(seats, w, limits, late, cycles(0).fan);
    } else {
      EveryTurnKeeps(cycles, late, seats, w, limits, n - 1);
      OneTurnKeeps(cycles, late, seats, w, limits, n - 1, cycles(n - 1), cycles(n));
    }
  }

  lemma OneTurnKeeps(cycles: nat -> Cycle, late: Lateness, seats: seq<Seat>, w: World, limits: Limits, n: nat,
                     before: Cycle, next: Cycle)
    requires Distinct(seats) && Turns(cycles, late, seats, w, limits)
    requires before == cycles(n) && next == cycles(n + 1)
    requires Kept(before.fan, seats, w, limits, late) && InTurn(before.fan, seats)
    ensures Kept(next.fan, seats, w, limits, late) && InTurn(next.fan, seats)
  {
    assert Turning(cycles, late, w, limits, n);
    TurnKeeps(before, seats, w, limits, late, n, next);
  }

  /** A turn after the cycle's deadline is the last one. */
  lemma LateTurnIsLast(cycles: nat -> Cycle, late: Lateness, seats: seq<Seat>, w: World, limits: Limits, n: nat)
    requires Distinct(seats) && Turns(cycles, late, seats, w, limits) && late(n)
    ensures Idle(cycles(n + 1).fan)
  {
    EveryTurnKeeps(cycles, late, seats, w, limits, n);
    assert Turning(cycles, late, w, limits, n);
    TurnKeeps(cycles(n), seats, w, limits, late, n, cycles(n + 1));
  }

  /** Whoever runs after a turn had not ended and was within its time when it was looked at in that turn. */
  lemma StillWithinItsTime(cycles: nat -> Cycle, late: Lateness, seats: seq<Seat>, w: World, limits: Limits, n: nat,
                           job: Job) returns (reading: nat)
    requires Distinct(seats) && Turns(cycles, late, seats, w, limits) && job in cycles(n + 1).fan.running
    ensures cycles(n).reading < reading < cycles(n + 1).reading && !late(n) && !w.ended(job.seat, reading)
    ensures At(w, reading, n) - job.since <= limits.workerDeadline
  {
    EveryTurnKeeps(cycles, late, seats, w, limits, n);
    assert Turning(cycles, late, w, limits, n);
    var o := Opened(cycles(n), w, limits, n);
    OpenedKeeps(cycles(n), seats, w, limits, late, n, o);
    RunningDistinct(o.fan, seats);
    reading := LookedAtAlive(o, w, limits, late(n), n, cycles(n + 1), job);
  }

  lemma LookedAtAlive(o: Cycle, w: World, limits: Limits, over: bool, turn: nat, next: Cycle, job: Job)
    returns (reading: nat)
    requires Ahead(o.fan, o.fan.running) && job in next.fan.running
    requires next == Polled(o.fan, o.fan.running, w, limits, over, turn, o.reading)
    ensures o.reading <= reading < next.reading && Verdict(w, limits, job, over, turn, reading).None?
  {
    PollLeavesOthers(o.fan, o.fan.running, w, limits, over, turn, o.reading);
    var i :| 0 <= i < |o.fan.running| && o.fan.running[i] == job;
    PollDecides(o.fan, o.fan.running, w, limits, over, turn, o.reading, i);
    reading := o.reading + i;
  }

  /** What a cycle leaves: every slot filled as its seat's finish says, every finish for the cause its note
      gives, never started exactly when the log has no start; every seat finished once, and started at most
      once, in turn; never more than `width` at a time; and nobody left running. */
  ghost predicate Complete(f: Fan, seats: seq<Seat>, w: World, limits: Limits, late: Lateness) {
    && (forall s :: s in f.slots <==> s in seats)
    && (forall s :: s in seats ==> f.slots[s].Done?)
    && (forall n :: n in f.log && n.Finished? ==>
          n.seat in f.slots && f.slots[n.seat] == Collected(w.results(n.seat), n.cause))
    && Caused(f, w, limits, late)
    && StartedIn(f.log) <= seats && multiset(FinishedIn(f.log)) == multiset(seats)
    && Narrow(f.log, limits.width) && LiveIn(f.log) == []
  }

  lemma EndsComplete(f: Fan, seats: seq<Seat>, w: World, limits: Limits, late: Lateness)
    requires Kept(f, seats, w, limits, late) && InTurn(f, seats) && Idle(f)
    ensures Complete(f, seats, w, limits, late)
  {
    assert SeatsOf(f.running) == [] && multiset(f.queue) == multiset{};
    assert multiset(seats) == multiset(FinishedIn(f.log));
    forall s | s in seats ensures f.slots[s].Done? {
      assert s in multiset(seats);
      assert s in FinishedIn(f.log);
    }
  }

  // ----- the loop ------------------------------------------------------------------------------

  /** A process ended, or was killed: its place is free and its slot filled. */
  method Collect(f: Fan, job: Job, w: World, killed: Option<Cause>, turn: nat, reading: nat) returns (next: Fan)
    requires killed == None || killed == Some(CycleDeadline) || killed == Some(WorkerDeadline)
    ensures next == Finish(f, Finished(job.seat, if killed.Some? then killed.value else Ended, turn, reading),
                           w.results)
  {
    var outcome := w.results(job.seat);
    if killed.Some? || outcome.Pending? {
      outcome := Done(Failed, if killed == Some(CycleDeadline) then "cycle deadline"
                              else if killed == Some(WorkerDeadline) then "worker deadline"
                              else "crashed");
    }
    next := Fan(f.queue, WithoutJob(f.running, job.seat), f.slots[job.seat := outcome],
                f.log + [Finished(job.seat, if killed.Some? then killed.value else Ended, turn, reading)]);
  }

  method StartSeats(f: Fan, w: World, limits: Limits, turn: nat, reading: nat) returns (next: Fan, readings: nat)
    ensures Cycle(next, readings) == FilledUp(Cycle(f, reading), w, limits, turn)
  {
    next, readings := f, reading;
    while next.queue != [] && |next.running| < limits.width
      invariant FilledUp(Cycle(next, readings), w, limits, turn) == FilledUp(Cycle(f, reading), w, limits, turn)
      decreases |next.queue|
    {
      next, readings := StartNext(next, At(w, readings, turn)), readings + 1;
    }
  }

  method ClearQueue(f: Fan, w: World, turn: nat, reading: nat) returns (next: Fan)
    ensures next == GivenUp(f, w, turn, reading)
  {
    next := f;
    while next.queue != []
      invariant GivenUp(next, w, turn, reading) == GivenUp(f, w, turn, reading)
      decreases |next.queue|
    {
      next := GiveUp(next, w.results, turn, reading);
    }
  }

  /** Every running process is looked at once: collected if it ended, killed if the cycle's time or its own
      is over, and left running otherwise. */
  method PollAll(f: Fan, w: World, limits: Limits, over: bool, turn: nat, reading: nat)
    returns (next: Fan, readings: nat)
    ensures Cycle(next, readings) == Polled(f, f.running, w, limits, over, turn, reading)
  {
    next, readings := f, reading;
    var jobs := f.running;
    while jobs != []
      invariant Polled(next, jobs, w, limits, over, turn, readings)
                == Polled(f, f.running, w, limits, over, turn, reading)
      decreases |jobs|
    {
      if w.ended(jobs[0].seat, readings) {
        next := Collect(next, jobs[0], w, None, turn, readings);
      } else if over || At(w, readings, turn) - jobs[0].since > limits.workerDeadline {
        next := Collect(next, jobs[0], w, Some(if over then CycleDeadline else WorkerDeadline), turn, readings);
      }
      jobs, readings := jobs[1..], readings + 1;
    }
  }

  method Turn(f: Fan, w: World, limits: Limits, over: bool, turn: nat, now: nat)
    returns (next: Fan, readings: nat)
    requires over == Late(w, limits, turn, now)
    ensures Cycle(next, readings) == TurnOf(Cycle(f, now), w, limits, turn)
  {
    next, readings := f, now + 1;
    if !over {
      next, readings := StartSeats(next, w, limits, turn, readings);
    }
    if over {
      next := ClearQueue(next, w, turn, now);
    }
    next, readings := PollAll(next, w, limits, over, turn, readings);
  }

  function Failing(slots: map<Seat, Slot>, seats: seq<Seat>): seq<Seat> {
    if seats == [] then []
    else
      var n := |seats| - 1;
      Failing(slots, seats[..n])
        + if seats[n] in slots && slots[seats[n]].Done? && slots[seats[n]].status == Failed then [seats[n]] else []
  }

  lemma {:induction false} FailingAre(slots: map<Seat, Slot>, seats: seq<Seat>)
    ensures forall s :: s in Failing(slots, seats) <==>
              s in seats && s in slots && slots[s].Done? && slots[s].status == Failed
  {
    if seats != [] {
      var n := |seats| - 1;
      FailingAre(slots, seats[..n]);
      assert seats == seats[..n] + [seats[n]];
    }
  }

  /** Turn by turn until nobody is queued or running; `pauses` is how many turns that took. None but the last
      opened after the cycle's deadline. */
  method RunTurns(seats: seq<Seat>, w: World, limits: Limits, ghost cycles: nat -> Cycle, ghost late: Lateness)
    returns (f: Fan, pauses: nat)
    requires Distinct(seats) && Steady(w) && Turns(cycles, late, seats, w, limits)
    ensures f == cycles(pauses).fan && Idle(f) && forall n :: 0 <= n < pauses ==> !Idle(cycles(n).fan)
    ensures forall n :: 0 <= n < pauses - 1 ==> !late(n)
    ensures pauses <= 1 || PAUSE * (pauses - 2) <= limits.cycleDeadline
  {
    f := Begun(seats);
    var now: nat := 1;
    pauses := 0;
    while f.queue != [] || f.running != []
      invariant Cycle(f, now) == cycles(pauses)
      invariant forall n :: 0 <= n < pauses ==> !Idle(cycles(n).fan)
      invariant forall n :: 0 <= n < pauses - 1 ==> !late(n)
      invariant pauses > 0 ==> if late(pauses - 1) then Idle(f) else PAUSE * (pauses - 1) <= limits.cycleDeadline
      invariant pauses <= 1 || PAUSE * (pauses - 2) <= limits.cycleDeadline
      decreases if Idle(f) then 0 else 1, limits.cycleDeadline - PAUSE * pauses
    {
      var over := At(w, now, pauses) - At(w, 0, 0) > limits.cycleDeadline;
      assert Turning(cycles, late, w, limits, pauses);
      if over {
        LateTurnIsLast(cycles, late, seats, w, limits, pauses);
      }
      f, now := Turn(f, w, limits, over, pauses, now);
      pauses := pauses + 1;
    }
  }

  /** Fan the seats out and collect every outcome. */
  method RunCycle(seats: seq<Seat>, w: World, limits: Limits)
    returns (f: Fan, failed: seq<Seat>, partial: bool, pauses: nat)
    requires Distinct(seats) && Steady(w)
    ensures f == TurnsOf(seats, w, limits)(pauses).fan && Idle(f)
    ensures forall n :: 0 <= n < pauses ==> !Idle(TurnsOf(seats, w, limits)(n).fan)
    ensures forall n :: 0 <= n < pauses - 1 ==> !LateIn(seats, w, limits)(n)
    ensures pauses <= 1 || PAUSE * (pauses - 2) <= limits.cycleDeadline
    ensures Complete(f, seats, w, limits, LateIn(seats, w, limits))
    ensures failed == Failing(f.slots, seats) && (partial <==> failed != [])
    ensures forall s :: s in failed <==> s in seats && s in f.slots && f.slots[s].Done? && f.slots[s].status == Failed
  {
    TheseAreTurns(seats, w, limits);
    f, pauses := RunTurns(seats, w, limits, TurnsOf(seats, w, limits), LateIn(seats, w, limits));
    IdleIsComplete(TurnsOf(seats, w, limits), LateIn(seats, w, limits), seats, w, limits, pauses, f);
    failed := FailedOf(f.slots, seats);
    partial := failed != [];
  }

  lemma IdleIsComplete(cycles: nat -> Cycle, late: Lateness, seats: seq<Seat>, w: World, limits: Limits, n: nat,
                       f: Fan)
    requires Distinct(seats) && Turns(cycles, late, seats, w, limits) && f == cycles(n).fan && Idle(f)
    ensures Complete(f, seats, w, limits, late)
  {
    EveryTurnKeeps(cycles, late, seats, w, limits, n);
    EndsComplete(f, seats, w, limits, late);
  }

  method FailedOf(slots: map<Seat, Slot>, seats: seq<Seat>) returns (failed: seq<Seat>)
    requires forall s :: s in seats ==> s in slots
    ensures failed == Failing(slots, seats)
    ensures forall s :: s in failed <==> s in seats && s in slots && slots[s].Done? && slots[s].status == Failed
  {
    failed := [];
    for k := 0 to |seats|
      invariant failed == Failing(slots, seats[..k])
    {
      assert seats[..k + 1][..k] == seats[..k];
      if slots[seats[k]].Done? && slots[seats[k]].status == Failed {
        failed := failed + [seats[k]];
      }
    }
    assert seats[..|seats|] == seats;
    FailingAre(slots, seats);
  }
}

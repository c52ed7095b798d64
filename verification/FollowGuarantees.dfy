/** What callers of the follow protocol may rely on, over every interleaving. */
module FollowGuarantees {
  import opened Wrappers
  import opened FollowProtocol
  import opened FollowSafety

  /** `s` is the end of some interleaving. */
  ghost predicate Reached(origin: Joints, now: real, threads: nat, actions: seq<Action>, s: State) {
    Run(Started(origin, now, threads), actions) == Some(s)
  }

  lemma ReachedIsSound(origin: Joints, now: real, threads: nat, actions: seq<Action>, s: State)
    requires Reached(origin, now, threads, actions, s)
    ensures Inv(s, origin)
  {
    InvAtStart(origin, now, threads);
    InvAlongRuns(Started(origin, now, threads), actions, origin);
  }

  /** Every chunk publishes a prefix of its rows, in order, each at most once and none before
      `started + i * dt`. */
  lemma ChunksPublishPrefixes(origin: Joints, now: real, threads: nat, actions: seq<Action>, s: State, c: nat)
    requires Reached(origin, now, threads, actions, s) && c < |s.chunks|
    ensures FaithfulPrefix(PublishedOf(s.log, c), s.chunks[c])
    ensures forall i | 0 <= i < |PublishedOf(s.log, c)| ::
              s.chunks[c].started + i as real * s.chunks[c].dt <= PublishedOf(s.log, c)[i].at
  {
    ReachedIsSound(origin, now, threads, actions, s);
  }

  lemma NextKeepsHistory(s: State, a: Action)
    requires Next(s, a).Some?
    ensures s.log <= Next(s, a).value.log
  {
    hide WorkerNext, CallerNext;
    match a
    case WorkerStep(setOk) => WorkerKeepsHistory(s, setOk);
    case CallerStep(t, setOk) =>
      if Writes(s.callers[t]) {
        WriterKeepsHistory(s, t, setOk);
      } else {
        CallerFrame(s, t, setOk);
      }
    case _ =>
  }

  lemma WorkerKeepsHistory(s: State, setOk: bool)
    requires WorkerNext(s, setOk).Some?
    ensures s.log <= WorkerNext(s, setOk).value.log
  {
  }

  lemma WriterKeepsHistory(s: State, t: nat, setOk: bool)
    requires t < |s.callers| && CallerNext(s, t, setOk).Some? && Writes(s.callers[t])
    ensures s.log <= CallerNext(s, t, setOk).value.log
  {
  }

  lemma {:induction false} RunKeepsHistory(s: State, actions: seq<Action>)
    requires Run(s, actions).Some?
    ensures s.log <= Run(s, actions).value.log
    decreases |actions|
  {
    if actions != [] {
      NextKeepsHistory(s, actions[0]);
      RunKeepsHistory(Next(s, actions[0]).value, actions[1..]);
    }
  }

  /** The step, under the follow lock, by which a call cancels or replaces the chunk. */
  ghost predicate Supersedes(c: Caller) {
    c.MoveHasFollow? || c.ChunkChecked? || c.StopHasFollow?
  }

  lemma SupersedingStep(s: State, t: nat, setOk: bool)
    requires t < |s.callers| && Supersedes(s.callers[t]) && CallerNext(s, t, setOk).Some?
    ensures var n := CallerNext(s, t, setOk).value;
            && n.log == s.log + [Superseded(|s.chunks|)]
            && |n.callers| == |s.callers| && s.callers[t].HoldsFollow() && n.callers[t].HoldsFollow()
  {
  }

  /** Once a `move_*`, a `follow` or a `stop` has cancelled the chunk, which it does before it
      releases the follow lock, nothing of any chunk stored before is published, however the run
      goes on. */
  lemma SupersededChunksStaySilent(
    origin: Joints, now: real, threads: nat, actions: seq<Action>, s: State,
    t: nat, setOk: bool, more: seq<Action>, last: State)
    requires Reached(origin, now, threads, actions, s)
    requires t < |s.callers| && Supersedes(s.callers[t]) && CallerNext(s, t, setOk).Some?
    requires Run(CallerNext(s, t, setOk).value, more) == Some(last)
    ensures s.callers[t].HoldsFollow() && CallerNext(s, t, setOk).value.callers[t].HoldsFollow()
    ensures forall j | |s.log| <= j < |last.log| && last.log[j].Published? :: |s.chunks| <= last.log[j].chunk
  {
    hide PublishedOf, Replay, MovesIn, DueAt, LocksOk, ChunkOk, PrefixesOk, ReadsOk, TakenOk, WakeOk, TargetOk;
    ReachedIsSound(origin, now, threads, actions, s);
    SupersedingStep(s, t, setOk);
    hide CallerNext;
    var n := CallerNext(s, t, setOk).value;
    assert Next(s, CallerStep(t, setOk)) == Some(n);
    InvKept(s, CallerStep(t, setOk), origin);
    InvAlongRuns(n, more, origin);
    RunKeepsHistory(n, more);
    assert last.log[|s.log|] == n.log[|s.log|] == Superseded(|s.chunks|);
    assert NothingFromTheSuperseded(last.log);
  }

  /** The handle is taken at most once, and nothing is set on it after. */
  lemma NothingIsSetAfterTheTake(origin: Joints, now: real, threads: nat, actions: seq<Action>, s: State, i: nat,
                          j: nat)
    requires Reached(origin, now, threads, actions, s) && i < j < |s.log| && s.log[i] == Taken
    ensures s.control.None? && !s.log[j].Taken? && !s.log[j].Published? && !s.log[j].Moved?
  {
    ReachedIsSound(origin, now, threads, actions, s);
  }

  ghost predicate OnlyDeltas(log: seq<Entry>) {
    forall e | e in log :: !e.Published? && (e.Moved? ==> e.m.By?)
  }

  /** What the deltas of joint `i` in a history add up to. */
  function DeltaSum(log: seq<Entry>, i: nat): real
    requires i < 7
  {
    if log == [] then 0.0
    else
      var e := log[|log| - 1];
      DeltaSum(log[..|log| - 1], i) + if e.Moved? && e.m.By? then e.m.delta[i] else 0.0
  }

  lemma {:induction false} DeltasAddUp(origin: Joints, log: seq<Entry>, i: nat)
    requires i < 7 && OnlyDeltas(log)
    ensures Replay(origin, log)[i] == origin[i] + DeltaSum(log, i)
  {
    if log != [] {
      var front := log[..|log| - 1];
      assert forall e | e in front :: e in log;
      assert log[|log| - 1] in log;
      DeltasAddUp(origin, front, i);
    }
  }

  /** Concurrent `move_by`s lose no delta: while nothing else sets the target, it is where it
      started plus every delta, whatever the interleaving; and the moves set are, one for one and
      in order, those whose calls have returned success, and at most one more, whose call still
      holds the follow lock. */
  lemma NoDeltaIsLost(origin: Joints, now: real, threads: nat, actions: seq<Action>, s: State)
    requires Reached(origin, now, threads, actions, s) && OnlyDeltas(s.log) && s.control.Some?
    ensures forall i | 0 <= i < 7 :: s.control.value[i] == origin[i] + DeltaSum(s.log, i)
    ensures MovesIn(s.log) == Acknowledged(s.answers)
            || exists last :: MovesIn(s.log) == Acknowledged(s.answers) + [last]
    ensures s.followOwner.None? ==> MovesIn(s.log) == Acknowledged(s.answers)
  {
    ReachedIsSound(origin, now, threads, actions, s);
    forall i | 0 <= i < 7 ensures s.control.value[i] == origin[i] + DeltaSum(s.log, i) {
      DeltasAddUp(origin, s.log, i);
    }
  }

  lemma {:induction false} MoveIsLogged(log: seq<Entry>, made: Made)
    ensures made in MovesIn(log) <==> Moved(made.mover, made.m) in log
  {
    if log != [] {
      var front, e := log[..|log| - 1], log[|log| - 1];
      MoveIsLogged(front, made);
      assert log == front + [e];
    }
  }

  /** Every call that returned success set its own motion: whatever else ran, the history has it. */
  lemma SuccessMeansSet(origin: Joints, now: real, threads: nat, actions: seq<Action>, s: State, made: Made)
    requires Reached(origin, now, threads, actions, s) && made in Acknowledged(s.answers)
    ensures Moved(made.mover, made.m) in s.log
  {
    ReachedIsSound(origin, now, threads, actions, s);
    assert made in MovesIn(s.log);
    MoveIsLogged(s.log, made);
  }

  /** No wakeup is lost: a parked worker that no thread is about to notify has nothing to do yet.
      Parked without a deadline, no row is pending and it was not told to quit; parked with one,
      the deadline is exactly when the next pending row is due. */
  lemma NoLostWakeup(origin: Joints, now: real, threads: nat, actions: seq<Action>, s: State)
    requires Reached(origin, now, threads, actions, s)
    requires s.worker.Parked? && forall t | 0 <= t < |s.callers| :: !s.callers[t].WillNotify()
    ensures !s.follow.quit
    ensures s.worker.deadline.None? ==> !s.follow.Pending()
    ensures s.follow.Pending() ==>
              s.worker.deadline == Some(s.follow.started + s.follow.dt * s.follow.next as real)
  {
    ReachedIsSound(origin, now, threads, actions, s);
    assert s.follow.Due(s.follow.next) == s.follow.started + s.follow.dt * s.follow.next as real;
    hide DueAt;
  }

  /** Some thread can take a step of its own. */
  ghost predicate SomeoneCanMove(s: State) {
    WorkerNext(s, true).Some? || exists t | 0 <= t < |s.callers| :: CallerNext(s, t, true).Some?
  }

  lemma HolderOfControlMoves(s: State)
    requires LocksOk(s) && s.controlOwner.Some?
    ensures SomeoneCanMove(s)
  {
    match s.controlOwner.value
    case TheWorker =>
    case TheCaller(t) => assert CallerNext(s, t, true).Some?;
  }

  lemma HolderOfFollowMoves(s: State)
    requires LocksOk(s) && s.controlOwner.None? && s.followOwner.Some?
    ensures SomeoneCanMove(s)
  {
    match s.followOwner.value
    case TheWorker =>
    case TheCaller(t) => assert CallerNext(s, t, true).Some?;
  }

  /** The protocol never deadlocks: as long as a call is under way, or the worker is neither
      parked nor gone, some thread can go on. */
  lemma NoDeadlock(origin: Joints, now: real, threads: nat, actions: seq<Action>, s: State)
    requires Reached(origin, now, threads, actions, s)
    requires (exists t | 0 <= t < |s.callers| :: !s.callers[t].Idle?) || !(s.worker.Parked? || s.worker.Exited?)
    ensures SomeoneCanMove(s)
  {
    ReachedIsSound(origin, now, threads, actions, s);
    if s.controlOwner.Some? {
      HolderOfControlMoves(s);
    } else if s.followOwner.Some? {
      HolderOfFollowMoves(s);
    } else if t :| 0 <= t < |s.callers| && !s.callers[t].Idle? {
      assert CallerNext(s, t, true).Some?;
    }
  }

  /** Every call is at most seven of its own steps long, and no other thread makes it longer. */
  lemma CallsAreShort(s: State, t: nat, setOk: bool, u: nat)
    requires t < |s.callers| && u < |s.callers| && CallerNext(s, t, setOk).Some?
    ensures |CallerNext(s, t, setOk).value.callers| == |s.callers|
    ensures StepsLeft(CallerNext(s, t, setOk).value.callers[u]) <= StepsLeft(s.callers[u]) <= 7
    ensures u == t ==> StepsLeft(CallerNext(s, t, setOk).value.callers[u]) < StepsLeft(s.callers[u])
  {
    CallerSteps(s, t, setOk);
    hide CallerNext;
  }

  // ---------------------------------------------------------------------------------------
  // How long the worker keeps the follow lock
  // ---------------------------------------------------------------------------------------

  function RowsLeft(f: Follow): nat {
    if f.next < |f.rows| then |f.rows| - f.next else 0
  }

  /** Six steps for each row that may still be due, and those to the end of the turn. */
  function WorkerLeft(s: State): nat {
    match s.worker
    case AtHead => 6 * RowsLeft(s.follow) + 1
    case WantsControl(_) => 6 * RowsLeft(s.follow) + 6
    case HasControl(_) => 6 * RowsLeft(s.follow) + 5
    case HasRead(_, _) => 6 * RowsLeft(s.follow) + 4
    case Finishing(_) => 6 * RowsLeft(s.follow) + 3
    case Settling(_) => 6 * RowsLeft(s.follow) + 2
    case _ => 0
  }

  lemma WorkerAdvances(s: State, setOk: bool)
    requires WorkerHoldsFollow(s.worker) && WorkerNext(s, setOk).Some?
    ensures WorkerLeft(WorkerNext(s, setOk).value) < WorkerLeft(s)
  {
  }

  lemma WritersHoldFollow(s: State, t: nat)
    requires LocksOk(s) && t < |s.callers| && WorkerHoldsFollow(s.worker)
    ensures !Writes(s.callers[t])
  {
  }

  /** While the worker holds the follow lock nobody else gives it more to do. */
  lemma NobodyDelaysTheWorker(s: State, a: Action)
    requires LocksOk(s) && WorkerHoldsFollow(s.worker) && Next(s, a).Some?
    ensures var n := Next(s, a).value;
            WorkerLeft(n) + (if a.WorkerStep? then 1 else 0) <= WorkerLeft(s)
  {
    hide WorkerNext, CallerNext, LocksOk;
    match a
    case WorkerStep(setOk) => WorkerAdvances(s, setOk);
    case CallerStep(t, setOk) =>
      WritersHoldFollow(s, t);
      CallerFrame(s, t, setOk);
      CallerSteps(s, t, setOk);
    case _ =>
  }

  /** The worker has the follow lock at the start of each of these actions. */
  ghost predicate HeldThroughout(s: State, actions: seq<Action>)
    decreases |actions|
  {
    actions != [] ==>
      && WorkerHoldsFollow(s.worker)
      && (Next(s, actions[0]).Some? ==> HeldThroughout(Next(s, actions[0]).value, actions[1..]))
  }

  function WorkerSteps(actions: seq<Action>): nat {
    if actions == [] then 0 else (if actions[0].WorkerStep? then 1 else 0) + WorkerSteps(actions[1..])
  }

  lemma {:induction false} WorkerStepsBounded(s: State, actions: seq<Action>)
    requires LocksOk(s) && HeldThroughout(s, actions) && Run(s, actions).Some?
    ensures WorkerSteps(actions) + WorkerLeft(Run(s, actions).value) <= WorkerLeft(s)
    decreases |actions|
  {
    hide LocksOk, Next, WorkerLeft;
    if actions != [] {
      LocksKept(s, actions[0]);
      NobodyDelaysTheWorker(s, actions[0]);
      WorkerStepsBounded(Next(s, actions[0]).value, actions[1..]);
    }
  }

  /** The worker publishes every overdue row before it lets the follow lock go, so what a `move_*`,
      a `follow` or a `stop` waits for is bounded by the rows left: however the threads interleave,
      at most six steps of the worker for each, and six more. */
  lemma WorkerLetsGo(origin: Joints, now: real, threads: nat, before: seq<Action>, s: State, actions: seq<Action>)
    requires Reached(origin, now, threads, before, s)
    requires HeldThroughout(s, actions) && Run(s, actions).Some?
    ensures WorkerSteps(actions) <= WorkerLeft(s) <= 6 * RowsLeft(s.follow) + 6
  {
    hide Run, Reached, HeldThroughout;
    ReachedIsLocked(origin, now, threads, before, s);
    WorkerStepsBounded(s, actions);
  }

  lemma ReachedIsLocked(origin: Joints, now: real, threads: nat, actions: seq<Action>, s: State)
    requires Reached(origin, now, threads, actions, s)
    ensures LocksOk(s)
  {
    ReachedIsSound(origin, now, threads, actions, s);
    hide LocksOk, ChunkOk, PrefixesOk;
  }
}

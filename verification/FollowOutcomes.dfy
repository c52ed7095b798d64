/** What each call of the follow protocol comes to, and each row it stores: over every interleaving,
    and for a call that nothing runs beside. */
module FollowOutcomes {
  import opened Wrappers
  import opened FollowProtocol
  import opened FollowSafety
  import opened FollowAnswers
  import opened FollowGuarantees

  // ---------------------------------------------------------------------------------------
  // What the calls answer
  // ---------------------------------------------------------------------------------------

  lemma ReachedIsHonest(origin: Joints, now: real, threads: nat, actions: seq<Action>, s: State)
    requires Reached(origin, now, threads, actions, s)
    ensures Honest(s, origin)
  {
    hide Honest;
    HonestAtStart(origin, now, threads);
    HonestAlongRuns(Started(origin, now, threads), actions, origin);
  }

  /** A `follow` reports success exactly when the handle had not been taken when it looked. Then it
      has stored one chunk, its own rows `dt` apart, which no other call reports; and nothing came
      between the look and the store. */
  lemma FollowReportsTheStore(origin: Joints, now: real, threads: nat, actions: seq<Action>, s: State, k: nat)
    requires Reached(origin, now, threads, actions, s) && k < |s.answers| && s.answers[k].FeedAnswer?
    ensures s.answers[k].at <= |s.log|
    ensures s.answers[k].stored.Some? <==> Taken !in s.log[..s.answers[k].at]
    ensures s.answers[k].stored.Some? ==>
              var a, c := s.answers[k], s.answers[k].stored.value;
              && c < |s.chunks| && s.chunks[c].rows == a.rows && s.chunks[c].dt == a.dt
              && a.at < |s.log| && s.log[a.at] == Superseded(c)
              && forall j | 0 <= j < |s.answers| && j != k && s.answers[j].FeedAnswer? :: s.answers[j].stored != Some(c)
  {
    ReachedIsHonest(origin, now, threads, actions, s);
    hide Inv, QuitOk, FateOk, AllClaimed, Decided;
    assert TrueOf(origin, s.log, s.chunks, s.answers[k]);
    forall j | 0 <= j < |s.answers| && j != k ensures Apart(s.answers[j], s.answers[k]) {
      if j < k {
        assert Apart(s.answers[j], s.answers[k]);
      } else {
        assert Apart(s.answers[k], s.answers[j]);
      }
    }
  }

  /** The chunks are those of the calls that reported success, one each, and of calls that have
      stored and not returned yet. So a refused call has added none. */
  lemma ChunksAreReported(origin: Joints, now: real, threads: nat, actions: seq<Action>, s: State, c: nat)
    requires Reached(origin, now, threads, actions, s) && c < |s.chunks|
    ensures || (exists k | 0 <= k < |s.answers| :: s.answers[k].FeedAnswer? && s.answers[k].stored == Some(c))
            || (exists t | 0 <= t < |s.callers| ::
                  (s.callers[t].ChunkStored? || s.callers[t].ChunkNotify?) && s.callers[t].chunk == c)
  {
    ReachedIsHonest(origin, now, threads, actions, s);
    hide Inv, QuitOk, FateOk, AnswersTrue, AnswersApart;
    assert ChunkClaimed(s, c);
    if t: nat :| t < |s.callers| && Decided(s.callers[t], t).Some? && Stores(Decided(s.callers[t], t).value, c) {
      assert (s.callers[t].ChunkStored? || s.callers[t].ChunkNotify?) && s.callers[t].chunk == c;
    }
  }

  /** One chunk more is one `follow` storing its rows, to be fed from the first one on, row `i` at
      `i * dt` from the clock as it is, by a worker that was not told to quit. No other step of a
      `follow` touches the rows, the history or the handle. */
  lemma StoringStartsTheClock(origin: Joints, now: real, threads: nat, actions: seq<Action>, s: State, a: Action)
    requires Reached(origin, now, threads, actions, s) && Next(s, a).Some?
    ensures var n := Next(s, a).value;
            if n.chunks == s.chunks
            then a.CallerStep? && s.callers[a.t].IsChunk() ==>
                   n.follow == s.follow && n.log == s.log && n.control == s.control
            else && a.CallerStep? && s.callers[a.t].ChunkChecked?
                 && n.chunks == s.chunks + [Chunk(s.callers[a.t].rows, s.callers[a.t].dt, s.now)]
                 && n.follow == Follow(s.callers[a.t].rows, 0, s.callers[a.t].dt, s.now, false, |s.chunks|)
  {
    ReachedIsHonest(origin, now, threads, actions, s);
    hide Inv, FateOk, AnswersOk, Run;
    InvHasLocks(s, origin);
    if a.WorkerStep? {
      WorkerLogs(s, a.setOk);
      hide WorkerNext;
    } else if a.CallerStep? && !s.callers[a.t].ChunkChecked? {
      StoresOnlyWhenChecked(s, a.t, a.setOk);
      hide CallerNext;
    }
  }

  lemma StoresOnlyWhenChecked(s: State, t: nat, setOk: bool)
    requires t < |s.callers| && CallerNext(s, t, setOk).Some? && !s.callers[t].ChunkChecked?
    ensures var n := CallerNext(s, t, setOk).value;
            && n.chunks == s.chunks
            && (s.callers[t].IsChunk() ==> n.follow == s.follow && n.log == s.log && n.control == s.control)
  {
    if Writes(s.callers[t]) {
      assert !s.callers[t].IsChunk();
    } else {
      CallerFrame(s, t, setOk);
      hide CallerNext;
    }
  }

  /** A move reports success exactly when it is in the history; otherwise the handle was gone when
      it looked, or refused the target. */
  lemma MoveReportsTheSet(origin: Joints, now: real, threads: nat, actions: seq<Action>, s: State, k: nat)
    requires Reached(origin, now, threads, actions, s) && k < |s.answers| && s.answers[k].MoveAnswer?
    ensures var a := s.answers[k];
            && a.at <= |s.log|
            && (a.done <==> a.at < |s.log| && s.log[a.at] == Moved(a.caller, a.m))
            && (!a.done ==> Taken in s.log[..a.at] || (a.at < |s.log| && s.log[a.at] == MoveRefused(a.caller)))
  {
    ReachedIsHonest(origin, now, threads, actions, s);
    hide FeedOk, ReadsOk, SupersededOk, WakeOk, TargetOk, QuitOk, FateOk, AllClaimed, AnswersApart, Decided;
    assert TrueOf(origin, s.log, s.chunks, s.answers[k]);
  }

  /** One `stop` at most takes the handle: every other finds it taken. */
  lemma StopTakesOnce(origin: Joints, now: real, threads: nat, actions: seq<Action>, s: State, k: nat)
    requires Reached(origin, now, threads, actions, s) && k < |s.answers| && s.answers[k].StopAnswer?
    ensures var a := s.answers[k];
            && s.control.None? && a.at <= |s.log| && (a.took <==> Taken !in s.log[..a.at])
            && forall j | 0 <= j < |s.answers| && j != k && s.answers[j].StopAnswer? && a.took :: !s.answers[j].took
  {
    ReachedIsHonest(origin, now, threads, actions, s);
    hide FeedOk, ReadsOk, SupersededOk, WakeOk, TargetOk, QuitOk, FateOk, AllClaimed, Decided;
    assert TrueOf(origin, s.log, s.chunks, s.answers[k]);
    forall j | 0 <= j < |s.answers| && j != k && s.answers[j].StopAnswer? && s.answers[k].took
      ensures !s.answers[j].took
    {
      assert TrueOf(origin, s.log, s.chunks, s.answers[j]);
      if j < k {
        assert Apart(s.answers[j], s.answers[k]);
      } else {
        assert Apart(s.answers[k], s.answers[j]);
      }
    }
  }

  /** A query sees the target that the history up to its own place in it leaves, and fails exactly
      when the handle had been taken by then. */
  lemma QueriesSeeTheTarget(origin: Joints, now: real, threads: nat, actions: seq<Action>, s: State, k: nat)
    requires Reached(origin, now, threads, actions, s) && k < |s.answers| && s.answers[k].QueryAnswer?
    ensures var a := s.answers[k];
            && a.at <= |s.log|
            && a.seen == if Taken in s.log[..a.at] then None else Some(Replay(origin, s.log[..a.at]))
  {
    ReachedIsHonest(origin, now, threads, actions, s);
    hide Inv, QuitOk, FateOk, AllClaimed, AnswersApart, Decided;
    assert TrueOf(origin, s.log, s.chunks, s.answers[k]);
  }

  // ---------------------------------------------------------------------------------------
  // What becomes of the rows
  // ---------------------------------------------------------------------------------------

  /** Rows are never dropped in silence: a chunk is still being fed, or all of it is out, or a later
      call superseded it, or the handle refused its next row. */
  lemma EveryChunkHasItsEnd(origin: Joints, now: real, threads: nat, actions: seq<Action>, s: State, c: nat)
    requires Reached(origin, now, threads, actions, s) && c < |s.chunks|
    ensures || (s.follow.rows == s.chunks[c].rows && s.follow.chunk == c)
            || |PublishedOf(s.log, c)| == |s.chunks[c].rows|
            || (exists i | 0 <= i < |s.log| :: s.log[i].Superseded? && c < s.log[i].below)
            || RowRefused(c, |PublishedOf(s.log, c)|) in s.log
  {
    ReachedIsHonest(origin, now, threads, actions, s);
    hide QuitOk, AnswersOk, ReadsOk, SupersededOk, WakeOk, TargetOk, TakenOk, LocksOk, PrefixesOk, PublishedOf;
    assert Fate(s, c);
  }

  lemma LetsGoAtTheHead(s: State)
    requires ChunkOk(s)
    ensures s.worker.AtHead? ==>
              var n := AtLoopHead(s);
              if n.follow.quit then n.worker.Exited? || WorkerHoldsFollow(n.worker)
              else && (n.worker.Parked? || WorkerHoldsFollow(n.worker))
                   && (n.worker.Parked? && n.follow.Pending() ==> n.now < n.follow.Due(n.follow.next))
                   && (n.worker.Parked? && n.follow.rows != [] ==>
                         && n.follow.chunk == |n.chunks| - 1
                         && |PublishedOf(n.log, n.follow.chunk)| == n.follow.next)
  {
    hide PublishedOf, DueAt;
  }

  lemma LaterIsDueLater(dt: real, i: nat, j: nat)
    requires i <= j && 0.0 < dt
    ensures i as real * dt <= j as real * dt
  {
    assert 0.0 <= (j - i) as real * dt;
  }

  predicate IsDue(f: Follow, i: nat, now: real) {
    f.started + i as real * f.dt <= now
  }

  /** With one row not due yet no later one is. */
  lemma DueRowsAscend(n: State)
    requires n.follow.rows != [] ==> 0.0 < n.follow.dt
    requires n.follow.Pending() ==> n.now < n.follow.Due(n.follow.next)
    ensures forall i: nat | i < |n.follow.rows| && IsDue(n.follow, i, n.now) :: i < n.follow.next
  {
    forall i: nat | i < |n.follow.rows| && IsDue(n.follow, i, n.now) ensures i < n.follow.next {
      if n.follow.next <= i {
        LaterIsDueLater(n.follow.dt, n.follow.next, i);
      }
    }
  }

  /** The worker lets the follow lock go only when no row is due: it goes to sleep with every row
      before `next` out and row `next` not due yet, or it ends because it was told to. */
  lemma NothingDueIsLeft(origin: Joints, now: real, threads: nat, actions: seq<Action>, s: State, a: Action)
    requires Reached(origin, now, threads, actions, s) && Next(s, a).Some?
    requires WorkerHoldsFollow(s.worker) && !WorkerHoldsFollow(Next(s, a).value.worker)
    ensures var n := Next(s, a).value;
            if n.follow.quit then n.worker.Exited?
            else && n.worker.Parked?
                 && forall i: nat | i < |n.follow.rows| && IsDue(n.follow, i, n.now) ::
                      i < |PublishedOf(n.log, n.follow.chunk)|
  {
    ReachedIsHonest(origin, now, threads, actions, s);
    hide Inv, Run, QuitOk, AnswersOk, FateOk;
    InvHasLocks(s, origin);
    if a.CallerStep? {
      CallerSteps(s, a.t, a.setOk);
    } else {
      LetsGoAtTheHead(s);
      if s.worker.AtHead? {
        DueRowsAscend(AtLoopHead(s));
      }
    }
    hide CallerNext, LocksOk, PrefixesOk, ChunkOk, PublishedOf, DueAt;
  }

  /** What a worker told to quit still has to do. */
  function StepsToEnd(w: Worker): nat {
    if w.Exited? then 0 else if w.AtHead? then 1 else 2
  }

  /** Once the handle is taken and the calls have returned, the worker has ended or can take its next
      step, which brings it closer to its end: it does not sleep. */
  lemma StopEndsTheWorker(origin: Joints, now: real, threads: nat, actions: seq<Action>, s: State, setOk: bool)
    requires Reached(origin, now, threads, actions, s) && Taken in s.log
    requires forall t | 0 <= t < |s.callers| :: s.callers[t].Idle?
    ensures s.follow.quit && s.follow.rows == [] && !s.worker.Parked?
    ensures s.worker.Exited? ||
            (WorkerNext(s, setOk).Some? && StepsToEnd(WorkerNext(s, setOk).value.worker) < StepsToEnd(s.worker))
  {
    ReachedIsHonest(origin, now, threads, actions, s);
    hide ChunkOk, PrefixesOk, ReadsOk, SupersededOk, TargetOk, FateOk, AnswersOk, Run, Reached, StepsToEnd;
    NobodyInside(s);
    assert s.follow.quit;
    QuitterSteps(s, setOk);
  }

  lemma NobodyInside(s: State)
    requires LocksOk(s) && forall t | 0 <= t < |s.callers| :: s.callers[t].Idle?
    ensures s.followOwner.None? || s.followOwner == Some(TheWorker)
    ensures !NotifyComing(s)
  {
    forall t: nat | t < |s.callers| ensures s.followOwner != Some(TheCaller(t)) {
      assert !s.callers[t].HoldsFollow();
    }
    match s.followOwner
    case Some(TheCaller(t)) => assert false;
    case _ =>
  }

  lemma QuitterSteps(s: State, setOk: bool)
    requires s.follow.quit && HasNoRow(s.worker) && (s.worker.Locking? ==> s.followOwner.None?)
    ensures s.worker.Exited? || s.worker.Parked? ||
            (WorkerNext(s, setOk).Some? && StepsToEnd(WorkerNext(s, setOk).value.worker) < StepsToEnd(s.worker))
  {
  }

  lemma QuitterAdvances(s: State, a: Action, origin: Joints)
    requires Honest(s, origin) && Taken in s.log && Next(s, a).Some?
    ensures var n := Next(s, a).value;
            && Taken in n.log
            && StepsToEnd(n.worker) + (if a.WorkerStep? then 1 else 0) <= StepsToEnd(s.worker)
  {
    hide FeedOk, ReadsOk, SupersededOk, WakeOk, TargetOk, FateOk, AnswersOk;
    NextKeepsHistory(s, a);
    assert Taken in Next(s, a).value.log;
    if a.CallerStep? {
      CallerSteps(s, a.t, a.setOk);
      hide CallerNext;
    }
  }

  lemma {:induction false} QuitterEnds(s: State, actions: seq<Action>, origin: Joints)
    requires Honest(s, origin) && Taken in s.log && Run(s, actions).Some?
    ensures WorkerSteps(actions) + StepsToEnd(Run(s, actions).value.worker) <= StepsToEnd(s.worker)
    decreases |actions|
  {
    hide Honest, Next, StepsToEnd;
    if actions != [] {
      HonestKept(s, actions[0], origin);
      QuitterAdvances(s, actions[0], origin);
      QuitterEnds(Next(s, actions[0]).value, actions[1..], origin);
    }
  }

  /** From the take on the worker takes at most two steps more, whatever else runs. */
  lemma TwoStepsAfterTheTake(origin: Joints, now: real, threads: nat, before: seq<Action>, s: State,
                             actions: seq<Action>)
    requires Reached(origin, now, threads, before, s) && Taken in s.log && Run(s, actions).Some?
    ensures WorkerSteps(actions) <= 2
    ensures WorkerSteps(actions) == 2 ==> Run(s, actions).value.worker.Exited?
  {
    hide Honest, Run, Reached;
    ReachedIsHonest(origin, now, threads, before, s);
    QuitterEnds(s, actions, origin);
  }

  // ---------------------------------------------------------------------------------------
  // A call that nothing else runs beside
  // ---------------------------------------------------------------------------------------

  /** The next `steps` steps are all of call `t`. */
  function Alone(s: State, t: nat, setOk: bool, steps: nat): Option<State>
    decreases steps
  {
    if steps == 0 then Some(s)
    else
      match Next(s, CallerStep(t, setOk))
      case None => None
      case Some(n) => Alone(n, t, setOk, steps - 1)
  }

  lemma OneMore(s: State, t: nat, setOk: bool, steps: nat)
    requires 0 < steps && t < |s.callers| && CallerNext(s, t, setOk).Some?
    ensures Alone(s, t, setOk, steps) == Alone(CallerNext(s, t, setOk).value, t, setOk, steps - 1)
  {
    hide CallerNext;
  }

  /** Both mutexes are free. */
  predicate Free(s: State) {
    s.followOwner.None? && s.controlOwner.None?
  }

  /** Call `t` with both mutexes. */
  function Inside(s: State, t: nat, c: Caller): State
    requires t < |s.callers|
  {
    At(s, t, c).(followOwner := Some(TheCaller(t)), controlOwner := Some(TheCaller(t)))
  }

  lemma MoveGetsInside(s: State, t: nat, m: Motion, setOk: bool, more: nat)
    requires t < |s.callers| && s.callers[t] == MoveStart(m) && Free(s)
    ensures Alone(s, t, setOk, 3 + more) ==
            Alone(Inside(s.(follow := s.follow.(rows := []), log := s.log + [Superseded(|s.chunks|)]), t,
                         MoveHasControl(m)), t, setOk, more)
  {
    hide Aim;
    var s1 := CallerNext(s, t, setOk).value;
    var s2 := CallerNext(s1, t, setOk).value;
    OneMore(s, t, setOk, 3 + more);
    OneMore(s1, t, setOk, 2 + more);
    OneMore(s2, t, setOk, 1 + more);
    assert s.callers[t := MoveHasControl(m)] == CallerNext(s2, t, setOk).value.callers;
  }

  lemma MoveReads(s: State, t: nat, m: Motion, setOk: bool)
    requires t < |s.callers| && s.callers[t] == MoveHasControl(m)
    ensures CallerNext(s, t, setOk) ==
            Some(At(s, t, if s.control.Some? then MoveHasRead(m, s.control.value) else MoveSet(m, false, |s.log|)))
  {
  }

  lemma MoveSets(s: State, t: nat, m: Motion, current: Joints, setOk: bool)
    requires t < |s.callers| && s.callers[t] == MoveHasRead(m, current) && s.control == Some(current)
    ensures CallerNext(s, t, setOk) ==
            Some(At(s, t, MoveSet(m, setOk, |s.log|))
                   .(control := if setOk then Some(Aim(m, current)) else s.control,
                     log := s.log + [if setOk then Moved(t, m) else MoveRefused(t)]))
  {
  }

  lemma MoveLeaves(s: State, t: nat, m: Motion, done: bool, at: nat, setOk: bool)
    requires t < |s.callers| && s.callers[t] == MoveSet(m, done, at)
    ensures Alone(s, t, setOk, 2) == Some(s.(callers := s.callers[t := Idle], followOwner := None, controlOwner := None,
                                             answers := s.answers + [MoveAnswer(t, m, done, at)]))
  {
    hide Aim;
    var s1 := CallerNext(s, t, setOk).value;
    OneMore(s, t, setOk, 2);
    OneMore(s1, t, setOk, 1);
    assert s.callers[t := Idle] == CallerNext(s1, t, setOk).value.callers;
  }

  lemma FollowGetsInside(s: State, t: nat, rows: seq<Joints>, dt: real, setOk: bool, more: nat)
    requires t < |s.callers| && s.callers[t] == ChunkStart(rows, dt) && Free(s)
    ensures Alone(s, t, setOk, 2 + more) == Alone(Inside(s, t, ChunkHasControl(rows, dt)), t, setOk, more)
  {
    var s1 := CallerNext(s, t, setOk).value;
    OneMore(s, t, setOk, 2 + more);
    OneMore(s1, t, setOk, 1 + more);
    assert s.callers[t := ChunkHasControl(rows, dt)] == CallerNext(s1, t, setOk).value.callers;
  }

  lemma FollowLeaves(s: State, t: nat, rows: seq<Joints>, dt: real, at: nat, chunk: nat, setOk: bool)
    requires t < |s.callers| && s.callers[t] == ChunkStored(rows, dt, at, chunk)
    ensures Alone(s, t, setOk, 2) == Some(s.(callers := s.callers[t := Idle], followOwner := None,
                                             worker := if s.worker.Parked? then Locking else s.worker,
                                             answers := s.answers + [FeedAnswer(t, rows, dt, Some(chunk), at)]))
  {
    var s1 := CallerNext(s, t, setOk).value;
    OneMore(s, t, setOk, 2);
    OneMore(s1, t, setOk, 1);
    assert s.callers[t := Idle] == CallerNext(s1, t, setOk).value.callers;
  }

  /** A `follow` on its own: six steps store its rows and rouse the worker, and with the handle gone
      four steps change nothing at all. */
  lemma FollowAlone(s: State, t: nat, rows: seq<Joints>, dt: real, setOk: bool)
    requires t < |s.callers| && s.callers[t] == ChunkStart(rows, dt) && Free(s)
    ensures var c := |s.chunks|;
            if s.control.Some?
            then Alone(s, t, setOk, 6) ==
                   Some(s.(callers := s.callers[t := Idle],
                           worker := if s.worker.Parked? then Locking else s.worker,
                           follow := Follow(rows, 0, dt, s.now, s.follow.quit, c),
                           chunks := s.chunks + [Chunk(rows, dt, s.now)], log := s.log + [Superseded(c)],
                           answers := s.answers + [FeedAnswer(t, rows, dt, Some(c), |s.log|)]))
            else Alone(s, t, setOk, 4) ==
                   Some(s.(callers := s.callers[t := Idle],
                           answers := s.answers + [FeedAnswer(t, rows, dt, None, |s.log|)]))
  {
    var s2 := Inside(s, t, ChunkHasControl(rows, dt));
    var s3 := CallerNext(s2, t, setOk).value;
    var s4 := CallerNext(s3, t, setOk).value;
    FollowGetsInside(s, t, rows, dt, setOk, if s.control.Some? then 4 else 2);
    OneMore(s2, t, setOk, if s.control.Some? then 4 else 2);
    OneMore(s3, t, setOk, if s.control.Some? then 3 else 1);
    if s.control.Some? {
      FollowLeaves(s4, t, rows, dt, |s.log|, |s.chunks|, setOk);
      assert s.callers[t := Idle] == s4.callers[t := Idle];
    } else {
      assert s.callers[t := Idle] == s4.callers;
    }
  }

  /** A move on its own cancels the rows and, with the handle there and accepting, sets the target it
      aims at from the current one. */
  lemma MoveAlone(s: State, t: nat, m: Motion, setOk: bool)
    requires t < |s.callers| && s.callers[t] == MoveStart(m) && Free(s)
    ensures var cancelled := s.(callers := s.callers[t := Idle], follow := s.follow.(rows := []),
                                log := s.log + [Superseded(|s.chunks|)]);
            var place := |s.log| + 1;
            if s.control.None?
            then Alone(s, t, setOk, 6) ==
                   Some(cancelled.(answers := s.answers + [MoveAnswer(t, m, false, place)]))
            else Alone(s, t, setOk, 7) ==
                   Some(cancelled.(control := if setOk then Some(Aim(m, s.control.value)) else s.control,
                                   log := cancelled.log + [if setOk then Moved(t, m) else MoveRefused(t)],
                                   answers := s.answers + [MoveAnswer(t, m, setOk, place)]))
  {
    hide Aim, CallerNext, Alone;
    var cancelled := s.(follow := s.follow.(rows := []), log := s.log + [Superseded(|s.chunks|)]);
    var s3 := Inside(cancelled, t, MoveHasControl(m));
    MoveReads(s3, t, m, setOk);
    if s.control.None? {
      var s4 := At(s3, t, MoveSet(m, false, |s.log| + 1));
      MoveGetsInside(s, t, m, setOk, 3);
      OneMore(s3, t, setOk, 3);
      MoveLeaves(s4, t, m, false, |s.log| + 1, setOk);
      assert s.callers[t := Idle] == s4.callers[t := Idle];
    } else {
      var s4 := At(s3, t, MoveHasRead(m, s.control.value));
      var s5 := At(s3, t, MoveSet(m, setOk, |s.log| + 1))
                  .(control := if setOk then Some(Aim(m, s.control.value)) else s.control,
                    log := cancelled.log + [if setOk then Moved(t, m) else MoveRefused(t)]);
      MoveGetsInside(s, t, m, setOk, 4);
      OneMore(s3, t, setOk, 4);
      MoveSets(s4, t, m, s.control.value, setOk);
      assert s5.callers == s4.callers[t := MoveSet(m, setOk, |s.log| + 1)];
      OneMore(s4, t, setOk, 3);
      MoveLeaves(s5, t, m, setOk, |s.log| + 1, setOk);
      assert s.callers[t := Idle] == s5.callers[t := Idle];
    }
  }

  lemma StopTakes(s: State, t: nat, setOk: bool)
    requires t < |s.callers| && s.callers[t] == StopHasControl
    ensures CallerNext(s, t, setOk) ==
            Some(At(s, t, StopTaken(s.control.Some?, |s.log|))
                   .(control := None, log := if s.control.Some? then s.log + [Taken] else s.log))
  {
  }

  lemma StopCancels(s: State, t: nat, setOk: bool)
    requires t < |s.callers| && s.callers[t] == StopHasFollow
    ensures CallerNext(s, t, setOk) ==
            Some(At(s, t, StopQuit).(follow := s.follow.(rows := [], quit := true),
                                     log := s.log + [Superseded(|s.chunks|)]))
  {
  }

  lemma StopGetsInside(s: State, t: nat, setOk: bool, more: nat)
    requires t < |s.callers| && s.callers[t] == StopStart && Free(s)
    ensures Alone(s, t, setOk, 3 + more) ==
            Alone(Inside(s.(follow := s.follow.(rows := [], quit := true), log := s.log + [Superseded(|s.chunks|)]), t,
                         StopHasControl), t, setOk, more)
  {
    hide Alone;
    var s1 := At(s, t, StopHasFollow).(followOwner := Some(TheCaller(t)));
    assert CallerNext(s, t, setOk) == Some(s1);
    OneMore(s, t, setOk, 3 + more);
    StopCancels(s1, t, setOk);
    OneMore(s1, t, setOk, 2 + more);
    var s2 := CallerNext(s1, t, setOk).value;
    assert s.callers[t := StopHasControl] == s2.callers[t := StopHasControl];
    assert CallerNext(s2, t, setOk) == Some(At(s2, t, StopHasControl).(controlOwner := Some(TheCaller(t))));
    OneMore(s2, t, setOk, 1 + more);
  }

  lemma StopLeaves(s: State, t: nat, took: bool, at: nat, setOk: bool)
    requires t < |s.callers| && s.callers[t] == StopTaken(took, at)
    ensures Alone(s, t, setOk, 3) == Some(s.(callers := s.callers[t := Idle], followOwner := None, controlOwner := None,
                                             worker := if s.worker.Parked? then Locking else s.worker,
                                             answers := s.answers + [StopAnswer(t, took, at)]))
  {
    var s1 := CallerNext(s, t, setOk).value;
    var s2 := CallerNext(s1, t, setOk).value;
    OneMore(s, t, setOk, 3);
    OneMore(s1, t, setOk, 2);
    OneMore(s2, t, setOk, 1);
    assert s.callers[t := Idle] == CallerNext(s2, t, setOk).value.callers;
  }

  /** A `stop` on its own cancels the rows, takes the handle if it is there and rouses the worker,
      told to quit. */
  lemma StopAlone(s: State, t: nat, setOk: bool)
    requires t < |s.callers| && s.callers[t] == StopStart && Free(s)
    ensures var cancelled := s.log + [Superseded(|s.chunks|)];
            Alone(s, t, setOk, 7) ==
              Some(s.(callers := s.callers[t := Idle], control := None,
                      worker := if s.worker.Parked? then Locking else s.worker,
                      follow := s.follow.(rows := [], quit := true),
                      log := if s.control.Some? then cancelled + [Taken] else cancelled,
                      answers := s.answers + [StopAnswer(t, s.control.Some?, |s.log| + 1)]))
  {
    hide CallerNext, Alone;
    var cancelled := s.(follow := s.follow.(rows := [], quit := true), log := s.log + [Superseded(|s.chunks|)]);
    var s3 := Inside(cancelled, t, StopHasControl);
    var took := s.control.Some?;
    var s4 := At(s3, t, StopTaken(took, |s.log| + 1))
                .(control := None, log := if took then cancelled.log + [Taken] else cancelled.log);
    StopTakes(s3, t, setOk);
    StopGetsInside(s, t, setOk, 4);
    OneMore(s3, t, setOk, 4);
    StopLeaves(s4, t, took, |s.log| + 1, setOk);
    assert s.callers[t := Idle] == s4.callers[t := Idle];
  }
}

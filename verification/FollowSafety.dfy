/** What every interleaving of the follow protocol keeps. */
module FollowSafety {
  import opened Wrappers
  import opened FollowProtocol

  // ---------------------------------------------------------------------------------------
  // Locks
  // ---------------------------------------------------------------------------------------

  ghost predicate LocksOk(s: State) {
    && (forall t | 0 <= t < |s.callers| :: s.callers[t].HoldsFollow() <==> s.followOwner == Some(TheCaller(t)))
    && (forall t | 0 <= t < |s.callers| :: s.callers[t].HoldsControl() <==> s.controlOwner == Some(TheCaller(t)))
    && (WorkerHoldsFollow(s.worker) <==> s.followOwner == Some(TheWorker))
    && (WorkerHoldsControl(s.worker) <==> s.controlOwner == Some(TheWorker))
    && (s.followOwner.Some? && s.followOwner.value.TheCaller? ==> s.followOwner.value.t < |s.callers|)
    && (s.controlOwner.Some? && s.controlOwner.value.TheCaller? ==> s.controlOwner.value.t < |s.callers|)
  }

  ghost predicate Handover(held: bool, holds: bool, before: Option<Owner>, after: Option<Owner>, me: Owner) {
    || (held == holds && after == before)
    || (!held && holds && before.None? && after == Some(me))
    || (held && !holds && after.None?)
  }

  /** The steps a call still has to take. */
  function StepsLeft(c: Caller): nat {
    match c
    case Idle => 0
    case MoveStart(_) => 7 case MoveHasFollow(_) => 6 case MoveCleared(_) => 5 case MoveHasControl(_) => 4
    case MoveHasRead(_, _) => 3 case MoveSet(_, _, _) => 2 case MoveUnlocking(_, _, _) => 1
    case ChunkStart(_, _) => 6 case ChunkHasFollow(_, _) => 5 case ChunkHasControl(_, _) => 4
    case ChunkChecked(_, _, _) => 3 case ChunkRefused(_, _, _) => 1
    case ChunkStored(_, _, _, _) => 2 case ChunkNotify(_, _, _, _) => 1
    case StopStart => 7 case StopHasFollow => 6 case StopQuit => 5 case StopHasControl => 4
    case StopTaken(_, _) => 3 case StopUnlocking(_, _) => 2 case StopNotify(_, _) => 1
    case QueryStart => 2 case QueryHasControl => 1
  }

  ghost predicate CallerEffect(s: State, t: nat, n: State)
    requires t < |s.callers|
  {
    && |n.callers| == |s.callers|
    && n.callers == s.callers[t := n.callers[t]]
    && n.now == s.now
    && StepsLeft(n.callers[t]) < StepsLeft(s.callers[t])
    && Handover(s.callers[t].HoldsFollow(), n.callers[t].HoldsFollow(), s.followOwner, n.followOwner, TheCaller(t))
    && Handover(s.callers[t].HoldsControl(), n.callers[t].HoldsControl(), s.controlOwner, n.controlOwner, TheCaller(t))
    && (n.worker == s.worker || (s.worker.Parked? && n.worker.Locking?))
    && (n.callers[t].MoveHasRead? ==> s.callers[t].MoveHasControl?)
  }

  lemma MoveSteps(s: State, t: nat, setOk: bool)
    requires t < |s.callers| && s.callers[t].IsMove() && CallerNext(s, t, setOk).Some?
    ensures CallerEffect(s, t, CallerNext(s, t, setOk).value)
  {
  }

  lemma ChunkStepsBefore(s: State, t: nat, setOk: bool)
    requires t < |s.callers|
               && (s.callers[t].ChunkStart? || s.callers[t].ChunkHasFollow? || s.callers[t].ChunkHasControl?)
    requires CallerNext(s, t, setOk).Some?
    ensures CallerEffect(s, t, CallerNext(s, t, setOk).value)
  {
  }

  lemma ChunkStepsAfter(s: State, t: nat, setOk: bool)
    requires t < |s.callers| && s.callers[t].IsChunk() && CallerNext(s, t, setOk).Some?
    requires !(s.callers[t].ChunkStart? || s.callers[t].ChunkHasFollow? || s.callers[t].ChunkHasControl?)
    ensures CallerEffect(s, t, CallerNext(s, t, setOk).value)
  {
  }

  lemma StopStepsBefore(s: State, t: nat, setOk: bool)
    requires t < |s.callers| && (s.callers[t].StopStart? || s.callers[t].StopHasFollow? || s.callers[t].StopQuit?)
    requires CallerNext(s, t, setOk).Some?
    ensures CallerEffect(s, t, CallerNext(s, t, setOk).value)
  {
  }

  lemma StopStepsAfter(s: State, t: nat, setOk: bool)
    requires t < |s.callers| && s.callers[t].IsStop() && CallerNext(s, t, setOk).Some?
    requires !(s.callers[t].StopStart? || s.callers[t].StopHasFollow? || s.callers[t].StopQuit?)
    ensures CallerEffect(s, t, CallerNext(s, t, setOk).value)
  {
  }

  lemma QuerySteps(s: State, t: nat, setOk: bool)
    requires t < |s.callers| && (s.callers[t].QueryStart? || s.callers[t].QueryHasControl?)
    requires CallerNext(s, t, setOk).Some?
    ensures CallerEffect(s, t, CallerNext(s, t, setOk).value)
  {
  }

  /** A step of a caller changes its own place only, takes a lock only when it is free, and at
      most rouses the worker. */
  lemma CallerSteps(s: State, t: nat, setOk: bool)
    requires t < |s.callers| && CallerNext(s, t, setOk).Some?
    ensures CallerEffect(s, t, CallerNext(s, t, setOk).value)
  {
    assert !s.callers[t].Idle?;
    hide CallerNext, CallerEffect;
    if s.callers[t].IsMove() {
      MoveSteps(s, t, setOk);
    } else if s.callers[t].IsChunk() {
      if s.callers[t].ChunkStart? || s.callers[t].ChunkHasFollow? || s.callers[t].ChunkHasControl? {
        ChunkStepsBefore(s, t, setOk);
      } else {
        ChunkStepsAfter(s, t, setOk);
      }
    } else if s.callers[t].IsStop() {
      if s.callers[t].StopStart? || s.callers[t].StopHasFollow? || s.callers[t].StopQuit? {
        StopStepsBefore(s, t, setOk);
      } else {
        StopStepsAfter(s, t, setOk);
      }
    } else {
      QuerySteps(s, t, setOk);
    }
  }

  lemma WorkerEffect(s: State, setOk: bool)
    requires WorkerNext(s, setOk).Some?
    ensures var n := WorkerNext(s, setOk).value;
            && n.callers == s.callers && n.now == s.now
            && Handover(WorkerHoldsFollow(s.worker), WorkerHoldsFollow(n.worker), s.followOwner, n.followOwner,
                        TheWorker)
            && Handover(WorkerHoldsControl(s.worker), WorkerHoldsControl(n.worker), s.controlOwner, n.controlOwner,
                        TheWorker)
  {
  }

  lemma LocksKeptByCaller(s: State, t: nat, n: State)
    requires LocksOk(s) && t < |s.callers| && CallerEffect(s, t, n)
    ensures LocksOk(n)
  {
  }

  /** Each mutex is held by exactly the thread that is inside it. */
  lemma LocksKept(s: State, a: Action)
    requires LocksOk(s) && Next(s, a).Some?
    ensures LocksOk(Next(s, a).value)
  {
    hide WorkerNext, CallerNext, CallerEffect;
    match a
    case WorkerStep(setOk) => WorkerEffect(s, setOk);
    case CallerStep(t, setOk) =>
      CallerSteps(s, t, setOk);
      LocksKeptByCaller(s, t, Next(s, a).value);
    case _ =>
  }

  /** The steps of callers that touch the feed, the handle or the history. */
  ghost predicate Writes(c: Caller) {
    c.MoveHasFollow? || c.MoveHasRead? || c.ChunkChecked? || c.StopHasFollow? || c.StopHasControl?
  }

  lemma CallerFrame(s: State, t: nat, setOk: bool)
    requires t < |s.callers| && CallerNext(s, t, setOk).Some? && !Writes(s.callers[t])
    ensures var n := CallerNext(s, t, setOk).value;
            n.follow == s.follow && n.chunks == s.chunks && n.log == s.log && n.control == s.control
  {
  }

  // ---------------------------------------------------------------------------------------
  // Values read under the control lock stay true until they are used
  // ---------------------------------------------------------------------------------------

  ghost predicate ReadsOk(s: State) {
    && (forall t | 0 <= t < |s.callers| && s.callers[t].MoveHasRead? :: s.control == Some(s.callers[t].current))
    && (s.worker.HasRead? ==> s.control == Some(s.worker.current))
  }

  lemma ReadsKeptByWorker(s: State, setOk: bool)
    requires LocksOk(s) && ReadsOk(s) && WorkerNext(s, setOk).Some?
    ensures ReadsOk(WorkerNext(s, setOk).value)
  {
    WorkerEffect(s, setOk);
  }

  lemma ReadsKeptByWriters(s: State, t: nat, setOk: bool)
    requires LocksOk(s) && ReadsOk(s) && t < |s.callers| && CallerNext(s, t, setOk).Some? && Writes(s.callers[t])
    ensures ReadsOk(CallerNext(s, t, setOk).value)
  {
  }

  lemma ReadIsTrue(s: State, t: nat, setOk: bool)
    requires t < |s.callers| && s.callers[t].MoveHasControl? && CallerNext(s, t, setOk).Some?
    ensures var n := CallerNext(s, t, setOk).value;
            n.callers[t].MoveHasRead? ==> n.control == Some(n.callers[t].current)
  {
  }

  /** Between the read of the target and the set that uses it, nothing changes the target. */
  lemma ReadsKept(s: State, a: Action)
    requires LocksOk(s) && ReadsOk(s) && Next(s, a).Some?
    ensures ReadsOk(Next(s, a).value)
  {
    hide WorkerNext, CallerNext, LocksOk;
    match a
    case WorkerStep(setOk) => ReadsKeptByWorker(s, setOk);
    case CallerStep(t, setOk) =>
      if Writes(s.callers[t]) {
        ReadsKeptByWriters(s, t, setOk);
      } else {
        CallerSteps(s, t, setOk);
        CallerFrame(s, t, setOk);
        if s.callers[t].MoveHasControl? {
          ReadIsTrue(s, t, setOk);
        }
      }
    case _ =>
  }

  // ---------------------------------------------------------------------------------------
  // The chunk being fed and what has been published of each
  // ---------------------------------------------------------------------------------------

  /** The entries by which rows of chunk `c` were published, in order. */
  function PublishedOf(log: seq<Entry>, c: nat): seq<Entry>
  {
    if log == [] then []
    else
      var front, e := log[..|log| - 1], log[|log| - 1];
      if e.Published? && e.chunk == c then PublishedOf(front, c) + [e] else PublishedOf(front, c)
  }

  lemma PublishedAppend(log: seq<Entry>, e: Entry, c: nat)
    ensures PublishedOf(log + [e], c) ==
            if e.Published? && e.chunk == c then PublishedOf(log, c) + [e] else PublishedOf(log, c)
  {
    assert (log + [e])[..|log|] == log;
  }

  /** A prefix of the chunk's rows, each once, in order, none before it was due. */
  ghost predicate FaithfulPrefix(p: seq<Entry>, chunk: Chunk) {
    && |p| <= |chunk.rows|
    && forall i | 0 <= i < |p| ::
         p[i].Published? && p[i].row == i && p[i].value == chunk.rows[i] &&
         DueAt(chunk.started, chunk.dt, i) <= p[i].at
  }

  /** How many rows of the chunk being fed are out. */
  function RowsOut(s: State): int {
    if RowInHand(s.worker) || ((s.worker.Finishing? || s.worker.Settling?) && !s.worker.published)
    then s.follow.next - 1 else s.follow.next
  }

  ghost predicate ChunkOk(s: State) {
    && (s.follow.rows != [] ==>
        && s.chunks != []
        && (var c := s.chunks[|s.chunks| - 1];
            s.follow.rows == c.rows && s.follow.dt == c.dt && s.follow.started == c.started)
        && s.follow.chunk == |s.chunks| - 1
        && s.follow.next <= |s.follow.rows|
        && |PublishedOf(s.log, |s.chunks| - 1)| == RowsOut(s))
    && (RowInHand(s.worker) ==>
        && s.follow.rows != [] && 1 <= s.follow.next
        && s.worker.pick == Pick(s.follow.chunk, s.follow.next - 1, s.follow.rows[s.follow.next - 1])
        && s.follow.Due(s.follow.next - 1) <= s.now)
  }

  ghost predicate PrefixesOk(s: State) {
    && (forall c | 0 <= c < |s.chunks| :: FaithfulPrefix(PublishedOf(s.log, c), s.chunks[c]))
    && (forall c: nat | |s.chunks| <= c :: PublishedOf(s.log, c) == [])
  }

  /** How the log grows, chunk by chunk. */
  lemma LogGrows(log: seq<Entry>, e: Entry)
    ensures forall c: nat ::
              PublishedOf(log + [e], c) ==
              if e.Published? && e.chunk == c then PublishedOf(log, c) + [e] else PublishedOf(log, c)
  {
    forall c: nat
      ensures PublishedOf(log + [e], c) ==
              if e.Published? && e.chunk == c then PublishedOf(log, c) + [e] else PublishedOf(log, c)
    {
      PublishedAppend(log, e, c);
    }
  }

  ghost predicate FeedOk(s: State) {
    LocksOk(s) && ChunkOk(s) && PrefixesOk(s)
  }

  lemma ChunkKeptAtHead(s: State)
    requires ChunkOk(s) && s.worker.AtHead?
    ensures ChunkOk(AtLoopHead(s))
  {
    hide PublishedOf, DueAt;
  }

  lemma ChunkKeptElsewhere(s: State, setOk: bool)
    requires ChunkOk(s) && WorkerNext(s, setOk).Some? && !s.worker.AtHead? && !s.worker.HasRead?
    ensures ChunkOk(WorkerNext(s, setOk).value)
  {
    hide PublishedOf, DueAt;
  }

  lemma QuietWorker(s: State, setOk: bool)
    requires WorkerNext(s, setOk).Some? && !s.worker.HasRead?
    ensures WorkerNext(s, setOk).value.log == s.log && WorkerNext(s, setOk).value.chunks == s.chunks
  {
  }

  lemma FeedKeptByWorker(s: State, setOk: bool)
    requires FeedOk(s) && WorkerNext(s, setOk).Some?
    ensures ChunkOk(WorkerNext(s, setOk).value) && PrefixesOk(WorkerNext(s, setOk).value)
  {
    if s.worker.HasRead? {
      FeedKeptBySetting(s, setOk);
    } else {
      hide ChunkOk, PrefixesOk, LocksOk;
      QuietWorker(s, setOk);
      SameHistory(s, WorkerNext(s, setOk).value);
      if s.worker.AtHead? {
        ChunkKeptAtHead(s);
      } else {
        ChunkKeptElsewhere(s, setOk);
      }
    }
  }

  lemma SameHistory(s: State, n: State)
    requires PrefixesOk(s) && n.log == s.log && n.chunks == s.chunks
    ensures PrefixesOk(n)
  {
  }

  lemma FeedKeptBySetting(s: State, setOk: bool)
    requires FeedOk(s) && s.worker.HasRead?
    ensures ChunkOk(WorkerNext(s, setOk).value) && PrefixesOk(WorkerNext(s, setOk).value)
  {
    hide PublishedOf, LocksOk, DueAt;
    LogGrows(s.log, WorkerNext(s, setOk).value.log[|s.log|]);
  }

  lemma FeedKeptByClearing(s: State, t: nat, setOk: bool)
    requires FeedOk(s) && t < |s.callers| && CallerNext(s, t, setOk).Some?
    requires s.callers[t].MoveHasFollow? || s.callers[t].StopHasFollow?
    ensures ChunkOk(CallerNext(s, t, setOk).value) && PrefixesOk(CallerNext(s, t, setOk).value)
  {
    hide PublishedOf, DueAt, FaithfulPrefix;
    assert !WorkerHoldsFollow(s.worker);
    hide LocksOk;
    LogGrows(s.log, Superseded(|s.chunks|));
  }

  lemma FeedKeptByStoring(s: State, t: nat, setOk: bool)
    requires FeedOk(s) && t < |s.callers| && CallerNext(s, t, setOk).Some? && s.callers[t].ChunkChecked?
    ensures ChunkOk(CallerNext(s, t, setOk).value) && PrefixesOk(CallerNext(s, t, setOk).value)
  {
    hide PublishedOf, DueAt;
    assert !WorkerHoldsFollow(s.worker);
    hide LocksOk;
    LogGrows(s.log, Superseded(|s.chunks|));
  }

  lemma FeedKeptByHandling(s: State, t: nat, setOk: bool)
    requires FeedOk(s) && t < |s.callers| && CallerNext(s, t, setOk).Some?
    requires s.callers[t].MoveHasRead? || s.callers[t].StopHasControl?
    ensures ChunkOk(CallerNext(s, t, setOk).value) && PrefixesOk(CallerNext(s, t, setOk).value)
  {
    hide PublishedOf, DueAt, FaithfulPrefix, LocksOk;
    var n := CallerNext(s, t, setOk).value;
    if n.log != s.log {
      LogGrows(s.log, n.log[|s.log|]);
    }
  }

  lemma FeedKeptByWriters(s: State, t: nat, setOk: bool)
    requires FeedOk(s) && t < |s.callers| && CallerNext(s, t, setOk).Some? && Writes(s.callers[t])
    ensures ChunkOk(CallerNext(s, t, setOk).value) && PrefixesOk(CallerNext(s, t, setOk).value)
  {
    hide CallerNext, FeedOk, ChunkOk, PrefixesOk;
    if s.callers[t].ChunkChecked? {
      FeedKeptByStoring(s, t, setOk);
    } else if s.callers[t].MoveHasFollow? || s.callers[t].StopHasFollow? {
      FeedKeptByClearing(s, t, setOk);
    } else {
      FeedKeptByHandling(s, t, setOk);
    }
  }

  lemma FeedKeptByCaller(s: State, t: nat, setOk: bool)
    requires FeedOk(s) && t < |s.callers| && CallerNext(s, t, setOk).Some?
    ensures ChunkOk(CallerNext(s, t, setOk).value) && PrefixesOk(CallerNext(s, t, setOk).value)
  {
    hide CallerNext, PublishedOf, FaithfulPrefix, LocksOk, DueAt;
    CallerSteps(s, t, setOk);
    if Writes(s.callers[t]) {
      FeedKeptByWriters(s, t, setOk);
    } else {
      CallerFrame(s, t, setOk);
    }
  }

  // ---------------------------------------------------------------------------------------
  // Superseded chunks and the taken handle
  // ---------------------------------------------------------------------------------------

  ghost predicate SupersededOk(s: State) {
    && (forall i | 0 <= i < |s.log| && s.log[i].Superseded? :: s.log[i].below <= |s.chunks|)
    && (s.follow.rows != [] ==> forall i | 0 <= i < |s.log| && s.log[i].Superseded? :: s.log[i].below < |s.chunks|)
    && NothingFromTheSuperseded(s.log)
  }

  /** No row of a superseded chunk is published after it was superseded. */
  ghost predicate NothingFromTheSuperseded(log: seq<Entry>) {
    forall i, j | 0 <= i < j < |log| && log[i].Superseded? && log[j].Published? :: log[i].below <= log[j].chunk
  }

  /** Nothing is published or moved, and nothing taken again, after the handle was taken. */
  ghost predicate NothingAfterTaken(log: seq<Entry>) {
    forall i, j | 0 <= i < j < |log| && log[i].Taken? :: log[j].Superseded?
  }

  ghost predicate TakenOk(s: State) {
    && (s.control.None? <==> Taken in s.log)
    && NothingAfterTaken(s.log)
  }

  lemma HistoryKeptByWorker(s: State, setOk: bool)
    requires FeedOk(s) && ReadsOk(s) && SupersededOk(s) && TakenOk(s) && WorkerNext(s, setOk).Some?
    ensures SupersededOk(WorkerNext(s, setOk).value) && TakenOk(WorkerNext(s, setOk).value)
  {
    hide LocksOk, PrefixesOk, PublishedOf, DueAt;
    var n := WorkerNext(s, setOk).value;
    if s.worker.HasRead? {
      assert n.log == s.log + [n.log[|s.log|]];
    }
  }

  lemma HistoryKeptByWriters(s: State, t: nat, setOk: bool)
    requires FeedOk(s) && ReadsOk(s) && SupersededOk(s) && TakenOk(s)
    requires t < |s.callers| && CallerNext(s, t, setOk).Some? && Writes(s.callers[t])
    ensures SupersededOk(CallerNext(s, t, setOk).value) && TakenOk(CallerNext(s, t, setOk).value)
  {
    hide LocksOk, ChunkOk, PrefixesOk, DueAt;
    var n := CallerNext(s, t, setOk).value;
    assert n.log == s.log || n.log == s.log + [n.log[|s.log|]];
    assert s.callers[t].MoveHasRead? ==> s.control.Some?;
  }

  lemma HistoryKeptByCaller(s: State, t: nat, setOk: bool)
    requires FeedOk(s) && ReadsOk(s) && SupersededOk(s) && TakenOk(s) && t < |s.callers|
               && CallerNext(s, t, setOk).Some?
    ensures SupersededOk(CallerNext(s, t, setOk).value) && TakenOk(CallerNext(s, t, setOk).value)
  {
    if Writes(s.callers[t]) {
      HistoryKeptByWriters(s, t, setOk);
    } else {
      hide CallerNext, LocksOk, ChunkOk, PrefixesOk;
      CallerFrame(s, t, setOk);
    }
  }

  // ---------------------------------------------------------------------------------------
  // Wakeups
  // ---------------------------------------------------------------------------------------

  ghost predicate NotifyComing(s: State) {
    exists t | 0 <= t < |s.callers| :: s.callers[t].WillNotify()
  }

  /** A parked worker either sleeps until exactly its next row is due, or has nothing to do, or is
      about to be notified. */
  ghost predicate WakeOk(s: State) {
    s.worker.Parked? ==>
      || NotifyComing(s)
      || (!s.follow.quit && (s.follow.Pending() ==> s.worker.deadline == Some(s.follow.Due(s.follow.next))))
  }

  lemma NotifierStays(s: State, t: nat, setOk: bool)
    requires t < |s.callers| && CallerNext(s, t, setOk).Some? && s.callers[t].WillNotify()
    ensures var n := CallerNext(s, t, setOk).value;
            |n.callers| == |s.callers| && (n.callers[t].WillNotify() || !n.worker.Parked?)
  {
  }

  lemma WritersNotify(s: State, t: nat, setOk: bool)
    requires t < |s.callers| && CallerNext(s, t, setOk).Some? && Writes(s.callers[t])
    ensures var n := CallerNext(s, t, setOk).value;
            |n.callers| == |s.callers| &&
            (n.callers[t].WillNotify()
                || (n.follow.quit == s.follow.quit && (n.follow == s.follow || !n.follow.Pending())))
  {
  }

  lemma WakeKeptByCaller(s: State, t: nat, setOk: bool)
    requires WakeOk(s) && t < |s.callers| && CallerNext(s, t, setOk).Some?
    ensures WakeOk(CallerNext(s, t, setOk).value)
  {
    hide CallerNext, DueAt;
    CallerSteps(s, t, setOk);
    var n := CallerNext(s, t, setOk).value;
    if s.callers[t].WillNotify() {
      NotifierStays(s, t, setOk);
    } else if NotifyComing(s) {
      var u :| 0 <= u < |s.callers| && s.callers[u].WillNotify();
      assert n.callers[u].WillNotify();
    } else if Writes(s.callers[t]) {
      WritersNotify(s, t, setOk);
    } else {
      CallerFrame(s, t, setOk);
    }
  }

  lemma WakeKeptByWorker(s: State, setOk: bool)
    requires WorkerNext(s, setOk).Some?
    ensures WakeOk(WorkerNext(s, setOk).value)
  {
  }

  // ---------------------------------------------------------------------------------------
  // The target
  // ---------------------------------------------------------------------------------------

  function Applied(before: Joints, e: Entry): Joints {
    if e.Published? then e.value else if e.Moved? then Aim(e.m, before) else before
  }

  /** The target a history leaves: rows replace it, moves aim from it. */
  function Replay(origin: Joints, log: seq<Entry>): Joints {
    if log == [] then origin else Applied(Replay(origin, log[..|log| - 1]), log[|log| - 1])
  }

  lemma ReplayAppend(origin: Joints, log: seq<Entry>, e: Entry)
    ensures Replay(origin, log + [e]) == Applied(Replay(origin, log), e)
  {
    assert (log + [e])[..|log|] == log;
  }

  /** The moves of a history, in the order they were set. */
  function MovesIn(log: seq<Entry>): seq<Made> {
    if log == [] then []
    else
      var front, e := log[..|log| - 1], log[|log| - 1];
      if e.Moved? then MovesIn(front) + [Made(e.mover, e.m)] else MovesIn(front)
  }

  lemma MovesAppend(log: seq<Entry>, e: Entry)
    ensures MovesIn(log + [e]) == if e.Moved? then MovesIn(log) + [Made(e.mover, e.m)] else MovesIn(log)
  {
    assert (log + [e])[..|log|] == log;
  }

  /** The moves whose calls have returned success, in that order. */
  function Acknowledged(answers: seq<Answer>): seq<Made> {
    if answers == [] then []
    else
      var front, a := answers[..|answers| - 1], answers[|answers| - 1];
      if a.MoveAnswer? && a.done then Acknowledged(front) + [Made(a.caller, a.m)] else Acknowledged(front)
  }

  lemma AcknowledgedAppend(answers: seq<Answer>, a: Answer)
    ensures Acknowledged(answers + [a]) ==
            if a.MoveAnswer? && a.done then Acknowledged(answers) + [Made(a.caller, a.m)] else Acknowledged(answers)
  {
    assert (answers + [a])[..|answers|] == answers;
  }

  /** The move, if any, that is set but whose call has not returned yet: it holds the follow lock. */
  function InFlight(s: State): Option<Made> {
    match s.followOwner
    case Some(TheCaller(t)) =>
      if t < |s.callers| && s.callers[t].HasMoved() then Some(Made(t, s.callers[t].m)) else None
    case _ => None
  }

  function WithFlight(acknowledged: seq<Made>, flying: Option<Made>): seq<Made> {
    if flying.Some? then acknowledged + [flying.value] else acknowledged
  }

  ghost predicate TargetOk(s: State, origin: Joints) {
    && (s.control.Some? ==> s.control.value == Replay(origin, s.log))
    && MovesIn(s.log) == WithFlight(Acknowledged(s.answers), InFlight(s))
  }

  lemma TargetKeptByWorker(s: State, setOk: bool, origin: Joints)
    requires LocksOk(s) && ReadsOk(s) && TargetOk(s, origin) && WorkerNext(s, setOk).Some?
    ensures TargetOk(WorkerNext(s, setOk).value, origin)
  {
    hide Replay, MovesIn;
    var n := WorkerNext(s, setOk).value;
    if s.worker.HasRead? {
      ReplayAppend(origin, s.log, n.log[|s.log|]);
      MovesAppend(s.log, n.log[|s.log|]);
    }
  }

  lemma CountedMoves(s: State, t: nat, setOk: bool)
    requires LocksOk(s) && t < |s.callers| && CallerNext(s, t, setOk).Some? && !Writes(s.callers[t])
    ensures var n := CallerNext(s, t, setOk).value;
            WithFlight(Acknowledged(n.answers), InFlight(n)) == WithFlight(Acknowledged(s.answers), InFlight(s))
  {
    hide Acknowledged;
    if s.callers[t].IsMove() {
      if s.callers[t].MoveUnlocking? {
        AcknowledgedAppend(s.answers, MoveAnswer(t, s.callers[t].m, s.callers[t].done, s.callers[t].at));
      }
    } else {
      CallerSteps(s, t, setOk);
      OtherCallersDoNotCount(s, t, setOk);
      hide CallerNext;
    }
  }

  /** What a step of a call other than a move does to the answers. */
  ghost predicate NoMoveAnswered(s: State, n: State, t: nat) {
    && (n.answers == s.answers || exists a: Answer :: !a.MoveAnswer? && n.answers == s.answers + [a])
    && t < |n.callers| && !n.callers[t].HasMoved()
  }

  lemma ChunksAnswer(s: State, t: nat, setOk: bool)
    requires t < |s.callers| && CallerNext(s, t, setOk).Some? && s.callers[t].IsChunk()
    ensures NoMoveAnswered(s, CallerNext(s, t, setOk).value, t)
  {
  }

  lemma StopsAnswer(s: State, t: nat, setOk: bool)
    requires t < |s.callers| && CallerNext(s, t, setOk).Some? && s.callers[t].IsStop()
    ensures NoMoveAnswered(s, CallerNext(s, t, setOk).value, t)
  {
  }

  lemma QueriesAnswer(s: State, t: nat, setOk: bool)
    requires t < |s.callers| && CallerNext(s, t, setOk).Some?
    requires s.callers[t].QueryStart? || s.callers[t].QueryHasControl?
    ensures NoMoveAnswered(s, CallerNext(s, t, setOk).value, t)
  {
  }

  lemma OtherCallersDoNotCount(s: State, t: nat, setOk: bool)
    requires t < |s.callers| && CallerNext(s, t, setOk).Some? && !s.callers[t].IsMove()
    ensures var n := CallerNext(s, t, setOk).value;
            Acknowledged(n.answers) == Acknowledged(s.answers) && |n.callers| == |s.callers| && !n.callers[t].HasMoved()
  {
    CallerSteps(s, t, setOk);
    assert !s.callers[t].Idle?;
    hide CallerNext, Acknowledged;
    var n := CallerNext(s, t, setOk).value;
    if s.callers[t].IsChunk() {
      ChunksAnswer(s, t, setOk);
    } else if s.callers[t].IsStop() {
      StopsAnswer(s, t, setOk);
    } else {
      QueriesAnswer(s, t, setOk);
    }
    if n.answers != s.answers {
      var a: Answer :| !a.MoveAnswer? && n.answers == s.answers + [a];
      AcknowledgedAppend(s.answers, a);
    }
  }

  lemma TargetKeptByWriters(s: State, t: nat, setOk: bool, origin: Joints)
    requires LocksOk(s) && ReadsOk(s) && TargetOk(s, origin)
    requires t < |s.callers| && CallerNext(s, t, setOk).Some? && Writes(s.callers[t])
    ensures TargetOk(CallerNext(s, t, setOk).value, origin)
  {
    hide Replay, MovesIn;
    var n := CallerNext(s, t, setOk).value;
    assert s.callers[t] == s.callers[t];
    if n.log != s.log {
      ReplayAppend(origin, s.log, n.log[|s.log|]);
      MovesAppend(s.log, n.log[|s.log|]);
    }
  }

  lemma TargetKeptByCaller(s: State, t: nat, setOk: bool, origin: Joints)
    requires LocksOk(s) && ReadsOk(s) && TargetOk(s, origin) && t < |s.callers| && CallerNext(s, t, setOk).Some?
    ensures TargetOk(CallerNext(s, t, setOk).value, origin)
  {
    if Writes(s.callers[t]) {
      TargetKeptByWriters(s, t, setOk, origin);
    } else {
      hide CallerNext, Replay, MovesIn, InFlight;
      CallerFrame(s, t, setOk);
      CountedMoves(s, t, setOk);
    }
  }

  // ---------------------------------------------------------------------------------------
  // Every reachable state
  // ---------------------------------------------------------------------------------------

  ghost predicate Inv(s: State, origin: Joints) {
    FeedOk(s) && ReadsOk(s) && SupersededOk(s) && TakenOk(s) && WakeOk(s) && TargetOk(s, origin)
  }

  lemma InvAtStart(origin: Joints, now: real, threads: nat)
    ensures Inv(Started(origin, now, threads), origin)
  {
  }

  lemma InvKeptByTime(s: State, a: Action, origin: Joints)
    requires Inv(s, origin) && (a.Tick? || a.Rouse?) && Next(s, a).Some?
    ensures Inv(Next(s, a).value, origin)
  {
    hide PublishedOf, Replay, MovesIn, NothingAfterTaken, NothingFromTheSuperseded, DueAt, FaithfulPrefix, LocksOk;
    LocksKept(s, a);
  }

  lemma InvKeptByBegin(s: State, a: Action, origin: Joints)
    requires Inv(s, origin) && a.Begin? && Next(s, a).Some?
    ensures Inv(Next(s, a).value, origin)
  {
    hide PublishedOf, Replay, MovesIn, NothingAfterTaken, NothingFromTheSuperseded, DueAt, FaithfulPrefix, LocksOk;
    LocksKept(s, a);
    if NotifyComing(s) {
      var u :| 0 <= u < |s.callers| && s.callers[u].WillNotify();
      assert Next(s, a).value.callers[u].WillNotify();
    }
  }

  lemma InvKept(s: State, a: Action, origin: Joints)
    requires Inv(s, origin) && Next(s, a).Some?
    ensures Inv(Next(s, a).value, origin)
  {
    hide CallerNext, WorkerNext, LocksOk, ChunkOk, PrefixesOk, ReadsOk, SupersededOk, TakenOk, WakeOk, TargetOk;
    match a
    case WorkerStep(setOk) =>
      LocksKept(s, a);
      ReadsKept(s, a);
      FeedKeptByWorker(s, setOk);
      HistoryKeptByWorker(s, setOk);
      WakeKeptByWorker(s, setOk);
      TargetKeptByWorker(s, setOk, origin);
    case CallerStep(t, setOk) =>
      LocksKept(s, a);
      ReadsKept(s, a);
      FeedKeptByCaller(s, t, setOk);
      HistoryKeptByCaller(s, t, setOk);
      WakeKeptByCaller(s, t, setOk);
      TargetKeptByCaller(s, t, setOk, origin);
    case Begin(_, _) => InvKeptByBegin(s, a, origin);
    case _ => InvKeptByTime(s, a, origin);
  }

  lemma {:induction false} InvAlongRuns(s: State, actions: seq<Action>, origin: Joints)
    requires Inv(s, origin) && Run(s, actions).Some?
    ensures Inv(Run(s, actions).value, origin)
    decreases |actions|
  {
    hide Inv;
    if actions != [] {
      InvKept(s, actions[0], origin);
      InvAlongRuns(Next(s, actions[0]).value, actions[1..], origin);
    }
  }
}

/** What the calls of the follow protocol answer, and what becomes of the rows they store, over
    every interleaving. */
module FollowAnswers {
  import opened Wrappers
  import opened FollowProtocol
  import opened FollowSafety

  // ---------------------------------------------------------------------------------------
  // The taken handle and the worker told to quit
  // ---------------------------------------------------------------------------------------

  /** A `stop` that has told the worker to quit and not taken the handle yet. */
  predicate Stopping(c: Caller) {
    c.StopQuit? || c.StopHasControl?
  }

  predicate HasNoRow(w: Worker) {
    w.Locking? || w.Parked? || w.AtHead? || w.Exited?
  }

  /** The worker is told to quit by the same hold of the follow lock that takes the handle; from
      then on there are no rows. */
  ghost predicate QuitOk(s: State) {
    && (s.control.None? ==> s.follow.quit)
    && (s.follow.quit && s.control.Some? ==> s.followOwner.Some? && s.followOwner.value.TheCaller?
                                             && s.followOwner.value.t < |s.callers|
                                             && Stopping(s.callers[s.followOwner.value.t]))
    && (s.follow.quit ==> s.follow.rows == [] && HasNoRow(s.worker))
    && (s.worker.Exited? ==> s.follow.quit)
    && (forall t | 0 <= t < |s.callers| && Stopping(s.callers[t]) :: s.follow.quit)
    && (forall t | 0 <= t < |s.callers| && s.callers[t].ChunkChecked? :: s.control.Some?)
  }

  lemma QuitKeptByWorker(s: State, setOk: bool)
    requires LocksOk(s) && ReadsOk(s) && QuitOk(s) && WorkerNext(s, setOk).Some?
    ensures QuitOk(WorkerNext(s, setOk).value)
  {
  }

  lemma QuitKeptByWriters(s: State, t: nat, setOk: bool)
    requires LocksOk(s) && ReadsOk(s) && QuitOk(s)
    requires t < |s.callers| && CallerNext(s, t, setOk).Some? && Writes(s.callers[t])
    ensures QuitOk(CallerNext(s, t, setOk).value)
  {
  }

  ghost predicate StopsUntouched(s: State, t: nat, n: State)
    requires t < |s.callers|
  {
    && |n.callers| == |s.callers|
    && (n.callers[t].ChunkChecked? ==> s.control.Some?)
    && (Stopping(n.callers[t]) <==> Stopping(s.callers[t]))
    && (Stopping(s.callers[t]) ==> n.followOwner == s.followOwner)
  }

  lemma StopsUntouchedByChunk(s: State, t: nat, setOk: bool)
    requires t < |s.callers| && CallerNext(s, t, setOk).Some? && s.callers[t].IsChunk()
    ensures StopsUntouched(s, t, CallerNext(s, t, setOk).value)
  {
  }

  lemma StopsUntouchedByStop(s: State, t: nat, setOk: bool)
    requires t < |s.callers| && CallerNext(s, t, setOk).Some? && s.callers[t].IsStop() && !Writes(s.callers[t])
    ensures StopsUntouched(s, t, CallerNext(s, t, setOk).value)
  {
  }

  lemma StopsUntouchedByOthers(s: State, t: nat, setOk: bool)
    requires t < |s.callers| && CallerNext(s, t, setOk).Some? && !s.callers[t].IsStop() && !s.callers[t].IsChunk()
    ensures StopsUntouched(s, t, CallerNext(s, t, setOk).value)
  {
  }

  lemma QuitKeptByCaller(s: State, t: nat, setOk: bool)
    requires LocksOk(s) && ReadsOk(s) && QuitOk(s) && t < |s.callers| && CallerNext(s, t, setOk).Some?
    ensures QuitOk(CallerNext(s, t, setOk).value)
  {
    if Writes(s.callers[t]) {
      QuitKeptByWriters(s, t, setOk);
    } else {
      hide CallerNext;
      if s.callers[t].IsChunk() {
        StopsUntouchedByChunk(s, t, setOk);
      } else if s.callers[t].IsStop() {
        StopsUntouchedByStop(s, t, setOk);
      } else {
        StopsUntouchedByOthers(s, t, setOk);
      }
      CallerFrame(s, t, setOk);
      CallerSteps(s, t, setOk);
    }
  }

  // ---------------------------------------------------------------------------------------
  // Answers are true
  // ---------------------------------------------------------------------------------------

  /** The answer a call has decided on and not given yet. */
  function Decided(c: Caller, t: nat): Option<Answer> {
    match c
    case MoveSet(m, done, at) => Some(MoveAnswer(t, m, done, at))
    case MoveUnlocking(m, done, at) => Some(MoveAnswer(t, m, done, at))
    case ChunkRefused(rows, dt, at) => Some(FeedAnswer(t, rows, dt, None, at))
    case ChunkStored(rows, dt, at, chunk) => Some(FeedAnswer(t, rows, dt, Some(chunk), at))
    case ChunkNotify(rows, dt, at, chunk) => Some(FeedAnswer(t, rows, dt, Some(chunk), at))
    case StopTaken(took, at) => Some(StopAnswer(t, took, at))
    case StopUnlocking(took, at) => Some(StopAnswer(t, took, at))
    case StopNotify(took, at) => Some(StopAnswer(t, took, at))
    case _ => None
  }

  /** The answer is what the history says at the call's own place in it. */
  ghost predicate TrueOf(origin: Joints, log: seq<Entry>, chunks: seq<Chunk>, a: Answer) {
    a.at <= |log| &&
    match a
    case MoveAnswer(t, m, done, at) =>
      if done then at < |log| && log[at] == Moved(t, m)
      else Taken in log[..at] || (at < |log| && log[at] == MoveRefused(t))
    case FeedAnswer(_, rows, dt, stored, at) =>
      && (stored.Some? <==> Taken !in log[..at])
      && (stored.Some? ==>
            && stored.value < |chunks| && chunks[stored.value].rows == rows && chunks[stored.value].dt == dt
            && at < |log| && log[at] == Superseded(stored.value))
    case StopAnswer(_, took, at) => if took then at < |log| && log[at] == Taken else Taken in log[..at]
    case QueryAnswer(_, seen, at) => seen == if Taken in log[..at] then None else Some(Replay(origin, log[..at]))
  }

  lemma StaysTrue(origin: Joints, log: seq<Entry>, chunks: seq<Chunk>, a: Answer, later: seq<Entry>,
                  laterChunks: seq<Chunk>)
    requires TrueOf(origin, log, chunks, a) && log <= later && chunks <= laterChunks
    ensures TrueOf(origin, later, laterChunks, a)
  {
    assert later[..a.at] == log[..a.at];
  }

  /** Whether the call did what it was for. */
  predicate Worked(a: Answer) {
    match a
    case MoveAnswer(_, _, done, _) => done
    case FeedAnswer(_, _, _, stored, _) => stored.Some?
    case StopAnswer(_, took, _) => took
    case QueryAnswer(_, _, _) => false
  }

  /** Two calls that both worked answer for different entries, and for different chunks. */
  predicate Apart(a: Answer, b: Answer) {
    Worked(a) && Worked(b) ==> a.at != b.at && (a.FeedAnswer? && b.FeedAnswer? ==> a.stored != b.stored)
  }

  /** `a` answers for the move, or the take, or the chunk stored, at entry `i`. */
  predicate For(a: Answer, i: nat) {
    Worked(a) && a.at == i
  }

  ghost predicate AnswersTrue(s: State, origin: Joints) {
    && (forall i | 0 <= i < |s.answers| :: TrueOf(origin, s.log, s.chunks, s.answers[i]))
    && (forall t: nat | t < |s.callers| && Decided(s.callers[t], t).Some? ::
          TrueOf(origin, s.log, s.chunks, Decided(s.callers[t], t).value))
    && (forall t: nat | t < |s.callers| && s.callers[t].ChunkChecked? :: s.callers[t].at == |s.log|)
  }

  ghost predicate AnswersApart(s: State) {
    && (forall i, j | 0 <= i < j < |s.answers| :: Apart(s.answers[i], s.answers[j]))
    && (forall i, t: nat | 0 <= i < |s.answers| && t < |s.callers| && Decided(s.callers[t], t).Some? ::
          Apart(s.answers[i], Decided(s.callers[t], t).value))
    && (forall t: nat, u: nat | t < u < |s.callers| && Decided(s.callers[t], t).Some?
                                && Decided(s.callers[u], u).Some? ::
          Apart(Decided(s.callers[t], t).value, Decided(s.callers[u], u).value))
  }

  /** Some call has answered, or is about to, for entry `i`. */
  ghost predicate Claimed(s: State, i: nat) {
    || (exists k | 0 <= k < |s.answers| :: For(s.answers[k], i))
    || (exists t: nat | t < |s.callers| :: Decided(s.callers[t], t).Some? && For(Decided(s.callers[t], t).value, i))
  }

  predicate Stores(a: Answer, c: nat) {
    a.FeedAnswer? && a.stored == Some(c)
  }

  ghost predicate ChunkClaimed(s: State, c: nat) {
    || (exists k | 0 <= k < |s.answers| :: Stores(s.answers[k], c))
    || (exists t: nat | t < |s.callers| :: Decided(s.callers[t], t).Some? && Stores(Decided(s.callers[t], t).value, c))
  }

  ghost predicate AllClaimed(s: State) {
    && (forall i: nat | i < |s.log| && (s.log[i].Moved? || s.log[i].Taken?) :: Claimed(s, i))
    && (forall c: nat | c < |s.chunks| :: ChunkClaimed(s, c))
  }

  /** What one step of call `t` does to its answer. */
  ghost predicate AnswerStep(s: State, t: nat, n: State, origin: Joints)
    requires t < |s.callers|
  {
    && |n.callers| == |s.callers| && n.callers == s.callers[t := n.callers[t]]
    && s.log <= n.log && s.chunks <= n.chunks
    && (n.callers[t].ChunkChecked? ==> n.callers[t].at == |n.log|)
    && (var before, after := Decided(s.callers[t], t), Decided(n.callers[t], t);
        || (n.answers == s.answers && after == before && n.chunks == s.chunks && |n.log| <= |s.log| + 1
            && (n.log != s.log ==> n.log[|s.log|].Superseded?))
        || (before.None? && after.Some? && n.answers == s.answers && TrueOf(origin, n.log, n.chunks, after.value)
            && (Worked(after.value) ==> after.value.at == |s.log|)
            && (n.log != s.log ==> n.log == s.log + [n.log[|s.log|]])
            && (n.log != s.log && (n.log[|s.log|].Moved? || n.log[|s.log|].Taken?) ==> Worked(after.value))
            && (after.value.FeedAnswer? && after.value.stored.Some? ==> after.value.stored.value == |s.chunks|)
            && (n.chunks != s.chunks ==> |n.chunks| == |s.chunks| + 1 && Stores(after.value, |s.chunks|)))
        || (before.Some? && after.None? && n.answers == s.answers + [before.value]
            && n.log == s.log && n.chunks == s.chunks)
        || (before.None? && after.None? && n.log == s.log && n.chunks == s.chunks
            && |n.answers| == |s.answers| + 1 && n.answers[..|s.answers|] == s.answers
            && !Worked(n.answers[|s.answers|]) && TrueOf(origin, n.log, n.chunks, n.answers[|s.answers|])))
  }

  ghost predicate Ready(s: State, origin: Joints) {
    && LocksOk(s) && ReadsOk(s) && QuitOk(s)
    && (s.control.None? <==> Taken in s.log)
    && (s.control.Some? ==> s.control.value == Replay(origin, s.log))
    && (forall t: nat | t < |s.callers| && s.callers[t].ChunkChecked? :: s.callers[t].at == |s.log|)
  }

  lemma MoveAnswers(s: State, t: nat, setOk: bool, origin: Joints)
    requires Ready(s, origin) && t < |s.callers| && s.callers[t].IsMove() && CallerNext(s, t, setOk).Some?
    ensures AnswerStep(s, t, CallerNext(s, t, setOk).value, origin)
  {
    hide LocksOk, ReadsOk, QuitOk, Replay;
    assert s.log[..|s.log|] == s.log;
  }

  lemma CheckAnswers(s: State, t: nat, setOk: bool, origin: Joints)
    requires Ready(s, origin) && t < |s.callers| && CallerNext(s, t, setOk).Some?
    requires s.callers[t].ChunkStart? || s.callers[t].ChunkHasFollow? || s.callers[t].ChunkHasControl?
    ensures AnswerStep(s, t, CallerNext(s, t, setOk).value, origin)
  {
    hide LocksOk, ReadsOk, QuitOk, Replay;
    assert s.log[..|s.log|] == s.log;
  }

  lemma StoreAnswers(s: State, t: nat, setOk: bool, origin: Joints)
    requires Ready(s, origin) && t < |s.callers| && s.callers[t].ChunkChecked? && CallerNext(s, t, setOk).Some?
    ensures AnswerStep(s, t, CallerNext(s, t, setOk).value, origin)
  {
    assert s.control.Some?;
    hide LocksOk, ReadsOk, QuitOk, Replay;
    assert (s.log + [Superseded(|s.chunks|)])[..|s.log|] == s.log;
  }

  lemma StoredAnswers(s: State, t: nat, setOk: bool, origin: Joints)
    requires t < |s.callers| && CallerNext(s, t, setOk).Some?
    requires s.callers[t].ChunkRefused? || s.callers[t].ChunkStored? || s.callers[t].ChunkNotify?
    ensures AnswerStep(s, t, CallerNext(s, t, setOk).value, origin)
  {
    hide TrueOf, Worked, Stores;
  }

  lemma TakeAnswers(s: State, t: nat, setOk: bool, origin: Joints)
    requires Ready(s, origin) && t < |s.callers| && s.callers[t].StopHasControl? && CallerNext(s, t, setOk).Some?
    ensures AnswerStep(s, t, CallerNext(s, t, setOk).value, origin)
  {
    hide LocksOk, ReadsOk, QuitOk, Replay;
    assert s.log[..|s.log|] == s.log;
  }

  lemma StopAnswers(s: State, t: nat, setOk: bool, origin: Joints)
    requires t < |s.callers| && s.callers[t].IsStop() && !s.callers[t].StopHasControl?
    requires CallerNext(s, t, setOk).Some?
    ensures AnswerStep(s, t, CallerNext(s, t, setOk).value, origin)
  {
    hide TrueOf, Worked, Stores;
  }

  lemma QueryAnswers(s: State, t: nat, setOk: bool, origin: Joints)
    requires Ready(s, origin) && t < |s.callers| && CallerNext(s, t, setOk).Some?
    requires s.callers[t].QueryStart? || s.callers[t].QueryHasControl?
    ensures AnswerStep(s, t, CallerNext(s, t, setOk).value, origin)
  {
    hide LocksOk, ReadsOk, QuitOk, Replay;
    assert s.log[..|s.log|] == s.log;
  }

  lemma CallerAnswers(s: State, t: nat, setOk: bool, origin: Joints)
    requires Ready(s, origin) && t < |s.callers| && CallerNext(s, t, setOk).Some?
    ensures AnswerStep(s, t, CallerNext(s, t, setOk).value, origin)
  {
    assert !s.callers[t].Idle?;
    hide CallerNext, AnswerStep, Ready;
    if s.callers[t].IsMove() {
      MoveAnswers(s, t, setOk, origin);
    } else if s.callers[t].IsChunk() {
      if s.callers[t].ChunkChecked? {
        StoreAnswers(s, t, setOk, origin);
      } else if s.callers[t].ChunkRefused? || s.callers[t].ChunkStored? || s.callers[t].ChunkNotify? {
        StoredAnswers(s, t, setOk, origin);
      } else {
        CheckAnswers(s, t, setOk, origin);
      }
    } else if s.callers[t].StopHasControl? {
      TakeAnswers(s, t, setOk, origin);
    } else if s.callers[t].IsStop() {
      StopAnswers(s, t, setOk, origin);
    } else {
      QueryAnswers(s, t, setOk, origin);
    }
  }

  /** Only the holder of the follow lock stands between the check of a `follow` and its store. */
  lemma NobodyElseLogs(s: State, t: nat, setOk: bool, u: nat)
    requires LocksOk(s) && t < |s.callers| && u < |s.callers| && u != t && s.callers[u].ChunkChecked?
    requires CallerNext(s, t, setOk).Some?
    ensures CallerNext(s, t, setOk).value.log == s.log
  {
    assert !s.callers[t].HoldsFollow();
    hide LocksOk;
    assert !Writes(s.callers[t]);
    CallerFrame(s, t, setOk);
  }

  lemma TrueKept(s: State, t: nat, n: State, origin: Joints)
    requires AnswersTrue(s, origin) && t < |s.callers| && AnswerStep(s, t, n, origin)
    requires forall u: nat | u < |s.callers| && u != t && s.callers[u].ChunkChecked? :: n.log == s.log
    ensures AnswersTrue(n, origin)
  {
    hide TrueOf, Decided, Worked, Stores;
    forall i | 0 <= i < |s.answers| ensures TrueOf(origin, n.log, n.chunks, s.answers[i]) {
      StaysTrue(origin, s.log, s.chunks, s.answers[i], n.log, n.chunks);
    }
    forall u: nat | u < |s.callers| && Decided(s.callers[u], u).Some?
      ensures TrueOf(origin, n.log, n.chunks, Decided(s.callers[u], u).value)
    {
      StaysTrue(origin, s.log, s.chunks, Decided(s.callers[u], u).value, n.log, n.chunks);
    }
  }

  lemma ApartKept(s: State, t: nat, n: State, origin: Joints)
    requires AnswersTrue(s, origin) && AnswersApart(s) && t < |s.callers| && AnswerStep(s, t, n, origin)
    ensures AnswersApart(n)
  {
    hide Replay;
  }

  /** Whoever answered, or was about to, still does. */
  lemma AnswerStays(s: State, t: nat, n: State, origin: Joints, k: nat, u: nat)
    requires t < |s.callers| && AnswerStep(s, t, n, origin)
    ensures |s.answers| <= |n.answers| && (k < |s.answers| ==> n.answers[k] == s.answers[k])
    ensures u < |s.callers| && Decided(s.callers[u], u).Some? ==>
              || Decided(n.callers[u], u) == Decided(s.callers[u], u)
              || (|n.answers| == |s.answers| + 1 && n.answers[|s.answers|] == Decided(s.callers[u], u).value)
  {
    hide Decided, Worked, TrueOf, Stores;
  }

  lemma ClaimStays(s: State, t: nat, n: State, origin: Joints, i: nat)
    requires t < |s.callers| && AnswerStep(s, t, n, origin) && Claimed(s, i)
    ensures Claimed(n, i)
  {
    hide AnswerStep, For, Decided;
    if k :| 0 <= k < |s.answers| && For(s.answers[k], i) {
      AnswerStays(s, t, n, origin, k, t);
      assert For(n.answers[k], i);
    } else {
      var u: nat :| u < |s.callers| && Decided(s.callers[u], u).Some? && For(Decided(s.callers[u], u).value, i);
      AnswerStays(s, t, n, origin, 0, u);
      assert |n.callers| == |s.callers| by {
        SameCallers(s, t, n, origin);
      }
      assert Decided(n.callers[u], u) == Decided(s.callers[u], u) || For(n.answers[|s.answers|], i);
    }
  }

  lemma SameCallers(s: State, t: nat, n: State, origin: Joints)
    requires t < |s.callers| && AnswerStep(s, t, n, origin)
    ensures |n.callers| == |s.callers|
  {
  }

  lemma ChunkClaimStays(s: State, t: nat, n: State, origin: Joints, c: nat)
    requires t < |s.callers| && AnswerStep(s, t, n, origin) && ChunkClaimed(s, c)
    ensures ChunkClaimed(n, c)
  {
    hide AnswerStep, Stores, Decided;
    if k :| 0 <= k < |s.answers| && Stores(s.answers[k], c) {
      AnswerStays(s, t, n, origin, k, t);
      assert Stores(n.answers[k], c);
    } else {
      var u: nat :| u < |s.callers| && Decided(s.callers[u], u).Some? && Stores(Decided(s.callers[u], u).value, c);
      AnswerStays(s, t, n, origin, 0, u);
      SameCallers(s, t, n, origin);
      assert Decided(n.callers[u], u) == Decided(s.callers[u], u) || Stores(n.answers[|s.answers|], c);
    }
  }

  /** The one new entry, or chunk, of a step is its call's own. */
  lemma NewIsClaimed(s: State, t: nat, n: State, origin: Joints)
    requires t < |s.callers| && AnswerStep(s, t, n, origin)
    ensures |s.log| <= |n.log| <= |s.log| + 1 && |s.chunks| <= |n.chunks| <= |s.chunks| + 1
    ensures n.log[..|s.log|] == s.log
    ensures n.log != s.log && (n.log[|s.log|].Moved? || n.log[|s.log|].Taken?) ==> Claimed(n, |s.log|)
    ensures n.chunks != s.chunks ==> ChunkClaimed(n, |s.chunks|)
  {
    hide TrueOf, Decided, Worked, Stores;
    if n.chunks != s.chunks {
      assert Stores(Decided(n.callers[t], t).value, |s.chunks|);
    }
    if n.log != s.log && (n.log[|s.log|].Moved? || n.log[|s.log|].Taken?) {
      assert For(Decided(n.callers[t], t).value, |s.log|);
    }
  }

  lemma ClaimsKept(s: State, t: nat, n: State, origin: Joints)
    requires AllClaimed(s) && t < |s.callers| && AnswerStep(s, t, n, origin)
    ensures AllClaimed(n)
  {
    hide AnswerStep, Claimed, ChunkClaimed;
    NewIsClaimed(s, t, n, origin);
    forall i: nat | i < |n.log| && (n.log[i].Moved? || n.log[i].Taken?) ensures Claimed(n, i) {
      if i < |s.log| {
        assert n.log[i] == s.log[i];
        ClaimStays(s, t, n, origin, i);
      }
    }
    forall c: nat | c < |n.chunks| ensures ChunkClaimed(n, c) {
      if c < |s.chunks| {
        ChunkClaimStays(s, t, n, origin, c);
      }
    }
  }

  ghost predicate AnswersOk(s: State, origin: Joints) {
    AnswersTrue(s, origin) && AnswersApart(s) && AllClaimed(s)
  }

  lemma AnswersKeptByStep(s: State, t: nat, n: State, origin: Joints)
    requires AnswersOk(s, origin) && t < |s.callers| && AnswerStep(s, t, n, origin)
    requires forall u: nat | u < |s.callers| && u != t && s.callers[u].ChunkChecked? :: n.log == s.log
    ensures AnswersOk(n, origin)
  {
    hide AnswerStep, AnswersTrue, AnswersApart, AllClaimed;
    TrueKept(s, t, n, origin);
    ApartKept(s, t, n, origin);
    ClaimsKept(s, t, n, origin);
  }

  lemma AnswersKeptByCaller(s: State, t: nat, setOk: bool, origin: Joints)
    requires Ready(s, origin) && AnswersOk(s, origin) && t < |s.callers| && CallerNext(s, t, setOk).Some?
    ensures AnswersOk(CallerNext(s, t, setOk).value, origin)
  {
    hide CallerNext, AnswerStep, AnswersTrue, AnswersApart, AllClaimed, QuitOk, ReadsOk;
    var n := CallerNext(s, t, setOk).value;
    CallerAnswers(s, t, setOk, origin);
    forall u: nat | u < |s.callers| && u != t && s.callers[u].ChunkChecked? ensures n.log == s.log {
      NobodyElseLogs(s, t, setOk, u);
    }
    AnswersKeptByStep(s, t, n, origin);
  }

  /** The history is as it was, or the worker, holding the follow lock, has added what became of a row. */
  ghost predicate LogsAtMostARow(s: State, n: State) {
    || n.log == s.log
    || (|n.log| == |s.log| + 1 && n.log[..|s.log|] == s.log && WorkerHoldsFollow(s.worker)
        && (n.log[|s.log|].Published? || n.log[|s.log|].RowRefused?))
  }

  lemma WorkerLogs(s: State, setOk: bool)
    requires LocksOk(s) && WorkerNext(s, setOk).Some?
    ensures var n := WorkerNext(s, setOk).value;
            && n.callers == s.callers && n.chunks == s.chunks && n.answers == s.answers
            && LogsAtMostARow(s, n)
  {
    hide LocksOk;
  }

  lemma AnswersKeptByWorker(s: State, setOk: bool, origin: Joints)
    requires LocksOk(s) && AnswersOk(s, origin) && WorkerNext(s, setOk).Some?
    ensures AnswersOk(WorkerNext(s, setOk).value, origin)
  {
    WorkerLogs(s, setOk);
    hide WorkerNext;
    AnswersKeptByLog(s, WorkerNext(s, setOk).value, origin);
  }

  /** Entries that are no call's do not touch the answers. */
  lemma AnswersKeptByLog(s: State, n: State, origin: Joints)
    requires LocksOk(s) && AnswersOk(s, origin)
    requires n.callers == s.callers && n.chunks == s.chunks && n.answers == s.answers
    requires LogsAtMostARow(s, n)
    ensures AnswersOk(n, origin)
  {
    hide TrueOf, Decided, Apart, Worked, For, Stores;
    forall i | 0 <= i < |s.answers| ensures TrueOf(origin, n.log, n.chunks, s.answers[i]) {
      StaysTrue(origin, s.log, s.chunks, s.answers[i], n.log, n.chunks);
    }
    forall u: nat | u < |s.callers| && Decided(s.callers[u], u).Some?
      ensures TrueOf(origin, n.log, n.chunks, Decided(s.callers[u], u).value)
    {
      StaysTrue(origin, s.log, s.chunks, Decided(s.callers[u], u).value, n.log, n.chunks);
    }
    forall i: nat | i < |n.log| && (n.log[i].Moved? || n.log[i].Taken?) ensures Claimed(n, i) {
      assert n.log[i] == s.log[i] && Claimed(s, i);
    }
    forall c: nat | c < |n.chunks| ensures ChunkClaimed(n, c) {
      assert ChunkClaimed(s, c);
    }
  }

  // ---------------------------------------------------------------------------------------
  // What becomes of the rows
  // ---------------------------------------------------------------------------------------

  ghost predicate IsSuperseded(log: seq<Entry>, c: nat) {
    exists i | 0 <= i < |log| :: log[i].Superseded? && c < log[i].below
  }

  /** The chunk is being fed, or all of its rows are out, or it was superseded, or the handle
      refused the first of its rows that is not out. */
  ghost predicate Fate(s: State, c: nat)
    requires c < |s.chunks|
  {
    || (s.follow.rows != [] && s.follow.chunk == c)
    || |PublishedOf(s.log, c)| == |s.chunks[c].rows|
    || IsSuperseded(s.log, c)
    || RowRefused(c, |PublishedOf(s.log, c)|) in s.log
  }

  ghost predicate FateOk(s: State) {
    && (forall c: nat | c < |s.chunks| :: Fate(s, c))
    && ((s.worker.Finishing? || s.worker.Settling?) && !s.worker.published && s.follow.rows != [] ==>
          1 <= s.follow.next && RowRefused(s.follow.chunk, s.follow.next - 1) in s.log)
  }

  /** What was the fate of a chunk that is not being fed stays so. */
  lemma FateStays(s: State, n: State, c: nat)
    requires c < |s.chunks| && Fate(s, c) && !(s.follow.rows != [] && s.follow.chunk == c)
    requires s.chunks <= n.chunks && s.log <= n.log && PublishedOf(n.log, c) == PublishedOf(s.log, c)
    ensures Fate(n, c)
  {
    hide PublishedOf;
    if i :| 0 <= i < |s.log| && s.log[i].Superseded? && c < s.log[i].below {
      assert n.log[i] == s.log[i];
    }
  }

  lemma FateKeptByTheSame(s: State, n: State)
    requires FateOk(s) && n.log == s.log && n.chunks == s.chunks && n.follow == s.follow
    requires n.worker == s.worker || n.worker.Locking?
    ensures FateOk(n)
  {
    hide PublishedOf;
    forall c: nat | c < |s.chunks| ensures Fate(n, c) {
      assert Fate(s, c);
    }
  }

  lemma FateKeptBySetting(s: State, setOk: bool)
    requires FeedOk(s) && FateOk(s) && s.worker.HasRead?
    ensures FateOk(WorkerNext(s, setOk).value)
  {
    hide PublishedOf, LocksOk, PrefixesOk, DueAt;
    var n := WorkerNext(s, setOk).value;
    LogGrows(s.log, n.log[|s.log|]);
    forall c: nat | c < |s.chunks| ensures Fate(n, c) {
      if s.follow.chunk != c {
        FateStays(s, n, c);
      }
    }
  }

  lemma FateKeptByGivingUp(s: State, setOk: bool)
    requires FeedOk(s) && FateOk(s) && s.worker.Settling?
    ensures FateOk(WorkerNext(s, setOk).value)
  {
    hide PublishedOf, LocksOk, PrefixesOk, DueAt;
    var n := WorkerNext(s, setOk).value;
    forall c: nat | c < |s.chunks| ensures Fate(n, c) {
      assert Fate(s, c);
      if !(s.follow.rows != [] && s.follow.chunk == c) {
        FateStays(s, n, c);
      }
    }
  }

  lemma FateKeptElsewhere(s: State, setOk: bool)
    requires FeedOk(s) && QuitOk(s) && FateOk(s) && WorkerNext(s, setOk).Some?
    requires !s.worker.HasRead? && !s.worker.Settling?
    ensures FateOk(WorkerNext(s, setOk).value)
  {
    hide PublishedOf, LocksOk, PrefixesOk, DueAt, ChunkOk;
    var n := WorkerNext(s, setOk).value;
    assert n.log == s.log && n.chunks == s.chunks && n.follow.rows == s.follow.rows && n.follow.chunk == s.follow.chunk;
    forall c: nat | c < |s.chunks| ensures Fate(n, c) {
      assert Fate(s, c);
    }
  }

  lemma FateKeptByWorker(s: State, setOk: bool)
    requires FeedOk(s) && QuitOk(s) && FateOk(s) && WorkerNext(s, setOk).Some?
    ensures FateOk(WorkerNext(s, setOk).value)
  {
    if s.worker.HasRead? {
      FateKeptBySetting(s, setOk);
    } else if s.worker.Settling? {
      FateKeptByGivingUp(s, setOk);
    } else {
      FateKeptElsewhere(s, setOk);
    }
  }

  /** Clearing or replacing the rows supersedes every chunk stored before. */
  lemma FateKeptBySuperseding(s: State, t: nat, setOk: bool)
    requires FeedOk(s) && FateOk(s) && t < |s.callers| && CallerNext(s, t, setOk).Some?
    requires s.callers[t].MoveHasFollow? || s.callers[t].StopHasFollow? || s.callers[t].ChunkChecked?
    ensures FateOk(CallerNext(s, t, setOk).value)
  {
    hide PublishedOf, DueAt, ChunkOk, FaithfulPrefix;
    assert !WorkerHoldsFollow(s.worker);
    hide LocksOk;
    var n := CallerNext(s, t, setOk).value;
    LogGrows(s.log, n.log[|s.log|]);
    assert n.log[|s.log|] == Superseded(|s.chunks|);
    forall c: nat | c < |n.chunks| ensures Fate(n, c) {
      assert c < |s.chunks| ==> IsSuperseded(n.log, c);
      assert c == |s.chunks| ==> PublishedOf(s.log, c) == [];
    }
  }

  lemma FateKeptByHandling(s: State, t: nat, setOk: bool)
    requires FateOk(s) && t < |s.callers| && CallerNext(s, t, setOk).Some?
    requires s.callers[t].MoveHasRead? || s.callers[t].StopHasControl?
    ensures FateOk(CallerNext(s, t, setOk).value)
  {
    hide PublishedOf, DueAt;
    var n := CallerNext(s, t, setOk).value;
    if n.log != s.log {
      LogGrows(s.log, n.log[|s.log|]);
    }
    forall c: nat | c < |s.chunks| ensures Fate(n, c) {
      assert Fate(s, c);
      if !(s.follow.rows != [] && s.follow.chunk == c) {
        FateStays(s, n, c);
      }
    }
  }

  lemma FateKeptByCaller(s: State, t: nat, setOk: bool)
    requires FeedOk(s) && FateOk(s) && t < |s.callers| && CallerNext(s, t, setOk).Some?
    ensures FateOk(CallerNext(s, t, setOk).value)
  {
    hide CallerNext, FeedOk, FateOk;
    if !Writes(s.callers[t]) {
      CallerFrame(s, t, setOk);
      CallerSteps(s, t, setOk);
      FateKeptByTheSame(s, CallerNext(s, t, setOk).value);
    } else if s.callers[t].MoveHasRead? || s.callers[t].StopHasControl? {
      FateKeptByHandling(s, t, setOk);
    } else {
      FateKeptBySuperseding(s, t, setOk);
    }
  }

  // ---------------------------------------------------------------------------------------
  // Intervals
  // ---------------------------------------------------------------------------------------

  /** Rows are a positive time apart, from the call that brings them to the feed. */
  ghost predicate DtOk(s: State) {
    && (forall t | 0 <= t < |s.callers| && s.callers[t].IsChunk() :: 0.0 < s.callers[t].dt)
    && (s.follow.rows != [] ==> 0.0 < s.follow.dt)
  }

  lemma ChunkKeepsDt(s: State, t: nat, setOk: bool)
    requires t < |s.callers| && CallerNext(s, t, setOk).Some? && s.callers[t].IsChunk() && 0.0 < s.callers[t].dt
    ensures var n := CallerNext(s, t, setOk).value;
            && (n.callers[t].IsChunk() ==> n.callers[t].dt == s.callers[t].dt)
            && (n.follow == s.follow || n.follow.dt == s.callers[t].dt)
  {
  }

  ghost predicate FeedsNothing(s: State, t: nat, n: State) {
    t < |n.callers| && !n.callers[t].IsChunk() && (n.follow == s.follow || n.follow.rows == [])
  }

  lemma MovesFeedNothing(s: State, t: nat, setOk: bool)
    requires t < |s.callers| && CallerNext(s, t, setOk).Some? && s.callers[t].IsMove()
    ensures FeedsNothing(s, t, CallerNext(s, t, setOk).value)
  {
  }

  lemma StopsFeedNothing(s: State, t: nat, setOk: bool)
    requires t < |s.callers| && CallerNext(s, t, setOk).Some? && s.callers[t].IsStop()
    ensures FeedsNothing(s, t, CallerNext(s, t, setOk).value)
  {
  }

  lemma QueriesFeedNothing(s: State, t: nat, setOk: bool)
    requires t < |s.callers| && CallerNext(s, t, setOk).Some?
    requires s.callers[t].QueryStart? || s.callers[t].QueryHasControl?
    ensures FeedsNothing(s, t, CallerNext(s, t, setOk).value)
  {
  }

  lemma DtKept(s: State, a: Action)
    requires DtOk(s) && Next(s, a).Some?
    ensures DtOk(Next(s, a).value)
  {
    match a
    case CallerStep(t, setOk) =>
      CallerSteps(s, t, setOk);
      if s.callers[t].IsChunk() {
        ChunkKeepsDt(s, t, setOk);
      } else if s.callers[t].IsMove() {
        MovesFeedNothing(s, t, setOk);
      } else if s.callers[t].IsStop() {
        StopsFeedNothing(s, t, setOk);
      } else {
        assert s.callers[t].QueryStart? || s.callers[t].QueryHasControl?;
        QueriesFeedNothing(s, t, setOk);
      }
      hide CallerNext;
    case _ => hide CallerNext;
  }

  // ---------------------------------------------------------------------------------------
  // Every reachable state
  // ---------------------------------------------------------------------------------------

  /** All that every interleaving keeps. */
  ghost predicate Honest(s: State, origin: Joints) {
    Inv(s, origin) && QuitOk(s) && AnswersOk(s, origin) && FateOk(s) && DtOk(s)
  }

  lemma HonestAtStart(origin: Joints, now: real, threads: nat)
    ensures Honest(Started(origin, now, threads), origin)
  {
    InvAtStart(origin, now, threads);
  }

  lemma HonestIsReady(s: State, origin: Joints)
    requires Inv(s, origin) && QuitOk(s) && AnswersOk(s, origin)
    ensures Ready(s, origin)
  {
    hide LocksOk, ChunkOk, PrefixesOk, ReadsOk, QuitOk, SupersededOk, WakeOk, Replay, MovesIn, InFlight, TrueOf,
      Decided;
  }

  lemma HonestKeptByTime(s: State, a: Action, origin: Joints)
    requires Honest(s, origin) && (a.Tick? || a.Rouse?) && Next(s, a).Some?
    ensures Honest(Next(s, a).value, origin)
  {
    hide Inv, FateOk, AnswersOk, LocksOk, DtOk;
    InvKept(s, a, origin);
    DtKept(s, a);
    InvHasLocks(s, origin);
    FateKeptByTheSame(s, Next(s, a).value);
    AnswersKeptByLog(s, Next(s, a).value, origin);
  }

  lemma HonestKeptByBegin(s: State, a: Action, origin: Joints)
    requires Honest(s, origin) && a.Begin? && Next(s, a).Some?
    ensures Honest(Next(s, a).value, origin)
  {
    hide Inv, FateOk, TrueOf, Apart, For, Stores, AnswersOk, DtOk;
    var n := Next(s, a).value;
    InvKept(s, a, origin);
    DtKept(s, a);
    FateKeptByTheSame(s, n);
    assert AnswerStep(s, a.t, n, origin);
    hide Next, QuitOk;
    assert n.log == s.log;
    AnswersKeptByStep(s, a.t, n, origin);
  }

  lemma HonestKept(s: State, a: Action, origin: Joints)
    requires Honest(s, origin) && Next(s, a).Some?
    ensures Honest(Next(s, a).value, origin)
  {
    hide CallerNext, WorkerNext, QuitOk, AnswersOk, FateOk, FeedOk, LocksOk, ReadsOk, SupersededOk, TakenOk, WakeOk,
      TargetOk, DtOk;
    DtKept(s, a);
    assert FeedOk(s) && LocksOk(s) by {
      InvHasLocks(s, origin);
    }
    match a
    case WorkerStep(setOk) =>
      InvKept(s, a, origin);
      QuitKeptByWorker(s, setOk);
      AnswersKeptByWorker(s, setOk, origin);
      FateKeptByWorker(s, setOk);
    case CallerStep(t, setOk) =>
      InvKept(s, a, origin);
      QuitKeptByCaller(s, t, setOk);
      HonestIsReady(s, origin);
      AnswersKeptByCaller(s, t, setOk, origin);
      FateKeptByCaller(s, t, setOk);
    case Begin(_, _) => HonestKeptByBegin(s, a, origin);
    case _ => HonestKeptByTime(s, a, origin);
  }

  lemma InvHasLocks(s: State, origin: Joints)
    requires Inv(s, origin)
    ensures FeedOk(s) && LocksOk(s)
  {
    hide LocksOk, ChunkOk, PrefixesOk, ReadsOk, SupersededOk, TakenOk, WakeOk, TargetOk;
  }

  lemma {:induction false} HonestAlongRuns(s: State, actions: seq<Action>, origin: Joints)
    requires Honest(s, origin) && Run(s, actions).Some?
    ensures Honest(Run(s, actions).value, origin)
    decreases |actions|
  {
    hide Honest;
    if actions != [] {
      HonestKept(s, actions[0], origin);
      HonestAlongRuns(Next(s, actions[0]).value, actions[1..], origin);
    }
  }
}

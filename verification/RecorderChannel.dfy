/** The channel between the control loops and the recorder thread, crates/franka-rerun/src/recorder.rs,
    as an interleaving of the steps of any number of pushes, the drain loop and `finish`. */
module RecorderChannel {
  import opened Wrappers

  datatype Stamped = Stamped(cycle: nat, hostNs: nat)

  /** The recorder thread. `ended` says that `try_recv` found the channel disconnected. `Failed`
      is the thread gone on an error from the logger, `Done` gone without one. */
  datatype Drain = Starting | Sleeping | Receiving | Logging(ended: bool) | Closing | Done | Failed

  /** The owner of the recorder: `Open` while it can be pushed to; then inside `finish`, which
      has read the counts, dropped the sender and joined the thread; or dropped unfinished. */
  datatype Owner =
    | Open
    | Read(pushed: nat, dropped: nat)
    | Joining(pushed: nat, dropped: nat)
    | Returned(pushed: nat, dropped: nat, ok: bool)
    | Abandoned
  {
    predicate SenderAlive() { Open? || Read? }
  }

  /** `counted` are the pushes between counting and `try_send`, and `refused` the number of those
      between a failed `try_send` and counting it. `lost` is what a failed thread left unlogged. */
  datatype State = State(
    pushed: nat, dropped: nat, counted: multiset<Stamped>, refused: nat,
    queue: seq<Stamped>, batch: seq<Stamped>, logged: seq<Stamped>, lost: seq<Stamped>,
    drain: Drain, owner: Owner)

  datatype Action =
    | Count(record: Stamped)
    | TrySend(record: Stamped)
    | CountDropped
    | Start(ok: bool)
    | Wake
    | TryRecv
    | LogBatch(failsAfter: Option<nat>)
    | Close(ok: bool)
    | BeginFinish
    | DropSender
    | Join
    | Abandon

  function Fresh(): State {
    State(0, 0, multiset{}, 0, [], [], [], [], Starting, Open)
  }

  predicate ReceiverAlive(s: State) {
    !s.drain.Done? && !s.drain.Failed?
  }

  /** Nobody is inside a push: the owner may move the recorder. */
  predicate Quiet(s: State) {
    s.counted == multiset{} && s.refused == 0
  }

  predicate HasRoom(capacity: nat, s: State) {
    ReceiverAlive(s) && |s.queue| < capacity
  }

  /** The thread ends on an error after logging `k` records of the batch. */
  function Fail(s: State, k: nat): State
    requires k <= |s.batch|
  {
    s.(logged := s.logged + s.batch[..k], lost := s.batch[k..] + s.queue, batch := [], queue := [], drain := Failed)
  }

  function Send(capacity: nat, s: State, record: Stamped): State {
    var t := s.(counted := s.counted - multiset{record});
    if HasRoom(capacity, s) then t.(queue := s.queue + [record]) else t.(refused := s.refused + 1)
  }

  function Receive(s: State): State {
    if s.queue != [] then s.(batch := s.batch + [s.queue[0]], queue := s.queue[1..])
    else s.(drain := Logging(!s.owner.SenderAlive()))
  }

  function DrainNext(s: State, a: Action): Option<State> {
    match a
    case Start(ok) => if !s.drain.Starting? then None else Some(if ok then s.(drain := Sleeping) else Fail(s, 0))
    case Wake => if !s.drain.Sleeping? then None else Some(s.(drain := Receiving))
    case TryRecv => if !s.drain.Receiving? then None else Some(Receive(s))
    case LogBatch(failsAfter) =>
      if !s.drain.Logging? then None
      else if failsAfter.None? then
        Some(s.(logged := s.logged + s.batch, batch := [], drain := if s.drain.ended then Closing else Sleeping))
      else if failsAfter.value <= |s.batch| then Some(Fail(s, failsAfter.value))
      else None
    case Close(ok) => if !s.drain.Closing? then None else Some(if ok then s.(drain := Done) else Fail(s, 0))
    case _ => None
  }

  function OwnerNext(s: State, a: Action): Option<State> {
    match a
    case BeginFinish => if s.owner.Open? && Quiet(s) then Some(s.(owner := Read(s.pushed, s.dropped))) else None
    case DropSender => if s.owner.Read? then Some(s.(owner := Joining(s.owner.pushed, s.owner.dropped))) else None
    case Join =>
      if s.owner.Joining? && !ReceiverAlive(s)
      then Some(s.(owner := Returned(s.owner.pushed, s.owner.dropped, s.drain.Done?))) else None
    case Abandon => if s.owner.Open? && Quiet(s) then Some(s.(owner := Abandoned)) else None
    case _ => None
  }

  predicate IsDrainStep(a: Action) {
    a.Start? || a.Wake? || a.TryRecv? || a.LogBatch? || a.Close?
  }

  function Next(capacity: nat, s: State, a: Action): Option<State> {
    match a
    case Count(r) =>
      if s.owner.Open? then Some(s.(pushed := s.pushed + 1, counted := s.counted + multiset{r})) else None
    case TrySend(r) => if r in s.counted then Some(Send(capacity, s, r)) else None
    case CountDropped =>
      if 0 < s.refused then Some(s.(refused := s.refused - 1, dropped := s.dropped + 1)) else None
    case _ => if IsDrainStep(a) then DrainNext(s, a) else OwnerNext(s, a)
  }

  function Run(capacity: nat, s: State, actions: seq<Action>): Option<State>
    decreases |actions|
  {
    if actions == [] then Some(s)
    else
      match Next(capacity, s, actions[0])
      case None => None
      case Some(n) => Run(capacity, n, actions[1..])
  }

  /** A push found the thread there and a slot free. */
  ghost predicate Admitted(capacity: nat, s: State, a: Action) {
    a.TrySend? && s.drain != Done && s.drain != Failed && |s.queue| < capacity
  }

  /** The records the channel should have taken, in order: of each push that was admitted. */
  ghost function Accepted(capacity: nat, s: State, actions: seq<Action>): seq<Stamped>
    requires Run(capacity, s, actions).Some?
    decreases |actions|
  {
    if actions == [] then []
    else
      var rest := Accepted(capacity, Next(capacity, s, actions[0]).value, actions[1..]);
      if Admitted(capacity, s, actions[0]) then [actions[0].record] + rest else rest
  }

  /** The pushes begun. */
  function Offered(actions: seq<Action>): nat {
    if actions == [] then 0 else (if actions[0].Count? then 1 else 0) + Offered(actions[1..])
  }

  // ---------------------------------------------------------------------------------------
  // The invariant
  // ---------------------------------------------------------------------------------------

  /** Everything taken is logged, lost with a failed thread, batched or queued: in that order. */
  ghost predicate Placed(s: State, accepted: seq<Stamped>) {
    s.logged + s.lost + s.batch + s.queue == accepted
  }

  ghost predicate Balanced(s: State, accepted: seq<Stamped>) {
    s.pushed == |accepted| + s.dropped + |s.counted| + s.refused
  }

  ghost predicate DrainSound(s: State) {
    && (s.drain.Failed? || s.lost == [])
    && (ReceiverAlive(s) || (s.batch == [] && s.queue == []))
    && (s.drain.Receiving? || s.drain.Logging? || s.batch == [])
    && ((s.drain.Logging? && s.drain.ended) || s.drain.Closing? || s.drain.Done?
        ==> !s.owner.SenderAlive() && s.queue == [])
  }

  ghost predicate OwnerSound(s: State) {
    && (s.owner.Open? || Quiet(s))
    && (s.owner.Read? || s.owner.Joining? || s.owner.Returned?
        ==> s.owner.pushed == s.pushed && s.owner.dropped == s.dropped)
    && (s.owner.Returned? ==> !ReceiverAlive(s) && s.owner.ok == s.drain.Done?)
  }

  ghost predicate Inv(capacity: nat, s: State, accepted: seq<Stamped>) {
    && Placed(s, accepted) && Balanced(s, accepted) && |s.queue| <= capacity
    && DrainSound(s) && OwnerSound(s)
  }

  lemma SendKeeps(capacity: nat, s: State, r: Stamped, accepted: seq<Stamped>)
    requires Inv(capacity, s, accepted) && r in s.counted
    ensures Inv(capacity, Send(capacity, s, r), if HasRoom(capacity, s) then accepted + [r] else accepted)
  {
    if HasRoom(capacity, s) {
      assert s.logged + s.lost + s.batch + (s.queue + [r]) == s.logged + s.lost + s.batch + s.queue + [r];
    }
  }

  lemma FailKeeps(capacity: nat, s: State, k: nat, accepted: seq<Stamped>)
    requires Inv(capacity, s, accepted) && k <= |s.batch| && ReceiverAlive(s) && !s.owner.Returned?
    ensures Inv(capacity, Fail(s, k), accepted)
  {
    calc {
      s.logged + s.batch[..k] + (s.batch[k..] + s.queue) + [] + [];
      s.logged + (s.batch[..k] + s.batch[k..]) + s.queue;
      { assert s.batch[..k] + s.batch[k..] == s.batch; }
      s.logged + [] + s.batch + s.queue;
    }
  }

  lemma DrainKeeps(capacity: nat, s: State, a: Action, accepted: seq<Stamped>)
    requires Inv(capacity, s, accepted) && DrainNext(s, a).Some?
    ensures Inv(capacity, DrainNext(s, a).value, accepted)
  {
    match a
    case Start(ok) => if !ok { FailKeeps(capacity, s, 0, accepted); }
    case TryRecv =>
      if s.queue != [] {
        assert s.batch + [s.queue[0]] + s.queue[1..] == s.batch + s.queue;
        assert s.logged + s.lost + (s.batch + [s.queue[0]]) + s.queue[1..] == s.logged + s.lost + s.batch + s.queue;
      }
    case LogBatch(failsAfter) =>
      if failsAfter.Some? {
        FailKeeps(capacity, s, failsAfter.value, accepted);
      } else {
        assert s.logged + s.batch + [] + [] + s.queue == s.logged + [] + s.batch + s.queue;
      }
    case Close(ok) => if !ok { FailKeeps(capacity, s, 0, accepted); }
    case _ =>
  }

  lemma StepKeeps(capacity: nat, s: State, a: Action, accepted: seq<Stamped>)
    requires Inv(capacity, s, accepted) && Next(capacity, s, a).Some?
    ensures Inv(capacity, Next(capacity, s, a).value,
                if a.TrySend? && HasRoom(capacity, s) then accepted + [a.record] else accepted)
  {
    if IsDrainStep(a) {
      DrainKeeps(capacity, s, a, accepted);
    } else if a.TrySend? {
      SendKeeps(capacity, s, a.record, accepted);
    }
  }

  lemma RoomIsAdmission(capacity: nat, s: State, a: Action)
    ensures Admitted(capacity, s, a) <==> a.TrySend? && HasRoom(capacity, s)
  {
  }

  lemma {:induction false} InvAlongRuns(capacity: nat, s: State, actions: seq<Action>, accepted: seq<Stamped>)
    requires Inv(capacity, s, accepted) && Run(capacity, s, actions).Some?
    ensures Inv(capacity, Run(capacity, s, actions).value, accepted + Accepted(capacity, s, actions))
    decreases |actions|
  {
    hide Inv, Next, HasRoom, Admitted;
    if actions == [] {
      assert accepted + [] == accepted;
    } else {
      StepKeeps(capacity, s, actions[0], accepted);
      var taken := Admitted(capacity, s, actions[0]);
      RoomIsAdmission(capacity, s, actions[0]);
      var next := Next(capacity, s, actions[0]).value;
      InvAlongRuns(capacity, next, actions[1..], if taken then accepted + [actions[0].record] else accepted);
      if taken {
        var rest := Accepted(capacity, next, actions[1..]);
        assert accepted + ([actions[0].record] + rest) == accepted + [actions[0].record] + rest;
      }
    }
  }

  // ---------------------------------------------------------------------------------------
  // What holds after every interleaving
  // ---------------------------------------------------------------------------------------

  ghost predicate Reached(capacity: nat, actions: seq<Action>, s: State) {
    Run(capacity, Fresh(), actions) == Some(s)
  }

  lemma ReachedIsSound(capacity: nat, actions: seq<Action>, s: State)
    requires Reached(capacity, actions, s)
    ensures Inv(capacity, s, Accepted(capacity, Fresh(), actions))
  {
    InvAlongRuns(capacity, Fresh(), actions, []);
    assert [] + Accepted(capacity, Fresh(), actions) == Accepted(capacity, Fresh(), actions);
  }

  lemma {:induction false} PushedIsOffered(capacity: nat, s: State, actions: seq<Action>)
    requires Run(capacity, s, actions).Some?
    ensures Run(capacity, s, actions).value.pushed == s.pushed + Offered(actions)
    decreases |actions|
  {
    if actions != [] {
      PushedIsOffered(capacity, Next(capacity, s, actions[0]).value, actions[1..]);
    }
  }

  /** Every push is dropped, queued, batched, logged, lost with a failed thread, or still inside
      `send`; and the queue never exceeds its capacity. */
  lemma NothingIsMislaid(capacity: nat, actions: seq<Action>, s: State)
    requires Reached(capacity, actions, s)
    ensures Offered(actions) == s.pushed
         == s.dropped + |s.queue| + |s.batch| + |s.logged| + |s.lost| + |s.counted| + s.refused
    ensures |s.queue| <= capacity
    ensures !s.drain.Failed? ==> s.lost == []
  {
    hide Run, Accepted;
    ReachedIsSound(capacity, actions, s);
    PushedIsOffered(capacity, Fresh(), actions);
  }

  /** The pushes that found the queue full or the thread gone. */
  ghost function TurnedAway(capacity: nat, s: State, actions: seq<Action>): nat
    requires Run(capacity, s, actions).Some?
    decreases |actions|
  {
    if actions == [] then 0
    else
      var rest := TurnedAway(capacity, Next(capacity, s, actions[0]).value, actions[1..]);
      if actions[0].TrySend? && !Admitted(capacity, s, actions[0]) then 1 + rest else rest
  }

  lemma TurnsOneAway(capacity: nat, s: State, a: Action)
    requires Next(capacity, s, a).Some?
    ensures var n := Next(capacity, s, a).value;
            n.dropped + n.refused == s.dropped + s.refused + if a.TrySend? && !Admitted(capacity, s, a) then 1 else 0
  {
    if IsDrainStep(a) {
      assert DrainNext(s, a).value.dropped == s.dropped && DrainNext(s, a).value.refused == s.refused;
    }
  }

  lemma {:induction false} TurnedAwayCount(capacity: nat, s: State, actions: seq<Action>)
    requires Run(capacity, s, actions).Some?
    ensures var n := Run(capacity, s, actions).value;
            n.dropped + n.refused == s.dropped + s.refused + TurnedAway(capacity, s, actions)
    decreases |actions|
  {
    hide Admitted, Next;
    if actions != [] {
      TurnsOneAway(capacity, s, actions[0]);
      TurnedAwayCount(capacity, Next(capacity, s, actions[0]).value, actions[1..]);
    }
  }

  /** A push is dropped exactly when it finds the queue full or the thread gone: while there is room
      nothing is. */
  lemma DroppedExactly(capacity: nat, actions: seq<Action>, s: State)
    requires Reached(capacity, actions, s)
    ensures s.dropped + s.refused == TurnedAway(capacity, Fresh(), actions)
  {
    TurnedAwayCount(capacity, Fresh(), actions);
  }

  /** What is logged is what the channel took, first in first out: always a prefix of it, and
      without a logging error the rest is still batched or queued, in order. */
  lemma LoggedIsFifo(capacity: nat, actions: seq<Action>, s: State)
    requires Reached(capacity, actions, s)
    ensures s.logged <= Accepted(capacity, Fresh(), actions)
    ensures !s.drain.Failed? ==> s.logged + s.batch + s.queue == Accepted(capacity, Fresh(), actions)
  {
    hide Run, Accepted, Placed, Balanced, OwnerSound;
    ReachedIsSound(capacity, actions, s);
    PlacedInOrder(s, Accepted(capacity, Fresh(), actions));
  }

  lemma PlacedInOrder(s: State, accepted: seq<Stamped>)
    requires Placed(s, accepted)
    ensures s.logged <= accepted && (s.lost == [] ==> s.logged + s.batch + s.queue == accepted)
  {
    assert s.logged + s.lost + s.batch + s.queue == s.logged + (s.lost + s.batch + s.queue);
    if s.lost == [] {
      assert s.logged + s.lost == s.logged;
    }
  }

  /** When `finish` returns without an error everything the channel took has been logged, and its
      counts are the final ones. */
  lemma FinishIsComplete(capacity: nat, actions: seq<Action>, s: State)
    requires Reached(capacity, actions, s) && s.owner.Returned? && s.owner.ok
    ensures s.logged == Accepted(capacity, Fresh(), actions)
    ensures s.owner.pushed == Offered(actions) == s.owner.dropped + |s.logged|
  {
    hide Run, Accepted;
    ReachedIsSound(capacity, actions, s);
    PushedIsOffered(capacity, Fresh(), actions);
    assert s.logged + [] + [] + [] == s.logged;
  }

  /** The logger never fails. */
  predicate FailsNowhere(actions: seq<Action>) {
    forall i | 0 <= i < |actions| ::
      var a := actions[i];
      (a.Start? || a.Close? ==> a.ok) && (a.LogBatch? ==> a.failsAfter.None?)
  }

  lemma {:induction false} NoFailure(capacity: nat, s: State, actions: seq<Action>)
    requires Run(capacity, s, actions).Some? && FailsNowhere(actions) && !s.drain.Failed?
    ensures !Run(capacity, s, actions).value.drain.Failed?
    decreases |actions|
  {
    if actions != [] {
      var a := actions[0];
      assert (a.Start? || a.Close? ==> a.ok) && (a.LogBatch? ==> a.failsAfter.None?);
      NoFailure(capacity, Next(capacity, s, a).value, actions[1..]);
    }
  }

  /** `finish` fails only if the logger did: otherwise everything the channel took is logged. */
  lemma FinishReportsOnlyFailures(capacity: nat, actions: seq<Action>, s: State)
    requires Reached(capacity, actions, s) && s.owner.Returned? && FailsNowhere(actions)
    ensures s.owner.ok && s.logged == Accepted(capacity, Fresh(), actions)
  {
    hide Run, Accepted;
    ReachedIsSound(capacity, actions, s);
    NoFailure(capacity, Fresh(), actions);
    FinishIsComplete(capacity, actions, s);
  }

  // ---------------------------------------------------------------------------------------
  // `finish` returns
  // ---------------------------------------------------------------------------------------

  /** Steps of the thread left once the sender is gone. */
  function StepsLeft(s: State): nat {
    match s.drain
    case Starting => |s.queue| + 5
    case Logging(ended) => if ended then 2 else |s.queue| + 5
    case Sleeping => |s.queue| + 4
    case Receiving => |s.queue| + 3
    case Closing => 1
    case _ => 0
  }

  function DrainSteps(actions: seq<Action>): nat {
    if actions == [] then 0 else (if IsDrainStep(actions[0]) then 1 else 0) + DrainSteps(actions[1..])
  }

  lemma DrainAdvances(capacity: nat, s: State, a: Action)
    requires !s.owner.SenderAlive() && Quiet(s) && Next(capacity, s, a).Some?
    ensures var n := Next(capacity, s, a).value;
            && !n.owner.SenderAlive() && Quiet(n)
            && StepsLeft(n) + (if IsDrainStep(a) then 1 else 0) <= StepsLeft(s)
  {
  }

  /** Once the sender is dropped the thread takes at most `StepsLeft` more steps, whatever else
      runs: the pass of the loop under way, and one more. */
  lemma {:induction false} DrainIsBounded(capacity: nat, s: State, actions: seq<Action>)
    requires !s.owner.SenderAlive() && Quiet(s) && Run(capacity, s, actions).Some?
    ensures DrainSteps(actions) + StepsLeft(Run(capacity, s, actions).value) <= StepsLeft(s)
    decreases |actions|
  {
    hide Next, Quiet, StepsLeft;
    if actions != [] {
      DrainAdvances(capacity, s, actions[0]);
      DrainIsBounded(capacity, Next(capacity, s, actions[0]).value, actions[1..]);
    }
  }

  /** A push never waits: whatever the thread is doing, one that is inside `send` has its next step. */
  lemma PushIsNeverStuck(capacity: nat, s: State)
    requires !Quiet(s)
    ensures exists a :: Next(capacity, s, a).Some? && (a.TrySend? || a.CountDropped?)
    ensures s.counted == multiset{} ==> Next(capacity, s, CountDropped).Some?
  {
    if s.counted != multiset{} {
      var r :| r in s.counted;
      assert Next(capacity, s, TrySend(r)).Some?;
    } else {
      assert Next(capacity, s, CountDropped).Some?;
    }
  }

  /** The thread always has a step until it is gone, and then `finish` can return. */
  lemma FinishIsNeverStuck(capacity: nat, s: State)
    requires s.owner.Joining?
    ensures exists a :: Next(capacity, s, a).Some? && (a == Join || IsDrainStep(a))
  {
    var a :=
      match s.drain
      case Starting => Start(true)
      case Sleeping => Wake
      case Receiving => TryRecv
      case Logging(_) => LogBatch(None)
      case Closing => Close(true)
      case _ => Join;
    assert Next(capacity, s, a).Some?;
  }
}

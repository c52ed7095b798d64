/** The follow protocol of crates/franka-py/src/targets.rs, for joint targets: a worker thread,
    any number of calling threads, two mutexes and a condition variable, as an interleaving
    transition system. Every lock, unlock, read and write of shared state is a step of its own;
    the scheduler picks the next action freely, wakes a parked worker whenever it likes, and
    decides whether a `set` on the handle succeeds. */
module FollowProtocol {
  import opened Wrappers

  type Joints = s: seq<real> | |s| == 7 witness [0.0, 0.0, 0.0, 0.0, 0.0, 0.0, 0.0]

  /** `move_to` and `move_by`. */
  datatype Motion = To(row: Joints) | By(delta: Joints)

  function Sum(a: Joints, b: Joints): Joints {
    seq(7, i requires 0 <= i < 7 => a[i] + b[i])
  }

  /** `Handle::absolute` and `Handle::relative` for joints. */
  function Aim(m: Motion, current: Joints): Joints {
    match m
    case To(row) => row
    case By(delta) => Sum(current, delta)
  }

  /** When row `i` of a chunk is due. */
  function DueAt(started: real, dt: real, i: nat): real {
    started + dt * i as real
  }

  /** The chunk being fed: `rows[next..]` are due, row `i` at `started + i * dt`. `chunk` numbers
      it for the history: the rows carry it with them from the call that stored them. */
  datatype Follow = Follow(rows: seq<Joints>, next: nat, dt: real, started: real, quit: bool, chunk: nat) {
    function Due(i: nat): real { DueAt(started, dt, i) }

    predicate Pending() { next < |rows| }
  }

  /** A row as the worker took it at the head of its loop, with where it came from. */
  datatype Pick = Pick(chunk: nat, row: nat, value: Joints)

  datatype Worker =
    | Locking
    | AtHead
    | Parked(deadline: Option<real>)
    | WantsControl(pick: Pick)
    | HasControl(pick: Pick)
    | HasRead(pick: Pick, current: Joints)
    | Finishing(published: bool)
    | Settling(published: bool)
    | Exited

  /** Where a call is. From the moment it decides what to answer, a call carries the answer, and
      `at`: how long the history was then. */
  datatype Caller =
    | Idle
    | MoveStart(m: Motion)
    | MoveHasFollow(m: Motion)
    | MoveCleared(m: Motion)
    | MoveHasControl(m: Motion)
    | MoveHasRead(m: Motion, current: Joints)
    | MoveSet(m: Motion, done: bool, at: nat)
    | MoveUnlocking(m: Motion, done: bool, at: nat)
    | ChunkStart(rows: seq<Joints>, dt: real)
    | ChunkHasFollow(rows: seq<Joints>, dt: real)
    | ChunkHasControl(rows: seq<Joints>, dt: real)
    | ChunkChecked(rows: seq<Joints>, dt: real, at: nat)
    | ChunkRefused(rows: seq<Joints>, dt: real, at: nat)
    | ChunkStored(rows: seq<Joints>, dt: real, at: nat, chunk: nat)
    | ChunkNotify(rows: seq<Joints>, dt: real, at: nat, chunk: nat)
    | StopStart
    | StopHasFollow
    | StopQuit
    | StopHasControl
    | StopTaken(took: bool, at: nat)
    | StopUnlocking(took: bool, at: nat)
    | StopNotify(took: bool, at: nat)
    | QueryStart
    | QueryHasControl
  {
    predicate HoldsFollow() {
      MoveHasFollow? || MoveCleared? || MoveHasControl? || MoveHasRead? || MoveSet? || MoveUnlocking? ||
      ChunkHasFollow? || ChunkHasControl? || ChunkChecked? || ChunkRefused? || ChunkStored? ||
      StopHasFollow? || StopQuit? || StopHasControl? || StopTaken? || StopUnlocking?
    }

    predicate HoldsControl() {
      MoveHasControl? || MoveHasRead? || MoveSet? || ChunkHasControl? || StopHasControl? || StopTaken?
          || QueryHasControl?
    }

    /** A move that has set the target and not returned yet. */
    predicate HasMoved() { (MoveSet? || MoveUnlocking?) && done }

    predicate IsMove() {
      MoveStart? || MoveHasFollow? || MoveCleared? || MoveHasControl? || MoveHasRead? || MoveSet? || MoveUnlocking?
    }

    predicate IsChunk() {
      ChunkStart? || ChunkHasFollow? || ChunkHasControl? || ChunkChecked? || ChunkRefused? || ChunkStored?
          || ChunkNotify?
    }

    predicate IsStop() {
      StopStart? || StopHasFollow? || StopQuit? || StopHasControl? || StopTaken? || StopUnlocking? || StopNotify?
    }

    /** Between storing what the worker must see and notifying it. */
    predicate WillNotify() {
      ChunkStored? || ChunkNotify? || StopQuit? || StopHasControl? || StopTaken? || StopUnlocking? || StopNotify?
    }
  }

  predicate WorkerHoldsFollow(w: Worker) {
    !(w.Locking? || w.Parked? || w.Exited?)
  }

  predicate WorkerHoldsControl(w: Worker) {
    w.HasControl? || w.HasRead? || w.Finishing?
  }

  /** A row has been taken from the chunk and not yet published. */
  predicate RowInHand(w: Worker) {
    w.WantsControl? || w.HasControl? || w.HasRead?
  }

  datatype Owner = TheWorker | TheCaller(t: nat)

  /** A chunk as `follow` stored it. */
  datatype Chunk = Chunk(rows: seq<Joints>, dt: real, started: real)

  /** What happened, in order: rows published and moves set, or refused by the handle; chunks
      numbered below `below` superseded; the handle taken. */
  datatype Entry =
    | Published(chunk: nat, row: nat, value: Joints, at: real)
    | RowRefused(chunk: nat, row: nat)
    | Moved(mover: nat, m: Motion)
    | MoveRefused(mover: nat)
    | Superseded(below: nat)
    | Taken

  /** A move by caller `mover`. */
  datatype Made = Made(mover: nat, m: Motion)

  /** What a call returned: whether a move set the target, the number of the chunk a `follow`
      stored, whether a `stop` took the handle, the target a query saw. */
  datatype Answer =
    | MoveAnswer(caller: nat, m: Motion, done: bool, at: nat)
    | FeedAnswer(caller: nat, rows: seq<Joints>, dt: real, stored: Option<nat>, at: nat)
    | StopAnswer(caller: nat, took: bool, at: nat)
    | QueryAnswer(caller: nat, seen: Option<Joints>, at: nat)

  /** `control` holds the handle's current target while the handle is there. `chunks`, `log` and
      `answers`, in the order the calls returned, are history: no step reads them but to number a
      chunk or to note how long the log is. */
  datatype State = State(
    now: real,
    control: Option<Joints>, controlOwner: Option<Owner>,
    follow: Follow, followOwner: Option<Owner>,
    worker: Worker, callers: seq<Caller>,
    chunks: seq<Chunk>, log: seq<Entry>, answers: seq<Answer>)

  datatype Call = Move(m: Motion) | Feed(rows: seq<Joints>, dt: real) | Stop | Query

  datatype Action =
    | Tick(seconds: real)
    | Rouse                         // the deadline, or a spurious wakeup
    | WorkerStep(setOk: bool)
    | Begin(t: nat, call: Call)
    | CallerStep(t: nat, setOk: bool)

  function Started(target: Joints, now: real, threads: nat): State {
    State(now, Some(target), None, Follow([], 0, 0.0, now, false, 0), None, Locking,
          seq(threads, _ => Idle), [], [], [])
  }

  // ---------------------------------------------------------------------------------------
  // The steps
  // ---------------------------------------------------------------------------------------

  function Logged(s: State, e: Entry): State {
    s.(log := s.log + [e])
  }

  function AtLoopHead(s: State): State {
    var f := s.follow;
    if f.quit then s.(worker := Exited, followOwner := None)
    else if !f.Pending() then s.(worker := Parked(None), followOwner := None)
    else if f.Due(f.next) > s.now then s.(worker := Parked(Some(f.Due(f.next))), followOwner := None)
    else s.(worker := WantsControl(Pick(f.chunk, f.next, f.rows[f.next])), follow := f.(next := f.next + 1))
  }

  function WorkerNext(s: State, setOk: bool): Option<State> {
    match s.worker
    case Locking =>
      if s.followOwner.None? then Some(s.(worker := AtHead, followOwner := Some(TheWorker))) else None
    case AtHead => Some(AtLoopHead(s))
    case WantsControl(pick) =>
      if s.controlOwner.None? then Some(s.(worker := HasControl(pick), controlOwner := Some(TheWorker))) else None
    case HasControl(pick) =>
      Some(s.(worker := if s.control.Some? then HasRead(pick, s.control.value) else Finishing(false)))
    case HasRead(pick, current) =>
      if setOk then
        Some(Logged(s, Published(pick.chunk, pick.row, pick.value, s.now))
               .(worker := Finishing(true), control := Some(Aim(To(pick.value), current))))
      else Some(Logged(s, RowRefused(pick.chunk, pick.row)).(worker := Finishing(false)))
    case Finishing(published) => Some(s.(worker := Settling(published), controlOwner := None))
    case Settling(published) =>
      Some(s.(worker := AtHead, follow := if published then s.follow else s.follow.(rows := [])))
    case Parked(_) => None
    case Exited => None
  }

  function Notified(s: State): State {
    if s.worker.Parked? then s.(worker := Locking) else s
  }

  function At(s: State, t: nat, c: Caller): State
    requires t < |s.callers|
  {
    s.(callers := s.callers[t := c])
  }

  function Returned(s: State, t: nat, answer: Answer): State
    requires t < |s.callers|
  {
    At(s, t, Idle).(answers := s.answers + [answer])
  }

  function LockFollow(s: State, t: nat, c: Caller): Option<State>
    requires t < |s.callers|
  {
    if s.followOwner.None? then Some(At(s, t, c).(followOwner := Some(TheCaller(t)))) else None
  }

  function LockControl(s: State, t: nat, c: Caller): Option<State>
    requires t < |s.callers|
  {
    if s.controlOwner.None? then Some(At(s, t, c).(controlOwner := Some(TheCaller(t)))) else None
  }

  function CallerNext(s: State, t: nat, setOk: bool): Option<State>
    requires t < |s.callers|
  {
    match s.callers[t]
    case Idle => None
    // update: cancel the chunk, then set f(current target)
    case MoveStart(m) => LockFollow(s, t, MoveHasFollow(m))
    case MoveHasFollow(m) =>
      Some(Logged(At(s, t, MoveCleared(m)), Superseded(|s.chunks|)).(follow := s.follow.(rows := [])))
    case MoveCleared(m) => LockControl(s, t, MoveHasControl(m))
    case MoveHasControl(m) =>
      Some(At(s, t, if s.control.Some? then MoveHasRead(m, s.control.value) else MoveSet(m, false, |s.log|)))
    case MoveHasRead(m, current) =>
      if setOk then
        Some(Logged(At(s, t, MoveSet(m, true, |s.log|)), Moved(t, m)).(control := Some(Aim(m, current))))
      else Some(Logged(At(s, t, MoveSet(m, false, |s.log|)), MoveRefused(t)))
    case MoveSet(m, done, at) => Some(At(s, t, MoveUnlocking(m, done, at)).(controlOwner := None))
    case MoveUnlocking(m, done, at) => Some(Returned(s, t, MoveAnswer(t, m, done, at)).(followOwner := None))
    // follow: replace the chunk unless the handle is gone
    case ChunkStart(rows, dt) => LockFollow(s, t, ChunkHasFollow(rows, dt))
    case ChunkHasFollow(rows, dt) => LockControl(s, t, ChunkHasControl(rows, dt))
    case ChunkHasControl(rows, dt) =>
      Some(At(s, t, if s.control.Some? then ChunkChecked(rows, dt, |s.log|) else ChunkRefused(rows, dt, |s.log|))
             .(controlOwner := None))
    case ChunkRefused(rows, dt, at) => Some(Returned(s, t, FeedAnswer(t, rows, dt, None, at)).(followOwner := None))
    case ChunkChecked(rows, dt, at) =>
      Some(Logged(At(s, t, ChunkStored(rows, dt, at, |s.chunks|)), Superseded(|s.chunks|))
             .(follow := s.follow.(rows := rows, next := 0, dt := dt, started := s.now, chunk := |s.chunks|),
               chunks := s.chunks + [Chunk(rows, dt, s.now)]))
    case ChunkStored(rows, dt, at, chunk) => Some(At(s, t, ChunkNotify(rows, dt, at, chunk)).(followOwner := None))
    case ChunkNotify(rows, dt, at, chunk) => Some(Notified(Returned(s, t, FeedAnswer(t, rows, dt, Some(chunk), at))))
    // take: cancel the chunk, end the worker, take the handle
    case StopStart => LockFollow(s, t, StopHasFollow)
    case StopHasFollow =>
      Some(Logged(At(s, t, StopQuit), Superseded(|s.chunks|)).(follow := s.follow.(rows := [], quit := true)))
    case StopQuit => LockControl(s, t, StopHasControl)
    case StopHasControl =>
      Some((if s.control.Some? then Logged(s, Taken) else s)
             .(callers := s.callers[t := StopTaken(s.control.Some?, |s.log|)], control := None))
    case StopTaken(took, at) => Some(At(s, t, StopUnlocking(took, at)).(controlOwner := None))
    case StopUnlocking(took, at) => Some(At(s, t, StopNotify(took, at)).(followOwner := None))
    case StopNotify(took, at) => Some(Notified(Returned(s, t, StopAnswer(t, took, at))))
    // target, state, running: the control lock alone
    case QueryStart => LockControl(s, t, QueryHasControl)
    case QueryHasControl => Some(Returned(s, t, QueryAnswer(t, s.control, |s.log|)).(controlOwner := None))
  }

  function Entering(call: Call): Caller {
    match call
    case Move(m) => MoveStart(m)
    case Feed(rows, dt) => ChunkStart(rows, dt)
    case Stop => StopStart
    case Query => QueryStart
  }

  function Next(s: State, a: Action): Option<State> {
    match a
    case Tick(seconds) => if 0.0 < seconds then Some(s.(now := s.now + seconds)) else None
    case Rouse => if s.worker.Parked? then Some(s.(worker := Locking)) else None
    case WorkerStep(setOk) => WorkerNext(s, setOk)
    case Begin(t, call) =>
      if t < |s.callers| && s.callers[t].Idle? && (call.Feed? ==> 0.0 < call.dt)
      then Some(At(s, t, Entering(call))) else None
    case CallerStep(t, setOk) => if t < |s.callers| then CallerNext(s, t, setOk) else None
  }

  /** Some interleaving of actions leads from the start to `s`. */
  function Run(s: State, actions: seq<Action>): Option<State>
    decreases |actions|
  {
    if actions == [] then Some(s)
    else
      match Next(s, actions[0])
      case None => None
      case Some(n) => Run(n, actions[1..])
  }
}

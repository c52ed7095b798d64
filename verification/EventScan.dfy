/** The event scan of crates/franka-rerun/src/commander.rs over a `--log` CSV. Seconds are reals,
    and the distance to the target is compared in squared form. */
module EventScan {
  import opened Geometry

  const STALL_SECONDS := 1.5
  const BURST_COUNT: nat := 5
  const BURST_WINDOW_SECONDS := 0.1
  const SETTLE_TOLERANCE := 0.001

  datatype CommanderLog = CommanderLog(t: seq<real>, target: seq<Vec>, commanded: seq<Vec>) {
    /** What parsing guarantees: whole rows, and at least one. */
    predicate Valid() {
      |t| == |target| == |commanded| && 0 < |t|
    }
  }

  datatype Event =
    | Stall(at: real, gap: real)
    | Step(at: real, target: Vec)
    | Burst(at: real, count: nat)
    | Aborted(at: real, offSq: real)

  // ---------------------------------------------------------------------------------------
  // What the scan is meant to say
  // ---------------------------------------------------------------------------------------

  predicate Changed(log: CommanderLog, row: nat)
    requires log.Valid() && row < |log.t|
  {
    0 < row && log.target[row] != log.target[row - 1]
  }

  /** The rows below `n` at which the target changed. */
  function ChangesBelow(log: CommanderLog, n: nat): (rows: seq<nat>)
    requires log.Valid() && n <= |log.t|
    ensures forall i | 0 <= i < |rows| :: 0 < rows[i] < n
  {
    if n == 0 then []
    else if Changed(log, n - 1) then ChangesBelow(log, n - 1) + [n - 1]
    else ChangesBelow(log, n - 1)
  }

  function TargetChanges(log: CommanderLog): (rows: seq<nat>)
    requires log.Valid()
    ensures forall i | 0 <= i < |rows| :: 0 < rows[i] < |log.t|
  {
    ChangesBelow(log, |log.t|)
  }

  /** The changed rows, each once, in order. */
  lemma {:induction false} ChangesAreExact(log: CommanderLog, n: nat)
    requires log.Valid() && n <= |log.t|
    ensures var rows := ChangesBelow(log, n);
            && (forall r | 0 <= r < n :: r in rows <==> 0 < r && log.target[r] != log.target[r - 1])
            && forall i, j | 0 <= i < j < |rows| :: rows[i] < rows[j]
  {
    if n != 0 {
      ChangesAreExact(log, n - 1);
    }
  }

  /** The times of the target changes. */
  function ChangeTimes(log: CommanderLog): (times: seq<real>)
    requires log.Valid()
    ensures |times| == |TargetChanges(log)|
  {
    var rows := TargetChanges(log);
    seq(|rows|, i requires 0 <= i < |rows| => log.t[rows[i]])
  }

  predicate Outside(times: seq<real>, j: nat, k: nat)
    requires j < |times| && k < |times|
  {
    BURST_WINDOW_SECONDS < times[k] - times[j]
  }

  /** The first change from `from` on that is inside the window ending at `k`. */
  function FirstInside(times: seq<real>, from: nat, k: nat): (j: nat)
    requires from <= k < |times|
    ensures from <= j <= k && !Outside(times, j, k) && forall i | from <= i < j :: Outside(times, i, k)
    decreases k - from
  {
    if Outside(times, from, k) then FirstInside(times, from + 1, k) else from
  }

  /** Where the sliding window starts at `k`: it only moves forwards. */
  function WindowStart(times: seq<real>, k: nat): (j: nat)
    requires k < |times|
    ensures j <= k
  {
    FirstInside(times, if k == 0 then 0 else WindowStart(times, k - 1), k)
  }

  function InWindow(times: seq<real>, k: nat): nat
    requires k < |times|
  {
    k - WindowStart(times, k) + 1
  }

  predicate Bursting(times: seq<real>, k: nat)
    requires k < |times|
  {
    BURST_COUNT <= InWindow(times, k)
  }

  function StallAt(last: real, t: real): seq<Event> {
    if STALL_SECONDS < t - last then [Stall(last + STALL_SECONDS, t - last)] else []
  }

  /** The change before `k`, or the start of the log. */
  function LastChange(log: CommanderLog, k: nat): real
    requires log.Valid() && k <= |TargetChanges(log)|
  {
    if k == 0 then log.t[0] else ChangeTimes(log)[k - 1]
  }

  predicate BurstStarts(times: seq<real>, k: nat)
    requires k < |times|
  {
    Bursting(times, k) && (k == 0 || !Bursting(times, k - 1))
  }

  function EventsAt(log: CommanderLog, k: nat): seq<Event>
    requires log.Valid() && k < |TargetChanges(log)|
  {
    var times := ChangeTimes(log);
    StallAt(LastChange(log, k), times[k]) + [Step(times[k], log.target[TargetChanges(log)[k]])]
      + if BurstStarts(times, k) then [Burst(times[k], InWindow(times, k))] else []
  }

  function EventsBelow(log: CommanderLog, k: nat): seq<Event>
    requires log.Valid() && k <= |TargetChanges(log)|
  {
    if k == 0 then [] else EventsBelow(log, k - 1) + EventsAt(log, k - 1)
  }

  /** How far the log ends from its target, squared. */
  function EndsOffSq(log: CommanderLog): real
    requires log.Valid()
  {
    var last := |log.t| - 1;
    NormSq(Minus(log.commanded[last], log.target[last]))
  }

  predicate Unsettled(log: CommanderLog)
    requires log.Valid()
  {
    SETTLE_TOLERANCE * SETTLE_TOLERANCE < EndsOffSq(log)
  }

  function AllEvents(log: CommanderLog): seq<Event>
    requires log.Valid()
  {
    var changed := EventsBelow(log, |TargetChanges(log)|);
    if Unsettled(log) then changed + [Aborted(log.t[|log.t| - 1], EndsOffSq(log))] else changed
  }

  // ---------------------------------------------------------------------------------------
  // The loop
  // ---------------------------------------------------------------------------------------

  method LogEvents(log: CommanderLog) returns (events: seq<Event>, count: nat)
    requires log.Valid()
    ensures events == AllEvents(log) && count == |TargetChanges(log)|
  {
    hide TargetChanges, Unsettled, Outside;
    var changes := TargetChanges(log);
    ghost var times := ChangeTimes(log);
    var lastChange := log.t[0];
    var windowStart := 0;
    var inBurst := false;
    events := [];
    for k := 0 to |changes|
      invariant events == EventsBelow(log, k)
      invariant lastChange == LastChange(log, k)
      invariant windowStart == if k == 0 then 0 else WindowStart(times, k - 1)
      invariant inBurst == (0 < k && Bursting(times, k - 1))
    {
      hide EventsAt, Bursting, WindowStart;
      var more;
      more, windowStart, inBurst := ScanChange(log, k, lastChange, windowStart, inBurst);
      events := events + more;
      lastChange := log.t[changes[k]];
      assert lastChange == times[k];
    }
    var last := |log.t| - 1;
    if Unsettled(log) {
      events := events + [Aborted(log.t[last], EndsOffSq(log))];
    }
    count := |changes|;
  }

  /** One pass of the loop. */
  method ScanChange(log: CommanderLog, k: nat, lastChange: real, from: nat, wasBurst: bool)
    returns (events: seq<Event>, windowStart: nat, inBurst: bool)
    requires log.Valid() && k < |TargetChanges(log)| && lastChange == LastChange(log, k)
    requires from == if k == 0 then 0 else WindowStart(ChangeTimes(log), k - 1)
    requires wasBurst == (0 < k && Bursting(ChangeTimes(log), k - 1))
    ensures events == EventsAt(log, k)
    ensures windowStart == WindowStart(ChangeTimes(log), k) && inBurst == Bursting(ChangeTimes(log), k)
  {
    hide TargetChanges, FirstInside, Outside, LastChange;
    var changes := TargetChanges(log);
    var t := log.t[changes[k]];
    assert t == ChangeTimes(log)[k];
    var gap := t - lastChange;
    events := [];
    if gap > STALL_SECONDS {
      events := events + [Stall(lastChange + STALL_SECONDS, gap)];
    }
    events := events + [Step(t, log.target[changes[k]])];
    windowStart := SlideWindow(log, k, from);
    var inWindow := k - windowStart + 1;
    if inWindow >= BURST_COUNT && !wasBurst {
      events := events + [Burst(t, inWindow)];
    }
    inBurst := inWindow >= BURST_COUNT;
  }

  /** The inner loop. */
  method SlideWindow(log: CommanderLog, k: nat, from: nat) returns (windowStart: nat)
    requires log.Valid() && from <= k < |TargetChanges(log)|
    ensures windowStart == FirstInside(ChangeTimes(log), from, k)
  {
    hide TargetChanges;
    var changes := TargetChanges(log);
    ghost var times := ChangeTimes(log);
    var t := log.t[changes[k]];
    windowStart := from;
    while t - log.t[changes[windowStart]] > BURST_WINDOW_SECONDS
      invariant from <= windowStart <= k && FirstInside(times, windowStart, k) == FirstInside(times, from, k)
      decreases k - windowStart
    {
      assert t == times[k] && log.t[changes[windowStart]] == times[windowStart];
      windowStart := windowStart + 1;
    }
  }

  // ---------------------------------------------------------------------------------------
  // What it says of a log whose times do not go backwards
  // ---------------------------------------------------------------------------------------

  predicate Ordered(times: seq<real>) {
    forall i, j | 0 <= i <= j < |times| :: times[i] <= times[j]
  }

  lemma ChangesAreOrdered(log: CommanderLog)
    requires log.Valid() && Ordered(log.t)
    ensures Ordered(ChangeTimes(log))
  {
    hide TargetChanges;
    RowsAscend(log);
  }

  lemma RowsAscend(log: CommanderLog)
    requires log.Valid()
    ensures forall i, j | 0 <= i < j < |TargetChanges(log)| :: TargetChanges(log)[i] < TargetChanges(log)[j]
  {
    ChangesAreExact(log, |log.t|);
  }

  /** The window holds exactly the changes no older than its length. */
  lemma {:induction false} WindowIsExact(times: seq<real>, k: nat)
    requires Ordered(times) && k < |times|
    ensures forall j | 0 <= j <= k :: WindowStart(times, k) <= j <==> !Outside(times, j, k)
  {
    if k > 0 {
      WindowIsExact(times, k - 1);
      forall j | 0 <= j < WindowStart(times, k - 1) ensures Outside(times, j, k) {
        assert Outside(times, j, k - 1);
      }
    }
    var start := WindowStart(times, k);
    forall j | start <= j <= k ensures !Outside(times, j, k) {
      assert !Outside(times, start, k);
    }
  }

  /** The changes at or before `k` that are inside its window. */
  ghost function Recent(times: seq<real>, k: nat): set<nat>
    requires k < |times|
  {
    set j: nat | j <= k && !Outside(times, j, k)
  }

  ghost function Interval(from: nat, end: nat): (s: set<nat>)
    requires from <= end
    ensures (forall j: nat :: j in s <==> from <= j < end) && |s| == end - from
    decreases end
  {
    if from == end then {} else Interval(from, end - 1) + {end - 1}
  }

  /** The sliding count is the number of changes within the window. */
  lemma WindowCounts(times: seq<real>, k: nat)
    requires Ordered(times) && k < |times|
    ensures InWindow(times, k) == |Recent(times, k)|
  {
    hide WindowStart, Outside;
    WindowIsExact(times, k);
    var start := WindowStart(times, k);
    assert Recent(times, k) == Interval(start, k + 1);
  }

  /** Five changes, the last of them `k`, within a tenth of a second. */
  predicate Crowded(times: seq<real>, k: nat)
    requires k < |times|
  {
    4 <= k && times[k] - times[k - 4] <= BURST_WINDOW_SECONDS
  }

  lemma BurstingMeansCrowded(times: seq<real>, k: nat)
    requires Ordered(times) && k < |times|
    ensures Bursting(times, k) <==> Crowded(times, k)
  {
    hide WindowStart;
    WindowIsExact(times, k);
    if 4 <= k {
      assert Outside(times, k - 4, k) <==> !Crowded(times, k);
    }
  }

  /** A burst is reported exactly at the change that completes five within the window, when the
      change before it did not. */
  lemma BurstsAreRisingEdges(log: CommanderLog, k: nat)
    requires log.Valid() && Ordered(log.t) && k < |TargetChanges(log)|
    ensures var times := ChangeTimes(log);
            (exists e :: e in EventsAt(log, k) && e.Burst?) <==> Crowded(times, k) && (k == 0 || !Crowded(times, k - 1))
    ensures forall e | e in EventsAt(log, k) && e.Burst? ::
              e.count == |Recent(ChangeTimes(log), k)| && e.at == ChangeTimes(log)[k]
  {
    hide TargetChanges, Bursting, InWindow, Crowded;
    var times := ChangeTimes(log);
    ChangesAreOrdered(log);
    BurstingMeansCrowded(times, k);
    WindowCounts(times, k);
    if k > 0 {
      BurstingMeansCrowded(times, k - 1);
    }
    if BurstStarts(times, k) {
      assert Burst(times[k], InWindow(times, k)) in EventsAt(log, k);
    }
  }

  /** A stall is reported exactly for a gap over the threshold since the last change, or since
      the log began. */
  lemma StallsAreLongGaps(log: CommanderLog, k: nat)
    requires log.Valid() && k < |TargetChanges(log)|
    ensures var gap := ChangeTimes(log)[k] - LastChange(log, k);
            && ((exists e :: e in EventsAt(log, k) && e.Stall?) <==> STALL_SECONDS < gap)
            && forall e | e in EventsAt(log, k) && e.Stall? ::
                e.gap == gap && e.at == LastChange(log, k) + STALL_SECONDS
  {
    hide TargetChanges, BurstStarts, InWindow, LastChange;
    var last, t := LastChange(log, k), ChangeTimes(log)[k];
    if STALL_SECONDS < t - last {
      assert Stall(last + STALL_SECONDS, t - last) in EventsAt(log, k);
    }
  }

  predicate InOrder(events: seq<Event>) {
    forall i, j | 0 <= i < j < |events| :: events[i].at <= events[j].at
  }

  ghost predicate NoLaterThan(events: seq<Event>, t: real) {
    forall e | e in events :: e.at <= t
  }

  lemma OrderedConcat(a: seq<Event>, b: seq<Event>, t: real)
    requires InOrder(a) && InOrder(b) && NoLaterThan(a, t) && forall e | e in b :: t <= e.at
    ensures InOrder(a + b)
  {
    var all := a + b;
    forall i, j | 0 <= i < j < |all| ensures all[i].at <= all[j].at {
      assert i < |a| <= j ==> a[i] in a && b[j - |a|] in b;
    }
  }

  lemma EventsAtOrder(log: CommanderLog, k: nat)
    requires log.Valid() && k < |TargetChanges(log)| && LastChange(log, k) <= ChangeTimes(log)[k]
    ensures InOrder(EventsAt(log, k)) && NoLaterThan(EventsAt(log, k), ChangeTimes(log)[k])
    ensures forall e | e in EventsAt(log, k) :: LastChange(log, k) <= e.at
  {
    hide TargetChanges, BurstStarts, InWindow, LastChange;
  }

  lemma LastChangeIsEarlier(log: CommanderLog, k: nat)
    requires log.Valid() && Ordered(log.t) && k < |TargetChanges(log)|
    ensures LastChange(log, k) <= ChangeTimes(log)[k]
  {
    hide TargetChanges;
    ChangesAreOrdered(log);
  }

  lemma {:induction false} EventsBelowOrder(log: CommanderLog, k: nat)
    requires log.Valid() && Ordered(log.t) && k <= |TargetChanges(log)|
    ensures InOrder(EventsBelow(log, k)) && NoLaterThan(EventsBelow(log, k), LastChange(log, k))
  {
    hide TargetChanges, ChangeTimes, EventsAt;
    if k > 0 {
      EventsBelowOrder(log, k - 1);
      LastChangeIsEarlier(log, k - 1);
      EventsAtOrder(log, k - 1);
      OrderedConcat(EventsBelow(log, k - 1), EventsAt(log, k - 1), LastChange(log, k - 1));
    }
  }

  /** The events go out in time order, although a stall is stamped before the change that reveals
      it. */
  lemma EventsAreInOrder(log: CommanderLog)
    requires log.Valid() && Ordered(log.t)
    ensures InOrder(AllEvents(log))
  {
    hide TargetChanges, EventsBelow, ChangeTimes;
    var n := |TargetChanges(log)|;
    EventsBelowOrder(log, n);
    if Unsettled(log) {
      var end := log.t[|log.t| - 1];
      EndIsLast(log, n);
      OrderedConcat(EventsBelow(log, n), [Aborted(end, EndsOffSq(log))], LastChange(log, n));
    }
  }

  lemma EndIsLast(log: CommanderLog, k: nat)
    requires log.Valid() && Ordered(log.t) && k <= |TargetChanges(log)|
    ensures LastChange(log, k) <= log.t[|log.t| - 1]
  {
    hide TargetChanges;
  }

  // ---------------------------------------------------------------------------------------
  // What is logged, in numbers
  // ---------------------------------------------------------------------------------------

  predicate RowsOf(log: CommanderLog, rows: seq<nat>) {
    forall i | 0 <= i < |rows| :: rows[i] < |log.t|
  }

  /** The changes at or before the `k`-th that are no more than 100 ms older. */
  ghost function Last100ms(log: CommanderLog, rows: seq<nat>, k: nat): set<nat>
    requires k < |rows| && RowsOf(log, rows)
  {
    set j: nat | j <= k && log.t[rows[k]] - log.t[rows[j]] <= 0.1
  }

  /** The event is about the `k`-th change: the step itself; the wait before it, if longer than a
      second and a half; the burst it completes, if five are within 100 ms of it and were not of the
      change before. */
  ghost predicate IsAbout(log: CommanderLog, rows: seq<nat>, k: nat, e: Event)
    requires log.Valid() && k < |rows| && RowsOf(log, rows)
  {
    var at := log.t[rows[k]];
    var before := if k == 0 then log.t[0] else log.t[rows[k - 1]];
    match e
    case Step(t, target) => t == at && target == log.target[rows[k]]
    case Stall(t, gap) => t == before + 1.5 && gap == at - before > 1.5
    case Burst(t, count) =>
      t == at && count == |Last100ms(log, rows, k)| >= 5 && (k == 0 || |Last100ms(log, rows, k - 1)| < 5)
    case Aborted(_, _) => false
  }

  /** The log ends more than a millisecond from its target. */
  ghost predicate EndsAway(log: CommanderLog, e: Event)
    requires log.Valid()
  {
    var last := |log.t| - 1;
    var dx := log.commanded[last].x - log.target[last].x;
    var dy := log.commanded[last].y - log.target[last].y;
    var dz := log.commanded[last].z - log.target[last].z;
    e == Aborted(log.t[last], dx * dx + dy * dy + dz * dz) && 0.000001 < dx * dx + dy * dy + dz * dz
  }

  lemma EventsAtAre(log: CommanderLog, k: nat, e: Event)
    requires log.Valid() && Ordered(log.t) && k < |TargetChanges(log)|
    ensures e in EventsAt(log, k) <==> IsAbout(log, TargetChanges(log), k, e)
  {
    hide TargetChanges, InWindow;
    var rows, times := TargetChanges(log), ChangeTimes(log);
    ChangesAreOrdered(log);
    WindowIsLast100ms(log, k);
    if k > 0 {
      WindowIsLast100ms(log, k - 1);
    }
  }

  lemma WindowIsLast100ms(log: CommanderLog, k: nat)
    requires log.Valid() && Ordered(log.t) && k < |TargetChanges(log)|
    ensures InWindow(ChangeTimes(log), k) == |Last100ms(log, TargetChanges(log), k)|
  {
    hide TargetChanges, InWindow;
    ChangesAreOrdered(log);
    WindowCounts(ChangeTimes(log), k);
    assert Recent(ChangeTimes(log), k) == Last100ms(log, TargetChanges(log), k);
  }

  lemma {:induction false} EventsBelowAre(log: CommanderLog, n: nat, e: Event)
    requires log.Valid() && Ordered(log.t) && n <= |TargetChanges(log)|
    ensures e in EventsBelow(log, n) <==> exists k: nat | k < n :: IsAbout(log, TargetChanges(log), k, e)
  {
    hide TargetChanges, EventsAt, IsAbout;
    if n > 0 {
      EventsBelowAre(log, n - 1, e);
      EventsAtAre(log, n - 1, e);
    }
  }

  /** An event is logged exactly when it is about some change of the target, or says that the log ends
      away from it. */
  lemma WhatIsLogged(log: CommanderLog, e: Event)
    requires log.Valid() && Ordered(log.t)
    ensures e in AllEvents(log) <==>
            (exists k: nat | k < |TargetChanges(log)| :: IsAbout(log, TargetChanges(log), k, e)) || EndsAway(log, e)
  {
    EndsAwayExactly(log, e);
    hide TargetChanges, EventsBelow, IsAbout, EndsAway, Unsettled, EndsOffSq;
    EventsBelowAre(log, |TargetChanges(log)|, e);
  }

  lemma EndsAwayExactly(log: CommanderLog, e: Event)
    requires log.Valid()
    ensures EndsAway(log, e) <==> Unsettled(log) && e == Aborted(log.t[|log.t| - 1], EndsOffSq(log))
  {
  }

  predicate LongWait(log: CommanderLog, rows: seq<nat>, k: nat)
    requires log.Valid() && k < |rows| && RowsOf(log, rows)
  {
    1.5 < log.t[rows[k]] - if k == 0 then log.t[0] else log.t[rows[k - 1]]
  }

  ghost predicate FirstOfBurst(log: CommanderLog, rows: seq<nat>, k: nat)
    requires k < |rows| && RowsOf(log, rows)
  {
    5 <= |Last100ms(log, rows, k)| && (k == 0 || |Last100ms(log, rows, k - 1)| < 5)
  }

  ghost function LongWaits(log: CommanderLog, rows: seq<nat>, n: nat): set<nat>
    requires log.Valid() && n <= |rows| && RowsOf(log, rows)
  {
    set k: nat | k < n && LongWait(log, rows, k)
  }

  ghost function FirstsOfBursts(log: CommanderLog, rows: seq<nat>, n: nat): set<nat>
    requires n <= |rows| && RowsOf(log, rows)
  {
    set k: nat | k < n && FirstOfBurst(log, rows, k)
  }

  lemma EventsAtCount(log: CommanderLog, k: nat)
    requires log.Valid() && Ordered(log.t) && k < |TargetChanges(log)|
    ensures var rows := TargetChanges(log);
            |EventsAt(log, k)| ==
            1 + (if LongWait(log, rows, k) then 1 else 0) + (if FirstOfBurst(log, rows, k) then 1 else 0)
  {
    hide TargetChanges, InWindow, Last100ms;
    WindowIsLast100ms(log, k);
    if k > 0 {
      WindowIsLast100ms(log, k - 1);
    }
  }

  lemma {:induction false} EventsBelowCount(log: CommanderLog, n: nat)
    requires log.Valid() && Ordered(log.t) && n <= |TargetChanges(log)|
    ensures var rows := TargetChanges(log);
            |EventsBelow(log, n)| == n + |LongWaits(log, rows, n)| + |FirstsOfBursts(log, rows, n)|
  {
    hide TargetChanges, EventsAt, LongWait, FirstOfBurst;
    if n > 0 {
      var rows := TargetChanges(log);
      EventsBelowCount(log, n - 1);
      EventsAtCount(log, n - 1);
      var waits, bursts := LongWaits(log, rows, n - 1), FirstsOfBursts(log, rows, n - 1);
      assert LongWaits(log, rows, n) == if LongWait(log, rows, n - 1) then waits + {n - 1} else waits;
      assert FirstsOfBursts(log, rows, n) == if FirstOfBurst(log, rows, n - 1) then bursts + {n - 1} else bursts;
    }
  }

  /** And each once: a step a change, a stall a long wait, a burst a first, an abort at most. */
  lemma EachIsLoggedOnce(log: CommanderLog)
    requires log.Valid() && Ordered(log.t)
    ensures var rows := TargetChanges(log);
            |AllEvents(log)| == |rows| + |LongWaits(log, rows, |rows|)| + |FirstsOfBursts(log, rows, |rows|)|
                                + (if exists e :: EndsAway(log, e) then 1 else 0)
  {
    hide TargetChanges, EventsBelow, EndsAway, Unsettled, EndsOffSq;
    EventsBelowCount(log, |TargetChanges(log)|);
    forall e ensures EndsAway(log, e) <==> Unsettled(log) && e == Aborted(log.t[|log.t| - 1], EndsOffSq(log)) {
      EndsAwayExactly(log, e);
    }
    if Unsettled(log) {
      assert EndsAway(log, Aborted(log.t[|log.t| - 1], EndsOffSq(log)));
    }
    hide LongWaits, FirstsOfBursts;
  }
}

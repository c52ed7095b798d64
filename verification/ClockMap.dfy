/** The camera recorder's map from the host clock to the robot's, crates/franka-cam/src/record.rs.
    Times are `u64` nanoseconds there; offsets are `i128` and cannot overflow. */
module ClockMap {
  import opened Wrappers

  const U64_MAX: nat := 0xffff_ffff_ffff_ffff

  type U64 = n: nat | n <= U64_MAX

  const BEHIND_TOLERANCE_NS := 1_000_000_000
  const AHEAD_TOLERANCE_NS := 50_000_000
  const OFFSET_AGREEMENT_NS := 10_000_000
  const MAX_EXTRAPOLATION_NS := 5_000_000_000
  const PHASE_ACTIVE: nat := 2
  const PHASE_HOMING: nat := 5

  function SaturatingAdd(x: U64, y: U64): U64 {
    if x + y <= U64_MAX then x + y else U64_MAX
  }

  function SaturatingSub(x: U64, y: U64): U64 {
    if y <= x then x - y else 0
  }

  function AbsDiff(x: U64, y: U64): U64 {
    if x <= y then y - x else x - y
  }

  datatype Sample = Sample(tNode: U64, robotMs: U64)

  datatype StateHead = StateHead(phase: nat, sample: Sample)

  function SessionRunning(head: StateHead): bool {
    head.phase == PHASE_ACTIVE || head.phase == PHASE_HOMING
  }

  function SameHost(tNode: U64, now: U64): bool {
    tNode <= SaturatingAdd(now, AHEAD_TOLERANCE_NS) && SaturatingSub(now, tNode) <= BEHIND_TOLERANCE_NS
  }

  /** A stamp is taken for this host's exactly when it is at most a second behind the local clock
      and at most 50 ms ahead of it: saturation, at either end of the range, changes nothing. */
  lemma SameHostExactly(tNode: U64, now: U64)
    ensures SameHost(tNode, now) <==> now - 1_000_000_000 <= tNode <= now + 50_000_000
  {
  }

  function Offset(s: Sample): int {
    s.robotMs * 1_000_000 - s.tNode
  }

  predicate Agree(s: Sample, t: Sample) {
    -OFFSET_AGREEMENT_NS <= Offset(s) - Offset(t) <= OFFSET_AGREEMENT_NS
  }

  // ---------------------------------------------------------------------------------------
  // The clock
  // ---------------------------------------------------------------------------------------

  datatype State = State(
    pair: Option<Sample>, candidate: Option<Sample>, lastState: Option<U64>, lastRunning: Option<U64>, foreignSeen: nat)

  const START := State(None, None, None, None, 0)

  datatype Event = Event(head: StateHead, now: U64)

  predicate Native(e: Event) {
    SameHost(e.head.sample.tNode, e.now)
  }

  predicate Running(e: Event) {
    Native(e) && SessionRunning(e.head)
  }

  predicate Idle(e: Event) {
    Native(e) && !SessionRunning(e.head)
  }

  /** A repeat, or a sample that a newer one overtook. */
  predicate Stale(s: State, e: Event) {
    s.candidate.Some? && e.head.sample.tNode <= s.candidate.value.tNode
  }

  predicate Agrees(s: State, e: Event) {
    Running(e) && !Stale(s, e) && s.candidate.Some? && Agree(e.head.sample, s.candidate.value)
  }

  function Observed(s: State, e: Event): State {
    if !Native(e) then s.(foreignSeen := s.foreignSeen + 1)
    else if Idle(e) then s.(lastState := Some(e.now), candidate := None)
    else if Stale(s, e) then s.(lastState := Some(e.now), lastRunning := Some(e.now))
    else
      State(if Agrees(s, e) then Some(e.head.sample) else if s.candidate.Some? then None else s.pair,
            Some(e.head.sample), Some(e.now), Some(e.now), s.foreignSeen)
  }

  function RobotTime(s: State, t: U64): Option<real> {
    if s.pair.None? || MAX_EXTRAPOLATION_NS < AbsDiff(t, s.pair.value.tNode) then None
    else Some(s.pair.value.robotMs as real / 1000.0 + (t as real - s.pair.value.tNode as real) / 1_000_000_000.0)
  }

  class Clock {
    var pair: Option<Sample>
    var candidate: Option<Sample>
    var lastStateNs: Option<U64>
    var lastRunningNs: Option<U64>
    var foreignSeen: nat

    ghost function Snapshot(): State
      reads this
    {
      State(pair, candidate, lastStateNs, lastRunningNs, foreignSeen)
    }

    constructor ()
      ensures Snapshot() == START
    {
      pair, candidate, lastStateNs, lastRunningNs, foreignSeen := None, None, None, None, 0;
    }

    method Observe(head: StateHead, now: U64) returns (agrees: bool)
      modifies this
      ensures Snapshot() == Observed(old(Snapshot()), Event(head, now))
      ensures agrees == Agrees(old(Snapshot()), Event(head, now))
    {
      if !SameHost(head.sample.tNode, now) {
        foreignSeen := foreignSeen + 1;
        return false;
      }
      lastStateNs := Some(now);
      if !SessionRunning(head) {
        candidate := None;
        return false;
      }
      lastRunningNs := Some(now);
      if candidate.Some? && head.sample.tNode <= candidate.value.tNode {
        return false;
      }
      var offset := Offset(head.sample);
      var held := candidate;
      agrees := held.Some? &&
                (if offset < Offset(held.value) then Offset(held.value) - offset else offset - Offset(held.value))
                <= OFFSET_AGREEMENT_NS;
      candidate := Some(head.sample);
      if agrees {
        pair := candidate;
      } else if held.Some? {
        pair := None;
      }
    }

    method RobotTimeS(t: U64) returns (seconds: Option<real>)
      ensures seconds == RobotTime(Snapshot(), t)
    {
      if pair.None? {
        return None;
      }
      if AbsDiff(t, pair.value.tNode) > MAX_EXTRAPOLATION_NS {
        return None;
      }
      var offset := t as real - pair.value.tNode as real;
      seconds := Some(pair.value.robotMs as real / 1000.0 + offset / 1_000_000_000.0);
    }
  }

  // ---------------------------------------------------------------------------------------
  // Traces
  // ---------------------------------------------------------------------------------------

  function After(events: seq<Event>): State {
    if events == [] then START else Observed(After(events[..|events| - 1]), events[|events| - 1])
  }

  ghost predicate NoIdleBetween(events: seq<Event>, i: nat, j: nat)
    requires j <= |events|
  {
    forall k | i < k < j :: !Idle(events[k])
  }

  function TNode(events: seq<Event>, i: nat): nat
    requires i < |events|
  {
    events[i].head.sample.tNode
  }

  /** An in-session sample newer than every earlier one of its session. */
  ghost predicate Retained(events: seq<Event>, j: nat)
    requires j < |events|
  {
    && Running(events[j])
    && forall i | 0 <= i < j && Running(events[i]) && NoIdleBetween(events, i, j) :: TNode(events, i) < TNode(events, j)
  }

  /** Two retained samples of one session with no retained one between. */
  ghost predicate Successive(events: seq<Event>, i: nat, j: nat)
    requires i < j < |events|
  {
    && Retained(events, i) && Retained(events, j) && NoIdleBetween(events, i, j)
    && forall k | i < k < j :: !Retained(events, k)
  }

  /** What the candidate is: the newest sample of a session that has not ended. */
  ghost predicate NewestIs(events: seq<Event>, c: nat)
    requires c < |events|
  {
    && Retained(events, c) && NoIdleBetween(events, c, |events|)
    && (forall k | c < k < |events| :: !Retained(events, k))
    && forall i | 0 <= i < |events| && Running(events[i]) && NoIdleBetween(events, i, |events|) ::
        TNode(events, i) <= TNode(events, c)
  }

  ghost predicate SessionEmpty(events: seq<Event>) {
    forall i | 0 <= i < |events| && NoIdleBetween(events, i, |events|) :: !Running(events[i])
  }

  /** No successive pair ends after `from`. */
  ghost predicate NoPairFrom(events: seq<Event>, from: nat) {
    forall i, j | 0 <= i < j < |events| && from <= j :: !Successive(events, i, j)
  }

  lemma Earlier(events: seq<Event>, e: Event)
    ensures forall j | 0 <= j < |events| :: Retained(events + [e], j) == Retained(events, j)
    ensures forall i, j | 0 <= i < j < |events| :: Successive(events + [e], i, j) == Successive(events, i, j)
  {
    var all := events + [e];
    forall i, j | 0 <= i <= j <= |events| ensures NoIdleBetween(all, i, j) == NoIdleBetween(events, i, j) {
      if NoIdleBetween(all, i, j) {
        forall k | i < k < j ensures !Idle(events[k]) { assert all[k] == events[k]; }
      }
    }
    forall j | 0 <= j < |events| ensures Retained(all, j) == Retained(events, j) {
      assert all[j] == events[j];
      if Retained(all, j) {
        forall i | 0 <= i < j && Running(events[i]) && NoIdleBetween(events, i, j)
          ensures TNode(events, i) < TNode(events, j) {
          assert all[i] == events[i] && TNode(all, i) < TNode(all, j);
        }
      }
      if Retained(events, j) {
        forall i | 0 <= i < j && Running(all[i]) && NoIdleBetween(all, i, j) ensures TNode(all, i) < TNode(all, j) {
          assert all[i] == events[i] && TNode(events, i) < TNode(events, j);
        }
      }
    }
    forall i, j | 0 <= i < j < |events| ensures Successive(all, i, j) == Successive(events, i, j) {
      assert Retained(all, i) == Retained(events, i);
    }
  }

  ghost predicate LastPair(events: seq<Event>, i: nat, j: nat)
    requires i < j < |events|
  {
    Successive(events, i, j) && NoPairFrom(events, j + 1)
  }

  ghost predicate CandidateMeans(events: seq<Event>, candidate: Option<Sample>) {
    if candidate.None? then SessionEmpty(events)
    else exists c | 0 <= c < |events| :: NewestIs(events, c) && events[c].head.sample == candidate.value
  }

  ghost predicate PairMeans(events: seq<Event>, pair: Option<Sample>) {
    || (NoPairFrom(events, 0) && pair == None)
    || exists i, j | 0 <= i < j < |events| ::
         LastPair(events, i, j) && pair == MapOf(events[i].head.sample, events[j].head.sample)
  }

  function MapOf(s: Sample, t: Sample): Option<Sample> {
    if Agree(t, s) then Some(t) else None
  }

  /** An event that is not retained leaves the pairs as they were. */
  lemma PairsStand(events: seq<Event>, e: Event, pair: Option<Sample>)
    requires !Retained(events + [e], |events|) && PairMeans(events, pair)
    ensures PairMeans(events + [e], pair)
  {
    hide Retained;
    PairsStandStill(events, e, pair);
  }

  lemma PairsStandStill(events: seq<Event>, e: Event, pair: Option<Sample>)
    requires forall i | 0 <= i < |events| :: !Successive(events + [e], i, |events|)
    requires PairMeans(events, pair)
    ensures PairMeans(events + [e], pair)
  {
    hide Successive;
    var all := events + [e];
    Earlier(events, e);
    NoNewPair(events, e);
    if !(NoPairFrom(events, 0) && pair == None) {
      var i, j :| 0 <= i < j < |events| && LastPair(events, i, j)
          && pair == MapOf(events[i].head.sample, events[j].head.sample);
      assert LastPair(all, i, j);
    }
  }

  lemma NoNewPair(events: seq<Event>, e: Event)
    requires forall i | 0 <= i < |events| :: !Successive(events + [e], i, |events|)
    ensures forall from: nat :: NoPairFrom(events, from) ==> NoPairFrom(events + [e], from)
  {
    hide Successive;
    Earlier(events, e);
  }

  lemma ForeignStep(events: seq<Event>, e: Event, candidate: Option<Sample>)
    requires !Native(e) && CandidateMeans(events, candidate)
    ensures !Retained(events + [e], |events|) && CandidateMeans(events + [e], candidate)
  {
    StillOpen(events, e, candidate);
  }

  /** A sample that is neither retained nor the end of the session leaves the candidate. */
  lemma StillOpen(events: seq<Event>, e: Event, candidate: Option<Sample>)
    requires !Idle(e) && !Retained(events + [e], |events|) && CandidateMeans(events, candidate)
    requires Running(e) ==> candidate.Some? && e.head.sample.tNode <= candidate.value.tNode
    ensures CandidateMeans(events + [e], candidate)
  {
    hide Retained, NoIdleBetween, Successive, Native, SessionRunning;
    var all := events + [e];
    Earlier(events, e);
    OpenStays(events, e);
    if candidate.Some? {
      var c :| 0 <= c < |events| && NewestIs(events, c) && events[c].head.sample == candidate.value;
      assert NewestIs(all, c);
    }
  }

  lemma OpenStays(events: seq<Event>, e: Event)
    requires !Idle(e)
    ensures forall i | 0 <= i < |events| ::
              NoIdleBetween(events + [e], i, |events| + 1) == NoIdleBetween(events, i, |events|)
  {
    var all := events + [e];
    forall i | 0 <= i < |events| ensures NoIdleBetween(all, i, |events| + 1) == NoIdleBetween(events, i, |events|) {
      if NoIdleBetween(all, i, |events| + 1) {
        forall k | i < k < |events| ensures !Idle(events[k]) { assert all[k] == events[k]; }
      }
    }
  }

  lemma IdleStep(events: seq<Event>, e: Event)
    requires Idle(e)
    ensures !Retained(events + [e], |events|) && CandidateMeans(events + [e], None)
  {
    var all := events + [e];
    assert Idle(all[|events|]);
    assert forall i | 0 <= i < |events| :: !NoIdleBetween(all, i, |all|);
  }

  lemma SameIdles(events: seq<Event>, e: Event)
    ensures forall i | 0 <= i < |events| ::
              NoIdleBetween(events + [e], i, |events|) == NoIdleBetween(events, i, |events|)
  {
    var all := events + [e];
    forall i | 0 <= i < |events| ensures NoIdleBetween(all, i, |events|) == NoIdleBetween(events, i, |events|) {
      if NoIdleBetween(all, i, |events|) {
        forall k | i < k < |events| ensures !Idle(events[k]) { assert all[k] == events[k]; }
      }
    }
  }

  lemma StaleStep(events: seq<Event>, e: Event, candidate: Option<Sample>)
    requires Running(e) && CandidateMeans(events, candidate)
    requires candidate.Some? && e.head.sample.tNode <= candidate.value.tNode
    ensures !Retained(events + [e], |events|) && CandidateMeans(events + [e], candidate)
  {
    var all := events + [e];
    var c :| 0 <= c < |events| && NewestIs(events, c) && events[c].head.sample == candidate.value;
    SameIdles(events, e);
    assert Running(all[c]) && NoIdleBetween(all, c, |events|) && TNode(all, |events|) <= TNode(all, c);
    StillOpen(events, e, candidate);
  }

  /** The first sample of a session is retained, and ends no pair. */
  lemma FirstStep(events: seq<Event>, e: Event)
    requires Running(e) && CandidateMeans(events, None)
    ensures CandidateMeans(events + [e], Some(e.head.sample))
    ensures forall i | 0 <= i < |events| :: !Successive(events + [e], i, |events|)
  {
    var all, n := events + [e], |events|;
    SameIdles(events, e);
    OpenStays(events, e);
    assert Retained(all, n);
    assert NewestIs(all, n);
  }

  /** A newer sample of the session is retained, and makes a pair with the one before it. */
  lemma NextStep(events: seq<Event>, e: Event, candidate: Option<Sample>) returns (c: nat)
    requires Running(e) && CandidateMeans(events, candidate)
    requires candidate.Some? && candidate.value.tNode < e.head.sample.tNode
    ensures CandidateMeans(events + [e], Some(e.head.sample))
    ensures c < |events| && events[c].head.sample == candidate.value && LastPair(events + [e], c, |events|)
  {
    var all, n := events + [e], |events|;
    c :| 0 <= c < |events| && NewestIs(events, c) && events[c].head.sample == candidate.value;
    SameIdles(events, e);
    OpenStays(events, e);
    Earlier(events, e);
    assert Retained(all, n);
    assert NewestIs(all, n);
    assert Successive(all, c, n);
  }

  /** What the clock holds after any trace. */
  lemma {:induction false} Meaning(events: seq<Event>)
    ensures CandidateMeans(events, After(events).candidate) && PairMeans(events, After(events).pair)
    decreases |events|
  {
    hide CandidateMeans, PairMeans, LastPair, Retained, Successive, Native, SessionRunning, Agree;
    if events == [] {
      NothingSeen();
    } else {
      var before, e := events[..|events| - 1], events[|events| - 1];
      var s := After(before);
      assert events == before + [e];
      Meaning(before);
      if !Native(e) {
        ForeignStep(before, e, s.candidate);
        PairsStand(before, e, s.pair);
      } else if Idle(e) {
        IdleStep(before, e);
        PairsStand(before, e, s.pair);
      } else if Stale(s, e) {
        StaleStep(before, e, s.candidate);
        PairsStand(before, e, s.pair);
      } else if s.candidate.None? {
        FirstStep(before, e);
        PairsStandStill(before, e, s.pair);
      } else {
        var c := NextStep(before, e, s.candidate);
        PairIsMade(events, c);
      }
    }
  }

  lemma NothingSeen()
    ensures CandidateMeans([], None) && PairMeans([], None)
  {
  }

  lemma PairIsMade(events: seq<Event>, c: nat)
    requires c < |events| - 1 && LastPair(events, c, |events| - 1)
    ensures PairMeans(events, MapOf(events[c].head.sample, events[|events| - 1].head.sample))
  {
    hide LastPair;
  }

  // ---------------------------------------------------------------------------------------
  // What follows for any trace
  // ---------------------------------------------------------------------------------------

  /** Samples `i` and `j` agreed, one after the other in one session, and no later two
      disagreed or agreed anew. */
  ghost predicate Established(events: seq<Event>, i: nat, j: nat)
    requires i < j < |events|
  {
    LastPair(events, i, j) && Agree(events[j].head.sample, events[i].head.sample)
  }

  lemma LastPairIsUnique(events: seq<Event>, i: nat, j: nat, k: nat, l: nat)
    requires i < j < |events| && k < l < |events| && LastPair(events, i, j) && LastPair(events, k, l)
    ensures i == k && j == l
  {
    hide Retained, NoIdleBetween;
  }

  /** The map is the second of the last two successive samples of one session, if they agreed;
      otherwise there is none. */
  lemma MapExistsExactly(events: seq<Event>, p: Sample)
    ensures After(events).pair == Some(p) <==>
            exists i, j | 0 <= i < j < |events| :: Established(events, i, j) && events[j].head.sample == p
  {
    hide After, CandidateMeans, LastPair, Agree;
    Meaning(events);
    if i, j :| 0 <= i < j < |events| && Established(events, i, j) && events[j].head.sample == p {
      HasLastPair(events, i, j);
      var k, l :| 0 <= k < l < |events| && LastPair(events, k, l)
        && After(events).pair == MapOf(events[k].head.sample, events[l].head.sample);
      LastPairIsUnique(events, i, j, k, l);
    }
    if After(events).pair == Some(p) {
      var k, l :| 0 <= k < l < |events| && LastPair(events, k, l)
        && After(events).pair == MapOf(events[k].head.sample, events[l].head.sample);
      assert Established(events, k, l);
    }
  }

  lemma HasLastPair(events: seq<Event>, i: nat, j: nat)
    requires i < j < |events| && LastPair(events, i, j)
    ensures !NoPairFrom(events, 0)
  {
    hide Successive;
  }

  /** The trace without the samples of another host. */
  function Natives(events: seq<Event>): seq<Event> {
    if events == [] then []
    else
      var rest := Natives(events[..|events| - 1]);
      if Native(events[|events| - 1]) then rest + [events[|events| - 1]] else rest
  }

  /** A sample stamped on another host moves nothing but its own count. */
  lemma {:induction false} ForeignMovesNothing(events: seq<Event>)
    ensures |Natives(events)| <= |events| && After(Natives(events)).foreignSeen == 0
    ensures After(events) == After(Natives(events)).(foreignSeen := |events| - |Natives(events)|)
    decreases |events|
  {
    hide Native, SessionRunning, Agree;
    if events != [] {
      var before, e := events[..|events| - 1], events[|events| - 1];
      ForeignMovesNothing(before);
      if Native(e) {
        assert (Natives(before) + [e])[..|Natives(before)|] == Natives(before);
      }
    }
  }

  /** Every in-session sample's offset is within `epsilon` of `offset`. */
  ghost predicate OffsetsNear(events: seq<Event>, offset: int, epsilon: nat) {
    forall i | 0 <= i < |events| && Running(events[i]) ::
        offset - epsilon <= Offset(events[i].head.sample) <= offset + epsilon
  }

  lemma SecondsOf(robotMs: nat, t: nat, tNode: nat)
    ensures (robotMs as real / 1000.0 + (t as real - tNode as real) / 1_000_000_000.0) * 1_000_000_000.0
         == (t + (robotMs * 1_000_000 - tNode)) as real
  {
  }

  /** Whenever a stamp is mapped, and however stale, repeated, foreign or idle samples were mixed
      in, the robot time is within `epsilon` of the true one. */
  lemma MappedStampsAreAccurate(events: seq<Event>, offset: int, epsilon: nat, t: U64)
    requires OffsetsNear(events, offset, epsilon) && RobotTime(After(events), t).Some?
    ensures var ns := RobotTime(After(events), t).value * 1_000_000_000.0;
            (t + offset - epsilon) as real <= ns <= (t + offset + epsilon) as real
  {
    hide After, LastPair, Agree, Native, SessionRunning;
    var p := After(events).pair.value;
    MapExistsExactly(events, p);
    var i, j :| 0 <= i < j < |events| && Established(events, i, j) && events[j].head.sample == p;
    PairIsRunning(events, i, j);
    SecondsOf(p.robotMs, t, p.tNode);
  }

  lemma PairIsRunning(events: seq<Event>, i: nat, j: nat)
    requires i < j < |events| && LastPair(events, i, j)
    ensures Running(events[j])
  {
  }

  /** A stamp is mapped exactly when there is a map no more than five seconds from it. */
  lemma MappedExactlyNear(s: State, t: U64)
    ensures RobotTime(s, t).Some? <==>
            s.pair.Some? && t - 5_000_000_000 <= s.pair.value.tNode <= t + 5_000_000_000
  {
  }

  /** A sample counts when its stamp is one of this host's, and for a session when the phase is
      active (2) or homing (5). */
  lemma RunningExactly(phase: nat, tNode: U64, robotMs: U64, now: U64)
    ensures var e := Event(StateHead(phase, Sample(tNode, robotMs)), now);
            var here := now - 1_000_000_000 <= tNode <= now + 50_000_000;
            && (Running(e) <==> here && (phase == 2 || phase == 5))
            && (Idle(e) <==> here && phase != 2 && phase != 5)
  {
    SameHostExactly(tNode, now);
  }

  /** Two samples agree exactly when both clocks advanced between them by the same, to 10 ms. */
  lemma AgreeExactly(s: Sample, t: Sample)
    ensures Agree(s, t) <==>
            var robotNs, nodeNs := (s.robotMs as int - t.robotMs) * 1_000_000, s.tNode as int - t.tNode;
            nodeNs - 10_000_000 <= robotNs <= nodeNs + 10_000_000
  {
  }

  /** While the host's stamps jitter by 5 ms at most around the robot's clock, the map is there from
      the second sample of the first session on. */
  lemma MapWhileNear(events: seq<Event>, offset: int)
    requires OffsetsNear(events, offset, 5_000_000)
    ensures After(events).pair.Some? <==> exists i, j | 0 <= i < j < |events| :: Successive(events, i, j)
  {
    hide After, CandidateMeans, Successive, Native, SessionRunning;
    Meaning(events);
    if i, j :| 0 <= i < j < |events| && Successive(events, i, j) {
      var k, l :| 0 <= k < l < |events| && LastPair(events, k, l)
        && After(events).pair == MapOf(events[k].head.sample, events[l].head.sample);
      BothRun(events, k, l);
    }
    if After(events).pair.Some? {
      var k, l :| 0 <= k < l < |events| && LastPair(events, k, l)
        && After(events).pair == MapOf(events[k].head.sample, events[l].head.sample);
      assert Successive(events, k, l);
    }
  }

  lemma BothRun(events: seq<Event>, i: nat, j: nat)
    requires i < j < |events| && LastPair(events, i, j)
    ensures Running(events[i]) && Running(events[j])
  {
  }

  predicate Counts(e: Event, inSession: bool) {
    if inSession then Running(e) else Native(e)
  }

  /** `t` is the local clock at the last sample that counts, if any does. */
  ghost predicate LastIs(events: seq<Event>, inSession: bool, t: Option<U64>) {
    if t.None? then forall i | 0 <= i < |events| :: !Counts(events[i], inSession)
    else exists i | 0 <= i < |events| ::
           && Counts(events[i], inSession) && events[i].now == t.value
           && forall k | i < k < |events| :: !Counts(events[k], inSession)
  }

  lemma LastIsStep(events: seq<Event>, inSession: bool, t: Option<U64>)
    requires events != [] && LastIs(events[..|events| - 1], inSession, t)
    ensures var e := events[|events| - 1];
            LastIs(events, inSession, if Counts(e, inSession) then Some(e.now) else t)
  {
    hide Counts;
    var before, e := events[..|events| - 1], events[|events| - 1];
    if !Counts(e, inSession) && t.Some? {
      var i :| 0 <= i < |before| && Counts(before[i], inSession) && before[i].now == t.value
        && forall k | i < k < |before| :: !Counts(before[k], inSession);
      assert events[i] == before[i];
      forall k | i < k < |events| ensures !Counts(events[k], inSession) {
        assert k < |before| ==> before[k] == events[k];
      }
    }
  }

  /** What silence and the end of a session are judged by: the local clock at the last sample
      stamped on this host, and at the last of them in a session. */
  lemma {:induction false} LastSeen(events: seq<Event>)
    ensures LastIs(events, false, After(events).lastState) && LastIs(events, true, After(events).lastRunning)
  {
    if events != [] {
      hide Native, SessionRunning, Agree, LastIs;
      LastSeen(events[..|events| - 1]);
      LastIsStep(events, false, After(events[..|events| - 1]).lastState);
      LastIsStep(events, true, After(events[..|events| - 1]).lastRunning);
    }
  }

  function Active(tNode: U64, robotMs: U64, now: U64): Event {
    Event(StateHead(PHASE_ACTIVE, Sample(tNode, robotMs)), now)
  }

  lemma OneMore(events: seq<Event>, e: Event)
    ensures After(events + [e]) == Observed(After(events), e) && After([]) == START
  {
    assert (events + [e])[..|events|] == events;
  }

  // When the map's own stamp goes back

  /** The map moves, by the next event, to an older sample. */
  ghost predicate GoesBack(events: seq<Event>, e: Event) {
    var before, after := After(events).pair, After(events + [e]).pair;
    before.Some? && after.Some? && after.value.tNode < before.value.tNode
  }

  /** The next event makes an agreeing pair with the newest sample of its session. */
  ghost predicate MakesMap(events: seq<Event>, e: Event) {
    exists i | 0 <= i < |events| ::
      Successive(events + [e], i, |events|) && Agree(e.head.sample, events[i].head.sample)
  }

  /** One event moves the stamp of a map back exactly when it agrees and is itself older. */
  lemma StepGoesBackExactly(s: State, e: Event)
    requires s.pair.Some?
    ensures (Observed(s, e).pair.Some? && Observed(s, e).pair.value.tNode < s.pair.value.tNode) <==>
            Agrees(s, e) && e.head.sample.tNode < s.pair.value.tNode
  {
  }

  lemma SuccessiveIsUnique(events: seq<Event>, i: nat, j: nat, l: nat)
    requires i < l < |events| && j < l && Successive(events, i, l) && Successive(events, j, l)
    ensures i == j
  {
    hide Retained, NoIdleBetween;
  }

  /** In terms of the trace alone, agreeing is making a map. */
  lemma AgreesMakesMap(events: seq<Event>, e: Event)
    ensures Agrees(After(events), e) <==> MakesMap(events, e)
  {
    hide After, Native, SessionRunning, Agree, CandidateMeans, PairMeans, LastPair;
    Meaning(events);
    var s := After(events);
    if !Native(e) {
      ForeignStep(events, e, s.candidate);
      NotRetainedNoMap(events, e);
    } else if Idle(e) {
      IdleStep(events, e);
      NotRetainedNoMap(events, e);
    } else if Stale(s, e) {
      StaleStep(events, e, s.candidate);
      NotRetainedNoMap(events, e);
    } else if s.candidate.None? {
      FirstStep(events, e);
    } else {
      var c := NextStep(events, e, s.candidate);
      NextMakesMap(events, e, c);
    }
  }

  lemma NotRetainedNoMap(events: seq<Event>, e: Event)
    requires !Retained(events + [e], |events|)
    ensures !MakesMap(events, e)
  {
    hide Retained;
  }

  lemma NextMakesMap(events: seq<Event>, e: Event, c: nat)
    requires c < |events| && LastPair(events + [e], c, |events|)
    ensures MakesMap(events, e) <==> Agree(e.head.sample, events[c].head.sample)
  {
    hide Successive, Agree;
    if MakesMap(events, e) {
      var i :| 0 <= i < |events| && Successive(events + [e], i, |events|)
          && Agree(e.head.sample, events[i].head.sample);
      SuccessiveIsUnique(events + [e], i, c, |events|);
    }
  }

  /** Over any trace: the stamp goes back exactly at an event that makes an agreeing successive
      pair and is stamped before the map. */
  lemma MapGoesBackExactly(events: seq<Event>, e: Event)
    ensures GoesBack(events, e) <==>
            After(events).pair.Some? && MakesMap(events, e) && e.head.sample.tNode < After(events).pair.value.tNode
  {
    hide After, MakesMap, Agrees;
    OneMore(events, e);
    AgreesMakesMap(events, e);
    if After(events).pair.Some? {
      StepGoesBackExactly(After(events), e);
    }
  }

  /** And only across the end of a session: since sample `j` made the map some idle sample came. */
  lemma MapGoesBackOnlyAcrossSessions(events: seq<Event>, e: Event, i: nat, j: nat)
    requires i < j < |events| && Established(events, i, j) && GoesBack(events, e)
    ensures exists k :: j < k < |events| && Idle(events[k])
  {
    hide After, Agree, Idle;
    MapGoesBackExactly(events, e);
    MapExistsExactly(events, events[j].head.sample);
    var all, n := events + [e], |events|;
    var c :| 0 <= c < n && Successive(all, c, n) && Agree(e.head.sample, events[c].head.sample);
    assert Retained(all, n) && Running(all[j]) && TNode(all, n) < TNode(all, j) by {
      PairIsRunning(events, i, j);
    }
    assert !NoIdleBetween(all, j, n);
    var k :| j < k < n && Idle(all[k]);
    assert all[k] == events[k];
  }

  /** A map no newer than the candidate: what every map of the running session is. */
  ghost predicate MapFollows(s: State) {
    s.candidate.Some? && (s.pair.Some? ==> s.pair.value.tNode <= s.candidate.value.tNode)
  }

  /** The state after more events. */
  function From(s: State, events: seq<Event>): State {
    if events == [] then s else Observed(From(s, events[..|events| - 1]), events[|events| - 1])
  }

  /** Over events none of which is idle the candidate only grows, and a map made on the way is no
      older than the candidate at the start. */
  lemma {:induction false} FromKeepsUp(s: State, events: seq<Event>)
    requires MapFollows(s) && forall k | 0 <= k < |events| :: !Idle(events[k])
    ensures MapFollows(From(s, events)) && s.candidate.value.tNode <= From(s, events).candidate.value.tNode
    ensures From(s, events).pair.Some? ==>
              From(s, events).pair == s.pair || s.candidate.value.tNode <= From(s, events).pair.value.tNode
    decreases |events|
  {
    hide Native, SessionRunning, Agree;
    if events != [] {
      FromKeepsUp(s, events[..|events| - 1]);
    }
  }

  /** Within a session, from any such state and over any events none of which is idle, the stamp
      of the map never goes back, whether or not the map is lost and made again on the way. */
  lemma NeverBackWithinASession(s: State, events: seq<Event>)
    requires MapFollows(s) && forall k | 0 <= k < |events| :: !Idle(events[k])
    ensures MapFollows(From(s, events))
    ensures s.pair.Some? && From(s, events).pair.Some? ==> s.pair.value.tNode <= From(s, events).pair.value.tNode
  {
    FromKeepsUp(s, events);
  }

  /** The map's own stamp may go backwards: a new session's samples may be older than the map a
      session before it left. */
  lemma MapMayGoBack()
    ensures exists events: seq<Event>, more: seq<Event> ::
              && After(events).pair.Some? && After(events + more).pair.Some?
              && After(events + more).pair.value.tNode < After(events).pair.value.tNode
  {
    var a, b := Active(100_000_000, 100, 100_000_000), Active(200_000_000, 200, 200_000_000);
    var idle := Event(StateHead(1, Sample(200_000_000, 200)), 200_000_000);
    var c, d := Active(110_000_000, 110, 200_000_000), Active(120_000_000, 120, 200_000_000);
    hide After;
    var one := [] + [a];
    var two := one + [b];
    var three := two + [idle];
    var four := three + [c];
    OneMore([], a);
    OneMore(one, b);
    OneMore(two, idle);
    OneMore(three, c);
    OneMore(four, d);
    assert After(two).pair == Some(b.head.sample);
    assert After(four).candidate == Some(c.head.sample);
    assert After(four + [d]).pair == Some(d.head.sample);
    assert four + [d] == two + [idle, c, d];
  }
}

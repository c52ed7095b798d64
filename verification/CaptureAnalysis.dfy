/** The tables of `analyze` in bench/fer-capture/fer_capture/fci.py: missing ids, state gaps with
    their bursts, and the match of command gaps to state gaps; each loop against an exhaustive
    definition. Timestamps are integer nanoseconds. */
module CaptureAnalysis {
  import opened Wrappers
  import ClockFit

  datatype StateRec = StateRec(tFirst: int, tLast: int, mid: nat)

  datatype CmdRec = CmdRec(t: int, mid: nat)

  // ---------------------------------------------------------------------------------------
  // The clock scale
  // ---------------------------------------------------------------------------------------

  /** Python's `round`: to the nearest integer, ties to the even one. */
  function Round(x: real): int {
    var f := x.Floor;
    var d := x - f as real;
    if d < 0.5 then f else if d > 0.5 then f + 1 else if f % 2 == 0 then f else f + 1
  }

  /** The nearest integer, and of two equally near the even one. */
  lemma RoundExactly(x: real, n: int)
    ensures Round(x) == n <==>
            n as real - 0.5 < x < n as real + 0.5 || (n % 2 == 0 && (x == n as real - 0.5 || x == n as real + 0.5))
  {
    assert x.Floor as real <= x < x.Floor as real + 1.0;
  }

  lemma RoundMonotone(x: real, y: real)
    requires x <= y
    ensures Round(x) <= Round(y)
  {
    assert x.Floor <= y.Floor;
  }

  function Scaled(t0: int, t: int, scale: real): int
    requires scale != 0.0
  {
    t0 + Round((t - t0) as real / scale)
  }

  lemma QuotientMonotone(a: real, b: real, scale: real)
    requires a <= b && 0.0 < scale
    ensures a / scale <= b / scale
  {
    assert b / scale - a / scale == (b - a) / scale;
  }

  lemma ScaledMonotone(t0: int, t: int, u: int, scale: real)
    requires t <= u && 0.0 < scale
    ensures Scaled(t0, t, scale) <= Scaled(t0, u, scale)
  {
    QuotientMonotone((t - t0) as real, (u - t0) as real, scale);
    RoundMonotone((t - t0) as real / scale, (u - t0) as real / scale);
  }

  ghost predicate InTimeOrder(states: seq<StateRec>) {
    forall i, j | 0 <= i < j < |states| :: states[i].tFirst <= states[j].tFirst
  }

  function ScaledState(s: StateRec, t0: int, scale: real): StateRec
    requires scale != 0.0
  {
    StateRec(Scaled(t0, s.tFirst, scale), Scaled(t0, s.tLast, scale), s.mid)
  }

  function ScaledStates(states: seq<StateRec>, t0: int, scale: real): seq<StateRec>
    requires scale != 0.0
  {
    seq(|states|, i requires 0 <= i < |states| => ScaledState(states[i], t0, scale))
  }

  function ScaledCmds(cmds: seq<CmdRec>, t0: int, scale: real): seq<CmdRec>
    requires scale != 0.0
  {
    seq(|cmds|, i requires 0 <= i < |cmds| => CmdRec(Scaled(t0, cmds[i].t, scale), cmds[i].mid))
  }

  /** The smallest timestamp of either direction. */
  ghost predicate IsOrigin(t0: int, states: seq<StateRec>, cmds: seq<CmdRec>) {
    && ((exists s | s in states :: s.tFirst == t0) || exists c | c in cmds :: c.t == t0)
    && (forall s | s in states :: t0 <= s.tFirst) && forall c | c in cmds :: t0 <= c.t
  }

  method Origin(states: array<StateRec>, cmds: array<CmdRec>) returns (t0: int)
    requires states.Length != 0 || cmds.Length != 0
    ensures IsOrigin(t0, states[..], cmds[..])
  {
    t0 := if states.Length != 0 then states[0].tFirst else cmds[0].t;
    for i := 0 to states.Length
      invariant (exists s | s in states[..] :: s.tFirst == t0) || exists c | c in cmds[..] :: c.t == t0
      invariant forall j | 0 <= j < i :: t0 <= states[j].tFirst
    {
      if states[i].tFirst < t0 {
        t0 := states[i].tFirst;
        assert states[i] in states[..];
      }
    }
    for i := 0 to cmds.Length
      invariant (exists s | s in states[..] :: s.tFirst == t0) || exists c | c in cmds[..] :: c.t == t0
      invariant forall j | 0 <= j < states.Length :: t0 <= states[j].tFirst
      invariant forall j | 0 <= j < i :: t0 <= cmds[j].t
    {
      if cmds[i].t < t0 {
        t0 := cmds[i].t;
        assert cmds[i] in cmds[..];
      }
    }
  }

  ghost predicate BackwardsInTime(states: seq<StateRec>) {
    forall i, j | 0 <= i < j < |states| :: states[j].tFirst <= states[i].tFirst
  }

  ghost predicate CmdsInOrder(cmds: seq<CmdRec>) {
    forall i, j | 0 <= i < j < |cmds| :: cmds[i].t <= cmds[j].t
  }

  /** `apply_clock_scale`: every timestamp divided in place by its direction's scale, about the
      earliest of both. */
  method ApplyClockScale(states: array<StateRec>, cmds: array<CmdRec>, scale: real, cmdScale: real)
    returns (ghost t0: int)
    requires scale != 0.0 && cmdScale != 0.0
    modifies states, cmds
    ensures states.Length != 0 || cmds.Length != 0 ==> IsOrigin(t0, old(states[..]), old(cmds[..]))
    ensures states[..] == ScaledStates(old(states[..]), t0, scale)
    ensures cmds[..] == ScaledCmds(old(cmds[..]), t0, cmdScale)
  {
    if states.Length == 0 && cmds.Length == 0 {
      return 0;
    }
    var origin := Origin(states, cmds);
    t0 := origin;
    for i := 0 to states.Length
      modifies states
      invariant forall j | 0 <= j < states.Length ::
                  states[j] == if j < i then ScaledState(old(states[j]), origin, scale) else old(states[j])
    {
      states[i] := ScaledState(states[i], origin, scale);
    }
    for i := 0 to cmds.Length
      modifies cmds
      invariant forall j | 0 <= j < cmds.Length ::
                  cmds[j] == if j < i then CmdRec(Scaled(origin, old(cmds[j]).t, cmdScale), old(cmds[j]).mid)
                  else old(cmds[j])
    {
      cmds[i] := CmdRec(Scaled(origin, cmds[i].t, cmdScale), cmds[i].mid);
    }
  }

  lemma StatesStayInOrder(states: seq<StateRec>, t0: int, scale: real)
    requires 0.0 < scale && InTimeOrder(states)
    ensures InTimeOrder(ScaledStates(states, t0, scale))
  {
    hide Scaled;
    forall i, j | 0 <= i < j < |states|
      ensures Scaled(t0, states[i].tFirst, scale) <= Scaled(t0, states[j].tFirst, scale) {
      ScaledMonotone(t0, states[i].tFirst, states[j].tFirst, scale);
    }
  }

  /** Scaling by positive rates, rounding included, keeps the states in order and the origin where
      it was: the earliest timestamp of both directions. */
  lemma ScalingKeepsOrder(states: seq<StateRec>, cmds: seq<CmdRec>, t0: int, scale: real, cmdScale: real)
    requires 0.0 < scale && 0.0 < cmdScale
    ensures InTimeOrder(states) ==> InTimeOrder(ScaledStates(states, t0, scale))
    ensures IsOrigin(t0, states, cmds) ==> IsOrigin(t0, ScaledStates(states, t0, scale), ScaledCmds(cmds, t0, cmdScale))
  {
    hide Scaled;
    if InTimeOrder(states) {
      StatesStayInOrder(states, t0, scale);
    }
    if IsOrigin(t0, states, cmds) {
      OriginStays(states, cmds, t0, scale, cmdScale);
    }
  }

  lemma OriginScales(t0: int, scale: real)
    requires scale != 0.0
    ensures Scaled(t0, t0, scale) == t0
  {
    assert (t0 - t0) as real / scale == 0.0;
  }

  lemma OriginStays(states: seq<StateRec>, cmds: seq<CmdRec>, t0: int, scale: real, cmdScale: real)
    requires 0.0 < scale && 0.0 < cmdScale && IsOrigin(t0, states, cmds)
    ensures IsOrigin(t0, ScaledStates(states, t0, scale), ScaledCmds(cmds, t0, cmdScale))
  {
    hide Scaled;
    var ss, cs := ScaledStates(states, t0, scale), ScaledCmds(cmds, t0, cmdScale);
    OriginScales(t0, scale);
    OriginScales(t0, cmdScale);
    forall i | 0 <= i < |states| ensures t0 <= ss[i].tFirst {
      assert states[i] in states;
      ScaledMonotone(t0, t0, states[i].tFirst, scale);
    }
    forall i | 0 <= i < |cmds| ensures t0 <= cs[i].t {
      assert cmds[i] in cmds;
      ScaledMonotone(t0, t0, cmds[i].t, cmdScale);
    }
    if s :| s in states && s.tFirst == t0 {
      var i :| 0 <= i < |states| && states[i] == s;
      assert ss[i] in ss;
    } else {
      var c :| c in cmds && c.t == t0;
      var i :| 0 <= i < |cmds| && cmds[i] == c;
      assert cs[i] in cs;
    }
  }

  // ---------------------------------------------------------------------------------------
  // Missing ids
  // ---------------------------------------------------------------------------------------

  ghost predicate StrictlyAscending(u: seq<nat>) {
    forall i, j | 0 <= i < j < |u| :: u[i] < u[j]
  }

  /** `sorted(set(ids))`, one id at a time. */
  function InsertUnique(x: nat, u: seq<nat>): seq<nat> {
    if u == [] then [x]
    else if x < u[0] then [x] + u
    else if x == u[0] then u
    else [u[0]] + InsertUnique(x, u[1..])
  }

  lemma {:induction false} InsertUniqueKeeps(x: nat, u: seq<nat>)
    requires StrictlyAscending(u)
    ensures StrictlyAscending(InsertUnique(x, u))
    ensures forall y :: y in InsertUnique(x, u) <==> y == x || y in u
  {
    if u != [] && x > u[0] {
      InsertUniqueKeeps(x, u[1..]);
      var rest := InsertUnique(x, u[1..]);
      assert forall y :: y in rest <==> y == x || y in u[1..];
      forall i | 0 <= i < |rest| ensures u[0] < rest[i] {
        assert rest[i] in rest;
      }
      assert u == [u[0]] + u[1..];
    }
  }

  datatype Range = Range(first: nat, last: nat) {
    predicate Has(id: nat) { first <= id <= last }
  }

  function Sizes(rs: seq<Range>): int {
    if rs == [] then 0 else Sizes(rs[..|rs| - 1]) + (rs[|rs| - 1].last - rs[|rs| - 1].first + 1)
  }

  ghost predicate Covered(rs: seq<Range>, id: nat) {
    exists r | r in rs :: r.Has(id)
  }

  /** Ascending, disjoint, none empty and none touching the next. */
  ghost predicate Apart(rs: seq<Range>) {
    && (forall i | 0 <= i < |rs| :: rs[i].first <= rs[i].last)
    && (forall i, j | 0 <= i < j < |rs| :: rs[i].last + 1 < rs[j].first)
  }

  lemma NoIdBetween(uniq: seq<nat>, i: nat, id: nat)
    requires StrictlyAscending(uniq) && i + 1 < |uniq| && uniq[i] < id < uniq[i + 1]
    ensures id !in uniq
  {
    if id in uniq {
      var j :| 0 <= j < |uniq| && uniq[j] == id;
    }
  }

  /** Exactly the ids strictly inside the range that `uniq` does not hold. */
  ghost predicate CoversTheMissing(rs: seq<Range>, uniq: seq<nat>, lo: nat, hi: nat) {
    forall id: nat :: Covered(rs, id) <==> lo <= id <= hi && id !in uniq
  }

  /** The size of the largest range. */
  ghost predicate IsLongest(rs: seq<Range>, n: nat) {
    && (forall q | q in rs :: q.last - q.first + 1 <= n)
    && (rs == [] ==> n == 0)
    && (rs != [] ==> exists q | q in rs :: q.last - q.first + 1 == n)
  }

  method UniqueSorted(mids: seq<nat>) returns (uniq: seq<nat>)
    ensures StrictlyAscending(uniq) && |uniq| <= |mids|
    ensures forall y :: y in uniq <==> y in mids
  {
    uniq := [];
    for i := 0 to |mids|
      invariant StrictlyAscending(uniq) && |uniq| <= i
      invariant forall y :: y in uniq <==> y in mids[..i]
    {
      InsertUniqueKeeps(mids[i], uniq);
      InsertUniqueLength(mids[i], uniq);
      uniq := InsertUnique(mids[i], uniq);
      assert mids[..i + 1] == mids[..i] + [mids[i]];
    }
    assert mids[..|mids|] == mids;
  }

  /** What the walk knows on reaching id `i`. */
  ghost predicate WalkedTo(uniq: seq<nat>, i: nat, missing: seq<Range>, maxRun: nat)
    requires i < |uniq|
  {
    && Apart(missing) && (missing != [] ==> missing[|missing| - 1].last < uniq[i])
    && Sizes(missing) == uniq[i] - uniq[0] + 1 - (i + 1)
    && IsLongest(missing, maxRun)
    && CoversTheMissing(missing, uniq, uniq[0], uniq[i])
  }

  lemma WalkNoGap(uniq: seq<nat>, i: nat, missing: seq<Range>, maxRun: nat)
    requires StrictlyAscending(uniq) && i + 1 < |uniq| && WalkedTo(uniq, i, missing, maxRun)
    requires uniq[i + 1] <= uniq[i] + 1
    ensures WalkedTo(uniq, i + 1, missing, maxRun)
  {
    hide Apart, Sizes, IsLongest;
    CoveredStep(uniq, i, missing, missing);
  }

  lemma WalkGap(uniq: seq<nat>, i: nat, missing: seq<Range>, maxRun: nat, q: Range)
    requires StrictlyAscending(uniq) && i + 1 < |uniq| && WalkedTo(uniq, i, missing, maxRun)
    requires q.first == uniq[i] + 1 && q.last + 1 == uniq[i + 1] && q.first <= q.last
    ensures WalkedTo(uniq, i + 1, missing + [q], if q.last - q.first + 1 > maxRun then q.last - q.first + 1 else maxRun)
  {
    hide Apart, Sizes, IsLongest, CoversTheMissing;
    CoveredStep(uniq, i, missing, missing + [q]);
    LongestStep(missing, maxRun, q);
    ApartStep(missing, q);
    SizesStep(missing, q);
  }

  /** The walk over the sorted ids: ascending disjoint ranges of exactly the missing ones. */
  method MissingRanges(uniq: seq<nat>) returns (missing: seq<Range>, maxRun: nat)
    requires StrictlyAscending(uniq) && uniq != []
    ensures CoversTheMissing(missing, uniq, uniq[0], uniq[|uniq| - 1]) && Apart(missing)
    ensures Sizes(missing) == uniq[|uniq| - 1] - uniq[0] + 1 - |uniq|
    ensures IsLongest(missing, maxRun)
  {
    hide CoversTheMissing, Apart, Sizes, IsLongest;
    missing, maxRun := [], 0;
    NothingMissingYet(uniq);
    var i := 0;
    while i + 1 < |uniq|
      invariant 0 <= i < |uniq| && WalkedTo(uniq, i, missing, maxRun)
    {
      hide WalkedTo;
      var a, b := uniq[i], uniq[i + 1];
      if b > a + 1 {
        WalkGap(uniq, i, missing, maxRun, Range(a + 1, b - 1));
        missing := missing + [Range(a + 1, b - 1)];
        if b - a - 1 > maxRun {
          maxRun := b - a - 1;
        }
      } else {
        WalkNoGap(uniq, i, missing, maxRun);
      }
      i := i + 1;
    }
  }

  lemma NothingMissingYet(uniq: seq<nat>)
    requires StrictlyAscending(uniq) && uniq != []
    ensures Apart([]) && Sizes([]) == 0 && IsLongest([], 0)
    ensures CoversTheMissing([], uniq, uniq[0], uniq[0])
  {
    assert uniq[0] in uniq;
  }

  lemma ApartStep(rs: seq<Range>, q: Range)
    requires Apart(rs) && q.first <= q.last && (rs != [] ==> rs[|rs| - 1].last + 1 < q.first)
    ensures Apart(rs + [q])
  {
    forall i | 0 <= i < |rs| ensures rs[i].last + 1 < q.first {
      if i < |rs| - 1 {
        assert rs[i].last + 1 < rs[|rs| - 1].first;
      }
    }
  }

  lemma SizesStep(rs: seq<Range>, q: Range)
    ensures Sizes(rs + [q]) == Sizes(rs) + (q.last - q.first + 1)
  {
    var more := rs + [q];
    assert more[..|more| - 1] == rs && more[|more| - 1] == q;
  }

  lemma LongestStep(rs: seq<Range>, n: nat, q: Range)
    requires IsLongest(rs, n) && q.first <= q.last
    ensures IsLongest(rs + [q], if q.last - q.first + 1 > n then q.last - q.first + 1 else n)
  {
    assert q in rs + [q];
    if q.last - q.first + 1 <= n {
      assert rs != [];
      var p :| p in rs && p.last - p.first + 1 == n;
      assert p in rs + [q];
    }
  }

  datatype IdReport = IdReport(idMin: nat, idMax: nat, expected: nat, duplicates: nat,
                               missing: seq<Range>, nMissing: int, maxRun: nat)

  /** The id bookkeeping: the missing ranges are ascending and disjoint, hold exactly the ids
      between the smallest and the largest that never arrived, add up to `nMissing`, and the
      largest is `maxRun`; duplicates are counted and change nothing else. */
  method IdBookkeeping(mids: seq<nat>) returns (r: IdReport)
    requires mids != []
    ensures r.idMin in mids && r.idMax in mids && forall id | id in mids :: r.idMin <= id <= r.idMax
    ensures r.expected == r.idMax - r.idMin + 1
    ensures CoversTheMissing(r.missing, mids, r.idMin, r.idMax) && Apart(r.missing)
    ensures r.nMissing == Sizes(r.missing)
    ensures r.duplicates == |mids| - (r.expected - r.nMissing)
    ensures IsLongest(r.missing, r.maxRun)
  {
    var uniq := UniqueSorted(mids);
    assert mids[0] in uniq;
    var missing, maxRun := MissingRanges(uniq);
    r := IdReport(uniq[0], uniq[|uniq| - 1], uniq[|uniq| - 1] - uniq[0] + 1, |mids| - |uniq|, missing,
                  uniq[|uniq| - 1] - uniq[0] + 1 - |uniq|, maxRun);
    assert uniq[0] in uniq && uniq[|uniq| - 1] in uniq;
  }

  lemma {:induction false} InsertUniqueLength(x: nat, u: seq<nat>)
    ensures |InsertUnique(x, u)| <= |u| + 1
  {
    if u != [] {
      InsertUniqueLength(x, u[1..]);
    }
  }

  lemma CoveredStep(uniq: seq<nat>, i: nat, before: seq<Range>, after: seq<Range>)
    requires StrictlyAscending(uniq) && i + 1 < |uniq|
    requires after == if uniq[i + 1] > uniq[i] + 1 then before + [Range(uniq[i] + 1, uniq[i + 1] - 1)] else before
    requires CoversTheMissing(before, uniq, uniq[0], uniq[i])
    ensures CoversTheMissing(after, uniq, uniq[0], uniq[i + 1])
    ensures uniq[i] < uniq[i + 1]
  {
    forall id: nat ensures Covered(after, id) <==> uniq[0] <= id <= uniq[i + 1] && id !in uniq {
      assert uniq[i] in uniq && uniq[i + 1] in uniq;
      if uniq[i] < id < uniq[i + 1] {
        NoIdBetween(uniq, i, id);
        assert after[|after| - 1].Has(id);
      } else if Covered(before, id) {
        var p :| p in before && p.Has(id);
        assert p in after;
      } else {
        forall p | p in after ensures !p.Has(id) {
        }
      }
    }
  }

  // ---------------------------------------------------------------------------------------
  // State gaps and their bursts
  // ---------------------------------------------------------------------------------------

  datatype Gap = Gap(index: nat, gap: int, consecutive: bool, burst: nat, tBefore: int, tAfter: int)

  /** Of all states from `j` on, those no later than `limit`. */
  function CountUpTo(states: seq<StateRec>, j: nat, limit: int): nat
    requires j <= |states|
    decreases |states| - j
  {
    if j == |states| then 0 else (if states[j].tFirst <= limit then 1 else 0) + CountUpTo(states, j + 1, limit)
  }

  lemma {:induction false} NoneUpTo(states: seq<StateRec>, j: nat, limit: int)
    requires j <= |states| && forall i | j <= i < |states| :: limit < states[i].tFirst
    ensures CountUpTo(states, j, limit) == 0
    decreases |states| - j
  {
    if j < |states| {
      NoneUpTo(states, j + 1, limit);
    }
  }

  /** The gap that ends at state `i`, its burst counted over every later state. */
  function GapAt(states: seq<StateRec>, i: nat, burstNs: int): Gap
    requires 1 <= i < |states|
  {
    Gap(i, states[i].tFirst - states[i - 1].tFirst, states[i].mid == states[i - 1].mid + 1,
        CountUpTo(states, i + 1, states[i].tFirst + burstNs), states[i - 1].tFirst, states[i].tFirst)
  }

  /** Every gap of at least `gapNs` among the first `n` states. */
  function GapsIn(states: seq<StateRec>, n: nat, gapNs: int, burstNs: int): seq<Gap>
    requires n <= |states|
  {
    if n <= 1 then []
    else
      GapsIn(states, n - 1, gapNs, burstNs) +
      if states[n - 1].tFirst - states[n - 2].tFirst >= gapNs then [GapAt(states, n - 1, burstNs)] else []
  }

  /** The burst loop, which stops at the first state outside the window. */
  method CountBurst(states: seq<StateRec>, i: nat, burstNs: int) returns (burst: nat)
    requires i < |states|
    ensures InTimeOrder(states) ==> burst == CountUpTo(states, i + 1, states[i].tFirst + burstNs)
  {
    var after := states[i].tFirst;
    var j := i + 1;
    burst := 0;
    while j < |states| && states[j].tFirst - after <= burstNs
      invariant i + 1 <= j <= |states|
      invariant burst + CountUpTo(states, j, after + burstNs) == CountUpTo(states, i + 1, after + burstNs)
    {
      burst := burst + 1;
      j := j + 1;
    }
    if InTimeOrder(states) {
      forall k | j <= k < |states| ensures after + burstNs < states[k].tFirst {
        assert states[j].tFirst <= states[k].tFirst;
      }
      NoneUpTo(states, j, after + burstNs);
    }
  }

  /** The states are in time order; or they run backwards, and nothing that does is a gap. */
  ghost predicate Tabulable(states: seq<StateRec>, gapNs: int) {
    InTimeOrder(states) || (BackwardsInTime(states) && 0 < gapNs)
  }

  method StateGaps(states: seq<StateRec>, gapNs: int, burstNs: int) returns (gaps: seq<Gap>)
    ensures Tabulable(states, gapNs) ==> gaps == GapsIn(states, |states|, gapNs, burstNs) && GapsInOrder(gaps)
  {
    hide InTimeOrder, BackwardsInTime;
    gaps := [];
    var i := 1;
    while i < |states|
      invariant 1 <= i && (i <= |states| || |states| == 0)
      invariant Tabulable(states, gapNs) ==> gaps == GapsIn(states, if i <= |states| then i else 0, gapNs, burstNs)
    {
      var gap := states[i].tFirst - states[i - 1].tFirst;
      if gap >= gapNs {
        if 0 < gapNs {
          BackwardsHasNoGap(states, i, gapNs);
        }
        var burst := CountBurst(states, i, burstNs);
        gaps := gaps + [Gap(i, gap, states[i].mid == states[i - 1].mid + 1, burst,
                            states[i - 1].tFirst, states[i].tFirst)];
      }
      i := i + 1;
    }
    if InTimeOrder(states) {
      GapsAreOrdered(states, |states|, gapNs, burstNs);
    } else if Tabulable(states, gapNs) {
      NoGapsBackwards(states, |states|, gapNs, burstNs);
    }
  }

  lemma BackwardsHasNoGap(states: seq<StateRec>, i: nat, gapNs: int)
    requires 1 <= i < |states| && states[i].tFirst - states[i - 1].tFirst >= gapNs && 0 < gapNs
    ensures !BackwardsInTime(states)
  {
  }

  lemma {:induction false} NoGapsBackwards(states: seq<StateRec>, n: nat, gapNs: int, burstNs: int)
    requires n <= |states| && BackwardsInTime(states) && 0 < gapNs
    ensures GapsIn(states, n, gapNs, burstNs) == []
  {
    if n > 1 {
      NoGapsBackwards(states, n - 1, gapNs, burstNs);
      assert states[n - 1].tFirst <= states[n - 2].tFirst;
    }
  }

  ghost predicate GapsInOrder(gaps: seq<Gap>) {
    forall i, j | 0 <= i < j < |gaps| :: gaps[i].tAfter <= gaps[j].tAfter && gaps[i].tBefore <= gaps[j].tBefore
  }

  lemma {:induction false} GapsAreOrdered(states: seq<StateRec>, n: nat, gapNs: int, burstNs: int)
    requires n <= |states| && InTimeOrder(states)
    ensures GapsInOrder(GapsIn(states, n, gapNs, burstNs))
    ensures forall i | 0 <= i < |GapsIn(states, n, gapNs, burstNs)| ::
              var g := GapsIn(states, n, gapNs, burstNs)[i];
              g.tAfter <= states[n - 1].tFirst && 2 <= n && g.tBefore <= states[n - 2].tFirst
  {
    if n > 1 {
      hide CountUpTo;
      GapsAreOrdered(states, n - 1, gapNs, burstNs);
      assert states[n - 2].tFirst <= states[n - 1].tFirst;
      assert n > 2 ==> states[n - 3].tFirst <= states[n - 2].tFirst;
    }
  }

  /** A state is after a listed gap exactly when it came at least `gapNs` after the one before. */
  lemma {:induction false} GapsAreComplete(states: seq<StateRec>, n: nat, gapNs: int, burstNs: int, i: nat)
    requires n <= |states| && 1 <= i < n
    ensures GapAt(states, i, burstNs) in GapsIn(states, n, gapNs, burstNs) <==>
            states[i].tFirst - states[i - 1].tFirst >= gapNs
  {
    if i == n - 1 {
      GapIndices(states, n - 1, gapNs, burstNs);
    } else {
      GapsAreComplete(states, n - 1, gapNs, burstNs, i);
    }
  }

  lemma {:induction false} GapIndices(states: seq<StateRec>, n: nat, gapNs: int, burstNs: int)
    requires n <= |states|
    ensures forall g | g in GapsIn(states, n, gapNs, burstNs) :: 1 <= g.index < n
  {
    if n > 1 {
      GapIndices(states, n - 1, gapNs, burstNs);
    }
  }

  // ---------------------------------------------------------------------------------------
  // Command gaps
  // ---------------------------------------------------------------------------------------

  /** A state gap within `matchNs` of the command gap `lo .. hi`. */
  predicate LinesUp(g: Gap, lo: int, hi: int, matchNs: int) {
    g.tAfter >= lo - matchNs && g.tBefore <= hi + matchNs
  }

  /** The first state gap from `k` on that lines up, by trying them all. */
  function FirstMatch(gaps: seq<Gap>, lo: int, hi: int, matchNs: int, k: nat): Option<Gap>
    requires k <= |gaps|
    decreases |gaps| - k
  {
    if k == |gaps| then None
    else if LinesUp(gaps[k], lo, hi, matchNs) then Some(gaps[k])
    else FirstMatch(gaps, lo, hi, matchNs, k + 1)
  }

  lemma {:induction false} FirstMatchMeaning(gaps: seq<Gap>, lo: int, hi: int, matchNs: int, k: nat)
    requires k <= |gaps|
    ensures FirstMatch(gaps, lo, hi, matchNs, k).Some? <==>
            exists i | k <= i < |gaps| :: LinesUp(gaps[i], lo, hi, matchNs)
    decreases |gaps| - k
  {
    if k < |gaps| {
      FirstMatchMeaning(gaps, lo, hi, matchNs, k + 1);
    }
  }

  /** `bisect_left` on the ends of the gaps. */
  method BisectAfter(gaps: seq<Gap>, x: int) returns (k: nat)
    ensures k <= |gaps|
    ensures GapsInOrder(gaps) ==> (forall i | 0 <= i < k :: gaps[i].tAfter < x)
                                  && forall i | k <= i < |gaps| :: x <= gaps[i].tAfter
  {
    var lo, hi := 0, |gaps|;
    while lo < hi
      invariant 0 <= lo <= hi <= |gaps|
      invariant GapsInOrder(gaps) ==> forall i | 0 <= i < lo :: gaps[i].tAfter < x
      invariant GapsInOrder(gaps) ==> forall i | hi <= i < |gaps| :: x <= gaps[i].tAfter
    {
      var mid := (lo + hi) / 2;
      if gaps[mid].tAfter < x {
        lo := mid + 1;
      } else {
        hi := mid;
      }
    }
    k := lo;
  }

  lemma {:induction false} SkipsTheEarly(gaps: seq<Gap>, lo: int, hi: int, matchNs: int, i: nat, k: nat)
    requires i <= k <= |gaps| && forall j | i <= j < k :: gaps[j].tAfter < lo - matchNs
    ensures FirstMatch(gaps, lo, hi, matchNs, i) == FirstMatch(gaps, lo, hi, matchNs, k)
    decreases k - i
  {
    if i < k {
      SkipsTheEarly(gaps, lo, hi, matchNs, i + 1, k);
    }
  }

  /** Looking at one gap, the first that ends late enough, finds the first match among all. */
  method MatchGap(gaps: seq<Gap>, lo: int, hi: int, matchNs: int) returns (found: Option<Gap>)
    ensures GapsInOrder(gaps) ==>
              && found == FirstMatch(gaps, lo, hi, matchNs, 0)
              && (found.Some? <==> exists i | 0 <= i < |gaps| :: LinesUp(gaps[i], lo, hi, matchNs))
  {
    found := None;
    var k := BisectAfter(gaps, lo - matchNs);
    if k < |gaps| && gaps[k].tBefore <= hi + matchNs {
      found := Some(gaps[k]);
    }
    if GapsInOrder(gaps) {
      SkipsTheEarly(gaps, lo, hi, matchNs, 0, k);
      FirstMatchMeaning(gaps, lo, hi, matchNs, k);
      FirstMatchMeaning(gaps, lo, hi, matchNs, 0);
    }
  }

  datatype CmdGap = CmdGap(index: nat, gap: int, matched: Option<Gap>)

  /** Every command gap of at least `gapNs` among the first `n` commands, matched exhaustively. */
  function CmdGapsIn(cmds: seq<CmdRec>, n: nat, gaps: seq<Gap>, gapNs: int, matchNs: int): seq<CmdGap>
    requires n <= |cmds|
  {
    if n <= 1 then []
    else
      var lo, hi := cmds[n - 2].t, cmds[n - 1].t;
      CmdGapsIn(cmds, n - 1, gaps, gapNs, matchNs) +
      if hi - lo >= gapNs then [CmdGap(n - 1, hi - lo, FirstMatch(gaps, lo, hi, matchNs, 0))] else []
  }

  function Unmatched(cgs: seq<CmdGap>): nat {
    if cgs == [] then 0 else Unmatched(cgs[..|cgs| - 1]) + if cgs[|cgs| - 1].matched.None? then 1 else 0
  }

  lemma UnmatchedAppend(cgs: seq<CmdGap>, cg: CmdGap)
    ensures Unmatched(cgs + [cg]) == Unmatched(cgs) + (if cg.matched.None? then 1 else 0) && Unmatched([]) == 0
  {
    assert (cgs + [cg])[..|cgs|] == cgs;
  }

  method CommandGaps(cmds: seq<CmdRec>, gaps: seq<Gap>, gapNs: int, matchNs: int)
    returns (cgs: seq<CmdGap>, unmatched: nat)
    ensures GapsInOrder(gaps) ==> cgs == CmdGapsIn(cmds, |cmds|, gaps, gapNs, matchNs)
    ensures unmatched == Unmatched(cgs)
  {
    hide GapsInOrder, FirstMatch, Unmatched;
    UnmatchedAppend([], CmdGap(0, 0, None));
    cgs, unmatched := [], 0;
    var i := 1;
    while i < |cmds|
      invariant 1 <= i && (i <= |cmds| || |cmds| == 0)
      invariant GapsInOrder(gaps) ==> cgs == CmdGapsIn(cmds, if i <= |cmds| then i else 0, gaps, gapNs, matchNs)
      invariant unmatched == Unmatched(cgs)
    {
      var lo, hi := cmds[i - 1].t, cmds[i].t;
      if hi - lo >= gapNs {
        var found := MatchGap(gaps, lo, hi, matchNs);
        UnmatchedAppend(cgs, CmdGap(i, hi - lo, found));
        cgs := cgs + [CmdGap(i, hi - lo, found)];
        if found.None? {
          unmatched := unmatched + 1;
        }
      }
      i := i + 1;
    }
  }

  // ---------------------------------------------------------------------------------------
  // The tables from what was received
  // ---------------------------------------------------------------------------------------

  datatype Direction = FromRobot | ToRobot | Elsewhere

  /** A reassembled datagram: its direction, and its id if the payload is long enough to hold one. */
  datatype Received = Received(tFirst: int, tLast: int, direction: Direction, mid: Option<nat>)

  predicate ArrivesBy(d: Received, e: Received) {
    d.tFirst < e.tFirst || (d.tFirst == e.tFirst && d.tLast <= e.tLast)
  }

  function InsertArrival(d: Received, s: seq<Received>): seq<Received> {
    if s == [] then [d] else if ArrivesBy(d, s[0]) then [d] + s else [s[0]] + InsertArrival(d, s[1..])
  }

  /** `sort` by first, then last timestamp; it is stable. */
  function ByArrival(ds: seq<Received>): seq<Received> {
    if ds == [] then [] else InsertArrival(ds[0], ByArrival(ds[1..]))
  }

  ghost predicate Arrived(ds: seq<Received>) {
    forall i, j | 0 <= i < j < |ds| :: ArrivesBy(ds[i], ds[j])
  }

  lemma {:induction false} InsertArrivalHas(d: Received, s: seq<Received>)
    ensures multiset(InsertArrival(d, s)) == multiset(s) + multiset{d}
  {
    if s != [] {
      assert s == [s[0]] + s[1..];
      if !ArrivesBy(d, s[0]) {
        InsertArrivalHas(d, s[1..]);
      }
    }
  }

  lemma {:induction false} InsertArrivalOrder(d: Received, s: seq<Received>)
    requires Arrived(s)
    ensures Arrived(InsertArrival(d, s))
  {
    if s != [] && !ArrivesBy(d, s[0]) {
      InsertArrivalOrder(d, s[1..]);
      InsertArrivalHas(d, s[1..]);
      var rest := InsertArrival(d, s[1..]);
      forall i | 0 <= i < |rest| ensures ArrivesBy(s[0], rest[i]) {
        assert rest[i] in multiset(rest);
        assert rest[i] == d || rest[i] in s[1..];
      }
      hide InsertArrival;
      assert InsertArrival(d, s) == [s[0]] + rest by {
        InsertAfter(d, s);
      }
    }
  }

  lemma InsertAfter(d: Received, s: seq<Received>)
    requires s != [] && !ArrivesBy(d, s[0])
    ensures InsertArrival(d, s) == [s[0]] + InsertArrival(d, s[1..])
  {
  }

  lemma {:induction false} ByArrivalKeeps(ds: seq<Received>)
    ensures Arrived(ByArrival(ds)) && multiset(ByArrival(ds)) == multiset(ds)
    ensures forall i, j | 0 <= i < j < |ByArrival(ds)| ::
              var d, e := ByArrival(ds)[i], ByArrival(ds)[j];
              d.tFirst < e.tFirst || (d.tFirst == e.tFirst && d.tLast <= e.tLast)
  {
    if ds != [] {
      ByArrivalKeeps(ds[1..]);
      InsertArrivalOrder(ds[0], ByArrival(ds[1..]));
      InsertArrivalHas(ds[0], ByArrival(ds[1..]));
      assert ds == [ds[0]] + ds[1..];
      hide ByArrival, InsertArrival;
    }
  }

  /** The datagrams with these two times, in order. */
  function At(ds: seq<Received>, tFirst: int, tLast: int): seq<Received> {
    if ds == [] then []
    else (if ds[0].tFirst == tFirst && ds[0].tLast == tLast then [ds[0]] else []) + At(ds[1..], tFirst, tLast)
  }

  lemma AtOfFirst(d: Received, s: seq<Received>, tFirst: int, tLast: int)
    ensures At([d] + s, tFirst, tLast) == At([d], tFirst, tLast) + At(s, tFirst, tLast)
  {
    assert ([d] + s)[1..] == s && [d][1..] == [];
    assert At([], tFirst, tLast) == [];
  }

  lemma {:induction false} InsertKeepsTies(d: Received, s: seq<Received>, tFirst: int, tLast: int)
    ensures At(InsertArrival(d, s), tFirst, tLast) == At([d], tFirst, tLast) + At(s, tFirst, tLast)
  {
    if s == [] {
      assert At(s, tFirst, tLast) == [];
    } else if ArrivesBy(d, s[0]) {
      assert ([d] + s)[1..] == s && [d][1..] == [];
    } else {
      InsertKeepsTies(d, s[1..], tFirst, tLast);
      InsertAfter(d, s);
      assert ([s[0]] + InsertArrival(d, s[1..]))[1..] == InsertArrival(d, s[1..]) && [d][1..] == [];
    }
  }

  /** The sort is stable: datagrams with the same times stay in the order they were completed in. */
  lemma {:induction false} ByArrivalIsStable(ds: seq<Received>, tFirst: int, tLast: int)
    ensures At(ByArrival(ds), tFirst, tLast) == At(ds, tFirst, tLast)
  {
    hide InsertArrival;
    if ds != [] {
      ByArrivalIsStable(ds[1..], tFirst, tLast);
      InsertKeepsTies(ds[0], ByArrival(ds[1..]), tFirst, tLast);
      AtOfFirst(ds[0], ds[1..], tFirst, tLast);
      hide At;
      assert [ds[0]] + ds[1..] == ds;
    }
  }

  function StatesOf(ds: seq<Received>): seq<StateRec> {
    if ds == [] then []
    else
      var front, d := StatesOf(ds[..|ds| - 1]), ds[|ds| - 1];
      if d.direction.FromRobot? && d.mid.Some? then front + [StateRec(d.tFirst, d.tLast, d.mid.value)] else front
  }

  function CmdsOf(ds: seq<Received>): seq<CmdRec> {
    if ds == [] then []
    else
      var front, d := CmdsOf(ds[..|ds| - 1]), ds[|ds| - 1];
      if d.direction.ToRobot? && d.mid.Some? then front + [CmdRec(d.tFirst, d.mid.value)] else front
  }

  /** Records of datagrams in order of arrival are in time order, in either direction. */
  lemma {:induction false} RecordsInOrder(ds: seq<Received>)
    requires Arrived(ds)
    ensures InTimeOrder(StatesOf(ds)) && CmdsInOrder(CmdsOf(ds))
    ensures ds != [] ==> (forall s | s in StatesOf(ds) :: s.tFirst <= ds[|ds| - 1].tFirst)
                         && forall c | c in CmdsOf(ds) :: c.t <= ds[|ds| - 1].tFirst
  {
    if ds != [] {
      var front, d := ds[..|ds| - 1], ds[|ds| - 1];
      RecordsInOrder(front);
      if front != [] {
        assert ArrivesBy(ds[|ds| - 2], d);
      }
    }
  }

  method Split(ds: seq<Received>) returns (states: seq<StateRec>, cmds: seq<CmdRec>, other: nat)
    ensures states == StatesOf(ds) && cmds == CmdsOf(ds) && other == |ds| - |states| - |cmds|
  {
    states, cmds, other := [], [], 0;
    for i := 0 to |ds|
      invariant states == StatesOf(ds[..i]) && cmds == CmdsOf(ds[..i]) && other == i - |states| - |cmds|
    {
      var d := ds[i];
      assert ds[..i + 1][..i] == ds[..i];
      if d.mid.None? {
        other := other + 1;
      } else if d.direction.FromRobot? {
        states := states + [StateRec(d.tFirst, d.tLast, d.mid.value)];
      } else if d.direction.ToRobot? {
        cmds := cmds + [CmdRec(d.tFirst, d.mid.value)];
      } else {
        other := other + 1;
      }
    }
    assert ds[..|ds|] == ds;
  }

  /** `--clock-scale`: absent, `auto`, or a factor, which may be negative. */
  datatype ClockMode = Off | Auto | Fixed(factor: real)

  function StateMids(states: seq<StateRec>): seq<real> {
    seq(|states|, i requires 0 <= i < |states| => states[i].mid as real)
  }

  function StateTimes(states: seq<StateRec>): seq<real> {
    seq(|states|, i requires 0 <= i < |states| => states[i].tFirst as real)
  }

  function CmdMids(cmds: seq<CmdRec>): seq<real> {
    seq(|cmds|, i requires 0 <= i < |cmds| => cmds[i].mid as real)
  }

  function CmdTimes(cmds: seq<CmdRec>): seq<real> {
    seq(|cmds|, i requires 0 <= i < |cmds| => cmds[i].t as real)
  }

  function StateScale(mode: ClockMode, states: seq<StateRec>): real {
    match mode
    case Off => 1.0
    case Auto => ClockFit.FitClockScale(StateMids(states), StateTimes(states))
    case Fixed(factor) => factor
  }

  function CmdScale(mode: ClockMode, cmds: seq<CmdRec>): real {
    match mode
    case Off => 1.0
    case Auto => ClockFit.FitClockScale(CmdMids(cmds), CmdTimes(cmds))
    case Fixed(factor) => factor
  }

  /** Only a fixed factor is ever not positive. */
  lemma ScalesArePositive(mode: ClockMode, states: seq<StateRec>, cmds: seq<CmdRec>)
    ensures if mode.Fixed? then StateScale(mode, states) == CmdScale(mode, cmds) == mode.factor
            else 0.0 < StateScale(mode, states) && 0.0 < CmdScale(mode, cmds)
  {
    if mode.Auto? {
      ClockFit.FitIsPositive(StateMids(states), StateTimes(states));
      ClockFit.FitIsPositive(CmdMids(cmds), CmdTimes(cmds));
    }
  }

  lemma ScaledReversed(t0: int, t: int, u: int, scale: real)
    requires t <= u && scale < 0.0
    ensures Scaled(t0, u, scale) <= Scaled(t0, t, scale)
  {
    assert (t - t0) as real / scale - (u - t0) as real / scale == (t - u) as real / scale;
    RoundMonotone((u - t0) as real / scale, (t - t0) as real / scale);
  }

  /** A negative factor turns both directions around. */
  lemma NegativeScaleReverses(states: seq<StateRec>, cmds: seq<CmdRec>, t0: int, scale: real)
    requires scale < 0.0
    ensures InTimeOrder(states) ==> BackwardsInTime(ScaledStates(states, t0, scale))
    ensures CmdsInOrder(cmds) ==>
              forall i, j | 0 <= i < j < |cmds| :: ScaledCmds(cmds, t0, scale)[j].t <= ScaledCmds(cmds, t0, scale)[i].t
  {
    hide Scaled;
    if InTimeOrder(states) {
      forall i, j | 0 <= i < j < |states|
        ensures Scaled(t0, states[j].tFirst, scale) <= Scaled(t0, states[i].tFirst, scale) {
        ScaledReversed(t0, states[i].tFirst, states[j].tFirst, scale);
      }
    }
    if CmdsInOrder(cmds) {
      forall i, j | 0 <= i < j < |cmds| ensures Scaled(t0, cmds[j].t, scale) <= Scaled(t0, cmds[i].t, scale) {
        ScaledReversed(t0, cmds[i].t, cmds[j].t, scale);
      }
    }
  }

  lemma {:induction false} NoCmdGapsBackwards(cmds: seq<CmdRec>, n: nat, gaps: seq<Gap>, gapNs: int, matchNs: int)
    requires n <= |cmds| && 0 < gapNs && forall i, j | 0 <= i < j < |cmds| :: cmds[j].t <= cmds[i].t
    ensures CmdGapsIn(cmds, n, gaps, gapNs, matchNs) == []
  {
    if n > 1 {
      NoCmdGapsBackwards(cmds, n - 1, gaps, gapNs, matchNs);
      assert cmds[n - 1].t <= cmds[n - 2].t;
    }
  }

  lemma {:induction false} LeastTime(ss: seq<StateRec>, cs: seq<CmdRec>) returns (t0: int)
    ensures ss != [] || cs != [] ==> IsOrigin(t0, ss, cs)
    decreases |ss|, |cs|
  {
    t0 := 0;
    if ss != [] {
      var t := LeastTime(ss[1..], cs);
      t0 := if (|ss| == 1 && cs == []) || ss[0].tFirst < t then ss[0].tFirst else t;
      assert ss[0] in ss;
      assert forall s | s in ss :: s == ss[0] || s in ss[1..];
    } else if cs != [] {
      var t := LeastTime(ss, cs[1..]);
      t0 := if |cs| == 1 || cs[0].t < t then cs[0].t else t;
      assert cs[0] in cs;
      assert forall c | c in cs :: c == cs[0] || c in cs[1..];
    }
  }

  lemma ScaleOfOne(states: seq<StateRec>, cmds: seq<CmdRec>, t0: int)
    ensures ScaledStates(states, t0, 1.0) == states && ScaledCmds(cmds, t0, 1.0) == cmds
  {
    forall t: int ensures Scaled(t0, t, 1.0) == t {
      RoundOfWhole(t - t0);
    }
    hide Scaled;
    assert forall i | 0 <= i < |states| :: ScaledStates(states, t0, 1.0)[i] == states[i];
    assert forall i | 0 <= i < |cmds| :: ScaledCmds(cmds, t0, 1.0)[i] == cmds[i];
  }

  lemma RoundOfWhole(n: int)
    ensures Round(n as real / 1.0) == n
  {
    assert n as real / 1.0 == n as real;
  }

  // ---------------------------------------------------------------------------------------
  // Commands on a clock of their own
  // ---------------------------------------------------------------------------------------

  function Abs(x: real): real {
    if x < 0.0 then -x else x
  }

  /** The two fits differ by more than a thousandth. */
  predicate SplitClocks(mode: ClockMode, scale: real, cmdScale: real) {
    mode.Auto? && Abs(cmdScale - scale) > 0.001 * scale
  }

  /** When each id arrived; the last of a repeated one. */
  function TimesById(states: seq<StateRec>): map<nat, int> {
    if states == [] then map[]
    else TimesById(states[..|states| - 1])[states[|states| - 1].mid := states[|states| - 1].tFirst]
  }

  /** How long after its state each command came, of those that answer one. */
  function Turnarounds(cmds: seq<CmdRec>, byId: map<nat, int>): seq<real> {
    if cmds == [] then []
    else
      var front, c := Turnarounds(cmds[..|cmds| - 1], byId), cmds[|cmds| - 1];
      if c.mid in byId then front + [(c.t - byId[c.mid]) as real] else front
  }

  function Median(v: seq<real>): real
    requires v != []
  {
    ClockFit.SortedKeeps(v, 0.0);
    var s, m := ClockFit.Sorted(v), |v| / 2;
    if |v| % 2 == 1 then s[m] else (s[m - 1] + s[m]) / 2.0
  }

  /** Python's `int`: towards zero. */
  function Truncated(x: real): int {
    if 0.0 <= x then x.Floor else -(-x).Floor
  }

  /** What the commands are moved back by: the median turnaround, or nothing if none answers. */
  function Alignment(states: seq<StateRec>, cmds: seq<CmdRec>): int {
    var deltas := Turnarounds(cmds, TimesById(states));
    if deltas == [] then 0 else Truncated(Median(deltas))
  }

  function Shifted(cmds: seq<CmdRec>, shift: int): seq<CmdRec> {
    seq(|cmds|, i requires 0 <= i < |cmds| => CmdRec(cmds[i].t - shift, cmds[i].mid))
  }

  method AlignCmds(states: seq<StateRec>, cmds: array<CmdRec>)
    modifies cmds
    ensures cmds[..] == Shifted(old(cmds[..]), Alignment(states, old(cmds[..])))
  {
    hide Median, Truncated;
    var byId: map<nat, int> := map[];
    for i := 0 to |states|
      invariant byId == TimesById(states[..i])
    {
      assert states[..i + 1][..i] == states[..i];
      byId := byId[states[i].mid := states[i].tFirst];
    }
    assert states[..|states|] == states;
    var deltas: seq<real> := [];
    for i := 0 to cmds.Length
      invariant deltas == Turnarounds(cmds[..i], byId)
    {
      assert cmds[..i + 1][..i] == cmds[..i];
      if cmds[i].mid in byId {
        deltas := deltas + [(cmds[i].t - byId[cmds[i].mid]) as real];
      }
    }
    assert cmds[..cmds.Length] == cmds[..];
    var shift := if deltas == [] then 0 else Truncated(Median(deltas));
    for i := 0 to cmds.Length
      modifies cmds
      invariant forall j | 0 <= j < cmds.Length ::
                  cmds[j] == if j < i then CmdRec(old(cmds[j]).t - shift, old(cmds[j]).mid) else old(cmds[j])
    {
      cmds[i] := CmdRec(cmds[i].t - shift, cmds[i].mid);
    }
  }

  ghost predicate AllWhole(v: seq<real>) {
    forall i | 0 <= i < |v| :: v[i].Floor as real == v[i]
  }

  lemma {:induction false} TurnaroundsAreWhole(cmds: seq<CmdRec>, byId: map<nat, int>)
    ensures AllWhole(Turnarounds(cmds, byId))
  {
    if cmds != [] {
      TurnaroundsAreWhole(cmds[..|cmds| - 1], byId);
    }
  }

  lemma {:induction false} InsertWhole(x: real, v: seq<real>)
    requires AllWhole(v) && x.Floor as real == x
    ensures AllWhole(ClockFit.Insert(x, v))
  {
    if v != [] && x > v[0] {
      InsertWhole(x, v[1..]);
    }
  }

  lemma {:induction false} SortedWhole(v: seq<real>)
    requires AllWhole(v)
    ensures AllWhole(ClockFit.Sorted(v))
  {
    if v != [] {
      SortedWhole(v[1..]);
      InsertWhole(v[0], ClockFit.Sorted(v[1..]));
    }
  }

  lemma TruncatedBetween(a: int, x: real, b: int)
    requires a as real <= x <= b as real
    ensures a <= Truncated(x) <= b
  {
    if 0.0 <= x {
      assert a <= x.Floor;
    } else {
      assert -b <= (-x).Floor;
    }
  }

  /** The alignment is a median turnaround: at most half of them are shorter and at most half
      longer, the truncation of a mean included. */
  lemma AlignmentIsMedian(states: seq<StateRec>, cmds: seq<CmdRec>)
    ensures var deltas := Turnarounds(cmds, TimesById(states));
            var shift := Alignment(states, cmds) as real;
            ClockFit.CountBelow(deltas, shift) <= |deltas| / 2 && ClockFit.CountAbove(deltas, shift) <= |deltas| / 2
  {
    hide Turnarounds, ClockFit.Sorted, ClockFit.CountBelow, ClockFit.CountAbove, Truncated, TimesById;
    var v := Turnarounds(cmds, TimesById(states));
    if v == [] {
      NothingCounted(Alignment(states, cmds) as real);
    } else {
      var s, m, shift := ClockFit.Sorted(v), |v| / 2, Alignment(states, cmds) as real;
      TurnaroundsAreWhole(cmds, TimesById(states));
      SortedWhole(v);
      ClockFit.SortedKeeps(v, shift);
      var before := if |v| % 2 == 1 then m else m - 1;
      TruncatedBetween(s[before].Floor, Median(v), s[m].Floor);
      ClockFit.RanksInAscending(s, shift, m);
      ClockFit.RanksInAscending(s, shift, before);
    }
  }

  lemma NothingCounted(a: real)
    ensures ClockFit.CountBelow([], a) == 0 && ClockFit.CountAbove([], a) == 0
  {
  }

  /** The command gaps without what they match. */
  function Outline(cgs: seq<CmdGap>): seq<(nat, int)> {
    seq(|cgs|, i requires 0 <= i < |cgs| => (cgs[i].index, cgs[i].gap))
  }

  /** A shift changes which state gaps the command gaps match, and nothing else about them. */
  lemma {:induction false} ShiftKeepsIntervals(cmds: seq<CmdRec>, shift: int, n: nat, gaps: seq<Gap>, gapNs: int,
                          matchNs: int)
    requires n <= |cmds|
    ensures Outline(CmdGapsIn(Shifted(cmds, shift), n, gaps, gapNs, matchNs))
         == Outline(CmdGapsIn(cmds, n, gaps, gapNs, matchNs))
  {
    hide FirstMatch;
    if n > 1 {
      ShiftKeepsIntervals(cmds, shift, n - 1, gaps, gapNs, matchNs);
      var c, d := CmdGapsIn(Shifted(cmds, shift), n - 1, gaps, gapNs, matchNs),
          CmdGapsIn(cmds, n - 1, gaps, gapNs, matchNs);
      assert |c| == |Outline(c)| == |Outline(d)| == |d|;
      forall i | 0 <= i < |c| ensures (c[i].index, c[i].gap) == (d[i].index, d[i].gap) {
        assert Outline(c)[i] == Outline(d)[i];
      }
    }
  }

  // ---------------------------------------------------------------------------------------
  // The whole analysis
  // ---------------------------------------------------------------------------------------

  /** The commands as they are tabulated: rescaled, and aligned if the clocks are split. */
  function Aligned(states: seq<StateRec>, cmds: seq<CmdRec>, split: bool): seq<CmdRec> {
    if split then Shifted(cmds, Alignment(states, cmds)) else cmds
  }

  /** What `analyze` makes of states and commands in time order, about their earliest time `t0`. */
  ghost predicate Tabulated(ss: seq<StateRec>, cs: seq<CmdRec>, mode: ClockMode, t0: int,
                            states: seq<StateRec>, cmds: seq<CmdRec>)
    requires mode != Fixed(0.0)
  {
    var scale, cmdScale := StateScale(mode, ss), CmdScale(mode, cs);
    scale != 0.0 && cmdScale != 0.0 &&
    (ss != [] || cs != [] ==> IsOrigin(t0, ss, cs)) &&
    states == ScaledStates(ss, t0, scale) &&
    cmds == Aligned(states, ScaledCmds(cs, t0, cmdScale), SplitClocks(mode, scale, cmdScale))
  }

  /** States on a line of slope `a`, in nanoseconds of the capture's clock a millisecond of the
      robot's, but for at most nine permanent shifts of any size. */
  ghost predicate SteadyStates(ss: seq<StateRec>, a: real) {
    && 20 <= |ss| && 0.0 < a
    && (forall i, j | 0 <= i < j < |ss| :: ss[i].mid < ss[j].mid)
    && exists shift: seq<real> :: |shift| == |ss| && ClockFit.Changes(shift, |ss| - 1) <= 9
         && forall i | 0 <= i < |ss| :: ss[i].tFirst as real == a * ss[i].mid as real + shift[i]
  }

  ghost predicate SteadyCmds(cs: seq<CmdRec>, a: real) {
    && 20 <= |cs| && 0.0 < a
    && (forall i, j | 0 <= i < j < |cs| :: cs[i].mid < cs[j].mid)
    && exists shift: seq<real> :: |shift| == |cs| && ClockFit.Changes(shift, |cs| - 1) <= 9
         && forall i | 0 <= i < |cs| :: cs[i].t as real == a * cs[i].mid as real + shift[i]
  }

  /** What a clock that counts `a` nanoseconds a millisecond should have shown. */
  function RealTime(t0: int, t: int, a: real): int
    requires a != 0.0
  {
    t0 + Round((t - t0) as real * 1000000.0 / a)
  }

  ghost predicate ExactStates(ss: seq<StateRec>, a: real, t0: int, states: seq<StateRec>)
    requires a != 0.0
  {
    |states| == |ss| && forall i | 0 <= i < |ss| ::
      states[i] == StateRec(RealTime(t0, ss[i].tFirst, a), RealTime(t0, ss[i].tLast, a), ss[i].mid)
  }

  ghost predicate ExactCmds(cs: seq<CmdRec>, a: real, t0: int, cmds: seq<CmdRec>)
    requires a != 0.0
  {
    |cmds| == |cs| && forall i | 0 <= i < |cs| :: cmds[i] == CmdRec(RealTime(t0, cs[i].t, a), cs[i].mid)
  }

  /** The times of a steady clock are put right; commands are then moved back by the median
      turnaround exactly when their clock is steady at a rate a thousandth off the states'. */
  ghost predicate PutRight(ss: seq<StateRec>, cs: seq<CmdRec>, t0: int, states: seq<StateRec>, cmds: seq<CmdRec>) {
    && (forall a: real | SteadyStates(ss, a) :: ExactStates(ss, a, t0, states))
    && (forall b: real | SteadyCmds(cs, b) :: exists before ::
          ExactCmds(cs, b, t0, before) && (cmds == before || cmds == Shifted(before, Alignment(states, before))))
    && (forall a: real, b: real | SteadyStates(ss, a) && SteadyCmds(cs, b) :: exists before ::
          && ExactCmds(cs, b, t0, before)
          && cmds == if Abs(b - a) > a / 1000.0 then Shifted(before, Alignment(states, before)) else before)
  }

  /** Between two states that no shift comes between, robot and corrected capture agree to the
      nanosecond, whatever the rate was and whatever rounding did. */
  lemma MillisecondsApart(ss: seq<StateRec>, a: real, t0: int, states: seq<StateRec>, i: nat, j: nat, k: nat)
    requires 0.0 < a && ExactStates(ss, a, t0, states) && i < |ss| && j < |ss|
    requires ss[j].mid == ss[i].mid + k && (ss[j].tFirst - ss[i].tFirst) as real == a * k as real
    ensures states[j].tFirst - states[i].tFirst == k * 1_000_000
  {
    RealTimeMoves(t0, ss[i].tFirst, ss[j].tFirst, a, k);
  }

  lemma QuotientIs(p: real, q: real, a: real)
    requires a != 0.0 && q * a == p
    ensures p / a == q
  {
  }

  lemma RateCancels(x: real, z: real, k: real, a: real)
    requires a != 0.0 && z == x + a * k
    ensures z * 1000000.0 / a == x * 1000000.0 / a + k * 1000000.0
  {
    var y := x * 1000000.0 / a;
    assert y * a == x * 1000000.0;
    assert (y + k * 1000000.0) * a == y * a + k * a * 1000000.0;
    QuotientIs(z * 1000000.0, y + k * 1000000.0, a);
  }

  lemma RealTimeMoves(t0: int, t: int, u: int, a: real, k: nat)
    requires a != 0.0 && (u - t) as real == a * k as real
    ensures RealTime(t0, u, a) == RealTime(t0, t, a) + k * 1_000_000
  {
    hide Round;
    var x, z := (t - t0) as real, (u - t0) as real;
    RateCancels(x, z, k as real, a);
    assert k as real * 1000000.0 == (2 * (k * 500_000)) as real;
    RoundMovesBy(x * 1000000.0 / a, k * 500_000);
  }

  /** Rounding half to even moves with an even number. */
  lemma RoundMovesBy(x: real, m: int)
    ensures Round(x + (2 * m) as real) == Round(x) + 2 * m
  {
    assert (x + (2 * m) as real).Floor == x.Floor + 2 * m;
    assert (x.Floor + 2 * m) % 2 == x.Floor % 2;
  }

  lemma StatesOnLine(ss: seq<StateRec>, a: real, shift: seq<real>)
    requires |shift| == |ss| && forall i, j | 0 <= i < j < |ss| :: ss[i].mid < ss[j].mid
    requires forall i | 0 <= i < |ss| :: ss[i].tFirst as real == a * ss[i].mid as real + shift[i]
    ensures ClockFit.StrictlyIncreasing(StateMids(ss)) && ClockFit.OnLine(StateMids(ss), StateTimes(ss), a, shift)
  {
  }

  lemma StatesAreFitted(ss: seq<StateRec>, a: real)
    requires SteadyStates(ss, a)
    ensures StateScale(Auto, ss) == a / 1000000.0
  {
    hide ClockFit.FitClockScale, ClockFit.Changes, ClockFit.OnLine, ClockFit.StrictlyIncreasing;
    var shift: seq<real> :| |shift| == |ss| && ClockFit.Changes(shift, |ss| - 1) <= 9
      && forall i | 0 <= i < |ss| :: ss[i].tFirst as real == a * ss[i].mid as real + shift[i];
    StatesOnLine(ss, a, shift);
    hide SteadyStates;
    ClockFit.ExactUpToNineShifts(StateMids(ss), StateTimes(ss), a, shift);
  }

  lemma CmdsOnLine(cs: seq<CmdRec>, a: real, shift: seq<real>)
    requires |shift| == |cs| && forall i, j | 0 <= i < j < |cs| :: cs[i].mid < cs[j].mid
    requires forall i | 0 <= i < |cs| :: cs[i].t as real == a * cs[i].mid as real + shift[i]
    ensures ClockFit.StrictlyIncreasing(CmdMids(cs)) && ClockFit.OnLine(CmdMids(cs), CmdTimes(cs), a, shift)
  {
  }

  lemma CmdsAreFitted(cs: seq<CmdRec>, a: real)
    requires SteadyCmds(cs, a)
    ensures CmdScale(Auto, cs) == a / 1000000.0
  {
    hide ClockFit.FitClockScale, ClockFit.Changes, ClockFit.OnLine, ClockFit.StrictlyIncreasing;
    var shift: seq<real> :| |shift| == |cs| && ClockFit.Changes(shift, |cs| - 1) <= 9
      && forall i | 0 <= i < |cs| :: cs[i].t as real == a * cs[i].mid as real + shift[i];
    CmdsOnLine(cs, a, shift);
    hide SteadyCmds;
    ClockFit.ExactUpToNineShifts(CmdMids(cs), CmdTimes(cs), a, shift);
  }

  lemma ScaledIsRealTime(t0: int, t: int, a: real)
    requires a != 0.0
    ensures a / 1000000.0 != 0.0 && Scaled(t0, t, a / 1000000.0) == RealTime(t0, t, a)
  {
    var x, q := (t - t0) as real, (t - t0) as real * 1000000.0 / a;
    assert q * a == x * 1000000.0;
    QuotientIs(x, q, a / 1000000.0);
  }

  lemma ScaledIsExact(ss: seq<StateRec>, cs: seq<CmdRec>, t0: int, a: real)
    requires a != 0.0
    ensures a / 1000000.0 != 0.0
    ensures ExactStates(ss, a, t0, ScaledStates(ss, t0, a / 1000000.0))
    ensures ExactCmds(cs, a, t0, ScaledCmds(cs, t0, a / 1000000.0))
  {
    forall t: int ensures Scaled(t0, t, a / 1000000.0) == RealTime(t0, t, a) {
      ScaledIsRealTime(t0, t, a);
    }
    hide Scaled, RealTime;
  }

  lemma StatesPutRight(ss: seq<StateRec>, cs: seq<CmdRec>, t0: int, states: seq<StateRec>, cmds: seq<CmdRec>,
                       a: real)
    requires Tabulated(ss, cs, Auto, t0, states, cmds) && SteadyStates(ss, a)
    ensures ExactStates(ss, a, t0, states)
  {
    StatesAreFitted(ss, a);
    hide ScaledStates, ScaledCmds, StateScale, CmdScale, ExactStates;
    ScaledIsExact(ss, cs, t0, a);
  }

  lemma CmdsPutRight(ss: seq<StateRec>, cs: seq<CmdRec>, t0: int, states: seq<StateRec>, cmds: seq<CmdRec>, b: real)
    returns (before: seq<CmdRec>)
    requires Tabulated(ss, cs, Auto, t0, states, cmds) && SteadyCmds(cs, b)
    ensures ExactCmds(cs, b, t0, before) && (cmds == before || cmds == Shifted(before, Alignment(states, before)))
    ensures forall a: real | SteadyStates(ss, a) ::
              cmds == if Abs(b - a) > a / 1000.0 then Shifted(before, Alignment(states, before)) else before
  {
    CmdsAreFitted(cs, b);
    before := ScaledCmds(cs, t0, b / 1000000.0);
    hide ScaledStates, ScaledCmds, StateScale, CmdScale, ExactCmds, Shifted, Alignment, SteadyCmds;
    ScaledIsExact(ss, cs, t0, b);
    forall a: real | SteadyStates(ss, a)
      ensures cmds == if Abs(b - a) > a / 1000.0 then Shifted(before, Alignment(states, before)) else before
    {
      StatesAreFitted(ss, a);
      assert SplitClocks(Auto, a / 1000000.0, b / 1000000.0) <==> Abs(b - a) > a / 1000.0;
    }
  }

  /** What `--clock-scale auto` is for. */
  lemma AutoPutsRight(ss: seq<StateRec>, cs: seq<CmdRec>, t0: int, states: seq<StateRec>, cmds: seq<CmdRec>)
    requires Tabulated(ss, cs, Auto, t0, states, cmds)
    ensures PutRight(ss, cs, t0, states, cmds)
  {
    hide Tabulated, Alignment, ExactStates, ExactCmds, Shifted;
    forall a: real | SteadyStates(ss, a) ensures ExactStates(ss, a, t0, states) {
      StatesPutRight(ss, cs, t0, states, cmds, a);
    }
    forall b: real | SteadyCmds(cs, b)
      ensures exists before ::
                ExactCmds(cs, b, t0, before) && (cmds == before || cmds == Shifted(before, Alignment(states, before)))
      ensures forall a: real | SteadyStates(ss, a) :: exists before ::
                && ExactCmds(cs, b, t0, before)
                && cmds == if Abs(b - a) > a / 1000.0 then Shifted(before, Alignment(states, before)) else before
    {
      var before := CmdsPutRight(ss, cs, t0, states, cmds, b);
    }
  }

  /** From the records in arrival order to the tables: whatever rates the clocks are scaled by in
      between, and aligned or not, the tables are the exhaustive ones of the records that result;
      but not for a negative rate together with a threshold that is not positive. */
  method GapTables(states: array<StateRec>, cmds: array<CmdRec>, scale: real, cmdScale: real, split: bool,
                   gapNs: int, burstNs: int, matchNs: int)
    returns (gaps: seq<Gap>, cgs: seq<CmdGap>, unmatched: nat)
    requires InTimeOrder(states[..]) && scale != 0.0 && cmdScale != 0.0
    modifies states, cmds
    ensures exists t0 :: && (states.Length != 0 || cmds.Length != 0 ==> IsOrigin(t0, old(states[..]), old(cmds[..])))
                         && states[..] == ScaledStates(old(states[..]), t0, scale)
                         && cmds[..] == Aligned(states[..], ScaledCmds(old(cmds[..]), t0, cmdScale), split)
    ensures 0.0 < scale ==> InTimeOrder(states[..])
    ensures 0.0 < scale || 0 < gapNs ==>
              && gaps == GapsIn(states[..], states.Length, gapNs, burstNs)
              && cgs == CmdGapsIn(cmds[..], cmds.Length, gaps, gapNs, matchNs)
    ensures unmatched == Unmatched(cgs)
  {
    hide Alignment, Shifted, GapsIn, CmdGapsIn, Unmatched, IsOrigin;
    ghost var ss, cs := states[..], cmds[..];
    ghost var t0 := 0;
    if scale != 1.0 || cmdScale != 1.0 {
      t0 := ApplyClockScale(states, cmds, scale, cmdScale);
    } else {
      t0 := LeastTime(ss, cs);
      ScaleOfOne(ss, cs, t0);
    }
    if 0.0 < scale {
      StatesStayInOrder(ss, t0, scale);
    } else {
      NegativeScaleReverses(ss, cs, t0, scale);
    }
    hide ScaledStates, ScaledCmds, InTimeOrder, BackwardsInTime;
    assert 0.0 < scale || 0 < gapNs ==> Tabulable(states[..], gapNs);
    if split {
      AlignCmds(states[..], cmds);
    }
    gaps := StateGaps(states[..], gapNs, burstNs);
    cgs, unmatched := CommandGaps(cmds[..], gaps, gapNs, matchNs);
  }

  predicate AnyRecord(received: seq<Received>) {
    StatesOf(ByArrival(received)) != [] || CmdsOf(ByArrival(received)) != []
  }

  /** `analyze`, from the datagrams in whatever order they were completed: sorted, split, scaled,
      aligned and tabulated. It fails exactly when it is to divide some timestamp by zero. The tables
      are otherwise the exhaustive ones of the records that result, but for a negative factor with a
      threshold that is not positive. */
  method Analyze(received: seq<Received>, mode: ClockMode, gapNs: int, burstNs: int, matchNs: int)
    returns (failed: bool, states: seq<StateRec>, cmds: seq<CmdRec>, gaps: seq<Gap>, cgs: seq<CmdGap>, unmatched: nat)
    ensures failed <==> mode == Fixed(0.0) && AnyRecord(received)
    ensures mode == Fixed(0.0) ==> states == [] && cmds == [] && gaps == [] && cgs == []
    ensures var ds := ByArrival(received);
            mode != Fixed(0.0) ==> exists t0 ::
              && Tabulated(StatesOf(ds), CmdsOf(ds), mode, t0, states, cmds)
              && (mode.Auto? ==> PutRight(StatesOf(ds), CmdsOf(ds), t0, states, cmds))
    ensures !mode.Fixed? || 0.0 < mode.factor || 0 < gapNs ==>
              && gaps == GapsIn(states, |states|, gapNs, burstNs)
              && cgs == (if states == [] then [] else CmdGapsIn(cmds, |cmds|, gaps, gapNs, matchNs))
    ensures !mode.Fixed? || 0.0 < mode.factor ==> InTimeOrder(states)
    ensures mode.Fixed? && mode.factor < 0.0 && 0 < gapNs ==> gaps == [] && cgs == []
    ensures unmatched == Unmatched(cgs)
  {
    hide ScaledStates, ScaledCmds, Aligned, StateScale, CmdScale, CmdGapsIn, StatesOf, CmdsOf, InTimeOrder, IsOrigin,
      PutRight;
    var ds := ByArrival(received);
    ByArrivalKeeps(received);
    RecordsInOrder(ds);
    var ss, cs, _ := Split(ds);
    if mode == Fixed(0.0) {
      EmptyIsInOrder();
      return |ss| != 0 || |cs| != 0, [], [], [], [], 0;
    }
    var scale, cmdScale := StateScale(mode, ss), CmdScale(mode, cs);
    ScalesArePositive(mode, ss, cs);
    var sa := new StateRec[|ss|](i requires 0 <= i < |ss| => ss[i]);
    var ca := new CmdRec[|cs|](i requires 0 <= i < |cs| => cs[i]);
    assert sa[..] == ss && ca[..] == cs;
    gaps, cgs, unmatched := GapTables(sa, ca, scale, cmdScale, SplitClocks(mode, scale, cmdScale), gapNs, burstNs,
                                      matchNs);
    failed, states, cmds := false, sa[..], ca[..];
    ghost var t0 :| (sa.Length != 0 || ca.Length != 0 ==> IsOrigin(t0, ss, cs))
      && sa[..] == ScaledStates(ss, t0, scale)
      && ca[..] == Aligned(sa[..], ScaledCmds(cs, t0, cmdScale), SplitClocks(mode, scale, cmdScale));
    assert Tabulated(ss, cs, mode, t0, states, cmds);
    if mode.Auto? {
      AutoPutsRight(ss, cs, t0, states, cmds);
    }
    if |ss| == 0 {
      cgs, unmatched := [], 0;
    }
    if mode.Fixed? && mode.factor < 0.0 && 0 < gapNs {
      EmptyTables(ss, cs, states, cmds, t0, mode.factor, gaps, gapNs, burstNs, matchNs);
    }
  }

  lemma EmptyTables(ss: seq<StateRec>, cs: seq<CmdRec>, states: seq<StateRec>, cmds: seq<CmdRec>, t0: int, factor: real,
                    gaps: seq<Gap>, gapNs: int, burstNs: int, matchNs: int)
    requires factor < 0.0 && 0 < gapNs && InTimeOrder(ss) && CmdsInOrder(cs)
    requires states == ScaledStates(ss, t0, factor) && cmds == Aligned(states, ScaledCmds(cs, t0, factor), false)
    ensures GapsIn(states, |states|, gapNs, burstNs) == [] && CmdGapsIn(cmds, |cmds|, gaps, gapNs, matchNs) == []
  {
    hide GapsIn, CmdGapsIn, Scaled;
    NegativeScaleReverses(ss, cs, t0, factor);
    NoGapsBackwards(states, |states|, gapNs, burstNs);
    NoCmdGapsBackwards(cmds, |cmds|, gaps, gapNs, matchNs);
  }

  lemma EmptyIsInOrder()
    ensures InTimeOrder([])
  {
  }

  // ---------------------------------------------------------------------------------------
  // What a fixed factor does to the gap table
  // ---------------------------------------------------------------------------------------

  /** Some capture has a gap in its table at this factor. */
  ghost predicate CanListGaps(factor: real, gapNs: int, burstNs: int)
    requires factor != 0.0
  {
    exists ss: seq<StateRec>, t0: int ::
      InTimeOrder(ss) && GapsIn(ScaledStates(ss, t0, factor), |ss|, gapNs, burstNs) != []
  }

  function TwoStates(t: int): seq<StateRec> {
    [StateRec(0, 0, 0), StateRec(t, t, 1)]
  }

  lemma TwoStatesTable(t: int, factor: real, gapNs: int, burstNs: int)
    requires factor != 0.0
    ensures GapsIn(ScaledStates(TwoStates(t), 0, factor), 2, gapNs, burstNs) != [] <==> gapNs <= Scaled(0, t, factor)
  {
    OriginScales(0, factor);
    hide Scaled;
    var states := ScaledStates(TwoStates(t), 0, factor);
    assert |states| == 2 && states[0].tFirst == 0 && states[1].tFirst == Scaled(0, t, factor);
    assert GapsIn(states, 1, gapNs, burstNs) == [];
  }

  lemma LongEnough(factor: real, gapNs: int)
    requires 0.0 < factor && 0 < gapNs
    ensures gapNs <= Scaled(0, (gapNs as real * factor).Floor + 1, factor)
  {
    var t := (gapNs as real * factor).Floor + 1;
    QuotientMonotone(gapNs as real * factor, t as real, factor);
    assert gapNs as real * factor / factor == gapNs as real;
    RoundMonotone(gapNs as real, t as real / factor);
  }

  /** A factor of either sign: some capture has a gap listed if and only if the factor is positive.
      At a negative one the table of every capture is empty. */
  lemma FactorListsGapsExactly(factor: real, gapNs: int, burstNs: int)
    requires factor != 0.0 && 0 < gapNs
    ensures CanListGaps(factor, gapNs, burstNs) <==> 0.0 < factor
  {
    hide Scaled, GapsIn;
    if 0.0 < factor {
      var t := (gapNs as real * factor).Floor + 1;
      LongEnough(factor, gapNs);
      TwoStatesTable(t, factor, gapNs, burstNs);
      NotNegative(factor, gapNs);
      assert InTimeOrder(TwoStates(t)) && |TwoStates(t)| == 2;
    } else {
      forall ss: seq<StateRec>, t0: int | InTimeOrder(ss)
        ensures GapsIn(ScaledStates(ss, t0, factor), |ss|, gapNs, burstNs) == []
      {
        NegativeScaleReverses(ss, [], t0, factor);
        NoGapsBackwards(ScaledStates(ss, t0, factor), |ss|, gapNs, burstNs);
      }
    }
  }

  lemma NotNegative(factor: real, gapNs: int)
    requires 0.0 < factor && 0 < gapNs
    ensures 0 <= (gapNs as real * factor).Floor
  {
    assert 0.0 <= gapNs as real * factor;
  }

  /** And of one capture at one factor of either sign: the table is empty if and only if no two
      states in a row are a threshold apart once rescaled. */
  lemma {:induction false} TableIsEmptyExactly(states: seq<StateRec>, n: nat, gapNs: int, burstNs: int)
    requires n <= |states|
    ensures GapsIn(states, n, gapNs, burstNs) == [] <==>
            forall i | 1 <= i < n :: states[i].tFirst - states[i - 1].tFirst < gapNs
  {
    hide GapAt;
    if n > 1 {
      TableIsEmptyExactly(states, n - 1, gapNs, burstNs);
      var front := GapsIn(states, n - 1, gapNs, burstNs);
      if states[n - 1].tFirst - states[n - 2].tFirst < gapNs {
        assert GapsIn(states, n, gapNs, burstNs) == front;
      } else {
        assert GapsIn(states, n, gapNs, burstNs) == front + [GapAt(states, n - 1, burstNs)];
      }
    }
  }

  /** Two states 7 ms apart, at a threshold of 1.5 ms: listed as they are, not at a factor of -1. */
  lemma SevenMilliseconds(burstNs: int)
    ensures var states := TwoStates(7_000_000);
            && InTimeOrder(states)
            && GapsIn(ScaledStates(states, 0, 1.0), 2, 1_500_000, burstNs) != []
            && GapsIn(ScaledStates(states, 0, -1.0), 2, 1_500_000, burstNs) == []
  {
    TwoStatesTable(7_000_000, 1.0, 1_500_000, burstNs);
    TwoStatesTable(7_000_000, -1.0, 1_500_000, burstNs);
    assert Round(7_000_000.0 / 1.0) == 7_000_000 && Round(7_000_000.0 / -1.0) == -7_000_000;
  }
}

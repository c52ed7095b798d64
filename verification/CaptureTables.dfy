/** What the rows of the capture tables say about the datagrams they were made from. */
module CaptureTables {
  import opened Wrappers
  import opened CaptureAnalysis
  import ClockFit

  // ---------------------------------------------------------------------------------------
  // States and commands
  // ---------------------------------------------------------------------------------------

  /** A record is a state as often as a datagram from the robot with its id and times was received. */
  lemma {:induction false} StatesAreReceived(ds: seq<Received>, s: StateRec)
    ensures multiset(StatesOf(ds))[s] == multiset(ds)[Received(s.tFirst, s.tLast, FromRobot, Some(s.mid))]
  {
    if ds != [] {
      StatesAreReceived(ds[..|ds| - 1], s);
      assert ds == ds[..|ds| - 1] + [ds[|ds| - 1]];
    }
  }

  /** A record is a command exactly when a datagram to the robot with its id came at its time. */
  lemma {:induction false} CmdsAreReceived(ds: seq<Received>, c: CmdRec)
    ensures c in CmdsOf(ds) <==>
            exists d | d in ds :: d.direction == ToRobot && d.mid == Some(c.mid) && d.tFirst == c.t
  {
    if ds != [] {
      var front, d := ds[..|ds| - 1], ds[|ds| - 1];
      CmdsAreReceived(front, c);
      assert d in ds && forall e | e in ds :: e in front || e == d;
      assert forall e | e in front :: e in ds;
    }
  }

  /** One after the other: the records of a capture in two parts are those of the parts, in order. */
  lemma {:induction false} RecordsOfParts(a: seq<Received>, b: seq<Received>)
    ensures StatesOf(a + b) == StatesOf(a) + StatesOf(b) && CmdsOf(a + b) == CmdsOf(a) + CmdsOf(b)
    decreases |b|
  {
    if b == [] {
      assert a + b == a;
    } else {
      RecordsOfParts(a, b[..|b| - 1]);
      assert (a + b)[..|a + b| - 1] == a + b[..|b| - 1];
    }
  }

  /** And every datagram is one state, one command or neither. */
  lemma OneRecordEach(d: Received)
    ensures StatesOf([d]) == if d.direction == FromRobot && d.mid.Some?
                             then [StateRec(d.tFirst, d.tLast, d.mid.value)] else []
    ensures CmdsOf([d]) == if d.direction == ToRobot && d.mid.Some? then [CmdRec(d.tFirst, d.mid.value)] else []
  {
    assert [d][..0] == [];
  }

  // ---------------------------------------------------------------------------------------
  // State gaps
  // ---------------------------------------------------------------------------------------

  /** The states after the `i`-th that came within `burstNs` of it. */
  function Following(states: seq<StateRec>, i: nat, burstNs: int): set<nat>
    requires i < |states|
  {
    set k: nat | i < k < |states| && states[k].tFirst - states[i].tFirst <= burstNs
  }

  lemma {:induction false} CountIsSize(states: seq<StateRec>, j: nat, limit: int)
    requires j <= |states|
    ensures CountUpTo(states, j, limit) == |set k: nat | j <= k < |states| && states[k].tFirst <= limit|
    decreases |states| - j
  {
    var all := set k: nat | j <= k < |states| && states[k].tFirst <= limit;
    if j < |states| {
      CountIsSize(states, j + 1, limit);
      var rest := set k: nat | j + 1 <= k < |states| && states[k].tFirst <= limit;
      assert all == if states[j].tFirst <= limit then rest + {j} else rest;
    }
  }

  /** State `i` came at least `gapNs` after the one before, and the row says how long, between which
      ids and times, and how many states followed within `burstNs`. */
  ghost predicate Describes(g: Gap, states: seq<StateRec>, i: nat, gapNs: int, burstNs: int)
    requires 1 <= i < |states|
  {
    && g.index == i && g.gap == states[i].tFirst - states[i - 1].tFirst >= gapNs
    && (g.consecutive <==> states[i].mid - states[i - 1].mid == 1)
    && g.burst == |Following(states, i, burstNs)|
    && g.tBefore == states[i - 1].tFirst && g.tAfter == states[i].tFirst
  }

  ghost predicate HasGap(gaps: seq<Gap>, states: seq<StateRec>, i: nat, gapNs: int, burstNs: int)
    requires 1 <= i < |states|
  {
    exists g | g in gaps :: Describes(g, states, i, gapNs, burstNs)
  }

  /** Every row of the gap table describes a state, every state at least `gapNs` late has its row, and
      the rows are in order, so that each has one. */
  lemma {:induction false} GapRows(states: seq<StateRec>, n: nat, gapNs: int, burstNs: int)
    requires n <= |states|
    ensures var gaps := GapsIn(states, n, gapNs, burstNs);
            && (forall g | g in gaps :: 1 <= g.index < n && Describes(g, states, g.index, gapNs, burstNs))
            && (forall i | 1 <= i < n && states[i].tFirst - states[i - 1].tFirst >= gapNs ::
                  HasGap(gaps, states, i, gapNs, burstNs))
            && (forall i, j | 0 <= i < j < |gaps| :: gaps[i].index < gaps[j].index)
  {
    hide Describes, GapAt;
    if n > 1 {
      GapRows(states, n - 1, gapNs, burstNs);
      var front, gaps := GapsIn(states, n - 1, gapNs, burstNs), GapsIn(states, n, gapNs, burstNs);
      assert forall g | g in front :: g in gaps;
      forall i | 1 <= i < n - 1 && states[i].tFirst - states[i - 1].tFirst >= gapNs
        ensures HasGap(gaps, states, i, gapNs, burstNs)
      {
        assert HasGap(front, states, i, gapNs, burstNs);
      }
      if states[n - 1].tFirst - states[n - 2].tFirst >= gapNs {
        RowDescribes(states, n - 1, gapNs, burstNs);
        var last := gaps[|gaps| - 1];
        assert last.index == n - 1 && last in gaps;
        assert HasGap(gaps, states, n - 1, gapNs, burstNs);
      } else {
        assert gaps == front;
      }
    }
  }

  lemma RowDescribes(states: seq<StateRec>, i: nat, gapNs: int, burstNs: int)
    requires 1 <= i < |states|
    requires states[i].tFirst - states[i - 1].tFirst >= gapNs
    ensures GapAt(states, i, burstNs).index == i && Describes(GapAt(states, i, burstNs), states, i, gapNs, burstNs)
  {
    CountIsSize(states, i + 1, states[i].tFirst + burstNs);
    assert Following(states, i, burstNs) ==
           set k: nat | i + 1 <= k < |states| && states[k].tFirst <= states[i].tFirst + burstNs;
  }

  // ---------------------------------------------------------------------------------------
  // Command gaps
  // ---------------------------------------------------------------------------------------

  /** A state gap that overlaps the silence before command `i`, `matchNs` allowed on either side. */
  ghost predicate Overlaps(g: Gap, cmds: seq<CmdRec>, i: nat, matchNs: int)
    requires 1 <= i < |cmds|
  {
    cmds[i - 1].t - matchNs <= g.tAfter && g.tBefore <= cmds[i].t + matchNs
  }

  /** Command `i` came at least `gapNs` after the one before; the row says how long, and the first
      state gap that overlaps, if one does. */
  ghost predicate DescribesCmd(cg: CmdGap, cmds: seq<CmdRec>, i: nat, gaps: seq<Gap>, gapNs: int, matchNs: int)
    requires 1 <= i < |cmds|
  {
    && cg.index == i && cg.gap == cmds[i].t - cmds[i - 1].t >= gapNs
    && (cg.matched.None? <==> forall g | g in gaps :: !Overlaps(g, cmds, i, matchNs))
    && (cg.matched.Some? ==> exists k | 0 <= k < |gaps| ::
          && gaps[k] == cg.matched.value && Overlaps(gaps[k], cmds, i, matchNs)
          && forall j | 0 <= j < k :: !Overlaps(gaps[j], cmds, i, matchNs))
  }

  lemma {:induction false} FirstMatchIsFirst(gaps: seq<Gap>, lo: int, hi: int, matchNs: int, k: nat)
    requires k <= |gaps|
    ensures FirstMatch(gaps, lo, hi, matchNs, k).Some? ==>
              exists i | k <= i < |gaps| ::
                && gaps[i] == FirstMatch(gaps, lo, hi, matchNs, k).value
                && lo - matchNs <= gaps[i].tAfter && gaps[i].tBefore <= hi + matchNs
                && forall j | k <= j < i :: !(lo - matchNs <= gaps[j].tAfter && gaps[j].tBefore <= hi + matchNs)
    decreases |gaps| - k
  {
    if k < |gaps| {
      FirstMatchIsFirst(gaps, lo, hi, matchNs, k + 1);
      if !LinesUp(gaps[k], lo, hi, matchNs) && FirstMatch(gaps, lo, hi, matchNs, k).Some? {
        var i :| k + 1 <= i < |gaps|
          && gaps[i] == FirstMatch(gaps, lo, hi, matchNs, k).value
          && lo - matchNs <= gaps[i].tAfter && gaps[i].tBefore <= hi + matchNs
          && forall j | k + 1 <= j < i :: !(lo - matchNs <= gaps[j].tAfter && gaps[j].tBefore <= hi + matchNs);
        assert k <= i < |gaps|;
      }
    }
  }

  lemma CmdRowDescribes(cmds: seq<CmdRec>, i: nat, gaps: seq<Gap>, gapNs: int, matchNs: int)
    requires 1 <= i < |cmds| && cmds[i].t - cmds[i - 1].t >= gapNs
    ensures var lo, hi := cmds[i - 1].t, cmds[i].t;
            DescribesCmd(CmdGap(i, hi - lo, FirstMatch(gaps, lo, hi, matchNs, 0)), cmds, i, gaps, gapNs, matchNs)
  {
    var lo, hi := cmds[i - 1].t, cmds[i].t;
    FirstMatchMeaning(gaps, lo, hi, matchNs, 0);
    FirstMatchIsFirst(gaps, lo, hi, matchNs, 0);
    hide FirstMatch;
    assert forall g | g in gaps :: LinesUp(g, lo, hi, matchNs) <==> Overlaps(g, cmds, i, matchNs);
  }

  /** A row in the table for each command that came late enough, in order. */
  ghost predicate HasRow(cgs: seq<CmdGap>, cmds: seq<CmdRec>, i: nat, gaps: seq<Gap>, gapNs: int, matchNs: int)
    requires 1 <= i < |cmds|
  {
    exists cg | cg in cgs :: DescribesCmd(cg, cmds, i, gaps, gapNs, matchNs)
  }

  /** Every row describes a command, every command at least `gapNs` late has its row, and the rows
      are in order, so that each has one. */
  lemma {:induction false} CmdGapRows(cmds: seq<CmdRec>, n: nat, gaps: seq<Gap>, gapNs: int, matchNs: int)
    requires n <= |cmds|
    ensures var cgs := CmdGapsIn(cmds, n, gaps, gapNs, matchNs);
            && (forall cg | cg in cgs ::
                  1 <= cg.index < n && DescribesCmd(cg, cmds, cg.index, gaps, gapNs, matchNs))
            && (forall i | 1 <= i < n && cmds[i].t - cmds[i - 1].t >= gapNs ::
                  HasRow(cgs, cmds, i, gaps, gapNs, matchNs))
            && (forall i, j | 0 <= i < j < |cgs| :: cgs[i].index < cgs[j].index)
  {
    hide DescribesCmd, FirstMatch;
    if n > 1 {
      CmdGapRows(cmds, n - 1, gaps, gapNs, matchNs);
      var front, cgs := CmdGapsIn(cmds, n - 1, gaps, gapNs, matchNs), CmdGapsIn(cmds, n, gaps, gapNs, matchNs);
      assert forall cg | cg in front :: cg in cgs;
      forall i | 1 <= i < n - 1 && cmds[i].t - cmds[i - 1].t >= gapNs
        ensures HasRow(cgs, cmds, i, gaps, gapNs, matchNs)
      {
        assert HasRow(front, cmds, i, gaps, gapNs, matchNs);
      }
      if cmds[n - 1].t - cmds[n - 2].t >= gapNs {
        CmdRowDescribes(cmds, n - 1, gaps, gapNs, matchNs);
        var last := cgs[|cgs| - 1];
        assert last.index == n - 1 && last in cgs;
        assert HasRow(cgs, cmds, n - 1, gaps, gapNs, matchNs);
      } else {
        assert cgs == front;
      }
    }
  }

  /** The unmatched rows, counted. */
  lemma {:induction false} UnmatchedCounts(cgs: seq<CmdGap>)
    ensures Unmatched(cgs) == |set i: nat | i < |cgs| && cgs[i].matched == None|
  {
    if cgs != [] {
      var front := cgs[..|cgs| - 1];
      UnmatchedCounts(front);
      var here, there := set i: nat | i < |cgs| && cgs[i].matched == None,
          set i: nat | i < |front| && front[i].matched == None;
      assert here == if cgs[|cgs| - 1].matched == None then there + {|front|} else there;
    }
  }

  // ---------------------------------------------------------------------------------------
  // Alignment
  // ---------------------------------------------------------------------------------------

  /** The id's last state came at `t`. */
  ghost predicate LastArrival(states: seq<StateRec>, mid: nat, t: int) {
    exists i | 0 <= i < |states| ::
      states[i].mid == mid && states[i].tFirst == t && forall j | i < j < |states| :: states[j].mid != mid
  }

  lemma LastArrivalStays(states: seq<StateRec>, last: StateRec, mid: nat, t: int)
    requires LastArrival(states, mid, t) && last.mid != mid
    ensures LastArrival(states + [last], mid, t)
  {
    var i :| 0 <= i < |states| && states[i].mid == mid && states[i].tFirst == t
             && forall j | i < j < |states| :: states[j].mid != mid;
    assert (states + [last])[i] == states[i];
  }

  lemma {:induction false} TimesAreLastArrivals(states: seq<StateRec>, mid: nat)
    ensures mid in TimesById(states) <==> exists s | s in states :: s.mid == mid
    ensures mid in TimesById(states) ==> LastArrival(states, mid, TimesById(states)[mid])
  {
    if states != [] {
      var front, last := states[..|states| - 1], states[|states| - 1];
      TimesAreLastArrivals(front, mid);
      assert last in states && states == front + [last];
      assert forall s | s in states :: s in front || s == last;
      if last.mid == mid {
        assert states[|front|].mid == mid;
      } else if mid in TimesById(front) {
        LastArrivalStays(front, last, mid, TimesById(front)[mid]);
        hide LastArrival;
      }
    }
  }

  /** `d` is how long after the last state of its id some command came. */
  ghost predicate IsTurnaround(states: seq<StateRec>, c: CmdRec, d: real) {
    exists t: int :: LastArrival(states, c.mid, t) && d == (c.t - t) as real
  }

  /** The commands that carry the id of a state. */
  function Answering(states: seq<StateRec>, cmds: seq<CmdRec>): set<nat> {
    set i: nat | i < |cmds| && (exists s | s in states :: s.mid == cmds[i].mid)
  }

  /** The turnarounds are those of the commands that answer a state. */
  lemma {:induction false} TurnaroundsMean(states: seq<StateRec>, cmds: seq<CmdRec>)
    ensures forall d | d in Turnarounds(cmds, TimesById(states)) :: exists c | c in cmds :: IsTurnaround(states, c, d)
  {
    hide TimesById, LastArrival, IsTurnaround;
    if cmds != [] {
      var front, c := cmds[..|cmds| - 1], cmds[|cmds| - 1];
      TurnaroundsMean(states, front);
      assert c in cmds && forall b | b in front :: b in cmds;
      if c.mid in TimesById(states) {
        TurnaroundOfCmd(states, c);
      }
    }
  }

  lemma TurnaroundOfCmd(states: seq<StateRec>, c: CmdRec)
    requires c.mid in TimesById(states)
    ensures IsTurnaround(states, c, (c.t - TimesById(states)[c.mid]) as real)
  {
    TimesAreLastArrivals(states, c.mid);
    hide TimesById, LastArrival;
  }

  /** And each command that answers a state has one. */
  lemma {:induction false} TurnaroundsAreAll(states: seq<StateRec>, cmds: seq<CmdRec>)
    ensures |Turnarounds(cmds, TimesById(states))| == |Answering(states, cmds)|
  {
    if cmds != [] {
      var front, c := cmds[..|cmds| - 1], cmds[|cmds| - 1];
      TurnaroundsAreAll(states, front);
      TimesAreLastArrivals(states, c.mid);
      hide TimesById, LastArrival;
      var rest := Answering(states, front);
      assert Answering(states, cmds) == if c.mid in TimesById(states) then rest + {|front|} else rest;
    }
  }

  function Lowered(v: seq<real>, d: real): seq<real> {
    seq(|v|, i requires 0 <= i < |v| => v[i] - d)
  }

  lemma {:induction false} ShiftLowersTurnarounds(cmds: seq<CmdRec>, byId: map<nat, int>, shift: int)
    ensures Turnarounds(Shifted(cmds, shift), byId) == Lowered(Turnarounds(cmds, byId), shift as real)
  {
    if cmds != [] {
      var front := cmds[..|cmds| - 1];
      ShiftLowersTurnarounds(front, byId, shift);
      assert Shifted(cmds, shift)[..|cmds| - 1] == Shifted(front, shift);
    }
  }

  lemma {:induction false} InsertLowered(x: real, s: seq<real>, d: real)
    ensures ClockFit.Insert(x - d, Lowered(s, d)) == Lowered(ClockFit.Insert(x, s), d)
  {
    if s != [] {
      InsertLowered(x, s[1..], d);
      assert Lowered(s, d)[1..] == Lowered(s[1..], d);
      assert Lowered(s, d)[0] == s[0] - d;
    }
  }

  lemma {:induction false} SortedLowered(v: seq<real>, d: real)
    ensures ClockFit.Sorted(Lowered(v, d)) == Lowered(ClockFit.Sorted(v), d)
  {
    if v != [] {
      SortedLowered(v[1..], d);
      assert Lowered(v, d)[1..] == Lowered(v[1..], d);
      InsertLowered(v[0], ClockFit.Sorted(v[1..]), d);
    }
  }

  lemma MedianLowered(v: seq<real>, d: real)
    requires v != []
    ensures Lowered(v, d) != [] && Median(Lowered(v, d)) == Median(v) - d
  {
    hide ClockFit.Sorted;
    SortedLowered(v, d);
    ClockFit.SortedKeeps(v, 0.0);
  }

  lemma NothingWholeIsLeft(x: real)
    ensures Truncated(x - Truncated(x) as real) == 0
  {
  }

  /** Aligned commands are aligned: their own median turnaround, truncated, is zero. */
  lemma AlignedOnce(states: seq<StateRec>, cmds: seq<CmdRec>)
    ensures Alignment(states, Shifted(cmds, Alignment(states, cmds))) == 0
  {
    hide Turnarounds, TimesById, Median, Shifted, Truncated;
    var v, shift := Turnarounds(cmds, TimesById(states)), Alignment(states, cmds);
    ShiftLowersTurnarounds(cmds, TimesById(states), shift);
    if v != [] {
      MedianLowered(v, shift as real);
      NothingWholeIsLeft(Median(v));
    }
  }
}

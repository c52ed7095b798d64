/** The capture thread of crates/franka-cam/src/capture.rs: sequence accounting within a stream,
    and the reopening of the camera. What the device does is the input. */
module CameraStream {
  import opened Wrappers

  const U32_END: nat := 0x1_0000_0000
  const BACKOFF_MIN: nat := 200
  const BACKOFF_MAX: nat := 5000

  type U32 = n: nat | n < U32_END

  /** A dequeued frame: the driver's sequence number, the bytes published, whether the publisher
      took it and whether the driver flagged it. */
  datatype Frame = Frame(sequence: U32, bytes: nat, taken: bool, flagged: bool)

  /** How a stream ended: the stop flag was seen, no frame came in time, or a dequeue failed. */
  datatype End = Halted | Stalled | Broken(fatal: bool)

  /** One turn of the loop of `run`, with whether the stop flag was set by the end of it. */
  datatype Turn = OpenFailed(fatal: bool, stop: bool) | Session(frames: seq<Frame>, end: End, stop: bool)

  predicate Fatal(turn: Turn) {
    (turn.OpenFailed? && turn.fatal) || (turn.Session? && turn.end.Broken? && turn.end.fatal)
  }

  /** The turn is the last: it stopped the thread, or found an error no reopening cures. */
  predicate Ends(turn: Turn) {
    turn.stop || Fatal(turn)
  }

  // ---------------------------------------------------------------------------------------
  // The counters
  // ---------------------------------------------------------------------------------------

  datatype Counters = Counters(
    frames: nat, bytes: nat, driverDropped: nat, publishDropped: nat, errors: nat, reopens: nat)

  class CamStats {
    var frames: nat
    var bytes: nat
    var driverDropped: nat
    var publishDropped: nat
    var errors: nat
    var reopens: nat

    ghost function Read(): Counters
      reads this
    {
      Counters(frames, bytes, driverDropped, publishDropped, errors, reopens)
    }

    constructor ()
      ensures Read() == Counters(0, 0, 0, 0, 0, 0)
    {
      frames, bytes, driverDropped, publishDropped, errors, reopens := 0, 0, 0, 0, 0, 0;
    }

    method CountFrame(size: nat, gap: nat, flagged: bool)
      modifies this
      ensures Read() == old(Read()).(frames := old(frames) + 1, bytes := old(bytes) + size,
                                     driverDropped := old(driverDropped) + gap,
                                     errors := old(errors) + if flagged then 1 else 0)
    {
      frames := frames + 1;
      bytes := bytes + size;
      if gap != 0 {
        driverDropped := driverDropped + gap;
      }
      if flagged {
        errors := errors + 1;
      }
    }
  }

  // ---------------------------------------------------------------------------------------
  // A stream
  // ---------------------------------------------------------------------------------------

  function WrappingSub(x: U32, y: U32): U32 {
    (x - y) % U32_END
  }

  function Gap(last: Option<U32>, sequence: U32): nat {
    if last.None? then 0
    else
      var ahead := WrappingSub(sequence, last.value);
      if ahead == 0 then 0 else ahead - 1
  }

  function LastSequence(frames: seq<Frame>): Option<U32> {
    if frames == [] then None else Some(frames[|frames| - 1].sequence)
  }

  /** The gaps counted over a stream. */
  function Gaps(frames: seq<Frame>): nat {
    if frames == [] then 0
    else
      var before := frames[..|frames| - 1];
      Gaps(before) + Gap(LastSequence(before), frames[|frames| - 1].sequence)
  }

  function TotalBytes(frames: seq<Frame>): nat {
    if frames == [] then 0 else TotalBytes(frames[..|frames| - 1]) + frames[|frames| - 1].bytes
  }

  function Flagged(frames: seq<Frame>): nat {
    if frames == [] then 0 else Flagged(frames[..|frames| - 1]) + if frames[|frames| - 1].flagged then 1 else 0
  }

  function Refused(frames: seq<Frame>): nat {
    if frames == [] then 0 else Refused(frames[..|frames| - 1]) + if frames[|frames| - 1].taken then 0 else 1
  }

  function RefusedAt(frames: seq<Frame>): set<nat> {
    set i: nat | i < |frames| && !frames[i].taken
  }

  function FlaggedAt(frames: seq<Frame>): set<nat> {
    set i: nat | i < |frames| && frames[i].flagged
  }

  /** The frames the publisher refused, counted. */
  lemma {:induction false} RefusedCounts(frames: seq<Frame>)
    ensures Refused(frames) == |RefusedAt(frames)|
  {
    if frames != [] {
      var n := |frames| - 1;
      var before := RefusedAt(frames[..n]);
      RefusedCounts(frames[..n]);
      assert RefusedAt(frames) == if frames[n].taken then before else before + {n};
    }
  }

  /** The frames the driver flagged, counted. */
  lemma {:induction false} FlaggedCounts(frames: seq<Frame>)
    ensures Flagged(frames) == |FlaggedAt(frames)|
  {
    if frames != [] {
      var n := |frames| - 1;
      var before := FlaggedAt(frames[..n]);
      FlaggedCounts(frames[..n]);
      assert FlaggedAt(frames) == if frames[n].flagged then before + {n} else before;
    }
  }

  /** The bytes of two stretches of frames add up, and those of one frame are its own. */
  lemma {:induction false} BytesAddUp(a: seq<Frame>, b: seq<Frame>)
    ensures TotalBytes(a + b) == TotalBytes(a) + TotalBytes(b)
    ensures |a| == 1 ==> TotalBytes(a) == a[0].bytes
    decreases |b|
  {
    if b == [] {
      assert a + b == a;
    } else {
      BytesAddUp(a, b[..|b| - 1]);
      assert (a + b)[..|a + b| - 1] == a + b[..|b| - 1];
    }
  }

  function Streamed(c: Counters, frames: seq<Frame>): Counters {
    Counters(c.frames + |frames|, c.bytes + TotalBytes(frames), c.driverDropped + Gaps(frames),
             c.publishDropped + Refused(frames), c.errors + Flagged(frames), c.reopens)
  }

  method Stream(frames: seq<Frame>, end: End, stats: CamStats)
    modifies stats
    ensures var c := Streamed(old(stats.Read()), frames);
            stats.Read() == c.(errors := c.errors + if end.Halted? then 0 else 1)
  {
    var lastSeq: Option<U32> := None;
    for i := 0 to |frames|
      invariant stats.Read() == Streamed(old(stats.Read()), frames[..i]) && lastSeq == LastSequence(frames[..i])
    {
      var frame := frames[i];
      assert frames[..i + 1][..i] == frames[..i];
      var gap := Gap(lastSeq, frame.sequence);
      lastSeq := Some(frame.sequence);
      if !frame.taken {
        stats.publishDropped := stats.publishDropped + 1;
      }
      stats.CountFrame(frame.bytes, gap, frame.flagged);
    }
    assert frames[..|frames|] == frames;
    if !end.Halted? {
      stats.errors := stats.errors + 1;
    }
  }

  // ---------------------------------------------------------------------------------------
  // What the gaps mean
  // ---------------------------------------------------------------------------------------

  /** The driver's counter, not wrapped: it grows from frame to frame. */
  ghost predicate Counts(counter: seq<nat>, frames: seq<Frame>) {
    && |counter| == |frames|
    && (forall i | 0 <= i < |frames| :: frames[i].sequence == counter[i] % 0x1_0000_0000)
    && forall i | 0 < i < |counter| :: counter[i - 1] < counter[i]
  }

  /** The numbers the driver went through, from the first frame to the last. */
  function Span(counter: seq<nat>): int {
    if counter == [] then 0 else counter[|counter| - 1] as int - counter[0] as int + 1
  }

  /** No two frames in a row are a whole turn of the 32-bit counter apart, or more. */
  ghost predicate NeverAWholeTurn(counter: seq<nat>) {
    forall i | 0 < i < |counter| :: counter[i] < counter[i - 1] + 0x1_0000_0000
  }

  lemma WrappedDifference(x: nat, y: nat)
    requires y < x
    ensures (x % U32_END - y % U32_END) % U32_END == (x - y) % U32_END
  {
  }

  lemma GapOfStep(x: nat, y: nat)
    requires y < x
    ensures var gap := Gap(Some(y % U32_END), x % U32_END);
            1 + gap <= x - y && (1 + gap == x - y <==> x - y < U32_END)
  {
    WrappedDifference(x, y);
    var d := x - y;
    assert d % U32_END <= d && (d < U32_END ==> d % U32_END == d);
  }

  /** Frames and counted gaps add up to the numbers the driver went through, over any number of
      wraps, exactly when it never skipped a whole turn at once; they never add up to more. */
  lemma {:induction false} FramesAndGapsAddUp(counter: seq<nat>, frames: seq<Frame>)
    requires Counts(counter, frames) && frames != []
    ensures var span := Span(counter);
            && |frames| + Gaps(frames) <= span
            && (|frames| + Gaps(frames) == span <==> NeverAWholeTurn(counter))
    decreases |frames|
  {
    hide Gap;
    var n := |frames| - 1;
    if n == 0 {
      FirstHasNoGap(frames);
    } else {
      var before, earlier := frames[..n], counter[..n];
      FramesAndGapsAddUp(earlier, before);
      GapOfStep(counter[n], counter[n - 1]);
      OneMoreStep(counter);
    }
  }

  /** Two frames whose counter moved on by exactly 2^32: it looks as if it had not moved. */
  lemma WholeTurnIsMissed()
    ensures var frames := [Frame(0, 0, true, false), Frame(0, 0, true, false)];
            && Counts([0, U32_END], frames) && |frames| + Gaps(frames) == 2 && Span([0, U32_END]) == U32_END + 1
  {
    var frames := [Frame(0, 0, true, false), Frame(0, 0, true, false)];
    assert frames[..1] == [frames[0]];
    FirstHasNoGap(frames[..1]);
    assert Gap(Some(0), 0) == 0;
  }

  lemma FirstHasNoGap(frames: seq<Frame>)
    requires |frames| == 1
    ensures Gaps(frames) == 0
  {
    assert frames[..0] == [];
    assert Gaps(frames[..0]) == 0;
  }

  lemma OneMoreStep(counter: seq<nat>)
    requires 2 <= |counter|
    ensures var n := |counter| - 1;
            NeverAWholeTurn(counter) <==> NeverAWholeTurn(counter[..n]) && counter[n] - counter[n - 1] < U32_END
  {
    var n := |counter| - 1;
    if NeverAWholeTurn(counter) {
      forall i | 0 < i < n ensures counter[..n][i] - counter[..n][i - 1] < U32_END {
        assert counter[i] - counter[i - 1] < U32_END;
      }
    }
    if NeverAWholeTurn(counter[..n]) && counter[n] - counter[n - 1] < U32_END {
      forall i | 0 < i < |counter| ensures counter[i] - counter[i - 1] < U32_END {
        if i < n {
          assert counter[..n][i] - counter[..n][i - 1] < U32_END;
        }
      }
    }
  }

  // ---------------------------------------------------------------------------------------
  // Opening again
  // ---------------------------------------------------------------------------------------

  /** What the thread has made of its turns: the counters, the waits between turns, and the wait
      to come. */
  datatype Progress = Progress(counters: Counters, hasOpened: bool, backoff: nat, waits: seq<nat>)

  const BEGUN := Progress(Counters(0, 0, 0, 0, 0, 0), false, BACKOFF_MIN, [])

  function Counted(c: Counters, hasOpened: bool, turn: Turn): Counters {
    match turn
    case OpenFailed(fatal, _) => if fatal then c else c.(errors := c.errors + 1)
    case Session(frames, end, _) =>
      var s := Streamed(if hasOpened then c.(reopens := c.reopens + 1) else c, frames);
      s.(errors := s.errors + if end.Halted? then 0 else 1)
  }

  function Double(backoff: nat): nat {
    if backoff * 2 < BACKOFF_MAX then backoff * 2 else BACKOFF_MAX
  }

  function TurnTaken(p: Progress, turn: Turn): Progress {
    var backoff := if turn.Session? then BACKOFF_MIN else p.backoff;
    var q := Progress(Counted(p.counters, p.hasOpened, turn), p.hasOpened || turn.Session?, backoff, p.waits);
    if Ends(turn) then q else q.(waits := p.waits + [backoff], backoff := Double(backoff))
  }

  function After(turns: seq<Turn>): Progress {
    if turns == [] then BEGUN else TurnTaken(After(turns[..|turns| - 1]), turns[|turns| - 1])
  }

  /** The turns up to the one that ends the thread. */
  function Happened(turns: seq<Turn>): seq<Turn> {
    if turns == [] then [] else if Ends(turns[0]) then [turns[0]] else [turns[0]] + Happened(turns[1..])
  }

  ghost predicate NoneEnds(turns: seq<Turn>) {
    forall i | 0 <= i < |turns| :: !Ends(turns[i])
  }

  lemma {:induction false} HappenedUpTo(turns: seq<Turn>, n: nat)
    requires n <= |turns| && (forall i | 0 <= i < n - 1 :: !Ends(turns[i]))
    requires n == |turns| || (0 < n && Ends(turns[n - 1]))
    ensures Happened(turns) == turns[..n]
    decreases |turns|
  {
    hide Ends;
    if turns != [] && !Ends(turns[0]) {
      HappenedUpTo(turns[1..], n - 1);
      assert turns[..n] == [turns[0]] + turns[1..][..n - 1];
    } else if turns != [] {
      assert n == 1;
    }
  }

  /** One open, and the stream if it succeeds. */
  method TakeTurn(turn: Turn, hasOpened: bool, stats: CamStats)
    modifies stats
    ensures stats.Read() == Counted(old(stats.Read()), hasOpened, turn)
  {
    hide Streamed;
    match turn {
    case OpenFailed(fatal, _) =>
      if !fatal {
        stats.errors := stats.errors + 1;
      }
    case Session(frames, end, _) =>
      if hasOpened {
        stats.reopens := stats.reopens + 1;
      }
      Stream(frames, end, stats);
    }
  }

  /** The thread: `turns` is what its opens and streams come to. */
  method Run(turns: seq<Turn>, stats: CamStats) returns (waits: seq<nat>)
    requires stats.Read() == BEGUN.counters
    modifies stats
    ensures stats.Read() == After(Happened(turns)).counters && waits == After(Happened(turns)).waits
  {
    hide Counted, Happened, Double;
    var backoff := BACKOFF_MIN;
    var hasOpened := false;
    var stop := false;
    waits := [];
    var i := 0;
    while i < |turns| && !stop
      invariant i <= |turns| && (forall j | 0 <= j < i - 1 :: !Ends(turns[j]))
      invariant if i == 0 then !stop else !Fatal(turns[i - 1]) && stop == turns[i - 1].stop
      invariant stats.Read() == After(turns[..i]).counters && waits == After(turns[..i]).waits
      invariant stop || (Progress(stats.Read(), hasOpened, backoff, waits) == After(turns[..i]))
    {
      var turn := turns[i];
      assert turns[..i + 1][..i] == turns[..i];
      TakeTurn(turn, hasOpened, stats);
      if turn.Session? {
        hasOpened, backoff := true, BACKOFF_MIN;
      }
      i := i + 1;
      if Fatal(turn) {
        HappenedUpTo(turns, i);
        return;
      }
      stop := turn.stop;
      if !stop {
        waits := waits + [backoff];
        backoff := Double(backoff);
      }
    }
    HappenedUpTo(turns, i);
  }

  /** min(200 ms * 2^k, 5 s) */
  function Capped(k: nat): nat {
    var wait := 200 * Power(k);
    if wait < 5000 then wait else 5000
  }

  function Power(k: nat): (p: nat)
    ensures 0 < p
  {
    if k == 0 then 1 else 2 * Power(k - 1)
  }

  lemma DoubleIsCapped(k: nat)
    ensures Double(Capped(k)) == Capped(k + 1)
  {
  }

  /** The turns since the last stream, or since the start. */
  function Since(turns: seq<Turn>, i: nat): nat
    requires i < |turns|
  {
    if i == 0 || turns[i].Session? then 0 else Since(turns, i - 1) + 1
  }

  lemma SinceOfPrefix(turns: seq<Turn>, n: nat, i: nat)
    requires i < n <= |turns|
    ensures Since(turns[..n], i) == Since(turns, i)
  {
  }

  /** Until the thread ends there is one wait a turn, and the next is ready. */
  lemma {:induction false} WaitsDouble(turns: seq<Turn>)
    requires NoneEnds(turns)
    ensures var p := After(turns);
            && |p.waits| == |turns|
            && (forall i | 0 <= i < |turns| :: p.waits[i] == Capped(Since(turns, i)))
            && p.backoff == if turns == [] then BACKOFF_MIN else Capped(Since(turns, |turns| - 1) + 1)
  {
    hide Ends, Counted, Capped, Double;
    if turns == [] {
    } else {
      var before, n := turns[..|turns| - 1], |turns| - 1;
      WaitsDouble(before);
      ZeroIsMin();
      DoubleIsCapped(Since(turns, n));
      forall i | 0 <= i < n ensures Since(before, i) == Since(turns, i) {
        SinceOfPrefix(turns, n, i);
      }
    }
  }

  lemma ZeroIsMin()
    ensures Capped(0) == BACKOFF_MIN
  {
  }

  /** The wait after the k-th failed open in a row, counting from 0 and from start-up, is
      min(200 ms * 2^k, 5 s); after a stream the count begins at the stream's own wait. */
  lemma WaitsAreCapped(turns: seq<Turn>, i: nat)
    requires i < |After(Happened(turns)).waits|
    ensures i < |Happened(turns)| && After(Happened(turns)).waits[i] == Capped(Since(Happened(turns), i))
  {
    hide Ends, Capped, Counted, Double, Happened;
    var h := Happened(turns);
    OnlyTheLastEnds(turns);
    if NoneEnds(h) {
      WaitsDouble(h);
    } else {
      var before := h[..|h| - 1];
      WaitsDouble(before);
      EndingWaitsNot(h);
      SinceOfPrefix(h, |h| - 1, i);
    }
  }

  lemma EndingWaitsNot(h: seq<Turn>)
    requires h != [] && Ends(h[|h| - 1])
    ensures After(h).waits == After(h[..|h| - 1]).waits
  {
    hide Counted;
  }

  lemma {:induction false} OnlyTheLastEnds(turns: seq<Turn>)
    ensures var h := Happened(turns);
            NoneEnds(h) || (h != [] && NoneEnds(h[..|h| - 1]) && Ends(h[|h| - 1]))
    decreases |turns|
  {
    hide Ends;
    if turns != [] && !Ends(turns[0]) {
      OnlyTheLastEnds(turns[1..]);
      var h := Happened(turns[1..]);
      assert h != [] ==> ([turns[0]] + h)[..|h|] == [turns[0]] + h[..|h| - 1];
    }
  }

  // ---------------------------------------------------------------------------------------
  // The totals
  // ---------------------------------------------------------------------------------------

  function FramesOf(turns: seq<Turn>): nat {
    if turns == [] then 0
    else FramesOf(turns[..|turns| - 1]) + if turns[|turns| - 1].Session? then |turns[|turns| - 1].frames| else 0
  }

  function GapsOf(turns: seq<Turn>): nat {
    if turns == [] then 0
    else GapsOf(turns[..|turns| - 1]) + if turns[|turns| - 1].Session? then Gaps(turns[|turns| - 1].frames) else 0
  }

  function Sessions(turns: seq<Turn>): nat {
    if turns == [] then 0
    else Sessions(turns[..|turns| - 1]) + if turns[|turns| - 1].Session? then 1 else 0
  }

  function BytesOf(turns: seq<Turn>): nat {
    if turns == [] then 0
    else
      var last := turns[|turns| - 1];
      BytesOf(turns[..|turns| - 1]) + if last.Session? then TotalBytes(last.frames) else 0
  }

  function RefusedOf(turns: seq<Turn>): nat {
    if turns == [] then 0
    else RefusedOf(turns[..|turns| - 1]) + if turns[|turns| - 1].Session? then Refused(turns[|turns| - 1].frames) else 0
  }

  function FlaggedOf(turns: seq<Turn>): nat {
    if turns == [] then 0
    else FlaggedOf(turns[..|turns| - 1]) + if turns[|turns| - 1].Session? then Flagged(turns[|turns| - 1].frames) else 0
  }

  /** An open that failed and may be tried again, or a stream that was not stopped. */
  predicate Failure(turn: Turn) {
    if turn.Session? then turn.end != Halted else !turn.fatal
  }

  function Failures(turns: seq<Turn>): set<nat> {
    set i: nat | i < |turns| && Failure(turns[i])
  }

  lemma TurnErrors(c: Counters, hasOpened: bool, turn: Turn)
    ensures Counted(c, hasOpened, turn).errors ==
            c.errors + (if turn.Session? then Flagged(turn.frames) else 0) + if Failure(turn) then 1 else 0
  {
    hide Gaps, TotalBytes, Refused, Flagged;
  }

  /** An error for each flagged frame and for each failure, and nothing else. */
  lemma {:induction false} ErrorsAddUp(turns: seq<Turn>)
    ensures After(turns).counters.errors == FlaggedOf(turns) + |Failures(turns)|
  {
    hide Ends, Counted, Flagged, Failure;
    if turns != [] {
      var n := |turns| - 1;
      var before := Failures(turns[..n]);
      ErrorsAddUp(turns[..n]);
      TurnErrors(After(turns[..n]).counters, After(turns[..n]).hasOpened, turns[n]);
      assert Failures(turns) == if Failure(turns[n]) then before + {n} else before;
    }
  }

  /** The counters are totals over every stream; gaps are counted within streams only, and every
      stream but the first is a reopening. */
  lemma {:induction false} TotalsAddUp(turns: seq<Turn>)
    ensures var c := After(turns).counters;
            && c.frames == FramesOf(turns) && c.driverDropped == GapsOf(turns)
            && c.bytes == BytesOf(turns) && c.publishDropped == RefusedOf(turns)
            && After(turns).hasOpened == (0 < Sessions(turns))
            && c.reopens == if Sessions(turns) == 0 then 0 else Sessions(turns) - 1
  {
    hide Ends, Gaps, TotalBytes, Refused, Flagged;
    if turns != [] {
      TotalsAddUp(turns[..|turns| - 1]);
    }
  }

  function SpansOf(counters: seq<seq<nat>>): int {
    if counters == [] then 0 else SpansOf(counters[..|counters| - 1]) + Span(counters[|counters| - 1])
  }

  /** Each turn's unwrapped counter: none for a failed open. */
  ghost predicate CountsEach(counters: seq<seq<nat>>, turns: seq<Turn>) {
    && |counters| == |turns|
    && forall i | 0 <= i < |turns| ::
         if turns[i].Session? then Counts(counters[i], turns[i].frames) && NeverAWholeTurn(counters[i])
         else counters[i] == []
  }

  /** Over every reopening, frames and gaps together are the spans of the streams. */
  lemma {:induction false} TotalsAreSpans(counters: seq<seq<nat>>, turns: seq<Turn>)
    requires CountsEach(counters, turns)
    ensures FramesOf(turns) + GapsOf(turns) == SpansOf(counters)
    decreases |turns|
  {
    hide Counts, NeverAWholeTurn, Gaps;
    if turns != [] {
      var n := |turns| - 1;
      TotalsAreSpans(counters[..n], turns[..n]);
      if turns[n].Session? {
        SessionSpan(counters[n], turns[n].frames);
      }
    }
  }

  lemma SessionSpan(counter: seq<nat>, frames: seq<Frame>)
    requires Counts(counter, frames) && NeverAWholeTurn(counter)
    ensures |frames| + Gaps(frames) == Span(counter)
  {
    if frames != [] {
      FramesAndGapsAddUp(counter, frames);
    }
  }
}

/** The capture clock's rate, `fit_clock_scale` of bench/fer-capture/fer_capture/fci.py, over
    reals: the median slope of pairs one window apart, and how many permanent shifts it survives. */
module ClockFit {

  // ---------------------------------------------------------------------------------------
  // Sorting and ranks
  // ---------------------------------------------------------------------------------------

  function Insert(x: real, s: seq<real>): seq<real> {
    if s == [] then [x] else if x <= s[0] then [x] + s else [s[0]] + Insert(x, s[1..])
  }

  function Sorted(v: seq<real>): seq<real> {
    if v == [] then [] else Insert(v[0], Sorted(v[1..]))
  }

  ghost predicate Ascending(s: seq<real>) {
    forall i, j | 0 <= i < j < |s| :: s[i] <= s[j]
  }

  function CountBelow(v: seq<real>, a: real): nat {
    if v == [] then 0 else (if v[0] < a then 1 else 0) + CountBelow(v[1..], a)
  }

  function CountAbove(v: seq<real>, a: real): nat {
    if v == [] then 0 else (if a < v[0] then 1 else 0) + CountAbove(v[1..], a)
  }

  lemma {:induction false} InsertKeepsOrder(x: real, s: seq<real>)
    requires Ascending(s)
    ensures Ascending(Insert(x, s)) && |Insert(x, s)| == |s| + 1
    ensures forall i | 0 <= i <= |s| :: Insert(x, s)[i] == x || Insert(x, s)[i] in s
  {
    if s != [] && x > s[0] {
      InsertKeepsOrder(x, s[1..]);
      var rest := Insert(x, s[1..]);
      assert forall i | 0 <= i < |rest| :: s[0] <= rest[i];
    }
  }

  lemma CountFirst(x: real, s: seq<real>, a: real)
    ensures CountBelow([x] + s, a) == CountBelow(s, a) + if x < a then 1 else 0
    ensures CountAbove([x] + s, a) == CountAbove(s, a) + if a < x then 1 else 0
  {
    assert ([x] + s)[1..] == s;
  }

  lemma {:induction false} InsertCounts(x: real, s: seq<real>, a: real)
    ensures CountBelow(Insert(x, s), a) == CountBelow(s, a) + if x < a then 1 else 0
    ensures CountAbove(Insert(x, s), a) == CountAbove(s, a) + if a < x then 1 else 0
  {
    hide CountBelow, CountAbove;
    CountFirst(x, s, a);
    if s != [] && x > s[0] {
      InsertCounts(x, s[1..], a);
      CountFirst(s[0], Insert(x, s[1..]), a);
      CountFirst(s[0], s[1..], a);
      assert [s[0]] + s[1..] == s;
    } else if s == [] {
      assert [x] + s == [x];
    }
  }

  lemma {:induction false} SortedKeeps(v: seq<real>, a: real)
    ensures Ascending(Sorted(v)) && |Sorted(v)| == |v|
    ensures CountBelow(Sorted(v), a) == CountBelow(v, a) && CountAbove(Sorted(v), a) == CountAbove(v, a)
  {
    if v != [] {
      SortedKeeps(v[1..], a);
      InsertKeepsOrder(v[0], Sorted(v[1..]));
      InsertCounts(v[0], Sorted(v[1..]), a);
    }
  }

  lemma {:induction false} RanksInAscending(s: seq<real>, a: real, m: nat)
    requires Ascending(s) && m < |s|
    ensures s[m] < a <==> m < CountBelow(s, a)
    ensures a < s[m] <==> |s| - m <= CountAbove(s, a)
    ensures CountBelow(s, a) <= |s| && CountAbove(s, a) <= |s|
  {
    CountBounds(s, a);
    CountBounds(s[1..], a);
    if a < s[0] {
      AllAbove(s, a);
    }
    if a <= s[0] {
      NoneBelow(s, a);
    }
    if m > 0 {
      RanksInAscending(s[1..], a, m - 1);
    }
  }

  lemma {:induction false} CountBounds(s: seq<real>, a: real)
    ensures CountBelow(s, a) + CountAbove(s, a) <= |s|
  {
    if s != [] {
      CountBounds(s[1..], a);
    }
  }

  lemma {:induction false} AllAbove(s: seq<real>, a: real)
    requires forall i | 0 <= i < |s| :: a < s[i]
    ensures CountAbove(s, a) == |s|
  {
    if s != [] {
      AllAbove(s[1..], a);
    }
  }

  lemma {:induction false} NoneBelow(s: seq<real>, a: real)
    requires forall i | 0 <= i < |s| :: a <= s[i]
    ensures CountBelow(s, a) == 0
  {
    if s != [] {
      NoneBelow(s[1..], a);
    }
  }

  /** The middle element of the sorted list is `a` exactly when too few others lie on either side. */
  lemma MiddleIs(v: seq<real>, a: real)
    requires v != []
    ensures |Sorted(v)| == |v|
    ensures Sorted(v)[|v| / 2] == a <==> CountBelow(v, a) <= |v| / 2 && CountAbove(v, a) < |v| - |v| / 2
  {
    SortedKeeps(v, a);
    RanksInAscending(Sorted(v), a, |v| / 2);
  }

  // ---------------------------------------------------------------------------------------
  // The fit
  // ---------------------------------------------------------------------------------------

  function Window(n: nat): nat {
    if n / 20 > 1 then n / 20 else 1
  }

  /** The slopes of the pairs `(i, i + k)` from `i` on, skipping those the robot's clock does not
      separate. */
  function SlopesFrom(xs: seq<real>, ys: seq<real>, k: nat, i: nat): seq<real>
    requires |xs| == |ys| && i + k <= |xs| && 1 <= k
    decreases |xs| - i
  {
    if i + k == |xs| then []
    else (if xs[i + k] != xs[i] then [(ys[i + k] - ys[i]) / (xs[i + k] - xs[i])] else []) + SlopesFrom(xs, ys, k, i + 1)
  }

  function Slopes(xs: seq<real>, ys: seq<real>): seq<real>
    requires |xs| == |ys| && 1 <= |xs|
  {
    SlopesFrom(xs, ys, Window(|xs|), 0)
  }

  /** Capture seconds per real second, from robot milliseconds and capture nanoseconds. */
  function FitClockScale(xs: seq<real>, ys: seq<real>): real
    requires |xs| == |ys|
  {
    if |xs| < 20 then 1.0
    else
      var slopes := Slopes(xs, ys);
      if slopes == [] then 1.0
      else
        SortedKeeps(slopes, 0.0);
        var a := Sorted(slopes)[|slopes| / 2];
        if a <= 0.0 then 1.0 else a / 1000000.0
  }

  /** Whatever the samples, the rate that timestamps are divided by is positive. */
  lemma FitIsPositive(xs: seq<real>, ys: seq<real>)
    requires |xs| == |ys|
    ensures 0.0 < FitClockScale(xs, ys)
  {
    hide Slopes, Sorted;
  }

  // ---------------------------------------------------------------------------------------
  // Breakdown
  // ---------------------------------------------------------------------------------------

  ghost predicate StrictlyIncreasing(xs: seq<real>) {
    forall i, j | 0 <= i < j < |xs| :: xs[i] < xs[j]
  }

  /** Every sample is on the line of slope `a` moved by its shift. */
  ghost predicate OnLine(xs: seq<real>, ys: seq<real>, a: real, shift: seq<real>) {
    |xs| == |ys| == |shift| && forall i | 0 <= i < |xs| :: ys[i] == a * xs[i] + shift[i]
  }

  /** How often the shift has changed up to sample `i`: a stall moves every later arrival. */
  function Changes(shift: seq<real>, i: nat): nat
    requires i < |shift|
  {
    if i == 0 then 0 else Changes(shift, i - 1) + if shift[i] != shift[i - 1] then 1 else 0
  }

  lemma {:induction false} NoChangeNoShift(shift: seq<real>, i: nat, j: nat)
    requires i <= j < |shift|
    ensures Changes(shift, i) <= Changes(shift, j)
    ensures Changes(shift, i) == Changes(shift, j) ==> shift[i] == shift[j]
    decreases j
  {
    if i < j {
      NoChangeNoShift(shift, i, j - 1);
    }
  }

  /** The changes counted over `k` samples from `i`. */
  function WindowSum(shift: seq<real>, i: nat, k: nat): nat
    requires i + k <= |shift|
    decreases k
  {
    if k == 0 then 0 else WindowSum(shift, i, k - 1) + Changes(shift, i + k - 1)
  }

  lemma {:induction false} WindowSlides(shift: seq<real>, i: nat, k: nat)
    requires i + k < |shift|
    ensures WindowSum(shift, i + 1, k) + Changes(shift, i) == WindowSum(shift, i, k) + Changes(shift, i + k)
    decreases k
  {
    if k > 0 {
      WindowSlides(shift, i, k - 1);
    }
  }

  lemma {:induction false} WindowSumBound(shift: seq<real>, i: nat, k: nat)
    requires 1 <= k && i + k <= |shift|
    ensures WindowSum(shift, i, k) <= k * Changes(shift, i + k - 1)
    decreases k
  {
    if k > 1 {
      WindowSumBound(shift, i, k - 1);
      NoChangeNoShift(shift, i + k - 2, i + k - 1);
      assert (k - 1) * Changes(shift, i + k - 2) <= (k - 1) * Changes(shift, i + k - 1) by {
        MultiplyMonotone(k - 1, Changes(shift, i + k - 2), Changes(shift, i + k - 1));
      }
      assert k * Changes(shift, i + k - 1) == (k - 1) * Changes(shift, i + k - 1) + Changes(shift, i + k - 1);
    }
  }

  lemma MultiplyMonotone(k: nat, a: nat, b: nat)
    requires a <= b
    ensures k * a <= k * b
  {
  }

  lemma NextSlope(xs: seq<real>, ys: seq<real>, k: nat, i: nat, a: real)
    requires |xs| == |ys| && 1 <= k && i + k < |xs| && xs[i] != xs[i + k]
    ensures var slope := (ys[i + k] - ys[i]) / (xs[i + k] - xs[i]);
            var s, rest := SlopesFrom(xs, ys, k, i), SlopesFrom(xs, ys, k, i + 1);
            && |s| == |rest| + 1
            && CountBelow(s, a) == CountBelow(rest, a) + (if slope < a then 1 else 0)
            && CountAbove(s, a) == CountAbove(rest, a) + (if a < slope then 1 else 0)
  {
    var slope := (ys[i + k] - ys[i]) / (xs[i + k] - xs[i]);
    var rest := SlopesFrom(xs, ys, k, i + 1);
    assert SlopesFrom(xs, ys, k, i) == [slope] + rest;
    assert ([slope] + rest)[1..] == rest;
  }

  /** How many pairs from `i` on end on a smaller shift, on a larger one, on a larger timestamp. */
  function DropsFrom(shift: seq<real>, k: nat, i: nat): nat
    requires i + k <= |shift|
    decreases |shift| - i
  {
    if i + k == |shift| then 0 else (if shift[i + k] < shift[i] then 1 else 0) + DropsFrom(shift, k, i + 1)
  }

  function RisesFrom(shift: seq<real>, k: nat, i: nat): nat
    requires i + k <= |shift|
    decreases |shift| - i
  {
    if i + k == |shift| then 0 else (if shift[i] < shift[i + k] then 1 else 0) + RisesFrom(shift, k, i + 1)
  }

  /** The slope of a pair lies below the line's when the shift drops, above it when it rises. */
  lemma SlopeSide(xs: seq<real>, ys: seq<real>, a: real, shift: seq<real>, i: nat, j: nat)
    requires OnLine(xs, ys, a, shift) && i < j < |xs| && xs[i] < xs[j]
    ensures var slope := (ys[j] - ys[i]) / (xs[j] - xs[i]);
            && (slope < a <==> shift[j] < shift[i]) && (a < slope <==> shift[i] < shift[j])
  {
    var d, e := xs[j] - xs[i], shift[j] - shift[i];
    assert ys[j] - ys[i] == a * d + e;
    QuotientSide(d, e, a);
  }

  lemma QuotientSide(d: real, e: real, a: real)
    requires 0.0 < d
    ensures var q := (a * d + e) / d; (q < a <==> e < 0.0) && (a < q <==> 0.0 < e)
  {
    var q := (a * d + e) / d;
    assert (q - a) * d == e;
  }

  lemma SlopeSign(x: real, y: real, d: real)
    requires 0.0 < d
    ensures 0.0 < (y - x) / d <==> x < y
  {
    QuotientSide(d, y - x, 0.0);
  }

  /** The slopes below and above the line's are the drops and the rises. */
  lemma {:induction false} SlopesCount(xs: seq<real>, ys: seq<real>, a: real, shift: seq<real>, k: nat, i: nat)
    requires OnLine(xs, ys, a, shift) && StrictlyIncreasing(xs) && 1 <= k && i + k <= |xs|
    ensures var s := SlopesFrom(xs, ys, k, i);
            && |s| == |xs| - k - i
            && CountBelow(s, a) == DropsFrom(shift, k, i)
            && CountAbove(s, a) == RisesFrom(shift, k, i)
    decreases |xs| - i
  {
    if i + k < |xs| {
      assert xs[i] < xs[i + k];
      SlopesCount(xs, ys, a, shift, k, i + 1);
      hide SlopesFrom, CountBelow, CountAbove, StrictlyIncreasing, OnLine;
      NextSlope(xs, ys, k, i, a);
      SlopeSide(xs, ys, a, shift, i, i + k);
    }
  }

  lemma {:induction false} ClimbsCount(xs: seq<real>, ys: seq<real>, k: nat, i: nat)
    requires |xs| == |ys| && StrictlyIncreasing(xs) && 1 <= k && i + k <= |xs|
    ensures CountAbove(SlopesFrom(xs, ys, k, i), 0.0) == RisesFrom(ys, k, i)
    decreases |xs| - i
  {
    if i + k < |xs| {
      assert xs[i] < xs[i + k];
      ClimbsCount(xs, ys, k, i + 1);
      hide SlopesFrom, CountBelow, CountAbove, StrictlyIncreasing;
      NextSlope(xs, ys, k, i, 0.0);
      SlopeSign(ys[i], ys[i + k], xs[i + k] - xs[i]);
    }
  }

  /** The pairs whose shift changes are at most the changes the window slides over. */
  lemma {:induction false} ShiftedPairs(shift: seq<real>, k: nat, i: nat)
    requires 1 <= k && i + k <= |shift|
    ensures DropsFrom(shift, k, i) + RisesFrom(shift, k, i) <= WindowSum(shift, |shift| - k, k) - WindowSum(shift, i, k)
    decreases |shift| - i
  {
    if i + k < |shift| {
      ShiftedPairs(shift, k, i + 1);
      hide WindowSum, Changes;
      WindowSlides(shift, i, k);
      NoChangeNoShift(shift, i, i + k);
    }
  }

  /** The pairs from `i` on that are off the line are at most the changes the window slides over. */
  lemma OffLinePairs(xs: seq<real>, ys: seq<real>, a: real, shift: seq<real>, k: nat, i: nat)
    requires OnLine(xs, ys, a, shift) && StrictlyIncreasing(xs) && 1 <= k && i + k <= |xs|
    ensures var s := SlopesFrom(xs, ys, k, i);
            && |s| == |xs| - k - i
            && CountBelow(s, a) + CountAbove(s, a) <= WindowSum(shift, |xs| - k, k) - WindowSum(shift, i, k)
  {
    hide SlopesFrom, CountBelow, CountAbove, StrictlyIncreasing, WindowSum, DropsFrom, RisesFrom;
    SlopesCount(xs, ys, a, shift, k, i);
    ShiftedPairs(shift, k, i);
  }

  /** The slope is the line's: few enough pairs straddle a drop, and few enough a rise. */
  predicate Balanced(shift: seq<real>)
    requires 20 <= |shift|
  {
    var k := Window(|shift|);
    var m := |shift| - k;
    DropsFrom(shift, k, 0) <= m / 2 && RisesFrom(shift, k, 0) < m - m / 2
  }

  /** The middle slope is not positive: few enough pairs climb. */
  predicate Sinking(ys: seq<real>)
    requires 20 <= |ys|
  {
    var k := Window(|ys|);
    var m := |ys| - k;
    RisesFrom(ys, k, 0) < m - m / 2
  }

  /** The fit of twenty samples or more on a line of positive slope, whatever permanent shifts they
      have, is exact if and only if the shifts are balanced; but for the slope that the fallback
      of 1.0 happens to be, which a sinking capture is also given. */
  lemma FitIsExactExactly(xs: seq<real>, ys: seq<real>, a: real, shift: seq<real>)
    requires 20 <= |xs| && StrictlyIncreasing(xs) && 0.0 < a && OnLine(xs, ys, a, shift)
    ensures FitClockScale(xs, ys) == a / 1000000.0 <==> Balanced(shift) || (a == 1000000.0 && Sinking(ys))
  {
    hide SlopesFrom, Sorted, CountBelow, CountAbove, StrictlyIncreasing, DropsFrom, RisesFrom;
    var n, k := |xs|, Window(|xs|);
    var s := Slopes(xs, ys);
    SlopesCount(xs, ys, a, shift, k, 0);
    ClimbsCount(xs, ys, k, 0);
    assert |s| == n - k >= 19 * k;
    MiddleIs(s, a);
    MiddleAbove(s, 0.0);
    Millionths(Sorted(s)[|s| / 2], a);
  }

  /** The middle element is above `a` exactly when enough others are. */
  lemma MiddleAbove(v: seq<real>, a: real)
    requires v != []
    ensures |Sorted(v)| == |v|
    ensures a < Sorted(v)[|v| / 2] <==> |v| - |v| / 2 <= CountAbove(v, a)
  {
    SortedKeeps(v, a);
    RanksInAscending(Sorted(v), a, |v| / 2);
  }

  lemma Millionths(x: real, y: real)
    ensures x / 1000000.0 == y / 1000000.0 <==> x == y
    ensures 1.0 == y / 1000000.0 <==> y == 1000000.0
  {
  }

  // ---------------------------------------------------------------------------------------
  // How many shifts are survived
  // ---------------------------------------------------------------------------------------

  /** The pairs that `c` shifts can move to one side of the line. */
  function Reach(n: nat, c: nat): nat {
    c * Window(n)
  }

  /** They do not reach past the middle slope. */
  predicate Survives(n: nat, c: nat)
    requires 20 <= n
  {
    Reach(n, c) < (n - Window(n)) - (n - Window(n)) / 2
  }

  lemma ShiftsMovePairs(shift: seq<real>, c: nat)
    requires 20 <= |shift| && Changes(shift, |shift| - 1) <= c
    ensures DropsFrom(shift, Window(|shift|), 0) + RisesFrom(shift, Window(|shift|), 0) <= Reach(|shift|, c)
  {
    hide WindowSum, Changes, DropsFrom, RisesFrom;
    var n, k := |shift|, Window(|shift|);
    ShiftedPairs(shift, k, 0);
    WindowSumBound(shift, n - k, k);
    MultiplyMonotone(k, Changes(shift, n - 1), c);
    assert k * c == Reach(n, c);
  }

  /** `c` permanent shifts of any size, anywhere, leave the fit exact. */
  lemma ExactUpTo(xs: seq<real>, ys: seq<real>, a: real, shift: seq<real>, c: nat)
    requires 20 <= |xs| && StrictlyIncreasing(xs) && 0.0 < a && OnLine(xs, ys, a, shift)
    requires Changes(shift, |xs| - 1) <= c && Survives(|xs|, c)
    ensures FitClockScale(xs, ys) == a / 1000000.0
  {
    hide FitClockScale, Changes, StrictlyIncreasing, DropsFrom, RisesFrom, Sinking, Window, Reach;
    FitIsExactExactly(xs, ys, a, shift);
    ShiftsMovePairs(shift, c);
  }

  /** With twenty samples or more on a line of positive slope but for at most nine permanent shifts
      of any size, the fit is exact. */
  lemma ExactUpToNineShifts(xs: seq<real>, ys: seq<real>, a: real, shift: seq<real>)
    requires 20 <= |xs| && StrictlyIncreasing(xs) && 0.0 < a && OnLine(xs, ys, a, shift)
    requires Changes(shift, |xs| - 1) <= 9
    ensures FitClockScale(xs, ys) == a / 1000000.0
  {
    hide FitClockScale, Changes, StrictlyIncreasing;
    ExactUpTo(xs, ys, a, shift, 9);
  }

  /** Every capture of `n` samples with at most `c` shifts is fitted exactly. */
  ghost predicate AlwaysExact(n: nat, c: nat) {
    forall xs: seq<real>, ys: seq<real>, a: real, shift: seq<real> |
      && |xs| == n && 1 <= n && StrictlyIncreasing(xs) && 0.0 < a && OnLine(xs, ys, a, shift)
      && Changes(shift, n - 1) <= c :: FitClockScale(xs, ys) == a / 1000000.0
  }

  /** The steps of a staircase, one each `k` samples, `c` in all. */
  function Stair(k: nat, c: nat, i: nat): nat
    requires 1 <= k
  {
    if i / k < c then i / k else c
  }

  function Staircase(n: nat, k: nat, c: nat): (s: seq<real>)
    requires 1 <= k
    ensures |s| == n && forall i | 0 <= i < n :: s[i] == Stair(k, c, i) as real
  {
    seq(n, i requires 0 <= i => Stair(k, c, i) as real)
  }

  function Counting(n: nat): (s: seq<real>)
    ensures |s| == n && forall i | 0 <= i < n :: s[i] == i as real
  {
    seq(n, i => i as real)
  }

  function Late(n: nat, k: nat, c: nat): (s: seq<real>)
    requires 1 <= k
    ensures |s| == n && forall i | 0 <= i < n :: s[i] == i as real + Stair(k, c, i) as real
  {
    seq(n, i requires 0 <= i => i as real + Stair(k, c, i) as real)
  }

  lemma NoMultiple(d: int, k: nat)
    ensures 0 - k < d * k < k ==> d == 0
  {
    if 1 <= d {
      assert k <= d * k;
    } else if d <= -1 {
      assert d * k <= 0 - k;
    }
  }

  lemma QuotientBy(i: nat, k: nat, q: int)
    requires 1 <= k && q * k <= i < q * k + k
    ensures i / k == q
  {
    var p := i / k;
    assert i == p * k + i % k;
    assert (p - q) * k == p * k - q * k;
    NoMultiple(p - q, k);
  }

  /** A stair is as high as the one before or one higher, and one window on it is one higher. */
  lemma StairSteps(k: nat, c: nat, i: nat)
    requires 1 <= k
    ensures 0 < i ==> Stair(k, c, i - 1) <= Stair(k, c, i) <= Stair(k, c, i - 1) + 1
    ensures i < c * k ==> Stair(k, c, i) + 1 == Stair(k, c, i + k)
  {
    var q := i / k;
    assert i == q * k + i % k;
    assert (q + 1) * k == q * k + k;
    QuotientBy(i + k, k, q + 1);
    if 0 < i {
      assert (q - 1) * k == q * k - k;
      QuotientBy(i - 1, k, if i % k == 0 then q - 1 else q);
    }
    if c <= q {
      MultiplyMonotone(k, c, q);
    }
  }

  lemma {:induction false} StairChanges(shift: seq<real>, n: nat, k: nat, c: nat, i: nat)
    requires 1 <= k && shift == Staircase(n, k, c) && i < n
    ensures Changes(shift, i) == Stair(k, c, i) <= c
  {
    hide Stair, Staircase;
    assert Stair(k, c, i) <= c by {
      StairTop(k, c, i);
    }
    if i == 0 {
      StairFoot(k, c);
    } else {
      StairChanges(shift, n, k, c, i - 1);
      StairSteps(k, c, i);
    }
  }

  lemma StairTop(k: nat, c: nat, i: nat)
    requires 1 <= k
    ensures Stair(k, c, i) <= c
  {
  }

  lemma StairFoot(k: nat, c: nat)
    requires 1 <= k
    ensures Stair(k, c, 0) == 0
  {
  }

  lemma {:induction false} StairRises(shift: seq<real>, n: nat, k: nat, c: nat, i: nat)
    requires 1 <= k && shift == Staircase(n, k, c) && i <= c * k && c * k + k <= n
    ensures c * k - i <= RisesFrom(shift, k, i)
    decreases c * k - i
  {
    hide Stair, Staircase;
    if i < c * k {
      StairSteps(k, c, i);
      StairRises(shift, n, k, c, i + 1);
    }
  }

  /** Enough steps to reach the far side of the middle, and no more than fit. */
  lemma EnoughSteps(k: nat, half: nat) returns (c: nat)
    requires 1 <= k
    ensures half <= c * k < half + k
    ensures forall d: nat | d < c :: d * k < half
  {
    c := (half + k - 1) / k;
    assert half + k - 1 == c * k + (half + k - 1) % k;
    forall d: nat | d < c ensures d * k < half {
      MultiplyMonotone(k, d + 1, c);
      assert k * (d + 1) == d * k + k;
    }
  }

  /** A staircase that is not survived: its fit is wrong. */
  lemma StaircaseBreaks(n: nat, c: nat)
    requires 20 <= n && !Survives(n, c) && c * Window(n) + Window(n) <= n
    ensures var xs, ys, shift := Counting(n), Late(n, Window(n), c), Staircase(n, Window(n), c);
            && StrictlyIncreasing(xs) && OnLine(xs, ys, 1.0, shift) && Changes(shift, n - 1) <= c
            && FitClockScale(xs, ys) != 1.0 / 1000000.0
  {
    hide FitClockScale, DropsFrom, RisesFrom, Stair, Changes;
    var k := Window(n);
    var xs, ys, shift := Counting(n), Late(n, k, c), Staircase(n, k, c);
    StairChanges(shift, n, k, c, n - 1);
    StairRises(shift, n, k, c, 0);
    FitIsExactExactly(xs, ys, 1.0, shift);
  }

  /** The breakdown point, for every length and every number of shifts: `c` shifts always leave the
      fit of `n` samples exact if and only if `c` windows do not reach past the middle slope. */
  lemma BreakdownPoint(n: nat, c: nat)
    requires 20 <= n
    ensures AlwaysExact(n, c) <==> Survives(n, c)
  {
    hide FitClockScale, Changes, StrictlyIncreasing;
    if Survives(n, c) {
      forall xs: seq<real>, ys: seq<real>, a: real, shift: seq<real> |
        && |xs| == n && 1 <= n && StrictlyIncreasing(xs) && 0.0 < a && OnLine(xs, ys, a, shift)
        && Changes(shift, n - 1) <= c
        ensures FitClockScale(xs, ys) == a / 1000000.0
      {
        ExactUpTo(xs, ys, a, shift, c);
      }
    } else {
      var k := Window(n);
      var fewest := EnoughSteps(k, (n - k) - (n - k) / 2);
      StaircaseBreaks(n, fewest);
      assert fewest <= c;
    }
  }

  /** Nine shifts are always survived; ten exactly by the lengths that are more than one window
      over twenty windows, the longest of which is 379. */
  lemma TenShiftsSurvivedExactly(n: nat)
    requires 20 <= n
    ensures AlwaysExact(n, 10) <==> n / 20 < n % 20
    ensures AlwaysExact(n, 9) && (380 <= n ==> !AlwaysExact(n, 10)) && AlwaysExact(379, 10)
  {
    hide AlwaysExact;
    BreakdownPoint(n, 10);
    BreakdownPoint(n, 9);
    BreakdownPoint(379, 10);
  }

  // Ten is one too many: twenty samples a millisecond apart, the first ten each arriving one
  // more unit late.

  function UpToTen(i: nat): nat { if i < 10 then i else 10 }

  function Ticks(): (s: seq<real>)
    ensures |s| == 20 && forall i | 0 <= i < 20 :: s[i] == i as real
  {
    seq(20, i => i as real)
  }

  function TenLate(): (s: seq<real>)
    ensures |s| == 20 && forall i | 0 <= i < 20 :: s[i] == UpToTen(i) as real
  {
    seq(20, i requires 0 <= i => UpToTen(i) as real)
  }

  function LateTicks(): (s: seq<real>)
    ensures |s| == 20 && forall i | 0 <= i < 20 :: s[i] == (i + UpToTen(i)) as real
  {
    seq(20, i requires 0 <= i => (i + UpToTen(i)) as real)
  }

  lemma {:induction false} ChangesOfTen(shift: seq<real>, i: nat)
    requires shift == TenLate() && i < 20
    ensures Changes(shift, i) == UpToTen(i)
  {
    if i > 0 {
      ChangesOfTen(shift, i - 1);
    }
  }

  lemma {:induction false} SlopesOfTen(xs: seq<real>, ys: seq<real>, i: nat)
    requires xs == Ticks() && ys == LateTicks() && i <= 19
    ensures var s := SlopesFrom(xs, ys, 1, i);
            && |s| == 19 - i
            && CountBelow(s, 2.0) == (if i < 10 then 9 else 19 - i)
            && CountAbove(s, 2.0) == 0
    decreases 20 - i
  {
    if i < 19 {
      SlopesOfTen(xs, ys, i + 1);
      hide SlopesFrom, CountBelow, CountAbove;
      assert xs[i + 1] - xs[i] == 1.0;
      assert ys[i + 1] - ys[i] == if i < 10 then 2.0 else 1.0;
      NextSlope(xs, ys, 1, i, 2.0);
    }
  }

  /** What breaking looks like: on twenty samples ten shifts double the fitted rate. */
  lemma TenShiftsBreakIt()
    ensures var xs, ys, shift := Ticks(), LateTicks(), TenLate();
            && StrictlyIncreasing(xs) && OnLine(xs, ys, 1.0, shift)
            && Changes(shift, 19) == 10
            && FitClockScale(xs, ys) == 2.0 / 1000000.0
  {
    hide SlopesFrom, Sorted, CountBelow, CountAbove, Changes;
    var xs, ys, shift := Ticks(), LateTicks(), TenLate();
    ChangesOfTen(shift, 19);
    SlopesOfTen(xs, ys, 0);
    MiddleIs(Slopes(xs, ys), 2.0);
  }
}

# Verification of the franka-rs control and capture logic

A Dafny model of the stateful parts of the repository, with proofs of what they promise over whole
runs, whole captures and every interleaving. `dafny verify dfyconfig.toml` checks it.

| files | what they model |
|---|---|
| `TargetGate`, `TargetGateRuns`, `Geometry` | the gate every streamed target passes: sequence, token bucket, steps, leads, anchor, joint limits |
| `FollowProtocol`, `FollowSafety`, `FollowGuarantees`, `FollowAnswers`, `FollowOutcomes` | the worker thread that feeds chunks of targets, its callers, two mutexes and a condition variable, as a transition system |
| `ClockFit`, `CaptureAnalysis`, `CaptureTables` | the capture tool's clock fit, id bookkeeping, gap, burst and match tables |
| `Bytes`, `Ipv4`, `Reassembly`, `FragmentOverlaps`, `ReassemblyRuns` | IPv4 and UDP packets, fragmentation and reassembly |
| `PcapReader`, `PcapWriter`, `PcapBytes`, `PcapRoundTrip` | the pcap and pcapng readers against the writers |
| `Sha256Spec`, `Sha256Stream`, `Sha256Numbers`, `Sha256KnownAnswer` | the streaming SHA-256 against FIPS 180-4, its constants and its example included |
| `Loads` | combining the end effector with the load |
| `ClockMap` | the camera recorder's map from the host clock to the robot's |
| `RecorderChannel` | the bounded channel between the control loops and the recorder thread |
| `EventScan` | stalls, steps, bursts and aborts in a commander's log |
| `CameraStream` | sequence accounting and reopening of a camera |

How it is built. Code that updates state is a class or a method with the loops of the original,
proved equal to a specification function; the promises are lemmas about those functions over any
sequence of inputs. Concurrent code is a state machine whose every lock, read, write and wait is a
step of its own. Clock readings, dequeued frames, what a device or a logger does, and what the
scheduler picks are inputs. Floating point numbers are reals, with an infinity and a NaN where the
gate tests for them; lengths are compared squared, so no square root is needed; integers are
unbounded where the original cannot overflow and reduced modulo 2^16, 2^32 or 2^64 where it wraps.

Where a promise fails the proof says exactly where, and a concrete input shows it:

- A commander that leaves a period between messages is refused for the rate if and only if the rate
  is below half a hertz, at which the bucket never holds a token (`PacedIsRateLimitedExactly`,
  `AtTwoFifthsOfAHertz`).
- Nine shifts never break the clock fit; ten do exactly at the lengths `TenShiftsSurvivedExactly`
  gives, and `BreakdownPoint` says how many are survived at every length (`TenShiftsBreakIt`).
- The clock map's own stamp goes back exactly when a new session's agreeing sample is older than it
  (`MapGoesBackExactly`, `MapMayGoBack`).
- Frames and gaps fall short of the driver's count exactly when it skips 2^32 or more at once
  (`FramesAndGapsAddUp`, `WholeTurnIsMissed`).
- The gate has an unanchored target left to accept exactly while the arm is within a step and a lead
  of the previous one, in position and in orientation (`LockoutIsExact`, `AMetreAwayLocksOut`,
  `HalfATurnLocksOut`).
- A clock factor can list gaps at all exactly when it is positive (`FactorListsGapsExactly`,
  `SevenMilliseconds`).

## Model

| member | source | states |
|---|---|---|
| TargetGate.Guard.New | crates/franka-node/src/guard.rs:223-226 | a Cartesian gate is made exactly from a finite initial target of near unit orientation, and is sound; otherwise the error says which of the two it is not |
| TargetGate.Guard.ForJoints | crates/franka-node/src/guard.rs:233-242 | a joint gate is made exactly from finite angles, with a full bucket and no holder, and is sound |
| TargetGate.Guard.SetHolder | crates/franka-node/src/guard.rs:283-288 | a new lease restarts the sequence and fills the bucket, and leaves the previous target |
| TargetGate.Guard.Refill | crates/franka-node/src/guard.rs:429-434 | the bucket after any clock reading, forwards or backwards, capped at twice the rate; the reading never goes back |
| TargetGate.Guard.JudgeJoints | crates/franka-node/src/guard.rs:410-427 | the loop refuses for the first joint out of step or limits, steps before limits within a joint |
| TargetGate.Guard.Judge | crates/franka-node/src/guard.rs:323-355 | the order of the refusals, and that only the bucket and its clock can have changed |
| TargetGate.Guard.Check | crates/franka-node/src/guard.rs:311-321 | the verdict and the whole new state, for any message, clock reading and reference |
| TargetGate.Guard.InsideJointLimits | crates/franka-node/src/guard.rs:258-266 | each joint moved to the nearest value of its inset band, an infinite one to that end, a NaN left; a Cartesian gate leaves them alone |
| TargetGate.ClampedJoint | crates/franka-node/src/guard.rs:262 | whatever is not a NaN is moved inside the band, and is not moved when it already was |
| TargetGateRuns.JointsRefusalMeaning | crates/franka-node/src/guard.rs:414-426 | no refusal from joint i on exactly when every such joint is within its step and its limits; a refusal names the first joint that is off, counted from one, and by how much |
| TargetGateRuns.KindsOnTheWire | crates/franka-node/src/msg.rs:58-66 | the wire's 1 is a Cartesian target and its 2 a joint target, and nothing else is |
| TargetGateRuns.NearUnitExactly | crates/franka-node/src/guard.rs:437-452 | a quaternion is taken exactly when its length is within a thousandth of one |
| TargetGateRuns.DistanceExactly | crates/franka-node/src/guard.rs:454-456 | a distance is of the positions alone and is there when both are finite |
| TargetGateRuns.AngleExactly | crates/franka-node/src/guard.rs:460-467 | an angle is of the orientations alone and is there when both are finite and not zero |
| TargetGateRuns.AcceptedExactly | crates/franka-node/src/guard.rs:323-408 | a target is accepted if and only if it is of the session's kind, from the holder, in order, allowed in content (finite, unit, steps, lead, box, limits) and the bucket filled up to now holds a token |
| TargetGateRuns.RefusalChangesOnlyTheRefill | crates/franka-node/src/guard.rs:311-355 | a refusal changes nothing, but that a rate refusal brings the bucket up to date; an acceptance records the target and spends one token |
| TargetGateRuns.SignOfLife | crates/franka-node/src/guard.rs:160-165 | a refusal counts as the commander's exactly when the message was of the kind, from the holder and in order |
| TargetGateRuns.RunsAreSound | crates/franka-node/src/guard.rs:311-434 | over every run the previous target stays finite and of near unit orientation, and the bucket between empty and full |
| TargetGateRuns.RunsFromTheStartAreSound | crates/franka-node/src/guard.rs:223-254 | so of every gate that is made, after any run |
| TargetGateRuns.SeqsIncrease | crates/franka-node/src/guard.rs:338-344 | within a tenure accepted sequence numbers strictly increase, one an acceptance, and the last is the gate's |
| TargetGateRuns.RefillCredit | crates/franka-node/src/guard.rs:429-434 | refilling inside a window adds nothing to what the window can still accept |
| TargetGateRuns.LazyIsEager | crates/franka-node/src/guard.rs:429-434 | a bucket brought up to date on the way reads the same later as one that was not |
| TargetGateRuns.AcceptsWithinCredit | crates/franka-node/src/guard.rs:311-434 | acceptances of a window are covered by the bucket at its start and what flows in during it |
| TargetGateRuns.RateBound | crates/franka-node/src/guard.rs:311-434 | in any window of a tenure at most 2 rate + rate T targets are accepted, however the clock readings are ordered |
| TargetGateRuns.LeaseStartsAnew | crates/franka-node/src/guard.rs:282-288 | after any run, the holder of a new lease may count from one and is accepted at any clock reading when the content is allowed and the rate at least half a hertz; anyone else is refused as not the holder; the previous target is the one from before |
| TargetGateRuns.WholeTokensAreAccepted | crates/franka-node/src/guard.rs:429-434 | of good offers that come before the bucket refills, exactly as many are accepted as it holds whole tokens |
| TargetGateRuns.LeaseBurst | crates/franka-node/src/guard.rs:282-288 | so a new lease buys twice the rate in one burst, and not one more until the clock passes the lease |
| TargetGateRuns.ShallowBucketRefuses | crates/franka-node/src/guard.rs:350-353 | below half a hertz a check refuses for the rate exactly what is otherwise in order, and accepts nothing |
| TargetGateRuns.BelowHalfAHertzNothing | crates/franka-node/src/guard.rs:311-434 | so over any run such a gate accepts nothing and holds its first target |
| TargetGateRuns.PacedIsRateLimitedExactly | crates/franka-node/src/guard.rs:311-434 | a run of offers a period apart is refused for the rate if and only if the rate is below half a hertz and some offer is otherwise in order |
| TargetGateRuns.PacedIsNeverRateLimitedExactly | crates/franka-node/src/guard.rs:429-434 | of a gate with any target to allow and a period that fits the clock: no paced run from any sound state is refused for the rate if and only if the rate is at least half a hertz |
| TargetGateRuns.AtTwoFifthsOfAHertz | crates/franka-node/src/guard.rs:350-353 | at 0.4 Hz a paced holder is refused the very joints the gate holds |
| TargetGateRuns.TravelPerAccept | crates/franka-node/src/guard.rs:368-387 | over offers that are not anchored the commanded position moves at most max_step an acceptance, by the triangle inequality in three dimensions |
| TargetGateRuns.TravelInWindow | crates/franka-node/src/guard.rs:311-434 | so in any window of a tenure it moves at most max_step (2 rate + rate T) |
| TargetGateRuns.TurnPerAccept | crates/franka-node/src/guard.rs:384-387 | and turns at most max_step_rotation an acceptance, for any angle that obeys the triangle law |
| TargetGateRuns.JointTravelPerAccept | crates/franka-node/src/guard.rs:410-427 | each joint moves at most max_step_joint an acceptance, and is inside its inset limits once anything was accepted |
| TargetGateRuns.JointTravelInWindow | crates/franka-node/src/guard.rs:311-434 | the same over any window of a tenure |
| TargetGateRuns.ClampedIsNeverRefusedForLimits | crates/franka-node/src/guard.rs:256-266 | what the gate clamped is never refused with JointLimit |
| TargetGateRuns.AcceptedIsWithinLead | crates/franka-node/src/guard.rs:388-399 | every accepted target that had a reference is within max_lead of it |
| TargetGateRuns.AnchoredIsNearTheArm | crates/franka-node/src/guard.rs:357-399 | an anchored acceptance is within min(max_step, max_lead) of the arm, and the same for the angles, wherever the previous target was |
| TargetGateRuns.TargetStaysWithTheArm | crates/franka-node/src/guard.rs:388-399 | no sequence of messages and leases walks the target further from the arm's range than one lead |
| TargetGateRuns.LockedOut | crates/franka-node/src/guard.rs:357-399 | beyond max_step + max_lead from an arm that stays put, no unanchored target is ever accepted, by any holder |
| TargetGateRuns.TurnLockedOut | crates/franka-node/src/guard.rs:384-399 | the same by orientation alone, beyond max_step_rotation + max_lead_rotation, for any angle that obeys the triangle law |
| TargetGateRuns.LockoutIsExact | crates/franka-node/src/guard.rs:357-408 | with a holder, a fresh number, a token and both ends in the box, some unanchored target is acceptable if and only if the arm is within max_step + max_lead in position and max_step_rotation + max_lead_rotation in orientation, for any angle that obeys the triangle law and its partner |
| TargetGateRuns.LockoutByPositionIsExact | crates/franka-node/src/guard.rs:357-408 | the same of the positions alone, where the orientation is already within the lead, for any angle not negative and nothing between equal orientations |
| TargetGateRuns.AMetreAwayLocksOut | crates/franka-node/src/guard.rs:357-399 | an input: with the default 5 cm each, an arm a metre off the held target |
| TargetGateRuns.HalfATurnLocksOut | crates/franka-node/src/guard.rs:357-399 | an input: with the default 0.26 rad each, an arm turned by half a turn |
| TargetGateRuns.AnchorReadmits | crates/franka-node/src/guard.rs:357-378 | the way out: the arm's own pose, anchored, from the holder, in order, in the box and with a token is accepted from any distance |
| Geometry.Triangle | crates/franka-node/src/guard.rs:453-456 | the triangle inequality for the distance the gate measures, in squared form |
| Geometry.BetweenPoints | crates/franka-node/src/guard.rs:453-456 | its partner: between two points no further apart than a + b lies one within a of the first and b of the second |
| FollowSafety.LocksKept | crates/franka-py/src/targets.rs:213-291 | each mutex is held by exactly the thread that is inside it, at every step |
| FollowSafety.ReadsKept | crates/franka-py/src/targets.rs:235-250 | between reading the target and setting it nothing else changes it |
| FollowSafety.InvKept | crates/franka-py/src/targets.rs:213-291 | every step of any thread keeps the whole invariant: locks, reads, feed, history, wakeups, target |
| FollowSafety.InvAlongRuns | crates/franka-py/src/targets.rs:213-291 | so every interleaving does |
| FollowGuarantees.ChunksPublishPrefixes | crates/franka-py/src/targets.rs:213-266 | in every interleaving each chunk publishes a prefix of its rows, in order, each at most once and never before started + i dt |
| FollowGuarantees.SupersededChunksStaySilent | crates/franka-py/src/targets.rs:244-291 | from the step by which a move, a follow or a stop cancels the chunk, which lies inside its follow lock, no row taken from an earlier chunk is published, however the run goes on; the row carries its chunk from the head of the worker's loop |
| FollowGuarantees.NothingIsSetAfterTheTake | crates/franka-py/src/targets.rs:277-285 | the handle is taken at most once and nothing is set after |
| FollowGuarantees.NoDeltaIsLost | crates/franka-py/src/targets.rs:245-251 | under concurrent joint move_by calls the target is where it began plus every delta, and the moves set are, one for one and in order, those whose calls returned success, but for at most one still inside its call |
| FollowGuarantees.SuccessMeansSet | crates/franka-py/src/targets.rs:245-251 | every call that returned success set its own motion, in any run |
| FollowGuarantees.NoLostWakeup | crates/franka-py/src/targets.rs:213-285 | a parked worker nobody is about to notify has nothing to do before its deadline: no row pending without one, not told to quit |
| FollowGuarantees.NoDeadlock | crates/franka-py/src/targets.rs:213-285 | while a call is under way, or the worker is neither parked nor gone, some thread can go on |
| FollowGuarantees.CallsAreShort | crates/franka-py/src/targets.rs:245-285 | every call takes at most seven steps of its own and no other thread lengthens it |
| FollowGuarantees.WorkerLetsGo | crates/franka-py/src/targets.rs:213-242 | while the worker keeps the follow lock it takes at most six steps a row that is left and six more, whatever the others do: what a call waits for |
| FollowAnswers.HonestKept | crates/franka-py/src/targets.rs:213-291 | every step of any thread keeps the answers true, apart and complete, the fate of every chunk and the order in which a stop quits and takes |
| FollowAnswers.HonestAlongRuns | crates/franka-py/src/targets.rs:213-291 | so every interleaving does |
| FollowOutcomes.FollowReportsTheStore | crates/franka-py/src/targets.rs:256-266 | in every interleaving a follow reports success exactly when the handle had not been taken when it held the control lock; then it has stored one chunk, its own rows and dt, that no other call reports, with nothing in between |
| FollowOutcomes.ChunksAreReported | crates/franka-py/src/targets.rs:256-266 | every chunk belongs to a call that reported success or is about to, so a refused follow adds none |
| FollowOutcomes.StoringStartsTheClock | crates/franka-py/src/targets.rs:256-266 | one chunk more is one follow storing its rows to be fed from the first on from the clock as it is, to a worker not told to quit; no other step of a follow touches rows, history or handle |
| FollowOutcomes.MoveReportsTheSet | crates/franka-py/src/targets.rs:245-251 | a move reports success exactly when it is in the history at its place; else the handle was gone or refused the target |
| FollowOutcomes.StopTakesOnce | crates/franka-py/src/targets.rs:277-290 | a stop takes the handle exactly when it was still there, and one at most does |
| FollowOutcomes.QueriesSeeTheTarget | crates/franka-py/src/targets.rs:269-271 | a query sees the target left by the history up to its own place, and fails exactly when the handle was taken by then |
| FollowOutcomes.EveryChunkHasItsEnd | crates/franka-py/src/targets.rs:211-242 | rows are never dropped in silence: a chunk is being fed, or all out, or superseded, or the handle refused its next row |
| FollowOutcomes.NothingDueIsLeft | crates/franka-py/src/targets.rs:216-242 | the worker lets the follow lock go only with every row out whose time, started + i dt, has come, or to end because it was told to |
| FollowOutcomes.StopEndsTheWorker | crates/franka-py/src/targets.rs:277-285 | with the handle taken and the calls returned the worker has ended or can take a step closer to its end: it does not sleep |
| FollowOutcomes.TwoStepsAfterTheTake | crates/franka-py/src/targets.rs:216-219 | from the take on the worker takes at most two steps, whatever else runs, and has ended after the second |
| FollowOutcomes.FollowAlone | crates/franka-py/src/targets.rs:256-266 | a follow nothing runs beside stores its rows and rouses the worker; with the handle gone it changes nothing |
| FollowOutcomes.MoveAlone | crates/franka-py/src/targets.rs:245-251 | a move nothing runs beside cancels the rows and sets the target it aims at, if the handle is there and accepts |
| FollowOutcomes.StopAlone | crates/franka-py/src/targets.rs:277-285 | a stop nothing runs beside cancels the rows, takes the handle and leaves the worker awake and told to quit |
| ClockFit.MiddleIs | bench/fer-capture/fer_capture/fci.py:78-83 | the middle element of the sorted slopes is a given value exactly when few enough lie strictly below and above it |
| ClockFit.OffLinePairs | bench/fer-capture/fer_capture/fci.py:77-79 | pairs off the line are at most the shifts the window slides over |
| ClockFit.SlopesCount | bench/fer-capture/fer_capture/fci.py:77-79 | the slopes below and above the line's are the pairs over which the shift drops and rises |
| ClockFit.FitIsExactExactly | bench/fer-capture/fer_capture/fci.py:65-99 | for any permanent shifts at all the fit is exact if and only if at most half the pairs drop and fewer than the rest rise; but for a slope of 1e6, which the fallback of 1.0 also gives when the middle pair does not climb |
| ClockFit.ExactUpTo | bench/fer-capture/fer_capture/fci.py:65-99 | c shifts of any size leave the fit exact when c windows do not reach past the middle slope |
| ClockFit.BreakdownPoint | bench/fer-capture/fer_capture/fci.py:65-99 | for every length and every c: all captures with at most c shifts are fitted exactly if and only if c windows do not reach past the middle slope |
| ClockFit.ExactUpToNineShifts | bench/fer-capture/fer_capture/fci.py:65-99 | twenty samples or more on a line of slope a > 0 but for at most nine permanent shifts of any size fit exactly a/1e6 |
| ClockFit.TenShiftsSurvivedExactly | bench/fer-capture/fer_capture/fci.py:65-99 | nine shifts are survived at every length; ten exactly at the lengths n with n % 20 > n // 20, the longest of which is 379 |
| ClockFit.TenShiftsBreakIt | bench/fer-capture/fer_capture/fci.py:65-99 | what breaking looks like: twenty samples with ten shifts for which the fit is twice the rate |
| ClockFit.FitIsPositive | bench/fer-capture/fer_capture/fci.py:68-99 | the fitted rate is positive, whatever the samples |
| CaptureAnalysis.RoundMonotone | bench/fer-capture/fer_capture/fci.py:117 | rounding half to even keeps order |
| CaptureAnalysis.RoundExactly | bench/fer-capture/fer_capture/fci.py:117 | the nearest integer, and of two equally near the even one |
| CaptureAnalysis.ScaledMonotone | bench/fer-capture/fer_capture/fci.py:116-120 | dividing by a positive rate about an origin and rounding keeps order |
| CaptureAnalysis.Origin | bench/fer-capture/fer_capture/fci.py:115 | the earliest timestamp of both directions |
| CaptureAnalysis.ApplyClockScale | bench/fer-capture/fer_capture/fci.py:102-120 | both directions rescaled in place, each by its own rate, about their common earliest timestamp |
| CaptureAnalysis.ScalingKeepsOrder | bench/fer-capture/fer_capture/fci.py:102-120 | positive rates keep the states in order and the origin the earliest timestamp, rounding included |
| CaptureAnalysis.UniqueSorted | bench/fer-capture/fer_capture/fci.py:294-300 | the ids, each once, ascending |
| CaptureAnalysis.MissingRanges | bench/fer-capture/fer_capture/fci.py:301-306 | the ranges are ascending and disjoint, hold exactly the missing ids, add up to their number, and the longest is max_run |
| CaptureAnalysis.IdBookkeeping | bench/fer-capture/fer_capture/fci.py:294-309 | the same from the received ids, duplicates included: expected, duplicates, n_missing and max_consecutive_missing mean what they say |
| CaptureAnalysis.CountBurst | bench/fer-capture/fer_capture/fci.py:330-335 | the loop that stops early counts every later state inside the window |
| CaptureAnalysis.StateGaps | bench/fer-capture/fer_capture/fci.py:325-346 | the gap table is every gap of at least gap_ns with its exhaustive burst, in time order |
| CaptureAnalysis.GapsAreOrdered | bench/fer-capture/fer_capture/fci.py:325-346 | the gaps of states in time order are in time order at both ends |
| CaptureAnalysis.GapsAreComplete | bench/fer-capture/fer_capture/fci.py:326-329 | a state is in the table exactly when it came at least gap_ns after the one before |
| CaptureAnalysis.BisectAfter | bench/fer-capture/fer_capture/fci.py:383 | the first gap that ends at or after a time |
| CaptureAnalysis.FirstMatchMeaning | bench/fer-capture/fer_capture/fci.py:382-385 | the exhaustive search finds a match exactly when some gap ends no earlier than lo - match and begins no later than hi + match |
| CaptureAnalysis.MatchGap | bench/fer-capture/fer_capture/fci.py:381-385 | looking at one gap found by bisection is the first match among all of them, if any |
| CaptureAnalysis.CommandGaps | bench/fer-capture/fer_capture/fci.py:376-393 | every command gap of at least gap_ns with its exhaustive match, and the number unmatched |
| CaptureAnalysis.GapTables | bench/fer-capture/fer_capture/fci.py:247-393 | rescaling, alignment, gap table and match together: the tables are the exhaustive ones of the records that result, for positive rates, and for negative ones with a positive threshold |
| CaptureAnalysis.AlignCmds | bench/fer-capture/fer_capture/fci.py:249-261 | on split clocks every command is moved back by the median turnaround, in place |
| CaptureAnalysis.AlignmentIsMedian | bench/fer-capture/fer_capture/fci.py:255-258 | at most half the turnarounds are shorter than the shift and at most half longer, truncation included |
| CaptureAnalysis.ShiftKeepsIntervals | bench/fer-capture/fer_capture/fci.py:249-261 | a shift changes which state gaps the command gaps match and nothing else about them |
| CaptureAnalysis.ByArrivalKeeps | bench/fer-capture/fer_capture/fci.py:199 | the sort puts the datagrams in order of arrival and loses none |
| CaptureAnalysis.ByArrivalIsStable | bench/fer-capture/fer_capture/fci.py:199 | datagrams with the same times stay in the order they were completed in |
| CaptureAnalysis.RecordsInOrder | bench/fer-capture/fer_capture/fci.py:199-227 | so the states and the commands are in time order |
| CaptureAnalysis.Split | bench/fer-capture/fer_capture/fci.py:208-227 | the loop splits the datagrams into states, commands and others |
| CaptureAnalysis.NegativeScaleReverses | bench/fer-capture/fer_capture/fci.py:102-120 | a negative rate turns both directions around |
| CaptureAnalysis.AutoPutsRight | bench/fer-capture/fer_capture/fci.py:229-261 | with the automatic scale, at least 20 states on a line of slope a > 0 but for at most nine shifts come out at t0 + round((t - t0) 10^6 / a), the commands likewise, moved back by the median turnaround exactly when the rates differ by more than a thousandth |
| CaptureAnalysis.MillisecondsApart | bench/fer-capture/fer_capture/fci.py:116-120 | so two states k ids apart with no shift between them come out exactly k milliseconds apart, rounding included |
| CaptureAnalysis.Analyze | bench/fer-capture/fer_capture/fci.py:199-393 | from datagrams in any order, for no scaling, the fit with its alignment, or a fixed factor: it fails exactly on a factor of zero with anything to scale, and otherwise the tables are the exhaustive ones of the records that result, both empty at a negative factor and a positive threshold; about the earliest time, and with the automatic scale the times of a steady clock are put right, in numbers |
| CaptureAnalysis.FactorListsGapsExactly | bench/fer-capture/fer_capture/fci.py:242-346 | at a factor not zero some capture has a gap in its table if and only if the factor is positive |
| CaptureAnalysis.TableIsEmptyExactly | bench/fer-capture/fer_capture/fci.py:325-329 | of one capture the table is empty if and only if no two rescaled states in a row are a threshold apart |
| CaptureAnalysis.SevenMilliseconds | bench/fer-capture/fer_capture/fci.py:242-346 | an input: two states 7 ms apart are listed at a factor of 1 and not at -1 |
| CaptureTables.StatesAreReceived | bench/fer-capture/fer_capture/fci.py:208-217 | a record is a state as often as a datagram from the robot with its id and times was received |
| CaptureTables.CmdsAreReceived | bench/fer-capture/fer_capture/fci.py:218-225 | a record is a command exactly when a datagram to the robot with its id came at its time |
| CaptureTables.RecordsOfParts | bench/fer-capture/fer_capture/fci.py:208-227 | the records of two captures one after the other are those of each, in order |
| CaptureTables.OneRecordEach | bench/fer-capture/fer_capture/fci.py:208-227 | a datagram is one state, one command or neither, and neither when it is too short for an id |
| CaptureTables.GapRows | bench/fer-capture/fer_capture/fci.py:325-346 | the rows of the gap table are, one each and in order, the states that came at least gap_ns after the one before, with the gap, the ids, the times and the number of states within burst_ns after |
| CaptureTables.CmdGapRows | bench/fer-capture/fer_capture/fci.py:376-393 | the rows of the command table are, one each and in order, the commands that came at least gap_ns late, with the first state gap that overlaps the silence, or none if none does |
| CaptureTables.UnmatchedCounts | bench/fer-capture/fer_capture/fci.py:394 | the number of rows without a match |
| CaptureTables.TimesAreLastArrivals | bench/fer-capture/fer_capture/fci.py:255 | an id is looked up to the last state that carried it |
| CaptureTables.TurnaroundsMean | bench/fer-capture/fer_capture/fci.py:256 | a turnaround is how long after the last state of its id a command came |
| CaptureTables.TurnaroundsAreAll | bench/fer-capture/fer_capture/fci.py:256 | and every command that answers a state has one |
| CaptureTables.AlignedOnce | bench/fer-capture/fer_capture/fci.py:257-260 | aligned commands have a median turnaround that truncates to zero |
| Bytes.U16RoundTrip | bench/fer-capture/fer_capture/selftest.py:36-56 | a 16-bit field written in either byte order is read back wherever it lies |
| Bytes.U32RoundTrip | bench/fer-capture/fer_capture/selftest.py:119-154 | the same of a 32-bit field |
| Ipv4.FoldMeaning | bench/fer-capture/fer_capture/selftest.py:31-33 | folding carries ends below 2^16, keeps the sum modulo 65535, and gives zero only for zero |
| Ipv4.ComputeChecksum | bench/fer-capture/fer_capture/selftest.py:25-33 | the padding, summing and folding loops compute the checksum of the words, odd lengths included |
| Ipv4.ChecksumVerifies | bench/fer-capture/fer_capture/selftest.py:25-43 | bytes that carry their own checksum in any even place check to zero |
| Ipv4.HeaderVerifies | bench/fer-capture/fer_capture/selftest.py:36-43 | so does every header that is built (section 3.1 of RFC 791, RFC 1071) |
| Ipv4.HeaderBytes | bench/fer-capture/fer_capture/selftest.py:36-43 | the header that is built, byte by byte |
| Ipv4.ParsedFields | bench/fer-capture/fer_capture/reassembly.py:79-100 | for any bytes: which packets are looked at, where each field is, and where the body ends when the length field is wrong |
| Ipv4.ParsedUdp | bench/fer-capture/fer_capture/reassembly.py:137-144 | for any bytes: eight or more are a datagram, and a length field that is too short or too long is not believed |
| Ipv4.PacketRoundTrip | bench/fer-capture/fer_capture/reassembly.py:79-98 | every packet that is built parses back to its fields and payload, link-layer padding and all |
| Ipv4.UdpRoundTrip | bench/fer-capture/fer_capture/reassembly.py:137-143 | every UDP datagram parses back to its ports and payload |
| Reassembly.SweepMeaning | bench/fer-capture/fer_capture/reassembly.py:121-134 | the sweep over parts in order returns the data exactly when no byte from where it stands on is missing |
| Reassembly.AssembledExactly | bench/fer-capture/fer_capture/reassembly.py:121-134 | pieces of a datagram in any order, repeated or overlapping, assemble to it if and only if every byte has arrived |
| FragmentOverlaps.SortPartsOrders | bench/fer-capture/fer_capture/reassembly.py:120 | the parts are sorted by offset and then by bytes, none lost |
| FragmentOverlaps.BytesLeIsLexical | bench/fer-capture/fer_capture/reassembly.py:120 | byte strings in Python's order: a prefix first, or the smaller byte where they first differ |
| FragmentOverlaps.AssembledOfAny | bench/fer-capture/fer_capture/reassembly.py:120-133 | any parts, overlapping and disagreeing ones included, make a datagram exactly when none begins beyond its end and every byte is in some part; each byte is that of the last part in order that covers it |
| Reassembly.Assemble | bench/fer-capture/fer_capture/reassembly.py:121-132 | the loop that fills the buffer in place computes that sweep, and every write is inside the buffer |
| Reassembly.Reassembler.Add | bench/fer-capture/fer_capture/reassembly.py:79-135 | the whole new table and the datagram returned, for any bytes at all |
| Reassembly.Reassembler.Flush | bench/fer-capture/fer_capture/reassembly.py:145-147 | what is pending is counted incomplete and forgotten |
| ReassemblyRuns.KeysAreIndependent | bench/fer-capture/fer_capture/reassembly.py:103-135 | a key's entry depends on the fragments of that key alone |
| ReassemblyRuns.GatheredShape | bench/fer-capture/fer_capture/reassembly.py:105-117 | an entry holds every part, their count, the total once the last fragment came, and the first and last timestamps |
| ReassemblyRuns.WholeWhenComplete | bench/fer-capture/fer_capture/reassembly.py:119-134 | an entry is whole exactly when every byte of its datagram has arrived |
| ReassemblyRuns.GathersUntilComplete | bench/fer-capture/fer_capture/reassembly.py:103-135 | fragments of one datagram just gather until every byte has arrived, and then deliver it and clear the entry |
| ReassemblyRuns.MakeFrames | bench/fer-capture/fer_capture/selftest.py:59-76 | the fragmenting loop makes the frames piece by piece at 1480 bytes, timestamps included |
| ReassemblyRuns.PieceParses | bench/fer-capture/fer_capture/selftest.py:66-75 | a frame parses to exactly the piece cut, its offset and whether more follow |
| ReassemblyRuns.FramesCarryThePieces | bench/fer-capture/fer_capture/selftest.py:59-76 | the frames are the pieces of the datagram, each once and in order |
| ReassemblyRuns.CompleteWhenAllCaptured | bench/fer-capture/fer_capture/reassembly.py:121-134 | every byte has arrived exactly when every piece has been captured |
| ReassemblyRuns.FramesReassemble | bench/fer-capture/fer_capture/reassembly.py:79-143 | fragmentation is undone: in any order, with repeats, interleaved with anything else and inside the timeout, nothing is returned until the last missing piece and then exactly the original payload and ports with first and last timestamps and the fragment count, and the entry is gone (section 3.2 of RFC 791); an old entry of the key of which nothing came for more than two seconds is given up, once, and does not show |
| ReassemblyRuns.StaleIsForgotten | bench/fer-capture/fer_capture/reassembly.py:104-110 | whatever follows on a stale entry is what follows on none |
| ReassemblyRuns.GivenUpOrKept | bench/fer-capture/fer_capture/reassembly.py:104-133 | a fragment more than 2 000 000 000 ns after the last of its entry gives the entry up, counts it and is handled as a first one; until then everything gathered is kept with it, or delivered |
| ReassemblyRuns.IncompleteCounts | bench/fer-capture/fer_capture/reassembly.py:104-107 | over any capture incomplete grows by the entries given up, of this key and of all others, and by nothing else |
| ReassemblyRuns.TimelyNeverLapse | bench/fer-capture/fer_capture/reassembly.py:104-107 | fragments that come in time never find their own entry stale |
| ReassemblyRuns.UnfragmentedIsDelivered | bench/fer-capture/fer_capture/reassembly.py:100-101 | a datagram that was not cut is delivered at once and touches no entry |
| ReassemblyRuns.PacketIsAccounted | bench/fer-capture/fer_capture/reassembly.py:103-135 | one packet opens an entry, completes one or gives one up, and the table balances |
| ReassemblyRuns.EntriesAreAccounted | bench/fer-capture/fer_capture/reassembly.py:103-135 | over any capture every entry opened is completed, given up as incomplete, or still pending |
| PcapReader.ReadClassic | bench/fer-capture/fer_capture/pcap.py:42-58 | the loop over the file cursor yields exactly the records that lie wholly in the file, or reports a short header |
| PcapReader.ParseOptions | bench/fer-capture/fer_capture/pcap.py:67-79 | the option loop returns the list with the first of each code |
| PcapReader.ReadBlock | bench/fer-capture/fer_capture/pcap.py:87-135 | one turn of the pcapng loop at the cursor: stop, raise or consume a block, for any bytes |
| PcapReader.ReadPcapng | bench/fer-capture/fer_capture/pcap.py:82-136 | the loop with its changing byte order and interfaces yields what its turns yield, in order, up to where it stops or raises |
| PcapReader.ReadPackets | bench/fer-capture/fer_capture/pcap.py:26-39 | the reader is picked by the first four bytes; too short and unknown files are refused |
| PcapBytes.MagicNumbers | bench/fer-capture/fer_capture/pcap.py:14-19 | the four magic numbers with their byte order and unit |
| PcapBytes.NoOtherMagic | bench/fer-capture/fer_capture/pcap.py:14-19 | and there are no others |
| PcapBytes.StopsExactly | bench/fer-capture/fer_capture/pcap.py:88-113 | the pcapng reader stops quietly exactly at a block that is not all there |
| PcapBytes.RaisesExactly | bench/fer-capture/fer_capture/pcap.py:90-132 | it raises exactly on a byte order that is none, a length below the least of its kind, a block too short for its fields, and an empty resolution |
| PcapBytes.PassesTheBlock | bench/fer-capture/fer_capture/pcap.py:88-136 | every other block is passed by its own length, and only an interface block adds an interface and only a packet block yields a packet |
| PcapWriter.WritePcap | bench/fer-capture/fer_capture/selftest.py:119-130 | the file is the header and then every record, in order |
| PcapWriter.WritePcapng | bench/fer-capture/fer_capture/selftest.py:133-154 | the file is the section and interface blocks and then every packet block, in order |
| PcapBytes.LittleHeaderBytes | bench/fer-capture/fer_capture/selftest.py:119-125 | the file header in bytes, little endian and in microseconds |
| PcapBytes.BigHeaderBytes | bench/fer-capture/fer_capture/selftest.py:119-125 | the file header in bytes, big endian and in nanoseconds |
| PcapBytes.SectionBlockBytes | bench/fer-capture/fer_capture/selftest.py:133-143 | the section block in bytes |
| PcapBytes.InterfaceBlockBytes | bench/fer-capture/fer_capture/selftest.py:144-147 | the interface block in bytes |
| PcapRoundTrip.PcapRoundTrips | bench/fer-capture/fer_capture/pcap.py:26-58 | for both byte orders and both units every packet written is read back, in order, its time floored to the unit |
| PcapRoundTrip.CutPcapFile | bench/fer-capture/fer_capture/pcap.py:42-58 | a pcap file cut anywhere past its header reads as exactly the frames whose records are whole |
| PcapRoundTrip.PcapngRoundTrips | bench/fer-capture/fer_capture/pcap.py:61-136 | for every resolution 0 to 9 every packet written is read back, in order, its time floored |
| PcapRoundTrip.CutPcapngFile | bench/fer-capture/fer_capture/pcap.py:82-136 | a pcapng file cut anywhere past its first four bytes reads as exactly the frames whose blocks are whole |
| PcapRoundTrip.CutOfAnyFile | bench/fer-capture/fer_capture/pcap.py:26-136 | any file at all, cut anywhere, reads as a prefix of its packets and raises nothing the file does not, but for a missing file header |
| PcapRoundTrip.OptionsRoundTrip | bench/fer-capture/fer_capture/pcap.py:67-79 | any option list in either byte order reads back, padding and end included, repeated codes ignored |
| PcapRoundTrip.InterfaceWithOptions | bench/fer-capture/fer_capture/pcap.py:114-121 | an interface with any resolution and any signed offset is read with both, in either byte order |
| PcapRoundTrip.I64RoundTrip | bench/fer-capture/fer_capture/pcap.py:119-120 | a signed 64-bit offset reads back |
| PcapRoundTrip.EnhancedPacket | bench/fer-capture/fer_capture/pcap.py:122-129 | a packet block yields its data with its interface's link type, resolution and offset, and is passed over without one |
| PcapRoundTrip.SimplePacket | bench/fer-capture/fer_capture/pcap.py:130-135 | a simple packet block yields what it holds of its data, at time zero on the first interface |
| PcapRoundTrip.SectionStartsAnew | bench/fer-capture/fer_capture/pcap.py:90-105 | a section header sets the byte order and starts the interfaces anew |
| PcapRoundTrip.TicksAreFloored | bench/fer-capture/fer_capture/pcap.py:61-64 | ticks become nanoseconds rounded down, for decimal and binary resolutions |
| Sha256Stream.Schedule | tools/model-reference/sha256.h:92-103 | the schedule array is W of section 6.2.2, step 1, of FIPS 180-4 |
| Sha256Stream.MixIn | tools/model-reference/sha256.h:105-129 | the 64 turns of the loop are the rounds of section 6.2.2, step 3 |
| Sha256Stream.Transform | tools/model-reference/sha256.h:79-139 | one transform is the hash computation of section 6.2.2 on one block, in place |
| Sha256Stream.Hasher.constructor | tools/model-reference/sha256.h:141-145 | a new hasher holds the empty message |
| Sha256Stream.Hasher.UpdateByte | tools/model-reference/sha256.h:21-26 | a byte is appended: the buffer is the tail and the state the fold over the full blocks |
| Sha256Stream.Hasher.Update | tools/model-reference/sha256.h:19-28 | so the hasher holds the message so far and the data |
| Sha256Stream.Hasher.Hexdigest | tools/model-reference/sha256.h:34-74 | one digest of a message below 2^61 bytes is SHA-256 of it, as 64 hexadecimal digits; the hasher is spent after |
| Sha256Stream.FinishIsPadding | tools/model-reference/sha256.h:37-57 | both the one-block and the two-block finish are the padding of section 5.1.1 |
| Sha256Stream.HashInChunks | tools/model-reference/sha256.h:19-74 | however a message is cut into updates the digest is that of the whole |
| Sha256Stream.Sha256Hex | tools/model-reference/sha256.h:148-152 | the digest of a string |
| Sha256Spec.PadZeros | tools/model-reference/sha256.h:37-46 | the padding's zeros are the fewest that leave eight bytes of the last block |
| Sha256Numbers.PrimesAreTheFirst | tools/model-reference/sha256.h:80-90 | the primes the constants come from are the first 64 |
| Sha256Numbers.NumbersAreTheStandards | tools/model-reference/sha256.h:80-142 | each round constant is the first 32 bits of the fractional part of the cube root of its prime, and each initial word of the square root, as sections 4.2.2 and 5.3.3 of FIPS 180-4 say |
| Sha256Numbers.FractionIsUnique | tools/model-reference/sha256.h:80-90 | a number has one such fraction, so no other constant would do |
| Sha256KnownAnswer.HashOfAbc | tools/model-reference/sha256.h:76-143 | the three letters of the standard's example hash to its eight words: schedule, 64 rounds and additions |
| Sha256KnownAnswer.DigestOfAbc | tools/model-reference/sha256.h:40-76 | and its text is ba7816bf... as the standard gives it |
| Loads.CombineCenterOfMass | tools/model-reference/main.cpp:56-67 | the loop computes the weighted mean of the centres, and the origin for no mass |
| Loads.LoadConfig.DeriveTotals | tools/model-reference/main.cpp:165-170 | the totals are those of the combined body |
| Loads.CombiningAdds | tools/model-reference/main.cpp:56-115 | for masses not negative, mass, first moment and inertia at the flange add up, and no mass means no centre and no inertia |
| Loads.MomentsDetermine | tools/model-reference/main.cpp:75-115 | the three determine the body |
| Loads.CombiningCommutes | tools/model-reference/main.cpp:56-115 | combining commutes, for any masses |
| Loads.CombiningIsAssociative | tools/model-reference/main.cpp:56-115 | combining is associative over all bodies of mass >= 0, zero-mass branches included |
| Loads.MasslessIsNeutral | tools/model-reference/main.cpp:94-99 | a massless load changes nothing, whatever centre and inertia it claims |
| Loads.SkewSquaredIsSpread | tools/model-reference/main.cpp:69-73 | the square of the skew matrix is -(the squared length of v times E - v v^T) |
| Loads.ParallelAxis | tools/model-reference/main.cpp:75-115 | for positive total mass the inertia is I_ee + I_load + (m_ee m_load / m_total)(the squared length of d times E - d d^T) |
| Loads.SymmetryIsKept | tools/model-reference/main.cpp:75-115 | symmetric inertias combine to a symmetric one |
| Loads.EnergyIsKept | tools/model-reference/main.cpp:75-115 | combining never loses rotational energy about any axis, so inertias stay positive semidefinite |
| ClockMap.SameHostExactly | crates/franka-cam/src/record.rs:127-130 | a stamp is this host's exactly within a second behind and 50 ms ahead; saturation changes nothing |
| ClockMap.RunningExactly | crates/franka-cam/src/record.rs:262-299 | a sample counts for a session exactly when it is stamped on this host and the phase is active (2) or homing (5) |
| ClockMap.AgreeExactly | crates/franka-cam/src/record.rs:183-189 | two samples agree exactly when robot and host advanced by the same between them, to 10 ms |
| ClockMap.Clock.Observe | crates/franka-cam/src/record.rs:162-201 | the whole new state and whether the sample agreed, for any sample and clock reading |
| ClockMap.Clock.RobotTimeS | crates/franka-cam/src/record.rs:205-212 | the mapped time, or none |
| ClockMap.Meaning | crates/franka-cam/src/record.rs:162-201 | after any trace the candidate is the newest sample of the open session, and the map comes from the last two successive samples of one session |
| ClockMap.MapExistsExactly | crates/franka-cam/src/record.rs:162-201 | the map is p if and only if the last two successively retained in-session samples, with no idle one between, agreed within 10 ms and the second is p |
| ClockMap.ForeignMovesNothing | crates/franka-cam/src/record.rs:163-166 | a trace without its foreign samples ends in the same state, but for their count |
| ClockMap.LastSeen | crates/franka-cam/src/record.rs:216-223 | the two times kept are those of the last sample of this host and of the last in a session |
| ClockMap.MappedStampsAreAccurate | crates/franka-cam/src/record.rs:205-212 | if every in-session offset is within epsilon of the true one, every mapped stamp is within epsilon, whatever else was in the trace |
| ClockMap.MapWhileNear | crates/franka-cam/src/record.rs:162-201 | while stamps jitter by at most 5 ms around the robot's clock there is a map from the second retained sample of a session on |
| ClockMap.MappedExactlyNear | crates/franka-cam/src/record.rs:205-212 | a stamp is mapped exactly when there is a map within five seconds of it |
| ClockMap.StepGoesBackExactly | crates/franka-cam/src/record.rs:162-201 | an event moves the map's stamp back exactly when it agrees and is itself stamped before the map |
| ClockMap.AgreesMakesMap | crates/franka-cam/src/record.rs:180-192 | observe returns true exactly when the sample makes an agreeing successive pair of the trace |
| ClockMap.MapGoesBackExactly | crates/franka-cam/src/record.rs:162-201 | over any trace the stamp goes back exactly at an event that makes an agreeing successive pair and is stamped before the map |
| ClockMap.MapGoesBackOnlyAcrossSessions | crates/franka-cam/src/record.rs:168-176 | and only if an idle sample came since the map was made |
| ClockMap.NeverBackWithinASession | crates/franka-cam/src/record.rs:162-201 | from any state whose map is no newer than its candidate, over any events none of which is idle, the stamp never goes back |
| ClockMap.MapMayGoBack | crates/franka-cam/src/record.rs:162-201 | a trace in which a new session does move it back |
| RecorderChannel.InvAlongRuns | crates/franka-rerun/src/recorder.rs:188-226 | every interleaving keeps the invariant: everything taken is logged, lost, batched or queued in that order, and the counts balance |
| RecorderChannel.NothingIsMislaid | crates/franka-rerun/src/recorder.rs:188-226 | pushed = dropped + queued + batched + logged + lost with a failed thread + in flight, and the queue never exceeds its capacity |
| RecorderChannel.DroppedExactly | crates/franka-rerun/src/recorder.rs:276-285 | over every interleaving a push is dropped exactly when it finds the queue full or the thread gone |
| RecorderChannel.PushIsNeverStuck | crates/franka-rerun/src/recorder.rs:236-285 | a push never waits: inside send it always has its next step |
| RecorderChannel.LoggedIsFifo | crates/franka-rerun/src/recorder.rs:198-216 | what is logged is always a prefix of what the channel took, in order, and without an error the rest is batched or queued |
| RecorderChannel.FinishIsComplete | crates/franka-rerun/src/recorder.rs:308-321 | when finish returns without an error everything taken is logged and its counts are final: pushed = dropped + logged |
| RecorderChannel.FinishReportsOnlyFailures | crates/franka-rerun/src/recorder.rs:308-321 | without a logging error finish reports none and everything taken is logged |
| RecorderChannel.DrainIsBounded | crates/franka-rerun/src/recorder.rs:198-216 | once the sender is dropped the thread takes at most the queue's length and five more steps, whatever else runs |
| RecorderChannel.FinishIsNeverStuck | crates/franka-rerun/src/recorder.rs:308-321 | and until it is gone it always has one, so finish can return |
| EventScan.ChangesAreExact | crates/franka-rerun/src/commander.rs:188-192 | the changed rows, each once, in order |
| EventScan.SlideWindow | crates/franka-rerun/src/commander.rs:429-431 | the inner loop stops at the first change inside the window, never past the current one |
| EventScan.ScanChange | crates/franka-rerun/src/commander.rs:416-440 | one pass of the loop logs exactly the change's stall, step and burst, and moves the window and the burst flag on |
| EventScan.LogEvents | crates/franka-rerun/src/commander.rs:406-451 | the loop logs exactly the events of each change in turn and the abort, and returns the number of changes |
| EventScan.WindowIsExact | crates/franka-rerun/src/commander.rs:429-432 | for times in order the window holds exactly the changes no older than its length |
| EventScan.WindowCounts | crates/franka-rerun/src/commander.rs:432 | so the sliding count is the number of changes within the window |
| EventScan.BurstsAreRisingEdges | crates/franka-rerun/src/commander.rs:433-438 | a burst is reported exactly at the change that completes five within 0.1 s when the one before did not, with the true count |
| EventScan.StallsAreLongGaps | crates/franka-rerun/src/commander.rs:417-423 | a stall is reported exactly for a gap over 1.5 s since the last change or the start of the log |
| EventScan.EventsAreInOrder | crates/franka-rerun/src/commander.rs:406-451 | the events go out in time order |
| EventScan.WhatIsLogged | crates/franka-rerun/src/commander.rs:406-451 | an event is logged exactly when it is the step to a changed target, the wait of more than 1.5 s before it, the fifth change or later within 100 ms where the one before was not, or says the log ends more than 1 mm from its target |
| EventScan.EachIsLoggedOnce | crates/franka-rerun/src/commander.rs:406-451 | and each once: a step a change, a stall a long wait, a burst a first, at most one abort |
| CameraStream.CamStats.CountFrame | crates/franka-cam/src/status.rs:90-99 | a frame adds one, its bytes, its gap and its flag to the counters |
| CameraStream.Stream | crates/franka-cam/src/capture.rs:205-258 | over a stream the counters grow by its frames, bytes, gaps, refusals and flags, and by one error unless it was stopped |
| CameraStream.FramesAndGapsAddUp | crates/franka-cam/src/capture.rs:237-238 | frames + gaps = last - first + 1 over any number of 32-bit wraps if and only if the driver never skips 2^32 or more at once, and never more than that |
| CameraStream.WholeTurnIsMissed | crates/franka-cam/src/capture.rs:237-238 | an input: two frames 2^32 apart count as two, with no gap |
| CameraStream.TakeTurn | crates/franka-cam/src/capture.rs:141-172 | what one open and its stream add to the counters |
| CameraStream.Run | crates/franka-cam/src/capture.rs:128-180 | the counters and the waits after the turns up to the one that ends the thread |
| CameraStream.WaitsAreCapped | crates/franka-cam/src/capture.rs:173-177 | the wait after the k-th failed open in a row, from 0 and start-up, is min(200 ms 2^k, 5 s); after a stream the count starts at the stream's own wait |
| CameraStream.TotalsAddUp | crates/franka-cam/src/capture.rs:141-158 | frames, gaps, bytes and refusals are totals over every stream, and every stream but the first is a reopening |
| CameraStream.TotalsAreSpans | crates/franka-cam/src/capture.rs:128-180 | over every reopening frames and gaps together are the spans of the streams |
| CameraStream.RefusedCounts | crates/franka-cam/src/capture.rs:250-252 | the frames the publisher refused, counted |
| CameraStream.FlaggedCounts | crates/franka-cam/src/capture.rs:253 | the frames the driver flagged, counted |
| CameraStream.ErrorsAddUp | crates/franka-cam/src/capture.rs:141-172 | over any turns one error for each flagged frame, each open that failed and may be tried again and each stream that was not stopped |

## Left out

- TargetGate.Guard.Check: the distance and the norm carried by a refusal are kept squared, and the angle of two orientations is a function the gate is given; the proofs that need more of it say what (never negative, zero on equal orientations, and for `TurnPerAccept` the triangle law).
- TargetGate.Guard.InsideJointLimits: an empty band, at which the original's `clamp` panics, is excluded by the precondition.
- TargetGateRuns.TurnPerAccept: the triangle law of the angle between orientations is a hypothesis; the arc cosine it comes from is not modelled.
- TargetGateRuns.TurnLockedOut: the same hypothesis.
- TargetGateRuns.LockoutIsExact: the triangle law and its partner (between two orientations no further apart than a + b lies one within a of the one and b of the other) are hypotheses on the angle.
- FollowProtocol: targets are joint targets; the Cartesian `relative`, which composes quaternions, is not modelled, nor is what `Handle::stop` does with the handle once taken.
- FollowProtocol: `try_from_secs_f64` overflowing to the longest wait is not modelled; deadlines are exact reals.
- ClockFit.ExactUpToNineShifts: over reals; the intercept, the residual spread and the report text do not enter the scale and are not modelled.
- CaptureAnalysis.Analyze: what the tables hold for a negative factor together with a gap threshold that is not positive is not stated: the burst loop and the bisection then run over times that go backwards. Which endpoints are the robot and the host is an input.
- CaptureAnalysis.GapTables: the same.
- CaptureAnalysis: the drift, inter-arrival and payload statistics and the classification verdict are not modelled.
- Reassembly: stripping the link layer and the printed form of addresses are not modelled; frames are modelled from the IP header on.
- Ipv4.PacketRoundTrip: for offsets that are multiples of eight, the only ones `_frames` makes.
- PcapWriter: what `struct.pack` refuses (a field too large) is a precondition of the writers.
- PcapReader: a generator's packets and its final exception are returned together; opening and seeking in a real file are not modelled.
- Sha256Stream.Hasher.Hexdigest: a second digest of a spent hasher has no meaning and is excluded by its precondition.
- Loads.CombiningIsAssociative: for masses that are not negative, which is what a load is; over reals, without rounding.
- ClockMap: the count of foreign samples does not wrap; episode handling and file writing are not modelled.
- ClockMap.Clock.RobotTimeS: over reals.
- RecorderChannel: what a record contains, what the logger writes and how long a sleep is are not modelled; a panic of the thread is not.
- EventScan: the text of the events, the 3D scene and the derivative plots are not modelled; times and distances are reals.
- CameraStream: counters do not wrap at 2^64; stamps, payload trimming and the recorder's copy are not modelled.
- Zenoh, V4L2, sockets, threads as OS objects, configuration and status structures, blueprints and rendering are not modelled.
- The robot library's trajectory generator, inverse kinematics and impedance law are not part of this model.

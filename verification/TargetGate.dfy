/** The stateful target gate of crates/franka-node/src/guard.rs.

    Numbers are reals, with an infinity and a NaN where the gate tests for them. A distance is
    kept squared (see Geometry). The angle between two near-unit quaternions is the one thing
    left abstract: a function the gate is given, used exactly where `angle_between` is. */
module TargetGate {
  import opened Wrappers
  import opened Geometry

  const UNIT_QUATERNION_TOLERANCE := 0.001
  const SECONDS_PER_NS := 0.000000001

  // ---------------------------------------------------------------------------------------
  // Numbers
  // ---------------------------------------------------------------------------------------

  datatype Float = Finite(value: real) | Infinite(negative: bool) | NaN

  /** Seven components: a position and a quaternion xyzw, or seven joint angles. */
  type Seven = s: seq<Float> | |s| == 7
    witness [Finite(0.0), Finite(0.0), Finite(0.0), Finite(0.0), Finite(0.0), Finite(0.0), Finite(0.0)]

  datatype Quat = Quat(i: real, j: real, k: real, w: real)

  type AngleFunction = (Quat, Quat) -> real

  predicate FiniteRange(d: Seven, lo: nat, hi: nat)
    requires hi <= 7
  {
    forall i | lo <= i < hi :: d[i].Finite?
  }

  predicate AllFinite(d: Seven) {
    FiniteRange(d, 0, 7)
  }

  function Position(d: Seven): Vec
    requires FiniteRange(d, 0, 3)
  {
    Vec(d[0].value, d[1].value, d[2].value)
  }

  function Orientation(d: Seven): Quat
    requires FiniteRange(d, 3, 7)
  {
    Quat(d[3].value, d[4].value, d[5].value, d[6].value)
  }

  function QuatNormSq(q: Quat): real {
    q.i * q.i + q.j * q.j + q.k * q.k + q.w * q.w
  }

  /** | |q| - 1 | <= tolerance, squared. */
  predicate NearUnit(q: Quat) {
    var t := UNIT_QUATERNION_TOLERANCE;
    (1.0 - t) * (1.0 - t) <= QuatNormSq(q) <= (1.0 + t) * (1.0 + t)
  }

  predicate FiniteAndUnit(d: Seven) {
    AllFinite(d) && NearUnit(Orientation(d))
  }

  /** The squared distance of two positions; `None` is a result that is not finite. */
  function DistanceSq(a: Seven, b: Seven): Option<real> {
    if FiniteRange(a, 0, 3) && FiniteRange(b, 0, 3)
    then Some(NormSq(Minus(Position(a), Position(b)))) else None
  }

  /** The angle of two orientations; `None` when either has no direction. */
  function AngleBetween(angle: AngleFunction, a: Seven, b: Seven): Option<real> {
    if FiniteRange(a, 3, 7) && FiniteRange(b, 3, 7) &&
       QuatNormSq(Orientation(a)) != 0.0 && QuatNormSq(Orientation(b)) != 0.0
    then Some(angle(Orientation(a), Orientation(b))) else None
  }

  /** `!x.is_finite() || x > limit`, of a squared length. */
  predicate LongerThan(sq: Option<real>, limit: real) {
    sq.None? || limit < 0.0 || sq.value > limit * limit
  }

  /** `!x.is_finite() || x > limit`, of an angle. */
  predicate WiderThan(angle: Option<real>, limit: real) {
    angle.None? || angle.value > limit
  }

  /** |value - from|, where `from` may be anything. */
  function AbsDifference(value: real, from: Float): Float {
    match from
    case Finite(p) => Finite(if value >= p then value - p else p - value)
    case Infinite(_) => Infinite(false)
    case NaN => NaN
  }

  /** `x > limit`: a NaN is not greater. */
  predicate GreaterThan(x: Float, limit: real) {
    match x
    case Finite(r) => r > limit
    case Infinite(negative) => !negative
    case NaN => false
  }

  /** `x < limit`: a NaN is not less. */
  predicate LessThan(x: Float, limit: real) {
    match x
    case Finite(r) => r < limit
    case Infinite(negative) => negative
    case NaN => false
  }

  // ---------------------------------------------------------------------------------------
  // Options, messages, verdicts
  // ---------------------------------------------------------------------------------------

  datatype Workspace = Workspace(min: Vec, max: Vec)

  datatype Options = Options(
    maxStep: real, maxStepRotation: real, maxStepJoint: real,
    maxLead: real, maxLeadRotation: real,
    workspace: Option<Workspace>, rateHz: real, jointLimitInset: real)

  type SevenReals = s: seq<real> | |s| == 7 witness [0.0, 0.0, 0.0, 0.0, 0.0, 0.0, 0.0]

  datatype JointLimits = JointLimits(lower: SevenReals, upper: SevenReals)

  datatype Kind = Cartesian | Joints

  function KindOf(wire: nat): Option<Kind> {
    if wire == 1 then Some(Cartesian) else if wire == 2 then Some(Joints) else None
  }

  type U64 = n: nat | n < 0x1_0000_0000_0000_0000

  datatype TargetMsg = TargetMsg(kind: nat, client: nat, seqNo: U64, flags: nat, data: Seven) {
    /** Bit 0 of the flags; every other bit is ignored. */
    predicate Anchor() { flags % 2 == 1 }
  }

  datatype Axis = X | Y | Z

  datatype Reason =
    | BadKind(wire: nat)
    | WrongKind(gotKind: Kind, mode: Kind)
    | NotHolder(client: nat)
    | SeqNotAfter(last: nat, got: nat)
    | NotFinite
    | NotUnit(normSq: real)
    | Step(lengthSq: Option<real>)
    | RotationStep(angle: Option<real>)
    | Lead(lengthSq: Option<real>)
    | LeadRotation(angle: Option<real>)
    | OutsideWorkspace(axis: Axis)
    | JointStep(joint: nat, rad: Float)
    | JointLimit(joint: nat, at: real)
    | Rate
  {
    /** Whether the refused target came from the session's own commander. */
    predicate FromTheCommander() {
      !(BadKind? || WrongKind? || NotHolder? || SeqNotAfter?)
    }
  }

  datatype Verdict = Accept | Refuse(reason: Reason)

  /** What never changes after construction. */
  datatype Gate = Gate(options: Options, limits: Option<JointLimits>, angle: AngleFunction) {
    function Mode(): Kind { if limits.Some? then Joints else Cartesian }

    predicate LeadBounded() { options.maxLead > 0.0 && options.maxLeadRotation > 0.0 }

    function Depth(): real { 2.0 * options.rateHz }
  }

  datatype State = State(holder: nat, lastSeq: U64, previous: Seven, tokens: real, refilledNs: U64)

  // ---------------------------------------------------------------------------------------
  // The specification: one check as a function of the state
  // ---------------------------------------------------------------------------------------

  function Initial(g: Gate, previous: Seven): State {
    State(0, 0, previous, g.Depth(), 0)
  }

  function Held(g: Gate, s: State, client: nat, nowNs: U64): State {
    s.(holder := client, lastSeq := 0, tokens := g.Depth(), refilledNs := nowNs)
  }

  /** The reference a Cartesian step is measured from. */
  function StepFrom(g: Gate, s: State, reference: Option<Seven>, anchored: bool): Seven {
    if reference.Some? && anchored && g.LeadBounded() then reference.value else s.previous
  }

  function WorkspaceRefusal(box: Workspace, p: Vec): Option<Reason> {
    if p.x < box.min.x || p.x > box.max.x then Some(OutsideWorkspace(X))
    else if p.y < box.min.y || p.y > box.max.y then Some(OutsideWorkspace(Y))
    else if p.z < box.min.z || p.z > box.max.z then Some(OutsideWorkspace(Z))
    else None
  }

  function LeadRefusal(g: Gate, data: Seven, reference: Seven): Option<Reason> {
    if g.options.maxLead > 0.0 && LongerThan(DistanceSq(data, reference), g.options.maxLead)
    then Some(Lead(DistanceSq(data, reference)))
    else if g.options.maxLeadRotation > 0.0 &&
            WiderThan(AngleBetween(g.angle, reference, data), g.options.maxLeadRotation)
    then Some(LeadRotation(AngleBetween(g.angle, reference, data)))
    else None
  }

  function CartesianRefusal(g: Gate, s: State, data: Seven, reference: Option<Seven>, anchored: bool): Option<Reason> {
    if !AllFinite(data) then Some(NotFinite)
    else if !NearUnit(Orientation(data)) then Some(NotUnit(QuatNormSq(Orientation(data))))
    else
      var from := StepFrom(g, s, reference, anchored);
      if LongerThan(DistanceSq(data, from), g.options.maxStep)
      then Some(Step(DistanceSq(data, from)))
      else if WiderThan(AngleBetween(g.angle, from, data), g.options.maxStepRotation)
      then Some(RotationStep(AngleBetween(g.angle, from, data)))
      else if reference.Some? && LeadRefusal(g, data, reference.value).Some?
      then LeadRefusal(g, data, reference.value)
      else if g.options.workspace.Some?
      then WorkspaceRefusal(g.options.workspace.value, Position(data))
      else None
  }

  predicate InsideLimits(g: Gate, limits: JointLimits, i: nat, value: real)
    requires i < 7
  {
    limits.lower[i] + g.options.jointLimitInset <= value <= limits.upper[i] - g.options.jointLimitInset
  }

  /** The first refusal among joints `i..`, steps before limits within a joint. */
  function JointsRefusalFrom(g: Gate, limits: JointLimits, s: State, q: Seven, i: nat): Option<Reason>
    requires i <= 7 && AllFinite(q)
    decreases 7 - i
  {
    if i == 7 then None
    else
      var step := AbsDifference(q[i].value, s.previous[i]);
      if GreaterThan(step, g.options.maxStepJoint) then Some(JointStep(i + 1, step))
      else if !InsideLimits(g, limits, i, q[i].value) then Some(JointLimit(i + 1, q[i].value))
      else JointsRefusalFrom(g, limits, s, q, i + 1)
  }

  /** Everything that is judged before the bucket is touched. */
  function Refusal(g: Gate, s: State, msg: TargetMsg, reference: Option<Seven>): Option<Reason> {
    if KindOf(msg.kind).None? then Some(BadKind(msg.kind))
    else if KindOf(msg.kind).value != g.Mode() then Some(WrongKind(KindOf(msg.kind).value, g.Mode()))
    else if msg.client == 0 || msg.client != s.holder then Some(NotHolder(msg.client))
    else if msg.seqNo <= s.lastSeq then Some(SeqNotAfter(s.lastSeq, msg.seqNo))
    else
      match g.limits
      case Some(limits) =>
        if !AllFinite(msg.data) then Some(NotFinite)
        else JointsRefusalFrom(g, limits, s, msg.data, 0)
      case None => CartesianRefusal(g, s, msg.data, reference, msg.Anchor())
  }

  /** What flows into a bucket filled at `rate` per second between two clock readings. */
  function Inflow(rate: real, fromNs: nat, toNs: nat): real {
    if toNs > fromNs then (toNs - fromNs) as real * SECONDS_PER_NS * rate else 0.0
  }

  function Min(a: real, b: real): real { if a < b then a else b }

  function Max(a: nat, b: nat): nat { if a < b then b else a }

  function Refilled(g: Gate, s: State, nowNs: U64): State {
    s.(tokens := Min(s.tokens + Inflow(g.options.rateHz, s.refilledNs, nowNs), g.Depth()),
       refilledNs := Max(nowNs, s.refilledNs))
  }

  function Checked(g: Gate, s: State, msg: TargetMsg, nowNs: U64, reference: Option<Seven>): (State, Verdict) {
    var refusal := Refusal(g, s, msg, reference);
    if refusal.Some? then (s, Refuse(refusal.value))
    else
      var r := Refilled(g, s, nowNs);
      if r.tokens < 1.0 then (r, Refuse(Rate))
      else (r.(tokens := r.tokens - 1.0, lastSeq := msg.seqNo, previous := msg.data), Accept)
  }

  /** What every gate keeps: the previous target finite, and of near unit orientation in a
      Cartesian gate; the bucket between empty and full. */
  ghost predicate Sound(g: Gate, s: State) {
    && AllFinite(s.previous)
    && (g.limits.None? ==> FiniteAndUnit(s.previous))
    && (0.0 <= g.options.rateHz ==> 0.0 <= s.tokens <= g.Depth())
  }

  lemma InitialIsSound(g: Gate, initial: Seven)
    requires AllFinite(initial) && (g.limits.None? ==> FiniteAndUnit(initial))
    ensures Sound(g, Initial(g, initial))
  {
  }

  // ---------------------------------------------------------------------------------------
  // The gate as it runs
  // ---------------------------------------------------------------------------------------

  class Guard {
    const gate: Gate
    var holder: nat
    var lastSeq: U64
    var previous: Seven
    var tokens: real
    var refilledNs: U64

    function Now(): State
      reads this
    {
      State(holder, lastSeq, previous, tokens, refilledNs)
    }

    constructor WithKind(gate: Gate, previous: Seven)
      ensures this.gate == gate && Now() == Initial(gate, previous)
    {
      this.gate := gate;
      this.holder := 0;
      this.lastSeq := 0;
      this.previous := previous;
      this.tokens := 2.0 * gate.options.rateHz;
      this.refilledNs := 0;
    }

    static method New(options: Options, angle: AngleFunction, initial: Seven) returns (r: Result<Guard, Reason>)
      ensures r.Ok? <==> FiniteAndUnit(initial)
      ensures r.Ok? ==> fresh(r.value) && r.value.gate == Gate(options, None, angle)
      ensures r.Ok? ==> r.value.Now() == State(0, 0, initial, 2.0 * options.rateHz, 0)
      ensures r.Ok? ==> r.value.Now() == Initial(r.value.gate, initial) && Sound(r.value.gate, r.value.Now())
      ensures r.Err? ==> r.error == if AllFinite(initial) then NotUnit(QuatNormSq(Orientation(initial))) else NotFinite
    {
      if !AllFinite(initial) {
        return Err(NotFinite);
      }
      if !NearUnit(Orientation(initial)) {
        return Err(NotUnit(QuatNormSq(Orientation(initial))));
      }
      var guard := new Guard.WithKind(Gate(options, None, angle), initial);
      InitialIsSound(guard.gate, initial);
      return Ok(guard);
    }

    static method ForJoints(options: Options, angle: AngleFunction, limits: JointLimits, initialQ: Seven)
      returns (r: Result<Guard, Reason>)
      ensures r.Ok? <==> AllFinite(initialQ)
      ensures r.Ok? ==> fresh(r.value) && r.value.gate == Gate(options, Some(limits), angle)
      ensures r.Ok? ==> r.value.Now() == State(0, 0, initialQ, 2.0 * options.rateHz, 0)
      ensures r.Ok? ==> r.value.Now() == Initial(r.value.gate, initialQ) && Sound(r.value.gate, r.value.Now())
      ensures r.Err? ==> r.error == NotFinite
    {
      if !AllFinite(initialQ) {
        return Err(NotFinite);
      }
      var guard := new Guard.WithKind(Gate(options, Some(limits), angle), initialQ);
      InitialIsSound(guard.gate, initialQ);
      return Ok(guard);
    }

    method SetHolder(client: nat, nowNs: U64)
      modifies this
      ensures Now() == Held(gate, old(Now()), client, nowNs)
    {
      holder := client;
      lastSeq := 0;
      tokens := 2.0 * gate.options.rateHz;
      refilledNs := nowNs;
    }

    method Refill(nowNs: U64)
      modifies this`tokens, this`refilledNs
      ensures Now() == Refilled(gate, old(Now()), nowNs)
    {
      var elapsed := if nowNs > refilledNs then (nowNs - refilledNs) as real * SECONDS_PER_NS else 0.0;
      var depth := 2.0 * gate.options.rateHz;
      tokens := tokens + elapsed * gate.options.rateHz;
      if tokens >= depth {
        tokens := depth;
      }
      if nowNs > refilledNs {
        refilledNs := nowNs;
      }
    }

    method JudgeJoints(limits: JointLimits, q: Seven) returns (refusal: Option<Reason>)
      ensures refusal == if AllFinite(q) then JointsRefusalFrom(gate, limits, Now(), q, 0) else Some(NotFinite)
    {
      if !AllFinite(q) {
        return Some(NotFinite);
      }
      for i := 0 to 7
        invariant JointsRefusalFrom(gate, limits, Now(), q, 0) == JointsRefusalFrom(gate, limits, Now(), q, i)
      {
        var step := AbsDifference(q[i].value, previous[i]);
        if GreaterThan(step, gate.options.maxStepJoint) {
          return Some(JointStep(i + 1, step));
        }
        if !InsideLimits(gate, limits, i, q[i].value) {
          return Some(JointLimit(i + 1, q[i].value));
        }
      }
      return None;
    }

    method Judge(msg: TargetMsg, nowNs: U64, reference: Option<Seven>) returns (refusal: Option<Reason>)
      modifies this`tokens, this`refilledNs
      ensures refusal == (match Checked(gate, old(Now()), msg, nowNs, reference).1
                          case Accept => None case Refuse(reason) => Some(reason))
      ensures Now() == if Refusal(gate, old(Now()), msg, reference).Some? then old(Now())
                       else Refilled(gate, old(Now()), nowNs)
    {
      var kind := KindOf(msg.kind);
      if kind.None? {
        return Some(BadKind(msg.kind));
      }
      if kind.value != gate.Mode() {
        return Some(WrongKind(kind.value, gate.Mode()));
      }
      if msg.client == 0 || msg.client != holder {
        return Some(NotHolder(msg.client));
      }
      if msg.seqNo <= lastSeq {
        return Some(SeqNotAfter(lastSeq, msg.seqNo));
      }
      match gate.limits {
        case Some(limits) => refusal := JudgeJoints(limits, msg.data);
        case None => refusal := CartesianRefusal(gate, Now(), msg.data, reference, msg.Anchor());
      }
      if refusal.Some? {
        return refusal;
      }
      Refill(nowNs);
      if tokens < 1.0 {
        return Some(Rate);
      }
      return None;
    }

    method Check(msg: TargetMsg, nowNs: U64, reference: Option<Seven>) returns (verdict: Verdict)
      modifies this
      ensures (Now(), verdict) == Checked(gate, old(Now()), msg, nowNs, reference)
    {
      var refusal := Judge(msg, nowNs, reference);
      match refusal {
        case None =>
          tokens := tokens - 1.0;
          lastSeq := msg.seqNo;
          previous := msg.data;
          verdict := Accept;
        case Some(reason) =>
          verdict := Refuse(reason);
      }
    }

    /** Each joint moved into the inset limits, an infinite one to the nearest end; a NaN stays.
        The source's `clamp` needs a band that is not empty. A Cartesian gate leaves `q` alone. */
    method InsideJointLimits(q: Seven) returns (r: Seven)
      requires gate.limits.Some? ==> forall i | 0 <= i < 7 :: BandNotEmpty(gate, gate.limits.value, i)
      ensures gate.limits.None? ==> r == q
      ensures gate.limits.Some? ==> r == Clamped(gate, gate.limits.value, q)
    {
      var out: seq<Float> := q;
      if gate.limits.Some? {
        var limits := gate.limits.value;
        var inset := gate.options.jointLimitInset;
        for i := 0 to 7
          invariant |out| == 7
          invariant forall j | 0 <= j < 7 :: out[j] == if j < i then Clamped(gate, limits, q)[j] else q[j]
        {
          var lower, upper := limits.lower[i] + inset, limits.upper[i] - inset;
          assert BandNotEmpty(gate, limits, i);
          if LessThan(out[i], lower) {
            out := out[i := Finite(lower)];
          } else if GreaterThan(out[i], upper) {
            out := out[i := Finite(upper)];
          }
        }
      }
      r := out;
    }
  }

  predicate BandNotEmpty(g: Gate, limits: JointLimits, i: nat)
    requires i < 7
  {
    limits.lower[i] + g.options.jointLimitInset <= limits.upper[i] - g.options.jointLimitInset
  }

  /** Whatever is not a NaN is moved inside a band that is not empty, and not moved if it was. */
  function ClampedJoint(g: Gate, limits: JointLimits, i: nat, x: Float): (r: Float)
    requires i < 7
    ensures BandNotEmpty(g, limits, i) && !x.NaN? ==> r.Finite? && InsideLimits(g, limits, i, r.value)
    ensures x.NaN? || (x.Finite? && InsideLimits(g, limits, i, x.value)) ==> r == x
  {
    var lower, upper := limits.lower[i] + g.options.jointLimitInset, limits.upper[i] - g.options.jointLimitInset;
    if LessThan(x, lower) then Finite(lower) else if GreaterThan(x, upper) then Finite(upper) else x
  }

  function Clamped(g: Gate, limits: JointLimits, q: Seven): (r: Seven) {
    seq(7, i requires 0 <= i < 7 => ClampedJoint(g, limits, i, q[i]))
  }
}

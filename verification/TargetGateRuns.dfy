/** What the gate guarantees over whole runs: any sequence of offers and lease changes. */
module TargetGateRuns {
  import opened Wrappers
  import opened Geometry
  import opened TargetGate

  datatype Event =
    | Hold(client: nat, nowNs: U64)
    | Offer(msg: TargetMsg, nowNs: U64, reference: Option<Seven>)

  function Next(g: Gate, s: State, e: Event): State {
    match e
    case Hold(client, nowNs) => Held(g, s, client, nowNs)
    case Offer(msg, nowNs, reference) => Checked(g, s, msg, nowNs, reference).0
  }

  predicate Accepted(g: Gate, s: State, e: Event) {
    e.Offer? && Checked(g, s, e.msg, e.nowNs, e.reference).1 == Accept
  }

  function After(g: Gate, s: State, es: seq<Event>): State
    decreases |es|
  {
    if es == [] then s else After(g, Next(g, s, es[0]), es[1..])
  }

  function Accepts(g: Gate, s: State, es: seq<Event>): nat
    decreases |es|
  {
    if es == [] then 0
    else (if Accepted(g, s, es[0]) then 1 else 0) + Accepts(g, Next(g, s, es[0]), es[1..])
  }

  // ---------------------------------------------------------------------------------------
  // One check
  // ---------------------------------------------------------------------------------------

  /** The lazy bucket read at `nowNs` as if it had been filled all along. */
  function EagerTokens(g: Gate, s: State, nowNs: nat): real {
    Min(s.tokens + Inflow(g.options.rateHz, s.refilledNs, nowNs), g.Depth())
  }

  ghost predicate WithinLead(g: Gate, data: Seven, reference: Seven)
    requires FiniteAndUnit(data)
  {
    && (g.options.maxLead > 0.0 ==>
        FiniteRange(reference, 0, 3) && AtMost(Minus(Position(data), Position(reference)), g.options.maxLead))
    && (g.options.maxLeadRotation > 0.0 ==>
        var a := AngleBetween(g.angle, reference, data); a.Some? && a.value <= g.options.maxLeadRotation)
  }

  ghost predicate InBox(box: Workspace, p: Vec) {
    box.min.x <= p.x <= box.max.x && box.min.y <= p.y <= box.max.y && box.min.z <= p.z <= box.max.z
  }

  ghost predicate ContentAllowed(g: Gate, s: State, msg: TargetMsg, reference: Option<Seven>) {
    && AllFinite(msg.data)
    && (g.limits.Some? ==> forall i | 0 <= i < 7 ::
          && !GreaterThan(AbsDifference(msg.data[i].value, s.previous[i]), g.options.maxStepJoint)
          && InsideLimits(g, g.limits.value, i, msg.data[i].value))
    && (g.limits.None? ==>
        && FiniteAndUnit(msg.data)
        && (var from := StepFrom(g, s, reference, msg.Anchor());
            && FiniteRange(from, 0, 3)
            && AtMost(Minus(Position(msg.data), Position(from)), g.options.maxStep)
            && (var a := AngleBetween(g.angle, from, msg.data); a.Some? && a.value <= g.options.maxStepRotation))
        && (reference.Some? ==> WithinLead(g, msg.data, reference.value))
        && (g.options.workspace.Some? ==> InBox(g.options.workspace.value, Position(msg.data))))
  }

  ghost predicate FromTheSession(g: Gate, s: State, msg: TargetMsg) {
    KindOf(msg.kind) == Some(g.Mode()) && msg.client != 0 && msg.client == s.holder && s.lastSeq < msg.seqNo
  }

  /** Joints are counted from one in a refusal, and the first one that is off is named. */
  ghost predicate FirstBadJoint(g: Gate, limits: JointLimits, s: State, q: Seven, i: nat, k: nat)
    requires i <= k < 7 && AllFinite(q)
  {
    forall j | i <= j < k ::
      && !GreaterThan(AbsDifference(q[j].value, s.previous[j]), g.options.maxStepJoint)
      && InsideLimits(g, limits, j, q[j].value)
  }

  lemma {:induction false} JointsRefusalMeaning(g: Gate, limits: JointLimits, s: State, q: Seven, i: nat)
    requires i <= 7 && AllFinite(q)
    ensures JointsRefusalFrom(g, limits, s, q, i).None? <==> forall j | i <= j < 7 ::
              && !GreaterThan(AbsDifference(q[j].value, s.previous[j]), g.options.maxStepJoint)
              && InsideLimits(g, limits, j, q[j].value)
    ensures JointsRefusalFrom(g, limits, s, q, i).Some? ==>
              match JointsRefusalFrom(g, limits, s, q, i).value
              case JointStep(n, rad) => i < n <= 7 && FirstBadJoint(g, limits, s, q, i, n - 1)
                  && rad == AbsDifference(q[n - 1].value, s.previous[n - 1]) && GreaterThan(rad, g.options.maxStepJoint)
              case JointLimit(n, at) => i < n <= 7 && FirstBadJoint(g, limits, s, q, i, n - 1)
                  && at == q[n - 1].value && !InsideLimits(g, limits, n - 1, at)
                  && !GreaterThan(AbsDifference(at, s.previous[n - 1]), g.options.maxStepJoint)
              case _ => false
    decreases 7 - i
  {
    if i < 7 {
      JointsRefusalMeaning(g, limits, s, q, i + 1);
    }
  }

  /** Everything judged before the bucket, in one condition. */
  lemma RefusedBeforeTheBucket(g: Gate, s: State, msg: TargetMsg, reference: Option<Seven>)
    ensures Refusal(g, s, msg, reference).None? <==> FromTheSession(g, s, msg) && ContentAllowed(g, s, msg, reference)
    ensures Refusal(g, s, msg, reference).Some? ==> !Refusal(g, s, msg, reference).value.Rate?
  {
    if g.limits.Some? && AllFinite(msg.data) {
      JointsRefusalMeaning(g, g.limits.value, s, msg.data, 0);
    }
  }

  /** A target is accepted exactly when it is of the session's kind, from the holder, in order,
      allowed in content, and the bucket, filled up to now, holds a token. */
  lemma AcceptedExactly(g: Gate, s: State, msg: TargetMsg, nowNs: U64, reference: Option<Seven>)
    ensures Checked(g, s, msg, nowNs, reference).1 == Accept <==>
            FromTheSession(g, s, msg) && ContentAllowed(g, s, msg, reference) && 1.0 <= EagerTokens(g, s, nowNs)
  {
    if g.limits.Some? && AllFinite(msg.data) {
      JointsRefusalMeaning(g, g.limits.value, s, msg.data, 0);
    }
  }

  /** A refusal leaves everything alone, except that a rate refusal has brought the bucket up to
      date; an acceptance records the target and spends one token. */
  lemma RefusalChangesOnlyTheRefill(g: Gate, s: State, msg: TargetMsg, nowNs: U64, reference: Option<Seven>)
    ensures var (t, verdict) := Checked(g, s, msg, nowNs, reference);
            match verdict
            case Accept => t == s.(tokens := EagerTokens(g, s, nowNs) - 1.0, refilledNs := Max(nowNs, s.refilledNs),
                                   lastSeq := msg.seqNo, previous := msg.data)
            case Refuse(Rate) => t == s.(tokens := EagerTokens(g, s, nowNs), refilledNs := Max(nowNs, s.refilledNs))
            case Refuse(_) => t == s
  {
    if g.limits.Some? && AllFinite(msg.data) {
      JointsRefusalMeaning(g, g.limits.value, s, msg.data, 0);
    }
  }

  /** The sign of life the target watchdog measures from: exactly the refusals of targets that
      are of the session's kind, from the holder and in order. */
  lemma SignOfLife(g: Gate, s: State, msg: TargetMsg, nowNs: U64, reference: Option<Seven>)
    requires Checked(g, s, msg, nowNs, reference).1.Refuse?
    ensures Checked(g, s, msg, nowNs, reference).1.reason.FromTheCommander() <==> FromTheSession(g, s, msg)
  {
    if g.limits.Some? && AllFinite(msg.data) {
      JointsRefusalMeaning(g, g.limits.value, s, msg.data, 0);
    }
  }

  // ---------------------------------------------------------------------------------------
  // What every run keeps
  // ---------------------------------------------------------------------------------------

  lemma NextIsSound(g: Gate, s: State, e: Event)
    requires Sound(g, s)
    ensures Sound(g, Next(g, s, e))
  {
    if e.Offer? {
      AcceptedExactly(g, s, e.msg, e.nowNs, e.reference);
      RefusalChangesOnlyTheRefill(g, s, e.msg, e.nowNs, e.reference);
      if 0.0 <= g.options.rateHz {
        InflowNonNegative(g.options.rateHz, s.refilledNs, e.nowNs);
      }
    }
  }

  lemma InflowNonNegative(rate: real, fromNs: nat, toNs: nat)
    requires 0.0 <= rate
    ensures 0.0 <= Inflow(rate, fromNs, toNs)
  {
  }

  lemma NoInflow(rate: real, fromNs: nat, toNs: nat)
    requires toNs <= fromNs
    ensures Inflow(rate, fromNs, toNs) == 0.0
  {
  }

  lemma InflowAdds(rate: real, a: nat, b: nat, c: nat)
    requires a <= b <= c
    ensures Inflow(rate, a, b) + Inflow(rate, b, c) == Inflow(rate, a, c)
  {
    var x, y := (b - a) as real * SECONDS_PER_NS, (c - b) as real * SECONDS_PER_NS;
    assert x + y == (c - a) as real * SECONDS_PER_NS;
    assert x * rate + y * rate == (x + y) * rate;
  }

  /** The previous target stays finite, and of near unit orientation in a Cartesian gate, and the
      bucket stays between empty and full, over every run. */
  lemma {:induction false} RunsAreSound(g: Gate, s: State, es: seq<Event>)
    requires Sound(g, s)
    ensures Sound(g, After(g, s, es))
    decreases |es|
  {
    if es != [] {
      NextIsSound(g, s, es[0]);
      RunsAreSound(g, Next(g, s, es[0]), es[1..]);
    }
  }

  /** So of every gate that is made, after any run at all. */
  lemma RunsFromTheStartAreSound(g: Gate, initial: Seven, es: seq<Event>)
    requires AllFinite(initial) && (g.limits.None? ==> FiniteAndUnit(initial))
    ensures Sound(g, After(g, Initial(g, initial), es))
  {
    InitialIsSound(g, initial);
    RunsAreSound(g, Initial(g, initial), es);
  }

  /** The accepted sequence numbers of a run. */
  function AcceptedSeqs(g: Gate, s: State, es: seq<Event>): seq<nat>
    decreases |es|
  {
    if es == [] then []
    else (if Accepted(g, s, es[0]) then [es[0].msg.seqNo as nat] else []) + AcceptedSeqs(g, Next(g, s, es[0]), es[1..])
  }

  ghost predicate OneTenure(es: seq<Event>) {
    forall e | e in es :: e.Offer?
  }

  /** Within a tenure the accepted sequence numbers strictly increase from the last one, one for
      each acceptance. */
  lemma {:induction false} SeqsIncrease(g: Gate, s: State, es: seq<Event>)
    requires OneTenure(es)
    ensures var a := AcceptedSeqs(g, s, es);
            && |a| == Accepts(g, s, es)
            && (forall i | 0 <= i < |a| :: s.lastSeq < a[i])
            && (forall i, j | 0 <= i < j < |a| :: a[i] < a[j])
            && After(g, s, es).lastSeq == if a == [] then s.lastSeq else a[|a| - 1]
    decreases |es|
  {
    hide Checked, ContentAllowed, EagerTokens;
    if es != [] {
      var e := es[0];
      assert e in es;
      AcceptedExactly(g, s, e.msg, e.nowNs, e.reference);
      RefusalChangesOnlyTheRefill(g, s, e.msg, e.nowNs, e.reference);
      SeqsIncrease(g, Next(g, s, e), es[1..]);
    }
  }

  // ---------------------------------------------------------------------------------------
  // The rate
  // ---------------------------------------------------------------------------------------

  /** The most a run can still accept with clock readings between `t0` and `t1`: the bucket
      filled up to `t0`, and what flows in after. */
  ghost function Credit(g: Gate, s: State, t0: nat, t1: nat): real {
    EagerTokens(g, s, t0) + Inflow(g.options.rateHz, Max(t0, s.refilledNs), t1)
  }

  ghost predicate Within(es: seq<Event>, t0: nat, t1: nat) {
    OneTenure(es) && forall e | e in es :: t0 <= e.nowNs <= t1
  }

  /** Refilling is free: lazily or eagerly, the credit of the window is the same or less. */
  lemma RefillCredit(g: Gate, s: State, nowNs: U64, t0: nat, t1: nat)
    requires 0.0 <= g.options.rateHz && s.tokens <= g.Depth() && t0 <= nowNs <= t1
    ensures var n := Refilled(g, s, nowNs);
            Credit(g, n, t0, t1) <= Credit(g, s, t0, t1) && EagerTokens(g, n, t0) == n.tokens
  {
    hide Inflow;
    var r := s.refilledNs;
    var rate := g.options.rateHz;
    NoInflow(rate, Max(nowNs, r), t0);
    if nowNs <= r {
      NoInflow(rate, r, nowNs);
      NoInflow(rate, r, t0);
    } else if t0 <= r {
      InflowAdds(rate, r, nowNs, t1);
      NoInflow(rate, r, t0);
    } else {
      InflowAdds(rate, r, t0, nowNs);
      InflowAdds(rate, t0, nowNs, t1);
      InflowNonNegative(rate, t0, nowNs);
    }
  }

  /** Lazy refilling is eager refilling: a bucket brought up to date on the way reads the same later
      as one that was not. */
  lemma LazyIsEager(g: Gate, s: State, midNs: U64, nowNs: nat)
    requires 0.0 <= g.options.rateHz && s.refilledNs <= midNs <= nowNs
    ensures EagerTokens(g, Refilled(g, s, midNs), nowNs) == EagerTokens(g, s, nowNs)
  {
    InflowAdds(g.options.rateHz, s.refilledNs, midNs, nowNs);
    InflowNonNegative(g.options.rateHz, midNs, nowNs);
    hide Inflow;
  }

  lemma {:induction false} AcceptsWithinCredit(g: Gate, s: State, es: seq<Event>, t0: nat, t1: nat)
    requires 0.0 <= g.options.rateHz && Sound(g, s) && Within(es, t0, t1)
    ensures Accepts(g, s, es) as real <= Credit(g, s, t0, t1)
    decreases |es|
  {
    hide Inflow, Refusal, ContentAllowed;
    if es == [] {
      InflowNonNegative(g.options.rateHz, s.refilledNs, t0);
      InflowNonNegative(g.options.rateHz, Max(t0, s.refilledNs), t1);
    } else {
      var e := es[0];
      assert e in es;
      NextIsSound(g, s, e);
      RefillCredit(g, s, e.nowNs, t0, t1);
      NoInflow(g.options.rateHz, Max(e.nowNs, s.refilledNs), t0);
      AcceptsWithinCredit(g, Next(g, s, e), es[1..], t0, t1);
    }
  }

  /** Twice the rate, and the rate times the length of the window. */
  function MostAccepted(g: Gate, t0: nat, t1: nat): real {
    2.0 * g.options.rateHz + Inflow(g.options.rateHz, t0, t1)
  }

  /** In any window of a tenure, however its clock readings are ordered, at most twice the rate
      plus the rate times the window's length is accepted. */
  lemma RateBound(g: Gate, s: State, es: seq<Event>, t0: nat, t1: nat)
    requires 0.0 <= g.options.rateHz && Sound(g, s) && t0 <= t1 && Within(es, t0, t1)
    ensures Accepts(g, s, es) as real <= MostAccepted(g, t0, t1)
  {
    hide Inflow;
    AcceptsWithinCredit(g, s, es, t0, t1);
    var m := Max(t0, s.refilledNs);
    if m <= t1 {
      InflowAdds(g.options.rateHz, t0, m, t1);
    } else {
      NoInflow(g.options.rateHz, m, t1);
    }
    InflowNonNegative(g.options.rateHz, t0, m);
    InflowNonNegative(g.options.rateHz, t0, t1);
  }

  /** Offers at least one rate period apart. */
  ghost predicate Paced(g: Gate, es: seq<Event>, fromNs: nat)
    decreases |es|
  {
    OneTenure(es) &&
    (es != [] ==> 1.0 <= Inflow(g.options.rateHz, fromNs, es[0].nowNs) && Paced(g, es[1..], es[0].nowNs))
  }

  ghost predicate RateLimited(g: Gate, s: State, es: seq<Event>)
    decreases |es|
  {
    es != [] &&
    ((es[0].Offer? && Checked(g, s, es[0].msg, es[0].nowNs, es[0].reference).1 == Refuse(Rate)) ||
     RateLimited(g, Next(g, s, es[0]), es[1..]))
  }

  // ---------------------------------------------------------------------------------------
  // What a lease gives its holder
  // ---------------------------------------------------------------------------------------

  /** A target of the client that was given the lease, counted from one, whose content is allowed. */
  ghost predicate InOrderAfterLease(g: Gate, s: State, c: nat, msg: TargetMsg, reference: Option<Seven>) {
    c != 0 && msg.client == c && 1 <= msg.seqNo && ContentAllowed(g, s, msg, reference)
  }

  /** Whatever happened before, and to whom: the holder of a new lease may start counting from one
      and is accepted, whatever the clock reads; nobody else is; and the lease moves no target. */
  lemma LeaseStartsAnew(g: Gate, s: State, es: seq<Event>, c: nat, t: U64, msg: TargetMsg, nowNs: U64,
                        reference: Option<Seven>)
    requires KindOf(msg.kind) == Some(g.Mode())
    ensures var before := After(g, s, es);
            var leased := Next(g, before, Hold(c, t));
            && leased.previous == before.previous
            && (InOrderAfterLease(g, before, c, msg, reference) && 0.5 <= g.options.rateHz ==>
                  Checked(g, leased, msg, nowNs, reference).1 == Accept)
            && (msg.client == 0 || msg.client != c ==>
                  Checked(g, leased, msg, nowNs, reference).1 == Refuse(NotHolder(msg.client)))
  {
    hide After, ContentAllowed;
    var leased := Next(g, After(g, s, es), Hold(c, t));
    InflowNonNegativeIfRate(g.options.rateHz, leased.refilledNs, nowNs);
    SameContent(g, After(g, s, es), leased, msg, reference);
    AcceptedExactly(g, leased, msg, nowNs, reference);
  }

  lemma InflowNonNegativeIfRate(rate: real, fromNs: nat, toNs: nat)
    ensures 0.0 <= rate ==> 0.0 <= Inflow(rate, fromNs, toNs)
  {
    if 0.0 <= rate {
      InflowNonNegative(rate, fromNs, toNs);
    }
  }

  /** What a target may contain depends on the previous target and on nothing else of the state. */
  lemma SameContent(g: Gate, s: State, t: State, msg: TargetMsg, reference: Option<Seven>)
    requires s.previous == t.previous
    ensures ContentAllowed(g, s, msg, reference) <==> ContentAllowed(g, t, msg, reference)
  {
  }

  /** Offers in order in everything but perhaps the bucket, each at the state it meets. */
  ghost predicate GoodInTurn(g: Gate, s: State, es: seq<Event>)
    decreases |es|
  {
    es != [] ==>
      && es[0].Offer? && FromTheSession(g, s, es[0].msg) && ContentAllowed(g, s, es[0].msg, es[0].reference)
      && GoodInTurn(g, Next(g, s, es[0]), es[1..])
  }

  /** Of good offers none of which the clock is ahead of the bucket for, as many are accepted as it
      holds whole tokens. */
  lemma {:induction false} WholeTokensAreAccepted(g: Gate, s: State, es: seq<Event>)
    requires Sound(g, s) && 0.0 <= g.options.rateHz && GoodInTurn(g, s, es)
    requires forall e | e in es :: e.nowNs <= s.refilledNs
    ensures Accepts(g, s, es) == if |es| <= s.tokens.Floor then |es| else s.tokens.Floor
    decreases |es|
  {
    hide Checked, ContentAllowed, FromTheSession, Inflow;
    if es != [] {
      var e := es[0];
      assert e in es;
      NoInflow(g.options.rateHz, s.refilledNs, e.nowNs);
      NextIsSound(g, s, e);
      AcceptedExactly(g, s, e.msg, e.nowNs, e.reference);
      RefusedBeforeTheBucket(g, s, e.msg, e.reference);
      RefusalChangesOnlyTheRefill(g, s, e.msg, e.nowNs, e.reference);
      assert EagerTokens(g, s, e.nowNs) == s.tokens;
      WholeTokensAreAccepted(g, Next(g, s, e), es[1..]);
    }
  }

  /** A new holder may send twice the rate at once, and not one more until the clock moves past the
      lease. */
  lemma LeaseBurst(g: Gate, s: State, c: nat, t: U64, es: seq<Event>)
    requires Sound(g, s) && 0.0 <= g.options.rateHz
    requires GoodInTurn(g, Next(g, s, Hold(c, t)), es) && forall e | e in es :: e.nowNs <= t
    ensures var most := (2.0 * g.options.rateHz).Floor;
            Accepts(g, Next(g, s, Hold(c, t)), es) == if |es| <= most then |es| else most
  {
    hide GoodInTurn, Accepts;
    NextIsSound(g, s, Hold(c, t));
    WholeTokensAreAccepted(g, Next(g, s, Hold(c, t)), es);
  }

  /** An offer of the run that is in order in everything but perhaps the bucket. */
  ghost predicate SomeGoodOffer(g: Gate, s: State, es: seq<Event>)
    decreases |es|
  {
    es != [] &&
    ((es[0].Offer? && FromTheSession(g, s, es[0].msg) && ContentAllowed(g, s, es[0].msg, es[0].reference)) ||
     SomeGoodOffer(g, Next(g, s, es[0]), es[1..]))
  }

  /** A bucket of depth below one never holds a token: every offer otherwise in order is refused
      for the rate, at any clock reading. */
  lemma ShallowBucketRefuses(g: Gate, s: State, msg: TargetMsg, nowNs: U64, reference: Option<Seven>)
    requires g.options.rateHz < 0.5
    ensures Checked(g, s, msg, nowNs, reference).1 == Refuse(Rate) <==>
            FromTheSession(g, s, msg) && ContentAllowed(g, s, msg, reference)
    ensures Checked(g, s, msg, nowNs, reference).1 != Accept
  {
    hide Refusal, ContentAllowed, FromTheSession, Inflow;
    RefusedBeforeTheBucket(g, s, msg, reference);
  }

  /** So below half a hertz the gate accepts nothing, ever, from anyone. */
  lemma {:induction false} BelowHalfAHertzNothing(g: Gate, s: State, es: seq<Event>)
    requires g.options.rateHz < 0.5
    ensures Accepts(g, s, es) == 0 && After(g, s, es).previous == s.previous
    decreases |es|
  {
    hide Checked, ContentAllowed, FromTheSession;
    if es != [] {
      var e := es[0];
      if e.Offer? {
        ShallowBucketRefuses(g, s, e.msg, e.nowNs, e.reference);
        RefusalChangesOnlyTheRefill(g, s, e.msg, e.nowNs, e.reference);
      }
      BelowHalfAHertzNothing(g, Next(g, s, e), es[1..]);
    }
  }

  /** From half a hertz on a commander that keeps to the rate finds a token. */
  lemma PacedFindsAToken(g: Gate, s: State, e: Event, fromNs: nat)
    requires 0.5 <= g.options.rateHz && Sound(g, s) && s.refilledNs <= fromNs
    requires e.Offer? && 1.0 <= Inflow(g.options.rateHz, fromNs, e.nowNs)
    ensures Checked(g, s, e.msg, e.nowNs, e.reference).1 != Refuse(Rate) && fromNs < e.nowNs
  {
    assert fromNs < e.nowNs;
    RefusedBeforeTheBucket(g, s, e.msg, e.reference);
    InflowAdds(g.options.rateHz, s.refilledNs, fromNs, e.nowNs);
    InflowNonNegative(g.options.rateHz, s.refilledNs, fromNs);
    hide Inflow, Refusal, ContentAllowed;
  }

  /** A commander that leaves a period between its offers is refused for the rate exactly when the
      rate is below half a hertz and some offer is otherwise in order: at half a hertz or more it
      never is, and below that every such offer is. */
  lemma {:induction false} PacedIsRateLimitedExactly(g: Gate, s: State, es: seq<Event>, fromNs: nat)
    requires Sound(g, s) && s.refilledNs <= fromNs && Paced(g, es, fromNs)
    ensures RateLimited(g, s, es) <==> g.options.rateHz < 0.5 && SomeGoodOffer(g, s, es)
    decreases |es|
  {
    hide Checked, ContentAllowed, FromTheSession, Inflow;
    if es != [] {
      var e := es[0];
      assert e in es;
      NextIsSound(g, s, e);
      RefusalChangesOnlyTheRefill(g, s, e.msg, e.nowNs, e.reference);
      PacedAdvances(g, fromNs, e.nowNs);
      PacedIsRateLimitedExactly(g, Next(g, s, e), es[1..], e.nowNs);
      if g.options.rateHz < 0.5 {
        ShallowBucketRefuses(g, s, e.msg, e.nowNs, e.reference);
      } else {
        PacedFindsAToken(g, s, e, fromNs);
      }
    }
  }

  lemma PacedAdvances(g: Gate, fromNs: nat, nowNs: nat)
    requires 1.0 <= Inflow(g.options.rateHz, fromNs, nowNs)
    ensures fromNs < nowNs
  {
  }

  /** No run of paced offers, from any state, is ever refused for the rate. */
  ghost predicate NeverLimitsThePaced(g: Gate) {
    forall s: State, es: seq<Event>, fromNs: nat |
      Sound(g, s) && s.refilledNs <= fromNs && Paced(g, es, fromNs) :: !RateLimited(g, s, es)
  }

  /** The gate has a target it allows: some state and message in order in everything but the bucket. */
  ghost predicate Usable(g: Gate) {
    exists s: State, msg: TargetMsg, reference: Option<Seven> ::
      Sound(g, s) && FromTheSession(g, s, msg) && ContentAllowed(g, s, msg, reference)
  }

  /** The promise to a commander that keeps to the rate holds of a gate exactly from half a hertz
      on. Its period must fit the clock. */
  lemma PacedIsNeverRateLimitedExactly(g: Gate)
    requires 0.000000001 <= g.options.rateHz && Usable(g)
    ensures NeverLimitsThePaced(g) <==> 0.5 <= g.options.rateHz
  {
    if 0.5 <= g.options.rateHz {
      forall s: State, es: seq<Event>, fromNs: nat | Sound(g, s) && s.refilledNs <= fromNs && Paced(g, es, fromNs)
        ensures !RateLimited(g, s, es)
      {
        PacedIsRateLimitedExactly(g, s, es, fromNs);
      }
    } else {
      var s: State, msg: TargetMsg, reference: Option<Seven> :|
        Sound(g, s) && FromTheSession(g, s, msg) && ContentAllowed(g, s, msg, reference);
      LimitedOnce(g, s.(refilledNs := 0), msg, reference);
    }
  }

  /** Below half a hertz one offer, a period after the bucket was full, is refused. */
  lemma LimitedOnce(g: Gate, s: State, msg: TargetMsg, reference: Option<Seven>)
    requires 0.000000001 <= g.options.rateHz < 0.5 && Sound(g, s) && s.refilledNs == 0
    requires FromTheSession(g, s, msg) && ContentAllowed(g, s, msg, reference)
    ensures !NeverLimitsThePaced(g)
  {
    hide Checked, ContentAllowed, FromTheSession;
    var e := Offer(msg, 1_000_000_000_000_000_000, reference);
    ThirtyYears(g.options.rateHz);
    var es := [e];
    assert es[0] == e && es[1..] == [];
    assert Paced(g, es[1..], e.nowNs);
    assert Paced(g, es, 0);
    ShallowBucketRefuses(g, s, msg, e.nowNs, reference);
    assert RateLimited(g, s, es);
  }

  lemma ThirtyYears(rate: real)
    requires 0.000000001 <= rate
    ensures 1.0 <= Inflow(rate, 0, 1_000_000_000_000_000_000)
  {
    assert 1_000_000_000_000_000_000 as real * SECONDS_PER_NS == 1000000000.0;
  }

  const NO_JOINTS: SevenReals := [0.0, 0.0, 0.0, 0.0, 0.0, 0.0, 0.0]
  const AT_REST: Seven := seq(7, _ => Finite(0.0))
  const UNIT_JOINTS: SevenReals := [1.0, 1.0, 1.0, 1.0, 1.0, 1.0, 1.0]

  /** At 0.4 Hz, which the configuration accepts, a joint gate at rest refuses a holder that offers
      it the very joints it holds, a whole period after the lease. */
  lemma AtTwoFifthsOfAHertz(g: Gate)
    requires g.options.rateHz == 0.4 && 0.0 <= g.options.maxStepJoint && g.options.jointLimitInset == 0.0
    requires g.limits == Some(JointLimits(NO_JOINTS, UNIT_JOINTS))
    ensures var held := Held(g, Initial(g, AT_REST), 1, 0);
            var e := Offer(TargetMsg(2, 1, 1, 0, AT_REST), 2_500_000_000, None);
            && Sound(g, held) && Paced(g, [e], 0)
            && Checked(g, held, e.msg, e.nowNs, e.reference).1 == Refuse(Rate)
  {
    var held := Held(g, Initial(g, AT_REST), 1, 0);
    var e := Offer(TargetMsg(2, 1, 1, 0, AT_REST), 2_500_000_000, None);
    assert Paced(g, [], e.nowNs);
    assert [e][1..] == [] && [e][0] == e;
    ShallowBucketRefuses(g, held, e.msg, e.nowNs, e.reference);
  }

  // ---------------------------------------------------------------------------------------
  // Travel
  // ---------------------------------------------------------------------------------------

  /** An offer whose step is measured from the previous accepted target. */
  ghost predicate StepsFromPrevious(g: Gate, e: Event) {
    e.Offer? && !(e.reference.Some? && e.msg.Anchor() && g.LeadBounded())
  }

  lemma AcceptedStep(g: Gate, s: State, e: Event)
    requires Sound(g, s) && g.limits.None? && StepsFromPrevious(g, e) && Accepted(g, s, e)
    ensures AllFinite(Next(g, s, e).previous) && 0.0 <= g.options.maxStep
    ensures AtMost(Minus(Position(Next(g, s, e).previous), Position(s.previous)), g.options.maxStep)
  {
    AcceptedExactly(g, s, e.msg, e.nowNs, e.reference);
  }

  /** Over offers that are not anchored the commanded position moves at most `max_step` for each
      acceptance. */
  lemma {:induction false} TravelPerAccept(g: Gate, s: State, es: seq<Event>)
    requires Sound(g, s) && g.limits.None?
    requires forall e | e in es :: StepsFromPrevious(g, e)
    ensures Sound(g, After(g, s, es))
    ensures AtMost(Minus(Position(After(g, s, es).previous), Position(s.previous)),
                   Times(Accepts(g, s, es), g.options.maxStep))
    decreases |es|
  {
    hide AtMost, Checked, Times;
    RunsAreSound(g, s, es);
    TimesZeroAndNext(0, g.options.maxStep);
    if es == [] {
      ZeroAtMost(Position(s.previous), 0.0);
    } else {
      var e := es[0];
      assert e in es;
      var n := Next(g, s, e);
      NextIsSound(g, s, e);
      RefusalChangesOnlyTheRefill(g, s, e.msg, e.nowNs, e.reference);
      TravelPerAccept(g, n, es[1..]);
      if Accepted(g, s, e) {
        AcceptedStep(g, s, e);
        var k := Accepts(g, n, es[1..]);
        TriangleOfPoints(Position(s.previous), Position(n.previous), Position(After(g, s, es).previous),
                         g.options.maxStep, Times(k, g.options.maxStep));
        TimesZeroAndNext(k, g.options.maxStep);
      }
    }
  }

  /** What the abstract angle must satisfy to be one: never negative, nothing between equal
      orientations. */
  ghost predicate AngleLaws(angle: AngleFunction) {
    (forall p, q :: 0.0 <= angle(p, q)) && (forall q :: angle(q, q) == 0.0)
  }

  predicate Directed(q: Quat) {
    QuatNormSq(q) != 0.0
  }

  /** The angle of two rotations is that of two lines, twice: symmetric, and it obeys the triangle
      law. */
  ghost predicate AngleTriangle(angle: AngleFunction) {
    && (forall p, q | Directed(p) && Directed(q) :: angle(p, q) == angle(q, p))
    && forall p, q, r | Directed(p) && Directed(q) && Directed(r) :: angle(p, r) <= angle(p, q) + angle(q, r)
  }

  lemma AcceptedTurn(g: Gate, s: State, e: Event)
    requires Sound(g, s) && g.limits.None? && StepsFromPrevious(g, e) && Accepted(g, s, e)
    ensures AllFinite(Next(g, s, e).previous)
    ensures g.angle(Orientation(s.previous), Orientation(Next(g, s, e).previous)) <= g.options.maxStepRotation
  {
    AcceptedExactly(g, s, e.msg, e.nowNs, e.reference);
  }

  /** And the commanded orientation turns at most `max_step_rotation` for each acceptance. */
  lemma {:induction false} TurnPerAccept(g: Gate, s: State, es: seq<Event>)
    requires Sound(g, s) && g.limits.None? && AngleLaws(g.angle) && AngleTriangle(g.angle)
    requires forall e | e in es :: StepsFromPrevious(g, e)
    ensures Sound(g, After(g, s, es))
    ensures g.angle(Orientation(s.previous), Orientation(After(g, s, es).previous))
            <= Times(Accepts(g, s, es), g.options.maxStepRotation)
    decreases |es|
  {
    hide Checked, Times, NearUnit, QuatNormSq;
    RunsAreSound(g, s, es);
    TimesZeroAndNext(0, g.options.maxStepRotation);
    if es != [] {
      var e := es[0];
      assert e in es;
      var n := Next(g, s, e);
      NextIsSound(g, s, e);
      RefusalChangesOnlyTheRefill(g, s, e.msg, e.nowNs, e.reference);
      TurnPerAccept(g, n, es[1..]);
      if Accepted(g, s, e) {
        AcceptedTurn(g, s, e);
        UnitHasDirection(Orientation(s.previous));
        UnitHasDirection(Orientation(n.previous));
        UnitHasDirection(Orientation(After(g, s, es).previous));
        TimesZeroAndNext(Accepts(g, n, es[1..]), g.options.maxStepRotation);
      }
    }
  }

  lemma TimesMonotone(k: nat, most: real, r: real)
    requires k as real <= most && 0.0 <= r
    ensures Times(k, r) <= Product(most, r)
  {
  }

  /** Within any window of a tenure the commanded position moves at most `max_step` times what
      the bucket lets through. */
  lemma TravelInWindow(g: Gate, s: State, es: seq<Event>, t0: nat, t1: nat)
    requires Sound(g, s) && g.limits.None? && 0.0 <= g.options.rateHz && 0.0 <= g.options.maxStep
    requires t0 <= t1 && Within(es, t0, t1) && forall e | e in es :: StepsFromPrevious(g, e)
    ensures Sound(g, After(g, s, es))
    ensures AtMost(Minus(Position(After(g, s, es).previous), Position(s.previous)),
                   Product(MostAccepted(g, t0, t1), g.options.maxStep))
  {
    hide AtMost, MostAccepted, Times, Product;
    TravelPerAccept(g, s, es);
    RateBound(g, s, es, t0, t1);
    var k := Accepts(g, s, es);
    TimesMonotone(k, MostAccepted(g, t0, t1), g.options.maxStep);
    AtMostWiden(Minus(Position(After(g, s, es).previous), Position(s.previous)),
                Times(k, g.options.maxStep), Product(MostAccepted(g, t0, t1), g.options.maxStep));
  }

  function Abs(x: real): real { if x < 0.0 then -x else x }

  lemma AcceptedJointStep(g: Gate, s: State, e: Event, i: nat)
    requires Sound(g, s) && g.limits.Some? && i < 7 && Accepted(g, s, e)
    ensures AllFinite(Next(g, s, e).previous)
    ensures Abs(Next(g, s, e).previous[i].value - s.previous[i].value) <= g.options.maxStepJoint
    ensures InsideLimits(g, g.limits.value, i, Next(g, s, e).previous[i].value)
  {
    AcceptedExactly(g, s, e.msg, e.nowNs, e.reference);
  }

  /** The same for each joint of a joint gate, where no anchor exists; and once something has
      been accepted the held joints are inside the inset limits. */
  lemma {:induction false} JointTravelPerAccept(g: Gate, s: State, es: seq<Event>, i: nat)
    requires Sound(g, s) && g.limits.Some? && i < 7 && OneTenure(es)
    ensures Sound(g, After(g, s, es))
    ensures Abs(After(g, s, es).previous[i].value - s.previous[i].value)
            <= Times(Accepts(g, s, es), g.options.maxStepJoint)
    ensures Accepts(g, s, es) == 0 ==> After(g, s, es).previous == s.previous
    ensures 0 < Accepts(g, s, es) ==> InsideLimits(g, g.limits.value, i, After(g, s, es).previous[i].value)
    decreases |es|
  {
    hide Checked, Times, InsideLimits;
    RunsAreSound(g, s, es);
    TimesZeroAndNext(0, g.options.maxStepJoint);
    if es != [] {
      var e := es[0];
      assert e in es;
      var n := Next(g, s, e);
      NextIsSound(g, s, e);
      RefusalChangesOnlyTheRefill(g, s, e.msg, e.nowNs, e.reference);
      JointTravelPerAccept(g, n, es[1..], i);
      if Accepted(g, s, e) {
        AcceptedJointStep(g, s, e, i);
        TimesZeroAndNext(Accepts(g, n, es[1..]), g.options.maxStepJoint);
      }
    }
  }

  lemma JointTravelInWindow(g: Gate, s: State, es: seq<Event>, t0: nat, t1: nat, i: nat)
    requires Sound(g, s) && g.limits.Some? && i < 7 && 0.0 <= g.options.rateHz && 0.0 <= g.options.maxStepJoint
    requires t0 <= t1 && Within(es, t0, t1)
    ensures Sound(g, After(g, s, es))
    ensures Abs(After(g, s, es).previous[i].value - s.previous[i].value)
            <= Product(MostAccepted(g, t0, t1), g.options.maxStepJoint)
  {
    hide MostAccepted, Times, Product, Abs, After, Accepts, InsideLimits;
    JointTravelPerAccept(g, s, es, i);
    RateBound(g, s, es, t0, t1);
    TimesMonotone(Accepts(g, s, es), MostAccepted(g, t0, t1), g.options.maxStepJoint);
  }

  /** What the gate clamps into the joint limits it never refuses for them. */
  lemma ClampedIsNeverRefusedForLimits(g: Gate, s: State, msg: TargetMsg, nowNs: U64, reference: Option<Seven>,
                          q: Seven)
    requires g.limits.Some? && forall i | 0 <= i < 7 :: BandNotEmpty(g, g.limits.value, i)
    requires msg.data == Clamped(g, g.limits.value, q)
    ensures Checked(g, s, msg, nowNs, reference).1.Refuse? ==>
              !Checked(g, s, msg, nowNs, reference).1.reason.JointLimit?
  {
    if AllFinite(msg.data) {
      ClampedNoLimitFrom(g, g.limits.value, s, msg.data, 0);
    }
  }

  lemma {:induction false} ClampedNoLimitFrom(g: Gate, limits: JointLimits, s: State, q: Seven, i: nat)
    requires i <= 7 && AllFinite(q) && forall j | i <= j < 7 :: InsideLimits(g, limits, j, q[j].value)
    ensures JointsRefusalFrom(g, limits, s, q, i).Some? ==> JointsRefusalFrom(g, limits, s, q, i).value.JointStep?
    decreases 7 - i
  {
    if i < 7 {
      ClampedNoLimitFrom(g, limits, s, q, i + 1);
    }
  }

  // ---------------------------------------------------------------------------------------
  // Lead, lockout and the anchor
  // ---------------------------------------------------------------------------------------

  /** Every accepted target that had a reference is within `max_lead` of it. */
  lemma AcceptedIsWithinLead(g: Gate, s: State, e: Event)
    requires g.limits.None? && g.options.maxLead > 0.0 && Accepted(g, s, e) && e.reference.Some?
    ensures AllFinite(e.msg.data) && FiniteRange(e.reference.value, 0, 3)
    ensures AtMost(Minus(Position(e.msg.data), Position(e.reference.value)), g.options.maxLead)
  {
    AcceptedExactly(g, s, e.msg, e.nowNs, e.reference);
  }

  /** An anchor lifts no limit: an anchored acceptance is within the smaller of the step and the
      lead of where the arm is, wherever the previous target was. */
  lemma AnchoredIsNearTheArm(g: Gate, s: State, e: Event)
    requires g.limits.None? && g.LeadBounded() && Accepted(g, s, e) && e.reference.Some? && e.msg.Anchor()
    ensures AllFinite(e.msg.data) && FiniteRange(e.reference.value, 0, 3)
    ensures AtMost(Minus(Position(e.msg.data), Position(e.reference.value)), Min(g.options.maxStep, g.options.maxLead))
    ensures var a := AngleBetween(g.angle, e.reference.value, e.msg.data);
            a.Some? && a.value <= Min(g.options.maxStepRotation, g.options.maxLeadRotation)
  {
    AcceptedExactly(g, s, e.msg, e.nowNs, e.reference);
  }

  /** The arm within `radius` of `centre` on every offer. */
  ghost predicate ArmNear(es: seq<Event>, centre: Vec, radius: real) {
    forall e | e in es && e.Offer? ::
      e.reference.Some? && FiniteRange(e.reference.value, 0, 3) &&
      AtMost(Minus(Position(e.reference.value), centre), radius)
  }

  /** No commander, greedy or anchoring on every message, walks the target away from the arm: it
      stays within the arm's own range plus one lead, across any number of messages and leases. */
  lemma {:induction false} TargetStaysWithTheArm(g: Gate, s: State, es: seq<Event>, centre: Vec, radius: real)
    requires g.limits.None? && g.options.maxLead > 0.0 && Sound(g, s) && ArmNear(es, centre, radius)
    requires AtMost(Minus(Position(s.previous), centre), radius + g.options.maxLead)
    ensures Sound(g, After(g, s, es))
    ensures AtMost(Minus(Position(After(g, s, es).previous), centre), radius + g.options.maxLead)
    decreases |es|
  {
    hide AtMost, Checked;
    RunsAreSound(g, s, es);
    if es != [] {
      var e := es[0];
      assert e in es;
      NextIsSound(g, s, e);
      if e.Offer? {
        RefusalChangesOnlyTheRefill(g, s, e.msg, e.nowNs, e.reference);
      }
      if Accepted(g, s, e) {
        AcceptedIsWithinLead(g, s, e);
        TriangleOfPoints(centre, Position(e.reference.value), Position(e.msg.data), radius, g.options.maxLead);
      }
      assert ArmNear(es[1..], centre, radius);
      TargetStaysWithTheArm(g, Next(g, s, e), es[1..], centre, radius);
    }
  }

  /** An unanchored offer against this reference. */
  ghost predicate PlainOffers(es: seq<Event>, reference: Seven) {
    forall e | e in es && e.Offer? :: e.reference == Some(reference) && e.msg.flags % 2 == 0
  }

  /** The lockout: with the lead limits on, once the previous target is further than `max_step` +
      `max_lead` from an arm that stays put, no unanchored target is ever accepted again, not even
      from a new holder. */
  lemma {:induction false} LockedOut(g: Gate, s: State, es: seq<Event>, reference: Seven)
    requires g.limits.None? && g.LeadBounded() && Sound(g, s) && PlainOffers(es, reference)
    requires FiniteRange(reference, 0, 3) ==>
               !AtMost(Minus(Position(reference), Position(s.previous)), g.options.maxStep + g.options.maxLead)
    ensures Accepts(g, s, es) == 0 && After(g, s, es).previous == s.previous
    decreases |es|
  {
    if es != [] {
      var e := es[0];
      assert e in es;
      if e.Offer? {
        AcceptedExactly(g, s, e.msg, e.nowNs, e.reference);
        RefusalChangesOnlyTheRefill(g, s, e.msg, e.nowNs, e.reference);
        if Accepted(g, s, e) {
          AtMostReverse(Position(e.msg.data), Position(reference), g.options.maxLead);
          TriangleOfPoints(Position(s.previous), Position(e.msg.data), Position(reference),
                           g.options.maxStep, g.options.maxLead);
        }
      }
      NextIsSound(g, s, e);
      LockedOut(g, Next(g, s, e), es[1..], reference);
    }
  }

  /** The angle between where the arm is and where the previous target is, if the arm has one. */
  ghost predicate TurnedAway(g: Gate, s: State, reference: Seven)
    requires Sound(g, s)
  {
    var a := AngleBetween(g.angle, reference, s.previous);
    a.None? || g.options.maxStepRotation + g.options.maxLeadRotation < a.value
  }

  /** An unanchored acceptance is within a step of the one and a lead of the other. */
  lemma AcceptedTurnsLittle(g: Gate, s: State, e: Event, reference: Seven)
    requires AngleTriangle(g.angle) && g.limits.None? && g.LeadBounded() && Sound(g, s)
    requires e.Offer? && e.reference == Some(reference) && !e.msg.Anchor()
    ensures Accepted(g, s, e) ==> !TurnedAway(g, s, reference)
  {
    hide AtMost, NearUnit, QuatNormSq;
    AcceptedExactly(g, s, e.msg, e.nowNs, e.reference);
    UnitHasDirection(Orientation(s.previous));
    if Accepted(g, s, e) {
      UnitHasDirection(Orientation(e.msg.data));
      assert Directed(Orientation(s.previous)) && Directed(Orientation(e.msg.data)) && Directed(Orientation(reference));
    }
  }

  /** The same lockout by orientation: beyond `max_step_rotation` + `max_lead_rotation` from an arm
      that stays put, wherever the positions are, no unanchored target is ever accepted again. */
  lemma {:induction false} TurnLockedOut(g: Gate, s: State, es: seq<Event>, reference: Seven)
    requires AngleTriangle(g.angle) && g.limits.None? && g.LeadBounded() && Sound(g, s)
    requires PlainOffers(es, reference) && TurnedAway(g, s, reference)
    ensures Accepts(g, s, es) == 0 && After(g, s, es).previous == s.previous
    decreases |es|
  {
    hide Checked, NearUnit, QuatNormSq, AngleTriangle;
    if es != [] {
      var e := es[0];
      assert e in es;
      NextIsSound(g, s, e);
      if e.Offer? {
        AcceptedTurnsLittle(g, s, e, reference);
        RefusalChangesOnlyTheRefill(g, s, e.msg, e.nowNs, e.reference);
      }
      TurnLockedOut(g, Next(g, s, e), es[1..], reference);
    }
  }

  /** The partner of the triangle law, which the angle of two rotations also obeys: between two
      orientations no further apart than `a` + `b` lies one within `a` of the one and `b` of the
      other. */
  ghost predicate AngleBetweenness(angle: AngleFunction) {
    forall p, q, a, b | NearUnit(p) && Directed(q) && 0.0 <= a && 0.0 <= b && angle(q, p) <= a + b ::
      SomeOnTheWay(angle, p, q, a, b)
  }

  ghost predicate SomeOnTheWay(angle: AngleFunction, p: Quat, q: Quat, a: real, b: real) {
    exists m :: OnTheWay(angle, p, q, a, b, m)
  }

  ghost predicate OnTheWay(angle: AngleFunction, p: Quat, q: Quat, a: real, b: real, m: Quat) {
    NearUnit(m) && angle(p, m) <= a && angle(q, m) <= b
  }

  /** A holder, a fresh sequence number and a token; step limits that are not negative; and both
      ends, as far as they are numbers, in the box. */
  ghost predicate OnlyPosesDecide(g: Gate, s: State, nowNs: U64, reference: Seven) {
    && g.limits.None? && g.LeadBounded() && Sound(g, s)
    && 0.0 <= g.options.maxStep && 0.0 <= g.options.maxStepRotation
    && s.holder != 0 && s.lastSeq < 0xffff_ffff_ffff_ffff && 1.0 <= EagerTokens(g, s, nowNs)
    && (g.options.workspace.Some? ==>
        && InBox(g.options.workspace.value, Position(s.previous))
        && (FiniteRange(reference, 0, 3) ==> InBox(g.options.workspace.value, Position(reference))))
  }

  /** The arm is a position, and within a step and a lead of the previous target. */
  ghost predicate PositionInReach(g: Gate, s: State, reference: Seven)
    requires Sound(g, s)
  {
    FiniteRange(reference, 0, 3) &&
    AtMost(Minus(Position(reference), Position(s.previous)), g.options.maxStep + g.options.maxLead)
  }

  ghost predicate SomePlainTargetAccepted(g: Gate, s: State, nowNs: U64, reference: Seven) {
    exists msg: TargetMsg :: msg.flags % 2 == 0 && Checked(g, s, msg, nowNs, Some(reference)).1 == Accept
  }

  lemma PartOf(t: real, d: real)
    requires 0.0 <= t <= 1.0
    ensures 0.0 <= d ==> 0.0 <= Product(t, d) <= d
    ensures d <= 0.0 ==> d <= Product(t, d) <= 0.0
  {
  }

  lemma BoxIsConvex(lo: real, hi: real, p: real, d: real, t: real)
    requires lo <= p <= hi && lo <= p + d <= hi && 0.0 <= t <= 1.0
    ensures lo <= p + Product(t, d) <= hi
  {
    hide Product;
    PartOf(t, d);
  }

  function PoseOf(m: Vec, o: Quat): Seven {
    [Finite(m.x), Finite(m.y), Finite(m.z), Finite(o.i), Finite(o.j), Finite(o.k), Finite(o.w)]
  }

  /** A pose on the way in position and in orientation is accepted. */
  lemma PoseOnTheWayIsAccepted(g: Gate, s: State, nowNs: U64, reference: Seven, t: real, m: Vec, o: Quat)
    requires OnlyPosesDecide(g, s, nowNs, reference) && FiniteRange(reference, 0, 3)
    requires 0.0 <= t <= 1.0
    requires m == Plus(Position(s.previous), Scale(t, Minus(Position(reference), Position(s.previous))))
    requires AtMost(Minus(m, Position(s.previous)), g.options.maxStep)
    requires AtMost(Minus(m, Position(reference)), g.options.maxLead)
    requires FiniteRange(reference, 3, 7) && Directed(Orientation(reference)) && NearUnit(o)
    requires g.angle(Orientation(s.previous), o) <= g.options.maxStepRotation
    requires g.angle(Orientation(reference), o) <= g.options.maxLeadRotation
    ensures SomePlainTargetAccepted(g, s, nowNs, reference)
  {
    hide AtMost, Checked, NearUnit, QuatNormSq, Product;
    var data := PoseOf(m, o);
    assert Orientation(data) == o && Position(data) == m;
    if g.options.workspace.Some? {
      var box := g.options.workspace.value;
      var p, v := Position(s.previous), Minus(Position(reference), Position(s.previous));
      BoxIsConvex(box.min.x, box.max.x, p.x, v.x, t);
      BoxIsConvex(box.min.y, box.max.y, p.y, v.y, t);
      BoxIsConvex(box.min.z, box.max.z, p.z, v.z, t);
    }
    UnitHasDirection(o);
    UnitHasDirection(Orientation(s.previous));
    var msg := TargetMsg(1, s.holder, s.lastSeq + 1, 0, data);
    AcceptedExactly(g, s, msg, nowNs, Some(reference));
    assert Checked(g, s, msg, nowNs, Some(reference)).1 == Accept;
  }

  /** Whatever locks every run out leaves no plain target to accept. */
  lemma OutOfReachAcceptsNothing(g: Gate, s: State, nowNs: U64, reference: Seven)
    requires AngleTriangle(g.angle) && g.limits.None? && g.LeadBounded() && Sound(g, s)
    requires !PositionInReach(g, s, reference) || TurnedAway(g, s, reference)
    ensures !SomePlainTargetAccepted(g, s, nowNs, reference)
  {
    hide AtMost, Checked, NearUnit, QuatNormSq, AngleTriangle, TurnedAway;
    forall msg: TargetMsg | !msg.Anchor()
      ensures Checked(g, s, msg, nowNs, Some(reference)).1 != Accept
    {
      var e := Offer(msg, nowNs, Some(reference));
      if TurnedAway(g, s, reference) {
        TurnLockedOut(g, s, [e], reference);
      } else {
        LockedOut(g, s, [e], reference);
      }
      assert [e][0] == e;
    }
  }

  /** The lockout is exact: with a holder, a fresh sequence number, a token and both ends in the
      box, an unanchored target that the gate accepts exists if and only if the arm is within
      `max_step` + `max_lead` of the previous target in position and within `max_step_rotation` +
      `max_lead_rotation` of it in orientation. */
  lemma LockoutIsExact(g: Gate, s: State, nowNs: U64, reference: Seven)
    requires OnlyPosesDecide(g, s, nowNs, reference) && AngleTriangle(g.angle) && AngleBetweenness(g.angle)
    ensures SomePlainTargetAccepted(g, s, nowNs, reference) <==>
            PositionInReach(g, s, reference) && !TurnedAway(g, s, reference)
  {
    hide AtMost, Checked, NearUnit, SomePlainTargetAccepted, AngleTriangle, Directed;
    if PositionInReach(g, s, reference) && !TurnedAway(g, s, reference) {
      var p, q := Position(s.previous), Position(reference);
      var t, m := BetweenPoints(p, q, g.options.maxStep, g.options.maxLead);
      assert Directed(Orientation(reference)) by {
        HasDirection(g, s, reference);
      }
      var o := TurnOnTheWay(g, s, reference);
      PoseOnTheWayIsAccepted(g, s, nowNs, reference, t, m, o);
    } else {
      OutOfReachAcceptsNothing(g, s, nowNs, reference);
    }
  }

  lemma HasDirection(g: Gate, s: State, reference: Seven)
    requires Sound(g, s) && !TurnedAway(g, s, reference)
    ensures FiniteRange(reference, 3, 7) && Directed(Orientation(reference))
  {
    hide QuatNormSq;
  }

  lemma TurnOnTheWay(g: Gate, s: State, reference: Seven) returns (o: Quat)
    requires AngleBetweenness(g.angle) && g.limits.None? && g.LeadBounded() && Sound(g, s)
    requires 0.0 <= g.options.maxStepRotation && !TurnedAway(g, s, reference)
    requires FiniteRange(reference, 3, 7) && Directed(Orientation(reference))
    ensures NearUnit(o) && g.angle(Orientation(s.previous), o) <= g.options.maxStepRotation
    ensures g.angle(Orientation(reference), o) <= g.options.maxLeadRotation
  {
    hide NearUnit, QuatNormSq;
    var p, q := Orientation(s.previous), Orientation(reference);
    var a, b := g.options.maxStepRotation, g.options.maxLeadRotation;
    assert g.angle(q, p) <= a + b;
    assert SomeOnTheWay(g.angle, p, q, a, b);
    o :| OnTheWay(g.angle, p, q, a, b, o);
  }

  /** The same where the arm's orientation is already within the lead of the held one, for any angle
      that is not negative and nothing between equal orientations. */
  lemma LockoutByPositionIsExact(g: Gate, s: State, nowNs: U64, reference: Seven)
    requires AngleLaws(g.angle) && OnlyPosesDecide(g, s, nowNs, reference) && FiniteRange(reference, 0, 3)
    requires var a := AngleBetween(g.angle, reference, s.previous); a.Some? && a.value <= g.options.maxLeadRotation
    ensures SomePlainTargetAccepted(g, s, nowNs, reference) <==>
            AtMost(Minus(Position(reference), Position(s.previous)), g.options.maxStep + g.options.maxLead)
  {
    hide AtMost, Checked, NearUnit, QuatNormSq, Product;
    var p, q := Position(s.previous), Position(reference);
    if AtMost(Minus(q, p), g.options.maxStep + g.options.maxLead) {
      var t, m := BetweenPoints(p, q, g.options.maxStep, g.options.maxLead);
      PoseOnTheWayIsAccepted(g, s, nowNs, reference, t, m, Orientation(s.previous));
    } else {
      forall msg: TargetMsg | !msg.Anchor()
        ensures Checked(g, s, msg, nowNs, Some(reference)).1 != Accept
      {
        var e := Offer(msg, nowNs, Some(reference));
        LockedOut(g, s, [e], reference);
        assert [e][0] == e;
      }
    }
  }

  const UPRIGHT := Quat(0.0, 0.0, 0.0, 1.0)
  const HOME: Seven := PoseOf(Vec(0.0, 0.0, 0.0), UPRIGHT)

  /** With the default steps and leads of 5 cm, an arm pushed a metre off the target it holds. */
  lemma AMetreAwayLocksOut(g: Gate, es: seq<Event>)
    requires g.limits.None? && g.options.maxStep == 0.05 && g.options.maxLead == 0.05 && g.LeadBounded()
    requires PlainOffers(es, PoseOf(Vec(1.0, 0.0, 0.0), UPRIGHT))
    ensures Sound(g, Initial(g, HOME)) && Accepts(g, Initial(g, HOME), es) == 0
  {
    hide AtMost, Minus, PlainOffers, Accepts, PoseOf, Position, Sound, FiniteRange;
    HomeIsSound(g);
    PoseIsThere(Vec(1.0, 0.0, 0.0), UPRIGHT);
    PoseIsThere(Vec(0.0, 0.0, 0.0), UPRIGHT);
    AMetreApart();
    AMetreIsFar(Minus(Vec(1.0, 0.0, 0.0), Vec(0.0, 0.0, 0.0)), g.options.maxStep + g.options.maxLead);
    LockedOut(g, Initial(g, HOME), es, PoseOf(Vec(1.0, 0.0, 0.0), UPRIGHT));
  }

  lemma HomeIsSound(g: Gate)
    requires g.limits.None?
    ensures Sound(g, Initial(g, HOME))
  {
    UprightIsUnit();
    InitialIsSound(g, HOME);
  }

  lemma PoseIsThere(p: Vec, q: Quat)
    ensures FiniteRange(PoseOf(p, q), 0, 3) && Position(PoseOf(p, q)) == p
  {
  }

  lemma AMetreApart()
    ensures Minus(Vec(1.0, 0.0, 0.0), Vec(0.0, 0.0, 0.0)) == Vec(1.0, 0.0, 0.0)
  {
  }

  lemma AMetreIsFar(v: Vec, r: real)
    requires v == Vec(1.0, 0.0, 0.0) && r == 0.1
    ensures !AtMost(v, r)
  {
    assert v.x == 1.0;
  }

  lemma UprightIsUnit()
    ensures NearUnit(UPRIGHT)
  {
  }

  /** And one whose hand has been turned by half a turn, with the default 0.26 rad each. */
  lemma HalfATurnLocksOut(g: Gate, es: seq<Event>)
    requires g.limits.None? && g.options.maxStepRotation == 0.26 && g.options.maxLeadRotation == 0.26 && g.LeadBounded()
    requires AngleTriangle(g.angle) && 3.14 < g.angle(Quat(0.0, 0.0, 1.0, 0.0), UPRIGHT)
    requires PlainOffers(es, PoseOf(Vec(0.0, 0.0, 0.0), Quat(0.0, 0.0, 1.0, 0.0)))
    ensures Sound(g, Initial(g, HOME)) && Accepts(g, Initial(g, HOME), es) == 0
  {
    UprightIsUnit();
    InitialIsSound(g, HOME);
    hide NearUnit, AngleTriangle, PlainOffers, Accepts;
    TurnLockedOut(g, Initial(g, HOME), es, PoseOf(Vec(0.0, 0.0, 0.0), Quat(0.0, 0.0, 1.0, 0.0)));
  }

  lemma UnitHasDirection(q: Quat)
    requires NearUnit(q)
    ensures QuatNormSq(q) != 0.0
  {
  }

  /** The way out: the arm's own pose, anchored, from the holder, in order, in the box and with a
      token, is accepted however far the previous target is. */
  lemma AnchorReadmits(g: Gate, s: State, msg: TargetMsg, nowNs: U64, reference: Seven)
    requires AngleLaws(g.angle) && g.limits.None? && g.LeadBounded()
    requires 0.0 <= g.options.maxStep && 0.0 <= g.options.maxStepRotation
    requires FromTheSession(g, s, msg) && msg.flags % 2 == 1 && 1.0 <= EagerTokens(g, s, nowNs)
    requires msg.data == reference && FiniteAndUnit(reference)
    requires g.options.workspace.Some? ==> InBox(g.options.workspace.value, Position(reference))
    ensures Checked(g, s, msg, nowNs, Some(reference)).1 == Accept
  {
    hide AtMost, Checked, NearUnit, QuatNormSq;
    UnitHasDirection(Orientation(reference));
    ZeroAtMost(Position(reference), g.options.maxStep);
    ZeroAtMost(Position(reference), g.options.maxLead);
    AcceptedExactly(g, s, msg, nowNs, Some(reference));
  }

  // ---------------------------------------------------------------------------------------
  // What is measured, in numbers
  // ---------------------------------------------------------------------------------------

  /** The wire knows two kinds. */
  lemma KindsOnTheWire(wire: nat)
    ensures KindOf(wire) == Some(Cartesian) <==> wire == 1
    ensures KindOf(wire) == Some(Joints) <==> wire == 2
  {
  }

  /** A quaternion is taken whose length is within a thousandth of one. */
  lemma NearUnitExactly(q: Quat)
    ensures NearUnit(q) <==> 0.998001 <= q.i * q.i + q.j * q.j + q.k * q.k + q.w * q.w <= 1.002001
  {
  }

  /** A distance is there when both positions are finite, whatever the orientations are. */
  lemma DistanceExactly(a: Seven, b: Seven)
    ensures DistanceSq(a, b).Some? <==> FiniteRange(a, 0, 3) && FiniteRange(b, 0, 3)
    ensures DistanceSq(a, b).Some? ==>
              var dx, dy, dz := a[0].value - b[0].value, a[1].value - b[1].value, a[2].value - b[2].value;
              DistanceSq(a, b).value == dx * dx + dy * dy + dz * dz
  {
    if FiniteRange(a, 0, 3) && FiniteRange(b, 0, 3) {
      NormSqIs(Minus(Position(a), Position(b)));
    }
    hide NormSq;
  }

  /** An angle is there when both orientations are finite and not zero, whatever the positions are. */
  lemma AngleExactly(g: Gate, a: Seven, b: Seven)
    ensures AngleBetween(g.angle, a, b).Some? <==> PointsSomewhere(a) && PointsSomewhere(b)
    ensures AngleBetween(g.angle, a, b).Some? ==>
              AngleBetween(g.angle, a, b).value == g.angle(Quat(a[3].value, a[4].value, a[5].value, a[6].value),
                                                           Quat(b[3].value, b[4].value, b[5].value, b[6].value))
  {
    LengthOf(a);
    LengthOf(b);
    hide QuatNormSq;
  }

  lemma LengthOf(d: Seven)
    ensures PointsSomewhere(d) <==> FiniteRange(d, 3, 7) && QuatNormSq(Orientation(d)) != 0.0
  {
  }

  /** Four finite components, not all zero. */
  predicate PointsSomewhere(d: Seven) {
    && d[3].Finite? && d[4].Finite? && d[5].Finite? && d[6].Finite?
    && d[3].value * d[3].value + d[4].value * d[4].value + d[5].value * d[5].value + d[6].value * d[6].value != 0.0
  }

  lemma NormSqIs(v: Vec)
    ensures NormSq(v) == v.x * v.x + v.y * v.y + v.z * v.z
  {
  }
}

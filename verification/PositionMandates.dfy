/** The store of position mandates, one per exposure, and the exit decision read from it. */
module PositionMandates {
  import opened Basics
  import opened TradingCalendar
  import opened MandateTimes

  datatype OrderStatus = Created | Submitted | Resting | PartiallyFilled | Filled | Cancelled | Expired | Rejected

  /** What reconciliation reads of an order. */
  datatype OrderView = OrderView(status: OrderStatus, submittedAt: Option<int>, updatedAt: Option<int>)

  datatype Request = Request(
    orderId: Id,
    exposure: Exposure,
    strategy: string,
    snapshotId: Id,
    ticker: string,
    instrument: Instrument,
    horizon: Horizon,
    holdingDays: int,
    createdAt: int,
    plannedExitAt: int,
    thesisValidUntil: int,
    invalidation: string,
    plannedStop: Option<real>)

  type Mandates = map<Exposure, Mandate>

  predicate Terminal(status: OrderStatus) {
    status == Cancelled || status == Expired || status == Rejected
  }

  predicate Active(m: Mandate) {
    m.status == PendingFill || m.status == Open
  }

  function NewMandate(req: Request): Mandate {
    Mandate(
      Terms(2, req.exposure, req.orderId, req.strategy, req.snapshotId, Upper(req.ticker), req.instrument, req.horizon,
            Some(req.holdingDays), req.createdAt, req.plannedExitAt, req.thesisValidUntil, req.invalidation,
                req.plannedStop),
      PendingFill, None, false, None, None)
  }

  /** The stored map and the returned mandate after a registration, or why it was refused. */
  function Register(cal: Calendar, namespace: string, values: Mandates, req: Request): Result<(Mandates, Mandate),
      MandateError> {
    var m := NewMandate(req);
    if req.strategy != namespace then Err(NamespaceMismatch)
    else if req.horizon.OtherHorizon? then Err(UnsupportedHorizon)
    else if ValidatedTimes(cal, m.terms).None? then Err(InvalidSemantics)
    else if req.exposure in values && Active(values[req.exposure]) then
      if values[req.exposure].terms == m.terms then Ok((values, values[req.exposure])) else Err(ActiveMandateExists)
    else Ok((values[req.exposure := m], m))
  }

  /** The terms are what was requested, under the upper-case ticker. */
  ghost predicate CarriesRequest(req: Request, terms: Terms) {
    && terms.version == 2 && terms.exposure == req.exposure && terms.orderId == req.orderId
    && terms.strategy == req.strategy && terms.snapshotId == req.snapshotId && terms.ticker == Upper(req.ticker)
    && terms.instrument == req.instrument && terms.horizon == req.horizon
    && terms.holdingDays == Some(req.holdingDays) && terms.createdAt == req.createdAt
    && terms.plannedExitAt == req.plannedExitAt && terms.thesisValidUntil == req.thesisValidUntil
    && terms.invalidation == req.invalidation && terms.plannedStop == req.plannedStop
  }

  predicate HeldActive(values: Mandates, e: Exposure) {
    e in values && Active(values[e])
  }

  /** The exposure key names the ticker of an equity, or a contract of an option. */
  predicate FitsTicker(e: Exposure, ticker: string, instrument: Instrument) {
    && ticker != ""
    && match instrument
       case Equity => e == EquityExposure(Upper(ticker))
       case Call => e.OptionExposure? && e.contract != ""
       case Put => e.OptionExposure? && e.contract != ""
       case OtherInstrument(_) => false
  }

  /** A method's result and new state are what a registration specifies. */
  ghost predicate Agree(spec: Result<(Mandates, Mandate), MandateError>, r: Result<Mandate, MandateError>,
                        values: Mandates) {
    match spec
    case Ok(done) => r == Ok(done.1) && values == done.0
    case Err(e) => r == Err(e)
  }

  function ClosedMandate(m: Mandate, reason: string, now: int): Mandate {
    m.(status := Closed, closedAt := Some(now), closeReason := Some(reason))
  }

  function EndReason(status: OrderStatus): string {
    match status
    case Cancelled => "entry order cancelled"
    case Expired => "entry order expired"
    case Rejected => "entry order rejected"
    case _ => ""
  }

  function ReconcileOne(m: Mandate, orders: map<Id, OrderView>, now: int): Mandate {
    if m.status != PendingFill || m.terms.orderId !in orders then m
    else
      var order := orders[m.terms.orderId];
      if order.status == Filled then
        m.(status := Open,
           enteredAt := if order.updatedAt.Some? then order.updatedAt
                        else if order.submittedAt.Some? then order.submittedAt
                        else Some(now))
      else if Terminal(order.status) then
        ClosedMandate(m, EndReason(order.status), now)
      else m
  }

  /** How a mandate follows its own entry order: ended without a fill it is closed, filled it is open since the fill,
      and otherwise it stays as it was. */
  ghost predicate FollowsOrder(m: Mandate, orders: map<Id, OrderView>, now: int, after: Mandate) {
    if m.status == PendingFill && m.terms.orderId in orders then
      var order := orders[m.terms.orderId];
      match order.status
      case Cancelled =>
        after == m.(status := Closed, closedAt := Some(now), closeReason := Some("entry order cancelled"))
      case Expired =>
        after == m.(status := Closed, closedAt := Some(now), closeReason := Some("entry order expired"))
      case Rejected =>
        after == m.(status := Closed, closedAt := Some(now), closeReason := Some("entry order rejected"))
      case Filled =>
        && after.enteredAt.Some? && after == m.(status := Open, enteredAt := after.enteredAt)
        && (order.updatedAt.Some? ==> after.enteredAt == order.updatedAt)
        && (order.updatedAt.None? && order.submittedAt.Some? ==> after.enteredAt == order.submittedAt)
        && (order.updatedAt.None? && order.submittedAt.None? ==> after.enteredAt == Some(now))
      case _ => after == m
    else after == m
  }

  /** The exposure's pending mandate names an order that ended without a fill. */
  ghost predicate FreedBy(values: Mandates, orders: map<Id, OrderView>, e: Exposure) {
    && e in values && values[e].status == PendingFill && values[e].terms.orderId in orders
    && orders[values[e].terms.orderId].status in {Cancelled, Expired, Rejected}
  }

  lemma {:induction false} ReconcileFollowsOrder(m: Mandate, orders: map<Id, OrderView>, now: int)
    ensures FollowsOrder(m, orders, now, ReconcileOne(m, orders, now))
  {
  }

  function Reconciled(values: Mandates, orders: map<Id, OrderView>, now: int): Mandates {
    map e | e in values :: ReconcileOne(values[e], orders, now)
  }

  function Invalidated(values: Mandates, e: Exposure): Mandates {
    if e in values then values[e := values[e].(invalidationTriggered := true)] else values
  }

  function ClosedAt(values: Mandates, e: Exposure, reason: string, now: int): Mandates {
    if e in values then
      values[e := ClosedMandate(values[e], reason, now)]
    else values
  }

  lemma {:induction false} ReconciledFollowsOrders(cal: Calendar, namespace: string, values: Mandates,
                                                   orders: map<Id, OrderView>, now: int)
    ensures var after := Reconciled(values, orders, now);
            && (forall e | e in values :: FollowsOrder(values[e], orders, now, after[e]))
            && (forall req: Request | FreedBy(values, orders, req.exposure)
                                      && req.strategy == namespace && !req.horizon.OtherHorizon?
                                      && ValidatedTimes(cal, NewMandate(req).terms).Some? ::
                  Register(cal, namespace, after, req).Ok?)
  {
    hide ReconcileOne, ValidatedTimes;
    forall e | e in values
      ensures FollowsOrder(values[e], orders, now, ReconcileOne(values[e], orders, now))
    {
      ReconcileFollowsOrder(values[e], orders, now);
    }
  }

  class PositionMandateStore {
    const cal: Calendar
    const namespace: string
    var values: Mandates

    constructor (cal: Calendar, namespace: string)
      ensures this.cal == cal && this.namespace == namespace && values == map[]
    {
      this.cal, this.namespace, this.values := cal, namespace, map[];
    }

    /** Registration succeeds exactly when the request is the store's own, consistent, and its exposure free or held by
        the same registration. What it leaves there is active, carries the requested terms and passes the validator
        for its order, provided the exposure key fits the ticker; every other exposure is untouched. */
    method RegisterOrder(req: Request) returns (r: Result<Mandate, MandateError>)
      modifies this`values
      ensures r.Ok? <==> && req.strategy == namespace && !req.horizon.OtherHorizon?
                         && ValidatedTimes(cal, NewMandate(req).terms).Some?
                         && (HeldActive(old(values), req.exposure) ==>
                               old(values)[req.exposure].terms == NewMandate(req).terms)
      ensures r.Err? ==> values == old(values)
      ensures r.Ok? ==> && values.Keys == old(values).Keys + {req.exposure} && values[req.exposure] == r.value
                        && forall e | e in old(values) && e != req.exposure :: values[e] == old(values)[e]
      ensures r.Ok? ==> Active(r.value) && CarriesRequest(req, r.value.terms)
      ensures r.Ok? && !HeldActive(old(values), req.exposure) ==> r.value == NewMandate(req)
      ensures r.Ok? && HeldActive(old(values), req.exposure) ==> r.value == old(values)[req.exposure]
      ensures r.Ok? && FitsTicker(req.exposure, req.ticker, req.instrument) ==>
                ValidMandate(cal, Some(values[req.exposure]), {PendingFill, Open},
                             Expected(Some(req.exposure), Some(req.ticker), Some(req.instrument), Some(req.orderId),
                                      Some(req.strategy)))
      ensures Agree(Register(cal, namespace, old(values), req), r, values)
    {
      hide ValidatedTimes;
      UpperIdempotent(req.ticker);
      if req.strategy != namespace {
        return Err(NamespaceMismatch);
      }
      if req.horizon.OtherHorizon? {
        return Err(UnsupportedHorizon);
      }
      var mandate := NewMandate(req);
      if ValidatedTimes(cal, mandate.terms).None? {
        return Err(InvalidSemantics);
      }
      if req.exposure in values && Active(values[req.exposure]) {
        var existing := values[req.exposure];
        if existing.terms == mandate.terms {
          return Ok(existing);
        }
        return Err(ActiveMandateExists);
      }
      values := values[req.exposure := mandate];
      return Ok(mandate);
    }

    /** Each pending mandate follows the fate of its own entry order; the changed ones are returned. An exposure whose
        order ended without a fill is free again: every consistent request for it is accepted. */
    method Reconcile(equityOrders: map<Id, OrderView>, optionOrders: map<Id, OrderView>, now: int)
      returns (changed: Mandates)
      modifies this`values
      ensures values.Keys == old(values).Keys
      ensures forall e | e in values :: FollowsOrder(old(values)[e], equityOrders + optionOrders, now, values[e])
      ensures forall req: Request | FreedBy(old(values), equityOrders + optionOrders, req.exposure)
                           && req.strategy == namespace && !req.horizon.OtherHorizon?
                           && ValidatedTimes(cal, NewMandate(req).terms).Some? ::
                Register(cal, namespace, values, req).Ok?
      ensures values == Reconciled(old(values), equityOrders + optionOrders, now)
      ensures changed == map e | e in values && values[e] != old(values)[e] :: values[e]
    {
      hide ReconcileOne, ValidatedTimes, FollowsOrder, FreedBy, Register;
      var orders := equityOrders + optionOrders;
      ghost var before := values;
      var todo := values.Keys;
      changed := map[];
      while todo != {}
        invariant todo <= before.Keys == values.Keys
        invariant forall e :: e in before ==>
                    values[e] == if e in todo then before[e] else ReconcileOne(before[e], orders, now)
        invariant changed.Keys == set e | e in before && values[e] != before[e]
        invariant forall e :: e in changed ==> changed[e] == values[e]
      {
        var e :| e in todo;
        var mandate := ReconcileOne(values[e], orders, now);
        if mandate != values[e] {
          changed := changed[e := mandate];
        }
        values := values[e := mandate];
        todo := todo - {e};
      }
      ReconciledFollowsOrders(cal, namespace, before, orders, now);
      assert values == Reconciled(before, orders, now);
    }

    /** One exposure's thesis is over: as long as its mandate would have been valid, every later evaluation sells for
        exactly that reason. Its terms and status and every other exposure are untouched. */
    method MarkInvalidation(e: Exposure)
      modifies this`values
      ensures values.Keys == old(values).Keys && forall x | x in values && x != e :: values[x] == old(values)[x]
      ensures e in values ==> values[e].terms == old(values)[e].terms && values[e].status == old(values)[e].status
      ensures e in values ==>
                forall now, expected | ValidMandate(cal, Some(old(values)[e]), {Open}, expected) ::
                  EvaluateExit(cal, Some(values[e]), now, expected) == Exit(ThesisInvalidated)
      ensures values == Invalidated(old(values), e)
    {
      hide ValidatedTimes;
      if e in values {
        values := values[e := values[e].(invalidationTriggered := true)];
      }
    }

    /** One exposure's mandate is over for good: it validates for no use that asks for an active one, whatever is
        expected of it, and an evaluation fails closed. Its terms and every other exposure are untouched. */
    method Close(e: Exposure, reason: string, now: int)
      modifies this`values
      ensures values.Keys == old(values).Keys && forall x | x in values && x != e :: values[x] == old(values)[x]
      ensures e in values ==> values[e].terms == old(values)[e].terms && !Active(values[e])
      ensures e in values ==>
                forall later, expected :: EvaluateExit(cal, Some(values[e]), later, expected) == Exit(InvalidMandate)
      ensures values == ClosedAt(old(values), e, reason, now)
    {
      hide ValidatedTimes;
      if e in values {
        values := values[e := ClosedMandate(values[e], reason, now)];
      }
    }
  }

  // ---- Whole runs -----------------------------------------------------------------------------

  datatype Op =
    | RegisterOp(req: Request)
    | ReconcileOp(orders: map<Id, OrderView>, now: int)
    | InvalidateOp(exposure: Exposure)
    | CloseOp(exposure: Exposure, reason: string, now: int)

  function Apply(cal: Calendar, namespace: string, values: Mandates, op: Op): Mandates {
    match op
    case RegisterOp(req) =>
      (match Register(cal, namespace, values, req)
       case Ok(done) => done.0
       case Err(_) => values)
    case ReconcileOp(orders, now) => Reconciled(values, orders, now)
    case InvalidateOp(e) => Invalidated(values, e)
    case CloseOp(e, reason, now) => ClosedAt(values, e, reason, now)
  }

  function Run(cal: Calendar, namespace: string, values: Mandates, ops: seq<Op>): Mandates {
    if ops == [] then values
    else Apply(cal, namespace, Run(cal, namespace, values, ops[..|ops| - 1]), ops[|ops| - 1])
  }

  /** Position in the life of a registration: pending, open, closed; any other text comes before. */
  function Rank(s: Status): int {
    match s
    case PendingFill => 0
    case Open => 1
    case Closed => 2
    case OtherStatus(_) => -1
  }

  /** One operation keeps a registration and only moves it forward, or replaces one no longer active. */
  lemma {:induction false} StepMovesForward(cal: Calendar, namespace: string, values: Mandates, op: Op, e: Exposure)
    requires e in values
    ensures var after := Apply(cal, namespace, values, op);
            && e in after
            && ((values[e].terms == after[e].terms && Rank(values[e].status) <= Rank(after[e].status)
                 && (values[e].invalidationTriggered ==> after[e].invalidationTriggered))
                || (!Active(values[e]) && after[e].status == PendingFill))
  {
    hide ValidatedTimes, EndReason;
  }

  /** Over a whole run: as long as a registration has not passed through `closed`, its order id, planned
      exit, thesis validity, stop and all other identity fields are frozen and its status only advances. */
  lemma {:induction false} ActiveMandateIsFrozen(cal: Calendar, namespace: string, values: Mandates, ops: seq<Op>,
      e: Exposure)
    requires e in values && Active(values[e])
    ensures e in Run(cal, namespace, values, ops)
    ensures var now := Run(cal, namespace, values, ops)[e];
            || (values[e].terms == now.terms && Rank(values[e].status) <= Rank(now.status) <= 2)
            || (exists k :: 0 <= k < |ops| && e in Run(cal, namespace, values, ops[..k])
                  && var then_ := Run(cal, namespace, values, ops[..k])[e];
                     values[e].terms == then_.terms && then_.status == Closed)
    ensures Run(cal, namespace, values, ops)[e].status in {PendingFill, Open, Closed}
  {
    if ops != [] {
      var n := |ops| - 1;
      var prefix := ops[..n];
      ActiveMandateIsFrozen(cal, namespace, values, prefix, e);
      var before := Run(cal, namespace, values, prefix);
      StepMovesForward(cal, namespace, before, ops[n], e);
      if values[e].terms == before[e].terms && Rank(values[e].status) <= Rank(before[e].status) <= 2 {
        if before[e].status == Closed {
          assert ops[..n] == prefix;
        }
      } else {
        var k :| 0 <= k < |prefix| && e in Run(cal, namespace, values, prefix[..k])
                 && values[e].terms == Run(cal, namespace, values, prefix[..k])[e].terms
                 && Run(cal, namespace, values, prefix[..k])[e].status == Closed;
        assert prefix[..k] == ops[..k];
      }
    }
  }

  /** Registering the same request again, and reconciling the same orders again, change nothing. */
  lemma {:induction false} RepeatsChangeNothing(cal: Calendar, namespace: string, values: Mandates, req: Request,
                             orders: map<Id, OrderView>, now: int, later: int)
    ensures Register(cal, namespace, values, req).Ok? ==>
              var once := Register(cal, namespace, values, req).value;
              Register(cal, namespace, once.0, req) == Ok(once)
    ensures Reconciled(Reconciled(values, orders, now), orders, later) == Reconciled(values, orders, now)
  {
    var r := Register(cal, namespace, values, req);
    if r.Ok? {
      var once := r.value;
      assert once.0[req.exposure] == once.1;
    }
    forall e | e in values
      ensures ReconcileOne(ReconcileOne(values[e], orders, now), orders, later) == ReconcileOne(values[e], orders, now)
    {
    }
  }

  // ---- Exit decisions -------------------------------------------------------------------------

  /** What the caller expects the mandate to be about; absent expectations are not checked. */
  datatype Expected = Expected(exposure: Option<Exposure>, ticker: Option<string>, instrument: Option<Instrument>,
                               orderId: Option<Id>, strategy: Option<string>)

  predicate Agrees<T(==)>(wanted: Option<T>, actual: T) {
    wanted.None? || wanted.value == actual
  }

  /** `validate_position_mandate`: status, exposure key, expected identity and time semantics all fit. */
  predicate ValidMandate(cal: Calendar, m: Option<Mandate>, allowed: set<Status>, expected: Expected) {
    && m.Some?
    && m.value.status in allowed
    && var ticker := Upper(m.value.terms.ticker);
    && ticker != ""
    && (match m.value.terms.instrument
        case Equity => m.value.terms.exposure == EquityExposure(ticker)
        case Call => m.value.terms.exposure.OptionExposure? && m.value.terms.exposure.contract != ""
        case Put => m.value.terms.exposure.OptionExposure? && m.value.terms.exposure.contract != ""
        case OtherInstrument(_) => false)
    && Agrees(expected.exposure, m.value.terms.exposure)
    && (expected.ticker.Some? && expected.ticker.value != "" ==> Upper(expected.ticker.value) == ticker)
    && Agrees(expected.instrument, m.value.terms.instrument)
    && Agrees(expected.orderId, m.value.terms.orderId)
    && Agrees(expected.strategy, m.value.terms.strategy)
    && ValidatedTimes(cal, m.value.terms).Some?
  }

  const NOTHING_EXPECTED := Expected(None, None, None, None, None)

  /** Each expectation that is given narrows what is valid to mandates that agree with it; a ticker in any case. */
  lemma {:induction false} ExpectationsAreMet(cal: Calendar, m: Mandate, allowed: set<Status>, expected: Expected)
    ensures ValidMandate(cal, Some(m), allowed, expected)
            <==> && ValidMandate(cal, Some(m), allowed, NOTHING_EXPECTED)
                 && (expected.exposure.Some? ==> expected.exposure.value == m.terms.exposure)
                 && (expected.ticker.Some? && |expected.ticker.value| > 0 ==>
                       Upper(expected.ticker.value) == Upper(m.terms.ticker))
                 && (expected.instrument.Some? ==> expected.instrument.value == m.terms.instrument)
                 && (expected.orderId.Some? ==> expected.orderId.value == m.terms.orderId)
                 && (expected.strategy.Some? ==> expected.strategy.value == m.terms.strategy)
    ensures ValidMandate(cal, Some(m), allowed, NOTHING_EXPECTED) ==>
              && m.status in allowed && FitsTicker(m.terms.exposure, m.terms.ticker, m.terms.instrument)
              && ValidatedTimes(cal, m.terms).Some?
  {
    hide ValidatedTimes;
    assert |Upper(m.terms.ticker)| == |m.terms.ticker|;
  }

  datatype ExitReason = MissingMandate | InvalidMandate | ThesisInvalidated | PlannedExitReached | ThesisExpired

  datatype ExitDecision = Exit(reason: ExitReason) | Hold

  function EvaluateExit(cal: Calendar, m: Option<Mandate>, now: int, expected: Expected): ExitDecision {
    if m.None? then Exit(MissingMandate)
    else if !ValidMandate(cal, m, {Open}, expected) then Exit(InvalidMandate)
    else if m.value.invalidationTriggered then Exit(ThesisInvalidated)
    else if now >= m.value.terms.plannedExitAt then Exit(PlannedExitReached)
    else if now >= m.value.terms.thesisValidUntil then Exit(ThesisExpired)
    else Hold
  }

  function MandateAt(values: Mandates, e: Exposure): Option<Mandate> {
    if e in values then Some(values[e]) else None
  }

  /** For whatever is stored, an exit decision never reverts by the passing of time. */
  lemma {:induction false} ExitNeverRevertsInTime(cal: Calendar, m: Option<Mandate>, now: int, later: int,
                                                  expected: Expected)
    requires now <= later && EvaluateExit(cal, m, now, expected).Exit?
    ensures EvaluateExit(cal, m, later, expected).Exit?
  {
  }

  /** A reconciliation that finds the order of a pending, valid, not invalidated mandate filled before its planned
      exit. */
  predicate Fills(cal: Calendar, values: Mandates, op: Op, e: Exposure, later: int, expected: Expected) {
    && op.ReconcileOp? && e in values && values[e].status == PendingFill
    && values[e].terms.orderId in op.orders && op.orders[values[e].terms.orderId].status == Filled
    && ValidMandate(cal, Some(values[e]), {PendingFill}, expected)
    && !values[e].invalidationTriggered && later < values[e].terms.plannedExitAt
  }

  /** An operation that ends the holding of one exposure. */
  predicate Ends(op: Op, e: Exposure) {
    (op.InvalidateOp? && op.exposure == e) || (op.CloseOp? && op.exposure == e)
  }

  lemma {:induction false} StepHolds(cal: Calendar, namespace: string, values: Mandates, op: Op, e: Exposure,
                                     later: int, expected: Expected)
    ensures EvaluateExit(cal, MandateAt(Apply(cal, namespace, values, op), e), later, expected) == Hold
            <==> || Fills(cal, values, op, e, later, expected)
                 || (EvaluateExit(cal, MandateAt(values, e), later, expected) == Hold && !Ends(op, e))
  {
    hide ValidatedTimes, Upper;
    if e in values {
      ThesisCoversPlan(cal, values[e].terms);
    }
  }

  lemma {:induction false} ThesisCoversPlan(cal: Calendar, terms: Terms)
    ensures ValidatedTimes(cal, terms).Some? ==> terms.plannedExitAt <= terms.thesisValidUntil
  {
  }

  ghost predicate FilledAt(cal: Calendar, namespace: string, values: Mandates, ops: seq<Op>, e: Exposure, later: int,
                           expected: Expected, k: nat) {
    && k < |ops| && Fills(cal, Run(cal, namespace, values, ops[..k]), ops[k], e, later, expected)
    && forall j | k < j < |ops| :: !Ends(ops[j], e)
  }

  /** Exactly when an exit decision turns into a hold over a run of operations: some reconciliation found the order of
      a pending valid mandate filled before its planned exit, and nothing ended the holding afterwards. Registering
      again, invalidating, closing and reconciling an open mandate never do it. */
  lemma {:induction false} ExitRevertsOnlyByFilling(cal: Calendar, namespace: string, values: Mandates, ops: seq<Op>,
                                                    e: Exposure, now: int, later: int, expected: Expected)
    requires now <= later && EvaluateExit(cal, MandateAt(values, e), now, expected).Exit?
    ensures EvaluateExit(cal, MandateAt(Run(cal, namespace, values, ops), e), later, expected) == Hold
            <==> exists k :: FilledAt(cal, namespace, values, ops, e, later, expected, k)
  {
    hide EvaluateExit, Fills, Apply;
    ExitNeverRevertsInTime(cal, MandateAt(values, e), now, later, expected);
    if ops != [] {
      var n := |ops| - 1;
      var front := ops[..n];
      ExitRevertsOnlyByFilling(cal, namespace, values, front, e, now, later, expected);
      StepHolds(cal, namespace, Run(cal, namespace, values, front), ops[n], e, later, expected);
      forall k: nat
        ensures FilledAt(cal, namespace, values, ops, e, later, expected, k)
                <==> || (k == n && Fills(cal, Run(cal, namespace, values, front), ops[n], e, later, expected))
                     || (FilledAt(cal, namespace, values, front, e, later, expected, k) && !Ends(ops[n], e))
      {
        FilledInFront(cal, namespace, values, ops, e, later, expected, k);
      }
      hide FilledAt;
      var before := Run(cal, namespace, values, front);
      if Fills(cal, before, ops[n], e, later, expected) {
        assert FilledAt(cal, namespace, values, ops, e, later, expected, n);
      } else if EvaluateExit(cal, MandateAt(before, e), later, expected) == Hold {
        var k: nat :| FilledAt(cal, namespace, values, front, e, later, expected, k);
        assert FilledAt(cal, namespace, values, ops, e, later, expected, k) <==> !Ends(ops[n], e);
      }
    }
  }

  lemma {:induction false} FilledInFront(cal: Calendar, namespace: string, values: Mandates, ops: seq<Op>, e: Exposure,
                                         later: int, expected: Expected, k: nat)
    requires ops != []
    ensures var n := |ops| - 1;
            FilledAt(cal, namespace, values, ops, e, later, expected, k)
            <==> || (k == n && Fills(cal, Run(cal, namespace, values, ops[..n]), ops[n], e, later, expected))
                 || (FilledAt(cal, namespace, values, ops[..n], e, later, expected, k) && !Ends(ops[n], e))
  {
    hide Fills, Run, Ends;
    var n := |ops| - 1;
    assert k < n ==> ops[..n][..k] == ops[..k];
  }

  /** In particular an exit decision on an open mandate stands until that mandate has been closed, whatever happens. */
  lemma {:induction false} OpenExitStandsUntilClosed(cal: Calendar, namespace: string, values: Mandates, ops: seq<Op>,
                                                     e: Exposure, now: int, later: int, expected: Expected)
    requires now <= later && e in values && values[e].status == Open
    requires EvaluateExit(cal, Some(values[e]), now, expected).Exit?
    requires EvaluateExit(cal, MandateAt(Run(cal, namespace, values, ops), e), later, expected) == Hold
    ensures exists k :: 0 <= k < |ops| && e in Run(cal, namespace, values, ops[..k])
                        && Run(cal, namespace, values, ops[..k])[e].terms == values[e].terms
                        && Run(cal, namespace, values, ops[..k])[e].status == Closed
  {
    hide EvaluateExit, Apply;
    ExitRevertsOnlyByFilling(cal, namespace, values, ops, e, now, later, expected);
    var k: nat :| FilledAt(cal, namespace, values, ops, e, later, expected, k);
    ActiveMandateIsFrozen(cal, namespace, values, ops[..k], e);
    var pending := Run(cal, namespace, values, ops[..k]);
    assert pending[e].status == PendingFill;
    var j :| 0 <= j < k && e in Run(cal, namespace, values, ops[..k][..j])
             && Run(cal, namespace, values, ops[..k][..j])[e].terms == values[e].terms
             && Run(cal, namespace, values, ops[..k][..j])[e].status == Closed;
    assert ops[..k][..j] == ops[..j];
  }

  /** A valid mandate is held exactly until its planned exit: the thesis always covers the plan,
      so the thesis-expiry branch is never the first to fire. */
  lemma {:induction false} HeldUntilPlannedExit(cal: Calendar, m: Mandate, now: int, expected: Expected)
    requires ValidMandate(cal, Some(m), {Open}, expected)
    ensures EvaluateExit(cal, Some(m), now, expected) == Hold
            <==> !m.invalidationTriggered && now < m.terms.plannedExitAt
    ensures EvaluateExit(cal, Some(m), now, expected) != Exit(ThesisExpired)
  {
  }
}

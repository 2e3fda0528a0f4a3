/** The two separately written halves of a mandate's time semantics: the constructor that plans
    an exit time, and the validator that later re-reads a stored mandate. */
module MandateTimes {
  import opened Basics
  import opened TradingCalendar

  datatype Horizon = IntradayClose | NextClose | TwoToFiveDays | OtherHorizon(text: string)

  datatype Instrument = Equity | Call | Put | OtherInstrument(text: string)

  datatype Exposure = EquityExposure(ticker: string) | OptionExposure(contract: string) | OtherExposure(text: string)

  datatype Status = PendingFill | Open | Closed | OtherStatus(text: string)

  /** What identifies one registration; frozen for as long as the registration is kept. */
  datatype Terms = Terms(
    version: int,
    exposure: Exposure,
    orderId: Id,
    strategy: string,
    snapshotId: Id,
    ticker: string,
    instrument: Instrument,
    horizon: Horizon,
    holdingDays: Option<int>,
    createdAt: int,
    plannedExitAt: int,
    thesisValidUntil: int,
    invalidation: string,
    plannedStop: Option<real>)

  datatype Mandate = Mandate(
    terms: Terms,
    status: Status,
    enteredAt: Option<int>,
    invalidationTriggered: bool,
    closedAt: Option<int>,
    closeReason: Option<string>)

  datatype MandateError =
    | OutsideCalendar
    | HoldingMismatch
    | UnsupportedHorizon
    | NamespaceMismatch
    | InvalidSemantics
    | ActiveMandateExists

  /** How many sessions after the entry session each horizon may plan its exit. */
  predicate HorizonAllows(horizon: Horizon, distance: int) {
    match horizon
    case IntradayClose => distance == 0
    case NextClose => distance == 1
    case TwoToFiveDays => 2 <= distance <= 5
    case OtherHorizon(_) => false
  }

  /** The session in which the constructor plans the exit. */
  function TargetSession(cal: Calendar, enteredAt: int, horizon: Horizon, holdingDays: int): (r: Result<nat,
      MandateError>)
    ensures r.Ok? ==> r.value < |cal|
  {
    var session := SessionOnOrAfter(cal, DayOf(enteredAt));
    if session.None? then Err(OutsideCalendar)
    else if horizon.OtherHorizon? then Err(UnsupportedHorizon)
    else if !HorizonAllows(horizon, holdingDays) then Err(HoldingMismatch)
    else if session.value + holdingDays >= |cal| then Err(OutsideCalendar)
    else Ok(session.value + holdingDays)
  }

  /** The planned exit: a fixed number of minutes before the close of the target session. */
  function PlannedExit(cal: Calendar, enteredAt: int, horizon: Horizon, holdingDays: int, minutes: int): Result<int,
      MandateError> {
    match TargetSession(cal, enteredAt, horizon, holdingDays)
    case Err(e) => Err(e)
    case Ok(i) => Ok(cal[i].close - 60 * minutes)
  }

  /** The program steps from session to session; each step may leave the calendar. */
  method PlannedExitTime(cal: Calendar, enteredAt: int, horizon: Horizon, holdingDays: int, minutes: int)
    returns (r: Result<int, MandateError>)
    ensures var first := SessionOnOrAfter(cal, DayOf(enteredAt));
            var fits := || (horizon == IntradayClose && holdingDays == 0)
                        || (horizon == NextClose && holdingDays == 1)
                        || (horizon == TwoToFiveDays && holdingDays in {2, 3, 4, 5});
            && (r.Ok? <==> first.Some? && fits && first.value + holdingDays < |cal|)
            && (r.Ok? ==> r.value == cal[first.value + holdingDays].close - 60 * minutes)
            && (r == Err(HoldingMismatch) <==> first.Some? && !horizon.OtherHorizon? && !fits)
            && (r == Err(UnsupportedHorizon) <==> first.Some? && horizon.OtherHorizon?)
    ensures r == PlannedExit(cal, enteredAt, horizon, holdingDays, minutes)
  {
    var session := SessionOnOrAfter(cal, DayOf(enteredAt));
    if session.None? {
      return Err(OutsideCalendar);
    }
    var target := session.value;
    match horizon {
    case IntradayClose =>
      if holdingDays != 0 {
        return Err(HoldingMismatch);
      }
    case NextClose =>
      if holdingDays != 1 {
        return Err(HoldingMismatch);
      }
      if target + 1 >= |cal| {
        return Err(OutsideCalendar);
      }
      target := target + 1;
    case TwoToFiveDays =>
      if !(2 <= holdingDays <= 5) {
        return Err(HoldingMismatch);
      }
      var i := 0;
      while i < holdingDays
        invariant 0 <= i <= holdingDays
        invariant target == session.value + i < |cal|
      {
        if target + 1 >= |cal| {
          return Err(OutsideCalendar);
        }
        target := target + 1;
        i := i + 1;
      }
    case OtherHorizon(_) =>
      return Err(UnsupportedHorizon);
    }
    return Ok(cal[target].close - 60 * minutes);
  }

  /** An equity carries a positive stop; an option carries none; nothing else is tradable. */
  predicate StopMatches(instrument: Instrument, stop: Option<real>) {
    match instrument
    case Equity => stop.Some? && stop.value > 0.0
    case Call => stop.None?
    case Put => stop.None?
    case OtherInstrument(_) => false
  }

  /** The stored terms' (planned exit, thesis validity), or nothing if they are inconsistent. */
  function ValidatedTimes(cal: Calendar, m: Terms): (r: Option<(int, int)>)
    ensures r.Some? ==> r.value == (m.plannedExitAt, m.thesisValidUntil)
  {
    if m.version != 1 && m.version != 2 then None
    else if m.plannedExitAt <= m.createdAt || m.thesisValidUntil < m.plannedExitAt then None
    else if m.version == 2 && m.holdingDays.None? then None
    else if !StopMatches(m.instrument, m.plannedStop) then None
    else
      var created := SessionOnOrAfter(cal, DayOf(m.createdAt));
      var planned := SessionOn(cal, DayOf(m.plannedExitAt));
      if created.None? || planned.None? then None
      else if !(cal[planned.value].open <= m.plannedExitAt <= cal[planned.value].close) then None
      else if planned.value < created.value then None
      else
        var distance := planned.value - created.value;
        if !HorizonAllows(m.horizon, distance) then None
        else if m.holdingDays.Some? && m.holdingDays.value != distance then None
        else Some((m.plannedExitAt, m.thesisValidUntil))
  }

  /** Shares have a positive stop, options have none, and there is nothing else. */
  ghost predicate StopFits(instrument: Instrument, stop: Option<real>) {
    && instrument in {Equity, Call, Put}
    && (stop.Some? <==> instrument == Equity)
    && (stop.Some? ==> stop.value > 0.0)
  }

  /** A time inside a session lies on that session's date. */
  lemma {:induction false} DateInsideSession(cal: Calendar, i: nat, t: int)
    requires i < |cal|
    requires cal[i].open <= t <= cal[i].close
    ensures DayOf(t) == cal[i].day
    ensures SessionOn(cal, DayOf(t)) == Some(i)
  {
    assert DayOf(cal[i].open) <= DayOf(t) <= DayOf(cal[i].close);
    SessionOnUnique(cal, i);
  }

  /** What the constructor plans, the validator accepts: exactly when the plan still lies ahead of
      its creation, inside the thesis, with a fitting stop, and the cutoff stays inside the session. */
  lemma {:induction false} PlannedExitIsValidated(cal: Calendar, m: Terms, holding: int, minutes: int)
    requires m.version == 2 && m.holdingDays == Some(holding)
    requires PlannedExit(cal, m.createdAt, m.horizon, holding, minutes) == Ok(m.plannedExitAt)
    ensures var target := TargetSession(cal, m.createdAt, m.horizon, holding).value;
            ValidatedTimes(cal, m).Some? <==>
              && m.createdAt < m.plannedExitAt <= m.thesisValidUntil
              && StopFits(m.instrument, m.plannedStop)
              && 0 <= 60 * minutes <= cal[target].close - cal[target].open
  {
    var target := TargetSession(cal, m.createdAt, m.horizon, holding).value;
    if cal[target].open <= m.plannedExitAt <= cal[target].close {
      DateInsideSession(cal, target, m.plannedExitAt);
    }
  }

  /** With the cutoff inside the session, a thesis covering the plan and a fitting stop, the only
      plans the validator turns away are intraday entries at or after the cutoff. */
  lemma {:induction false} OnlyLateIntradayEntriesAreRejected(cal: Calendar, m: Terms, holding: int, minutes: int)
    requires m.version == 2 && m.holdingDays == Some(holding)
    requires PlannedExit(cal, m.createdAt, m.horizon, holding, minutes) == Ok(m.plannedExitAt)
    requires var target := TargetSession(cal, m.createdAt, m.horizon, holding).value;
             0 <= 60 * minutes <= cal[target].close - cal[target].open
    requires m.plannedExitAt <= m.thesisValidUntil && StopMatches(m.instrument, m.plannedStop)
    ensures ValidatedTimes(cal, m).None? <==> m.horizon == IntradayClose && m.plannedExitAt <= m.createdAt
    ensures m.plannedExitAt <= m.createdAt ==>
              DayOf(m.createdAt) == cal[TargetSession(cal, m.createdAt, m.horizon, holding).value].day
  {
    var session := SessionOnOrAfter(cal, DayOf(m.createdAt)).value;
    var target := TargetSession(cal, m.createdAt, m.horizon, holding).value;
    PlannedExitIsValidated(cal, m, holding, minutes);
    DateInsideSession(cal, target, m.plannedExitAt);
    assert cal[session].day <= cal[target].day;
    if holding > 0 {
      assert cal[session].day < cal[target].day;
    }
    if m.plannedExitAt <= m.createdAt {
      assert DayOf(m.plannedExitAt) <= DayOf(m.createdAt);
    }
  }

  /** Such an entry: made ten minutes before the close of its session when exits are planned fifteen minutes before. */
  lemma {:induction false} LateIntradayEntryIsRejected() returns (cal: Calendar, m: Terms, minutes: int)
    ensures m.version == 2 && m.holdingDays == Some(0) && m.horizon == IntradayClose
    ensures PlannedExit(cal, m.createdAt, m.horizon, 0, minutes) == Ok(m.plannedExitAt)
    ensures m.plannedExitAt <= m.thesisValidUntil && StopMatches(m.instrument, m.plannedStop)
    ensures ValidatedTimes(cal, m).None?
  {
    var today := Session(0, 50000, 75000);
    assert IsCalendar([today]);
    cal, minutes := [today], 15;
    m := Terms(2, EquityExposure("AAPL"), 1, "allocator", 7, "AAPL", Equity, IntradayClose, Some(0),
               74400, 74100, 75000, "", Some(97.0));
    SessionOnUnique(cal, 0);
  }

  /** Conversely a valid mandate plans its exit inside the session the constructor chooses for the
      same creation time, horizon and the stated holding count; version 2 always states one. */
  lemma {:induction false} ValidMandatePlansTargetSession(cal: Calendar, m: Terms) returns (holding: int, target: nat)
    requires ValidatedTimes(cal, m).Some?
    ensures TargetSession(cal, m.createdAt, m.horizon, holding) == Ok(target)
    ensures cal[target].open <= m.plannedExitAt <= cal[target].close
    ensures m.holdingDays == Some(holding) || (m.version == 1 && m.holdingDays.None?)
  {
    target := SessionOn(cal, DayOf(m.plannedExitAt)).value;
    holding := target - SessionOnOrAfter(cal, DayOf(m.createdAt)).value;
  }

  /** The constructor, given this holding count, chooses the session the planned exit lies in. */
  ghost predicate ExitsAfter(cal: Calendar, m: Terms, holding: int) {
    && TargetSession(cal, m.createdAt, m.horizon, holding).Ok?
    && var target := cal[TargetSession(cal, m.createdAt, m.horizon, holding).value];
       target.open <= m.plannedExitAt <= target.close
  }

  /** Exactly what the validator accepts: an exit after the creation and inside the thesis, a fitting stop, and for some
      holding count the session the constructor would have chosen; a count that is stated is that count, and only
      mandates of the first version may leave it out. */
  lemma {:induction false} ValidatedIff(cal: Calendar, m: Terms)
    ensures ValidatedTimes(cal, m).Some?
            <==> && m.version in {1, 2} && (m.holdingDays.None? ==> m.version == 1)
                 && m.createdAt < m.plannedExitAt <= m.thesisValidUntil
                 && StopFits(m.instrument, m.plannedStop)
                 && exists holding :: ExitsAfter(cal, m, holding)
                      && (m.holdingDays.Some? ==> m.holdingDays.value == holding)
  {
    hide ExitsAfter, ValidatedTimes;
    AcceptedIsSound(cal, m);
    if holding :| ExitsAfter(cal, m, holding) && (m.holdingDays.Some? ==> m.holdingDays.value == holding) {
      SoundIsAccepted(cal, m, holding);
    }
  }

  lemma {:induction false} AcceptedIsSound(cal: Calendar, m: Terms)
    ensures ValidatedTimes(cal, m).Some? ==>
              && m.version in {1, 2} && (m.holdingDays.None? ==> m.version == 1)
              && m.createdAt < m.plannedExitAt <= m.thesisValidUntil
              && StopFits(m.instrument, m.plannedStop)
              && exists holding :: ExitsAfter(cal, m, holding)
                   && (m.holdingDays.Some? ==> m.holdingDays.value == holding)
  {
    if ValidatedTimes(cal, m).Some? {
      var holding, target := ValidMandatePlansTargetSession(cal, m);
      assert ExitsAfter(cal, m, holding);
    }
  }

  lemma {:induction false} SoundIsAccepted(cal: Calendar, m: Terms, holding: int)
    requires ExitsAfter(cal, m, holding) && (m.holdingDays.Some? ==> m.holdingDays.value == holding)
    ensures && m.version in {1, 2} && (m.holdingDays.None? ==> m.version == 1)
            && m.createdAt < m.plannedExitAt <= m.thesisValidUntil && StopFits(m.instrument, m.plannedStop)
            ==> ValidatedTimes(cal, m).Some?
  {
    DateInsideSession(cal, TargetSession(cal, m.createdAt, m.horizon, holding).value, m.plannedExitAt);
  }

  /** ... and no other holding count would have led the constructor to that session. */
  lemma {:induction false} HoldingIsDetermined(cal: Calendar, enteredAt: int, horizon: Horizon, exitAt: int, h1: int,
      h2: int)
    requires TargetSession(cal, enteredAt, horizon, h1).Ok? && TargetSession(cal, enteredAt, horizon, h2).Ok?
    requires var t := TargetSession(cal, enteredAt, horizon, h1).value; cal[t].open <= exitAt <= cal[t].close
    requires var t := TargetSession(cal, enteredAt, horizon, h2).value; cal[t].open <= exitAt <= cal[t].close
    ensures h1 == h2
  {
    DateInsideSession(cal, TargetSession(cal, enteredAt, horizon, h1).value, exitAt);
    DateInsideSession(cal, TargetSession(cal, enteredAt, horizon, h2).value, exitAt);
  }
}

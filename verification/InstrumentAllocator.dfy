/** Sizing of one equity or option entry under the account's caps, its score, and the choice among
    candidates. Exact arithmetic: rounding and the 1e-12/1e-9 nudges before flooring are dropped. */
module InstrumentAllocator {
  import opened Basics

  datatype Account = Account(nav: real, cash: real, equity: real, options: real)

  datatype Costs = Costs(slippageBps: real, minimumSlippage: real)

  /** What prices an equity entry: the quote, the forecast move still ahead, and the configuration. */
  datatype EquityOffer = EquityOffer(bid: real, ask: real, last: real, movePct: real, costs: Costs,
                                     stopPct: real, increment: real, hurdle: real)

  /** An option contract with its repricing under the forecast, which is computed elsewhere. */
  datatype OptionOffer = OptionOffer(id: Id, entryAsk: real, multiplier: real, preferredSpread: bool, hurdle: real,
                                     hurdleMultiplier: real, scenarioReturn: real, scenarioPnl: real)

  datatype Offer = Equity(equity: EquityOffer) | OptionContract(contract: OptionOffer)

  datatype Metrics = Metrics(returnOnNav: real, riskPct: real, score: Option<real>)

  datatype Candidate = Candidate(isEquity: bool, id: Id, entryPrice: real, quantity: real, cost: real, risk: real,
                                 metrics: Metrics, eligible: bool)

  const SINGLE_EQUITY_SHARE := 0.25
  const EQUITY_SHARE := 0.5
  const TOTAL_SHARE := 0.6
  const STOP_RISK_SHARE := 0.01
  const SINGLE_OPTION_SHARE := 0.03
  const OPTIONS_SHARE := 0.08

  /** Share counts move in steps of the configured increment, which must be positive. */
  type ValidOffer = o: Offer | o.Equity? ==> o.equity.increment > 0.0
    witness Equity(EquityOffer(1.0, 1.0, 1.0, 0.0, Costs(0.0, 0.0), 0.0, 1.0, 0.0))

  function Slippage(price: real, costs: Costs): real {
    Max(price * costs.slippageBps / 10000.0, costs.minimumSlippage)
  }

  function Quotient(a: real, b: real): real
    requires b != 0.0
  {
    a / b
  }

  function Product(a: real, b: real): real {
    a * b
  }

  function FractionalFloor(value: real, increment: real): real
    requires increment > 0.0
  {
    Product(Quotient(value, increment).Floor as real, increment)
  }

  function RiskAdjusted(pnl: real, risk: real, nav: real): Metrics {
    var returnOnNav := if nav > 0.0 then Quotient(pnl, nav) else 0.0;
    var riskPct := if nav > 0.0 then Quotient(risk, nav) else 0.0;
    Metrics(returnOnNav, riskPct, if riskPct > 0.0 then Some(Quotient(returnOnNav, riskPct)) else None)
  }

  // ---- Equity ----------------------------------------------------------------------------------------------

  function EntryPrice(o: EquityOffer): real {
    o.ask + Slippage(o.ask, o.costs)
  }

  function ExitPrice(o: EquityOffer): real {
    var bid := Max(0.0, o.last * (1.0 + o.movePct / 100.0) - (o.ask - o.bid) / 2.0);
    Max(0.0, bid - Slippage(bid, o.costs))
  }

  function UnitStopRisk(o: EquityOffer): real {
    Max(0.0, EntryPrice(o) - EntryPrice(o) * (1.0 - o.stopPct))
  }

  function EquityCapacity(a: Account): real {
    Min(Min(a.cash, a.nav * SINGLE_EQUITY_SHARE),
        Min(Max(0.0, a.nav * EQUITY_SHARE - a.equity), Max(0.0, a.nav * TOTAL_SHARE - (a.equity + a.options))))
  }

  function ShareLimit(capacity: real, riskBudget: real, entry: real, unitRisk: real): real {
    if unitRisk > 0.0 && entry != 0.0 then Min(Quotient(capacity, entry), Quotient(riskBudget, unitRisk)) else 0.0
  }

  function EquityCandidate(o: EquityOffer, a: Account): Candidate
    requires o.increment > 0.0
  {
    var entry, exit, unitRisk := EntryPrice(o), ExitPrice(o), UnitStopRisk(o);
    var quantity :=
      FractionalFloor(ShareLimit(EquityCapacity(a), a.nav * STOP_RISK_SHARE, entry, unitRisk), o.increment);
    var risk := Product(quantity, unitRisk);
    Candidate(true, 0, entry, quantity, Product(quantity, entry), risk,
              RiskAdjusted(Product(exit - entry, quantity), risk, a.nav),
              quantity > 0.0 && entry > 0.0 && Quotient(exit, entry) - 1.0 >= o.hurdle)
  }

  /** An entry costs no less than the ask and either slippage on it, and no more than the larger of the two. */
  lemma {:induction false} EntryPriceIs(o: EquityOffer, x: real)
    ensures EntryPrice(o) <= x
            <==> o.ask + o.ask * o.costs.slippageBps / 10000.0 <= x && o.ask + o.costs.minimumSlippage <= x
  {
  }

  /** What the forecast leaves of the last price once half the spread is taken off. */
  ghost function ForecastBid(o: EquityOffer): real {
    o.last + o.last * o.movePct / 100.0 - (o.ask - o.bid) / 2.0
  }

  /** An exit brings a positive price exactly when the forecast bid does after either slippage. */
  lemma {:induction false} ExitPriceIs(o: EquityOffer, x: real)
    requires x > 0.0
    ensures ExitPrice(o) >= x
            <==> || (&& ForecastBid(o) > 0.0
                     && ForecastBid(o) - ForecastBid(o) * o.costs.slippageBps / 10000.0 >= x
                     && ForecastBid(o) - o.costs.minimumSlippage >= x)
    ensures ExitPrice(o) >= 0.0
  {
    assert o.last * (1.0 + o.movePct / 100.0) == o.last + o.last * o.movePct / 100.0;
  }

  /** What one share risks down to its stop: the stop's part of the entry price, if that is positive. */
  lemma {:induction false} StopRiskIs(o: EquityOffer)
    ensures UnitStopRisk(o) == Max(0.0, Product(o.stopPct, EntryPrice(o)))
  {
    hide EntryPrice;
    assert EntryPrice(o) - EntryPrice(o) * (1.0 - o.stopPct) == o.stopPct * EntryPrice(o);
  }

  /** The metrics are parts of a positive net asset value, and zero without one. */
  lemma {:induction false} MetricsAre(pnl: real, risk: real, nav: real)
    ensures var m := RiskAdjusted(pnl, risk, nav);
            && (nav > 0.0 ==> Product(m.returnOnNav, nav) == pnl && Product(m.riskPct, nav) == risk)
            && (nav <= 0.0 ==> m.returnOnNav == 0.0 == m.riskPct)
            && (m.score.Some? <==> m.riskPct > 0.0)
            && (m.score.Some? ==> Product(m.score.value, m.riskPct) == m.returnOnNav)
  {
  }

  /** A share bought and sold at an unmoved midpoint loses the spread and both slippages, no more and no less. */
  lemma {:induction false} UnmovedRoundTripLosesCosts(o: EquityOffer)
    requires o.movePct == 0.0 && o.last == (o.bid + o.ask) / 2.0
    requires 0.0 <= o.bid && Slippage(o.bid, o.costs) <= o.bid
    ensures EntryPrice(o) - ExitPrice(o) == (o.ask - o.bid) + Slippage(o.ask, o.costs) + Slippage(o.bid, o.costs)
  {
    hide Slippage;
    assert 1.0 + o.movePct / 100.0 == 1.0;
    assert o.last * (1.0 + o.movePct / 100.0) == o.last;
    assert Max(0.0, o.last * (1.0 + o.movePct / 100.0) - (o.ask - o.bid) / 2.0) == o.bid;
  }

  // ---- Options ---------------------------------------------------------------------------------------------

  function UnitRisk(o: OptionOffer): real {
    Product(o.entryAsk, o.multiplier)
  }

  function OptionCapacity(a: Account): real {
    Min(Min(a.cash, a.nav * SINGLE_OPTION_SHARE),
        Min(Max(0.0, a.nav * OPTIONS_SHARE - a.options), Max(0.0, a.nav * TOTAL_SHARE - (a.equity + a.options))))
  }

  function Contracts(capacity: real, unitRisk: real): int {
    if unitRisk > 0.0 then var whole := Quotient(capacity, unitRisk).Floor; if whole < 1 then whole else 1 else 0
  }

  function Hurdle(o: OptionOffer): real {
    if o.preferredSpread then o.hurdle else Product(o.hurdle, o.hurdleMultiplier)
  }

  function OptionCandidate(o: OptionOffer, a: Account): Candidate {
    var quantity := Contracts(OptionCapacity(a), UnitRisk(o)) as real;
    var risk := Product(UnitRisk(o), quantity);
    Candidate(false, o.id, o.entryAsk, quantity, risk, risk,
              RiskAdjusted(Product(o.scenarioPnl, quantity), risk, a.nav),
              quantity > 0.0 && o.scenarioReturn >= Hurdle(o))
  }

  function CandidateFor(o: ValidOffer, a: Account): Candidate {
    match o
    case Equity(e) => EquityCandidate(e, a)
    case OptionContract(c) => OptionCandidate(c, a)
  }

  // ---- Small algebra ---------------------------------------------------------------------------------------

  lemma {:induction false} QuotientBound(x: real, a: real, b: real)
    requires b > 0.0
    ensures x <= Quotient(a, b) <==> Product(x, b) <= a
  {
    var q := Quotient(a, b);
    assert q * b == a;
    if x <= q {
      assert (q - x) * b >= 0.0;
    } else {
      assert (x - q) * b > 0.0;
    }
  }

  lemma {:induction false} ProductOrder(x: real, y: real, c: real)
    requires c > 0.0
    ensures x <= y <==> Product(x, c) <= Product(y, c)
  {
    if x <= y {
      assert (y - x) * c >= 0.0;
    } else {
      assert (x - y) * c > 0.0;
    }
  }

  lemma {:induction false} ProductSign(x: real, c: real)
    requires c > 0.0
    ensures x > 0.0 <==> Product(x, c) > 0.0
  {
    ProductOrder(x, 0.0, c);
  }

  lemma {:induction false} FloorBound(j: int, x: real)
    ensures j <= x.Floor <==> j as real <= x
  {
  }

  /** The floor on the grid is the largest multiple of the increment not above the value. */
  lemma {:induction false} FloorIsLargestMultiple(value: real, increment: real, j: int)
    requires increment > 0.0
    ensures Product(j as real, increment) <= FractionalFloor(value, increment)
            <==> Product(j as real, increment) <= value
  {
    hide Product, Quotient;
    var whole := Quotient(value, increment).Floor;
    ProductOrder(j as real, whole as real, increment);
    FloorBound(j, Quotient(value, increment));
    QuotientBound(j as real, value, increment);
  }

  // ---- Sizing ----------------------------------------------------------------------------------------------

  /** A number of shares meeting every bound of the account. */
  ghost predicate FitsEquityBounds(shares: real, o: EquityOffer, a: Account) {
    var notional := Product(shares, EntryPrice(o));
    && notional <= a.cash
    && notional <= a.nav * 0.25
    && notional <= Max(0.0, a.nav * 0.5 - a.equity)
    && notional <= Max(0.0, a.nav * 0.6 - (a.equity + a.options))
    && Product(shares, UnitStopRisk(o)) <= a.nav * 0.01
  }

  ghost predicate IsMultiple(x: real, increment: real, k: int) {
    x == Product(k as real, increment)
  }

  /** The sized quantity is a whole number of increments, and among those it is the largest that meets every
      bound: a multiple fits exactly when it is not above it. */
  lemma {:induction false} EquityQuantityIsLargestFit(o: EquityOffer, a: Account, j: int)
    requires o.increment > 0.0 && EntryPrice(o) > 0.0 && UnitStopRisk(o) > 0.0
    ensures exists k :: IsMultiple(EquityCandidate(o, a).quantity, o.increment, k)
    ensures Product(j as real, o.increment) <= EquityCandidate(o, a).quantity
            <==> FitsEquityBounds(Product(j as real, o.increment), o, a)
  {
    hide Product, Quotient, EntryPrice, UnitStopRisk;
    var shares := Product(j as real, o.increment);
    var limit := ShareLimit(EquityCapacity(a), a.nav * STOP_RISK_SHARE, EntryPrice(o), UnitStopRisk(o));
    assert IsMultiple(EquityCandidate(o, a).quantity, o.increment, Quotient(limit, o.increment).Floor);
    FloorIsLargestMultiple(limit, o.increment, j);
    QuotientBound(shares, EquityCapacity(a), EntryPrice(o));
    QuotientBound(shares, a.nav * STOP_RISK_SHARE, UnitStopRisk(o));
  }

  /** What an accepted entry may cost and risk. */
  ghost predicate WithinCaps(c: Candidate, a: Account) {
    && c.cost <= a.cash
    && a.equity + a.options + c.cost <= a.nav * 0.6
    && (c.isEquity ==>
          && c.cost <= a.nav * 0.25
          && c.risk <= a.nav * 0.01
          && a.equity + c.cost <= a.nav * 0.5)
    && (!c.isEquity ==>
          && c.quantity == 1.0
          && c.cost <= a.nav * 0.03
          && a.options + c.cost <= a.nav * 0.08)
  }

  lemma {:induction false} EligibleEquityIsPriced(o: EquityOffer, a: Account)
    requires o.increment > 0.0 && EquityCandidate(o, a).eligible
    ensures EntryPrice(o) > 0.0 && UnitStopRisk(o) > 0.0
  {
    hide EntryPrice, UnitStopRisk, RiskAdjusted;
    assert EquityCandidate(o, a).entryPrice == EntryPrice(o);
    assert FractionalFloor(0.0, o.increment) == 0.0;
  }

  lemma {:induction false} EligibleEquityFits(o: EquityOffer, a: Account)
    requires o.increment > 0.0 && EquityCandidate(o, a).eligible
    ensures WithinCaps(EquityCandidate(o, a), a)
    ensures EquityCandidate(o, a).cost > 0.0 && EquityCandidate(o, a).risk > 0.0 && a.nav > 0.0
  {
    EligibleEquityIsPriced(o, a);
    hide Product, Quotient, EntryPrice, UnitStopRisk, RiskAdjusted, EquityCapacity;
    var c := EquityCandidate(o, a);
    EquityQuantityIsLargestFit(o, a, 0);
    var k :| IsMultiple(c.quantity, o.increment, k);
    EquityQuantityIsLargestFit(o, a, k);
    ProductSign(c.quantity, EntryPrice(o));
    ProductSign(c.quantity, UnitStopRisk(o));
  }

  /** Shares are offered exactly when entry and stop risk are positive, one increment of them fits every bound, and the
      exit clears the entry by the hurdle. */
  lemma {:induction false} EquityIsEligibleIff(o: EquityOffer, a: Account)
    requires o.increment > 0.0
    ensures EquityCandidate(o, a).eligible
            <==> && EntryPrice(o) > 0.0 && UnitStopRisk(o) > 0.0
                 && FitsEquityBounds(o.increment, o, a)
                 && ExitPrice(o) >= Product(1.0 + o.hurdle, EntryPrice(o))
  {
    hide Product, Quotient, EntryPrice, ExitPrice, UnitStopRisk, RiskAdjusted, EquityCapacity, FitsEquityBounds,
      FractionalFloor, ShareLimit;
    var c := EquityCandidate(o, a);
    if c.eligible {
      EligibleEquityIsPriced(o, a);
    }
    if EntryPrice(o) > 0.0 && UnitStopRisk(o) > 0.0 {
      OneIncrement(o.increment);
      EquityQuantityIsLargestFit(o, a, 1);
      var k :| IsMultiple(c.quantity, o.increment, k);
      PositiveMultiple(k, o.increment);
      ReturnClears(ExitPrice(o), EntryPrice(o), o.hurdle);
    }
  }

  lemma {:induction false} OneIncrement(increment: real)
    ensures Product(1 as real, increment) == increment
  {
  }

  lemma {:induction false} PositiveMultiple(k: int, increment: real)
    requires increment > 0.0
    ensures Product(k as real, increment) > 0.0 <==> Product(k as real, increment) >= increment
  {
    OneIncrement(increment);
    ProductSign(k as real, increment);
    ProductOrder(1.0, k as real, increment);
  }

  lemma {:induction false} ReturnClears(exit: real, entry: real, hurdle: real)
    requires entry > 0.0
    ensures Quotient(exit, entry) - 1.0 >= hurdle <==> exit >= Product(1.0 + hurdle, entry)
  {
    QuotientBound(1.0 + hurdle, exit, entry);
  }

  lemma {:induction false} EligibleOptionFits(o: OptionOffer, a: Account)
    requires OptionCandidate(o, a).eligible
    ensures WithinCaps(OptionCandidate(o, a), a)
    ensures OptionCandidate(o, a).cost > 0.0 && OptionCandidate(o, a).risk > 0.0 && a.nav > 0.0
  {
    hide Quotient, UnitRisk, RiskAdjusted;
    FloorBound(1, Quotient(OptionCapacity(a), UnitRisk(o)));
    QuotientBound(1.0, OptionCapacity(a), UnitRisk(o));
  }

  /** One contract is offered exactly when its premium is positive and fits every bound, and its repriced return
      clears the hurdle; never more than one. */
  lemma {:induction false} OptionIsEligibleIff(o: OptionOffer, a: Account)
    ensures OptionCandidate(o, a).eligible
            <==> && 0.0 < UnitRisk(o) <= a.cash
                 && UnitRisk(o) <= a.nav * 0.03
                 && UnitRisk(o) <= Max(0.0, a.nav * 0.08 - a.options)
                 && UnitRisk(o) <= Max(0.0, a.nav * 0.6 - (a.equity + a.options))
                 && (if o.preferredSpread then o.scenarioReturn >= o.hurdle
                     else o.scenarioReturn >= Product(o.hurdle, o.hurdleMultiplier))
    ensures OptionCandidate(o, a).quantity <= 1.0
  {
    hide Quotient, UnitRisk, RiskAdjusted;
    if UnitRisk(o) > 0.0 {
      FloorBound(1, Quotient(OptionCapacity(a), UnitRisk(o)));
      QuotientBound(1.0, OptionCapacity(a), UnitRisk(o));
    }
  }

  /** What an eligible candidate costs, risks and is expected to bring: its quantity times the entry price, the stop
      risk and the move from entry to exit of a share, or the premium and the repriced profit of one contract. */
  lemma {:induction false} CandidatesAddUp(o: ValidOffer, a: Account)
    requires CandidateFor(o, a).eligible
    ensures var c := CandidateFor(o, a);
            match o
            case Equity(e) =>
              && c.isEquity && c.entryPrice == EntryPrice(e) && c.cost == Product(c.quantity, EntryPrice(e))
              && c.risk == Product(c.quantity, UnitStopRisk(e)) == Product(c.metrics.riskPct, a.nav)
              && Product(c.metrics.returnOnNav, a.nav) == Product(ExitPrice(e) - EntryPrice(e), c.quantity)
            case OptionContract(k) =>
              && !c.isEquity && c.id == k.id && c.entryPrice == k.entryAsk && c.quantity == 1.0
              && c.cost == c.risk == Product(k.entryAsk, k.multiplier) == Product(c.metrics.riskPct, a.nav)
              && Product(c.metrics.returnOnNav, a.nav) == k.scenarioPnl
  {
    hide Product, Quotient, EntryPrice, UnitStopRisk, ExitPrice, RiskAdjusted, FractionalFloor, EquityCapacity,
      OptionCapacity, Contracts, ShareLimit, Hurdle, WithinCaps;
    OneContract(o, a);
    EligibleEntryFits(o, a);
    var c := CandidateFor(o, a);
    match o {
      case Equity(e) =>
        MetricsAre(Product(ExitPrice(e) - EntryPrice(e), c.quantity), c.risk, a.nav);
      case OptionContract(k) =>
        MetricsAre(Product(k.scenarioPnl, c.quantity), c.risk, a.nav);
        TimesOne(k.scenarioPnl);
        TimesOne(UnitRisk(k));
    }
  }

  lemma {:induction false} OneContract(o: ValidOffer, a: Account)
    requires CandidateFor(o, a).eligible
    ensures o.OptionContract? ==> CandidateFor(o, a).quantity == 1.0
  {
    hide CandidateFor;
    EligibleEntryFits(o, a);
    CandidateKind(o, a);
  }

  lemma {:induction false} CandidateKind(o: ValidOffer, a: Account)
    ensures CandidateFor(o, a).isEquity == o.Equity?
  {
  }

  lemma {:induction false} TimesOne(x: real)
    ensures Product(x, 1.0) == x
  {
  }

  lemma {:induction false} EligibleEntryFits(o: ValidOffer, a: Account)
    requires CandidateFor(o, a).eligible
    ensures WithinCaps(CandidateFor(o, a), a)
    ensures CandidateFor(o, a).cost > 0.0 && CandidateFor(o, a).risk > 0.0 && a.nav > 0.0
  {
    match o
    case Equity(e) => EligibleEquityFits(e, a);
    case OptionContract(c) => EligibleOptionFits(c, a);
  }

  // ---- A sequence of entries at one net asset value ----------------------------------------------------------

  /** The account after the entry is filled at the candidate's price. */
  function Accept(a: Account, c: Candidate): Account {
    if c.isEquity then a.(cash := a.cash - c.cost, equity := a.equity + c.cost)
    else a.(cash := a.cash - c.cost, options := a.options + c.cost)
  }

  function Enter(a: Account, offers: seq<ValidOffer>): Account {
    if offers == [] then a
    else
      var before := Enter(a, offers[..|offers| - 1]);
      var c := CandidateFor(offers[|offers| - 1], before);
      if c.eligible then Accept(before, c) else before
  }

  ghost predicate CapsHold(a: Account) {
    && a.cash >= 0.0
    && a.equity <= a.nav * 0.5
    && a.options <= a.nav * 0.08
    && a.equity + a.options <= a.nav * 0.6
  }

  /** However many entries are accepted at one net asset value, an account inside the caps stays inside; what is
      deployed and what is held in cash always adds up to the same. */
  lemma {:induction false} EntriesKeepCaps(a: Account, offers: seq<ValidOffer>)
    requires CapsHold(a)
    ensures CapsHold(Enter(a, offers))
    ensures var b := Enter(a, offers);
            b.nav == a.nav && b.cash + b.equity + b.options == a.cash + a.equity + a.options
  {
    if offers != [] {
      var before := Enter(a, offers[..|offers| - 1]);
      EntriesKeepCaps(a, offers[..|offers| - 1]);
      hide CandidateFor;
      if CandidateFor(offers[|offers| - 1], before).eligible {
        EligibleEntryFits(offers[|offers| - 1], before);
      }
    }
  }

  /** Every eligible offer in turn is entered: its cost leaves the cash for its kind of holding; others change
      nothing. */
  lemma {:induction false} EntriesArePaid(a: Account, front: seq<ValidOffer>, o: ValidOffer)
    ensures var before, after := Enter(a, front), Enter(a, front + [o]);
            var c := CandidateFor(o, before);
            var paid := if c.eligible then c.cost else 0.0;
            && before.cash - after.cash == paid
            && after.equity - before.equity == (if o.Equity? then paid else 0.0)
            && after.options - before.options == (if o.OptionContract? then paid else 0.0)
  {
    hide CandidateFor;
    assert (front + [o])[..|front|] == front;
    CandidateKind(o, Enter(a, front));
  }

  // ---- Scores ----------------------------------------------------------------------------------------------

  /** Scenario profit per dollar at risk of one unit of the instrument. */
  ghost function UnitScore(o: ValidOffer): real {
    match o
    case Equity(e) => if UnitStopRisk(e) == 0.0 then 0.0 else Quotient(ExitPrice(e) - EntryPrice(e), UnitStopRisk(e))
    case OptionContract(c) => if UnitRisk(c) == 0.0 then 0.0 else Quotient(c.scenarioPnl, UnitRisk(c))
  }

  lemma {:induction false} QuotientIs(x: real, a: real, b: real)
    requires b != 0.0 && Product(x, b) == a
    ensures Quotient(a, b) == x
  {
  }

  lemma {:induction false} NegativeProduct(x: real, c: real)
    requires c > 0.0
    ensures x <= 0.0 ==> x * c <= 0.0
    ensures x > 0.0 ==> x * c > 0.0
  {
  }

  lemma {:induction false} ScoreCancels(pnl: real, unit: real, quantity: real, nav: real)
    requires unit > 0.0 && quantity > 0.0 && nav > 0.0
    ensures RiskAdjusted(Product(pnl, quantity), Product(quantity, unit), nav).score == Some(Quotient(pnl, unit))
  {
    var risk := Product(quantity, unit);
    ProductSign(quantity, unit);
    var r, s := Quotient(Product(pnl, quantity), nav), Quotient(risk, nav);
    assert s * nav == risk && r * nav == pnl * quantity;
    NegativeProduct(s, nav);
    var u := Quotient(pnl, unit);
    assert u * unit == pnl;
    CancelNav(u, r, s, nav, quantity, unit, pnl);
    QuotientIs(u, r, s);
  }

  lemma {:induction false} CancelNav(u: real, r: real, s: real, nav: real, quantity: real, unit: real, pnl: real)
    requires nav > 0.0 && s * nav == quantity * unit && r * nav == pnl * quantity && u * unit == pnl
    ensures Product(u, s) == r
  {
    calc {
      (u * s) * nav;
      u * (s * nav);
      u * (quantity * unit);
      (u * unit) * quantity;
      r * nav;
    }
    NegativeProduct(r - u * s, nav);
    NegativeProduct(u * s - r, nav);
  }

  lemma {:induction false} ProductCommutes(x: real, y: real)
    ensures Product(x, y) == Product(y, x)
  {
  }

  /** An eligible candidate always has a score, and it is the profit per dollar at risk of one unit: the account's
      size, cash and holdings cancel out. */
  lemma {:induction false} ScoreIgnoresAccount(o: ValidOffer, a: Account)
    requires CandidateFor(o, a).eligible
    ensures CandidateFor(o, a).metrics.score == Some(UnitScore(o))
  {
    EligibleEntryFits(o, a);
    hide Product, Quotient, EntryPrice, UnitStopRisk, ExitPrice, RiskAdjusted, UnitRisk, FractionalFloor;
    hide EquityCapacity, OptionCapacity, Contracts, ShareLimit;
    var c := CandidateFor(o, a);
    match o {
      case Equity(e) =>
        EligibleEquityIsPriced(e, a);
        ScoreCancels(ExitPrice(e) - EntryPrice(e), UnitStopRisk(e), c.quantity, a.nav);
      case OptionContract(k) =>
        ProductCommutes(UnitRisk(k), c.quantity);
        ProductSign(UnitRisk(k), c.quantity);
        ScoreCancels(k.scenarioPnl, UnitRisk(k), c.quantity, a.nav);
    }
  }

  // ---- Selection -------------------------------------------------------------------------------------------

  /** The first field of the ranking key; only eligible candidates are ranked and those always have a score. */
  function Score(c: Candidate): real {
    match c.metrics.score
    case Some(s) => s
    case None => 0.0
  }

  /** Candidate d ranks strictly above c: score, then return on assets, then less risk, then equity first, then
      the larger contract identifier. */
  predicate RanksAbove(d: Candidate, c: Candidate) {
    if Score(d) != Score(c) then Score(d) > Score(c)
    else if d.metrics.returnOnNav != c.metrics.returnOnNav then d.metrics.returnOnNav > c.metrics.returnOnNav
    else if d.metrics.riskPct != c.metrics.riskPct then d.metrics.riskPct < c.metrics.riskPct
    else if d.isEquity != c.isEquity then d.isEquity
    else d.id > c.id
  }

  ghost predicate Selected(considered: seq<Candidate>, c: Candidate) {
    && c in considered && c.eligible
    && forall d | d in considered && d.eligible :: !RanksAbove(d, c)
  }

  ghost function Considered(offers: seq<ValidOffer>, a: Account): seq<Candidate> {
    seq(|offers|, i requires 0 <= i < |offers| => CandidateFor(offers[i], a))
  }

  /** No candidate beats c: by score, then by return on assets, then by less risk, then equity before options, then by
      the larger contract identifier, each only among equals so far. */
  ghost predicate Tops(c: Candidate, d: Candidate) {
    && Score(d) <= Score(c)
    && (Score(d) == Score(c) ==>
          && d.metrics.returnOnNav <= c.metrics.returnOnNav
          && (d.metrics.returnOnNav == c.metrics.returnOnNav ==>
                && d.metrics.riskPct >= c.metrics.riskPct
                && (d.metrics.riskPct == c.metrics.riskPct ==>
                      && (d.isEquity ==> c.isEquity)
                      && (d.isEquity == c.isEquity ==> d.id <= c.id))))
  }

  /** The tail of allocate_instrument: size every offer in turn, keep the eligible ones, take the best. */
  method SelectInstrument(offers: seq<ValidOffer>, a: Account) returns (considered: seq<Candidate>,
      best: Option<Candidate>)
    ensures considered == Considered(offers, a)
    ensures best.None? <==> forall c | c in considered :: !c.eligible
    ensures best.Some? ==> Selected(considered, best.value)
    ensures best.Some? ==> forall d | d in considered && d.eligible :: Tops(best.value, d)
  {
    hide CandidateFor;
    considered, best := [], None;
    for i := 0 to |offers|
      invariant considered == Considered(offers[..i], a)
      invariant best.None? <==> forall c | c in considered :: !c.eligible
      invariant best.Some? ==> Selected(considered, best.value)
    {
      var c := CandidateFor(offers[i], a);
      considered := considered + [c];
      if c.eligible && (best.None? || RanksAbove(c, best.value)) {
        best := Some(c);
      }
    }
    assert offers[..|offers|] == offers;
  }

  /** No two eligible candidates are the same instrument. */
  ghost predicate DistinctInstruments(considered: seq<Candidate>) {
    forall c, d | c in considered && d in considered && c.eligible && d.eligible && c.isEquity == d.isEquity
        && c.id == d.id ::
      c == d
  }

  /** The choice does not depend on the order the candidates were considered in, nor on ineligible ones. */
  lemma {:induction false} SelectionIgnoresOrder(cs: seq<Candidate>, ds: seq<Candidate>, c: Candidate, d: Candidate)
    requires DistinctInstruments(cs)
    requires forall x: Candidate | x.eligible :: x in cs <==> x in ds
    requires Selected(cs, c) && Selected(ds, d)
    ensures c == d
  {
    assert !RanksAbove(d, c) && !RanksAbove(c, d);
  }

  /** The offer at k is eligible and scores strictly above every other eligible offer. */
  ghost predicate UniquelyBest(offers: seq<ValidOffer>, a: Account, k: nat) {
    && k < |offers| && CandidateFor(offers[k], a).eligible
    && forall i | 0 <= i < |offers| && i != k && CandidateFor(offers[i], a).eligible ::
         UnitScore(offers[i]) < UnitScore(offers[k])
  }

  ghost predicate SameEligible(offers: seq<ValidOffer>, a: Account, b: Account) {
    forall i | 0 <= i < |offers| :: CandidateFor(offers[i], a).eligible == CandidateFor(offers[i], b).eligible
  }

  lemma {:induction false} UniquelyBestIsSelected(offers: seq<ValidOffer>, a: Account, k: nat, c: Candidate)
    requires UniquelyBest(offers, a, k)
    ensures Selected(Considered(offers, a), c) <==> c == CandidateFor(offers[k], a)
  {
    hide CandidateFor, UnitScore;
    var cs, best := Considered(offers, a), CandidateFor(offers[k], a);
    assert cs[k] == best;
    ScoreIgnoresAccount(offers[k], a);
    forall d | d in cs && d.eligible
      ensures d == best || RanksAbove(best, d)
    {
      var i :| 0 <= i < |cs| && cs[i] == d;
      ScoreIgnoresAccount(offers[i], a);
    }
  }

  /** The scale of the account does not change the choice: the one best-scored instrument is the one selected, under
      every account that makes the same offers eligible. */
  lemma {:induction false} BestScoredStaysSelected(offers: seq<ValidOffer>, a: Account, b: Account, k: nat)
    requires UniquelyBest(offers, a, k) && SameEligible(offers, a, b)
    ensures forall c :: Selected(Considered(offers, b), c) <==> c == CandidateFor(offers[k], b)
  {
    hide CandidateFor, UnitScore;
    assert UniquelyBest(offers, b, k);
    forall c
      ensures Selected(Considered(offers, b), c) <==> c == CandidateFor(offers[k], b)
    {
      UniquelyBestIsSelected(offers, b, k, c);
    }
  }
}

# Verification of the paper-trading core

This project models the deterministic core of a paper-trading system for US equities and options and proves
properties of the model. Nothing here places orders or reads market data; each module restates the logic of one
part of the program and relates it to an independent description of what that part is for.

* `AllocatorSleeve`, `EntryRecovery`: the allocator's durable state (orders, mandates, plans, allocations) and the
  stages that write it one durable write at a time. A stage may die after any write; every stage starts with
  recovery. No plan ever gets two entry orders, and two recovery passes settle every state.
* `TradingCalendar`, `MandateTimes`, `PositionMandates`: sessions as a strictly increasing sequence, planned exits,
  their validation, the store of mandates and the exit decision.
* `TradeFills`, `AverageCostLedger`, `FifoLedger`, `FifoClosedForm`, `LedgerAgreement`, `Drawdown`: two ledgers over
  the same fills, one by average cost and one by FIFO lots with a cost breakdown; both satisfy one conservation law,
  and the FIFO walk is a closed form of interval overlaps.
* `SignedReturnSignal`, `InstrumentAllocator`: the conservative move of a bucketed forecast, the sizing of an entry
  under the account's caps, scores and the final choice.
* `QuotaChoice`, `DeepResearch`, `TechnicalSelection`: greedy selections with reserved places, and their optimality.
* `CredentialEnvelope`: concurrent workers over one credential file with two locks, as interleaved steps.
* `ProcessLock`: the lock file behind such locks, with the breaking of a dead process's lock in separate steps.
* `EvidenceEvents`, `ResearchCooldown`: deduplication of news events, the incremental merge, and the research gate.
* `LogTail`: the backwards reader of a JSON-lines log against a full scan.
* `OutcomeLabeler`: observations waiting to be labelled.
* `Basics`: shared vocabulary.

Conventions. Arithmetic is exact: `real` for money and probabilities, `int` for times. Times are integer seconds;
a calendar maps them to dates. A loop of the program is a method proved against a specification function, and the
properties are lemmas about that function. Nondeterministic choices (`*`) stand for what the program learns from
outside: market answers, research results, process deaths. Every lemma switches automatic induction off, so each
inductive proof is written out. `hide` statements keep definitions folded where a proof does not need them.

Where the code keeps a promise only under a condition, the model follows the code, a lemma states the condition
exactly and another gives a case outside it:

* one recovery pass: `EntryRecovery.OnePassSettlesIff`, `EntryRecovery.SecondPassIsNeeded`;
* planned exits that validate: `MandateTimes.OnlyLateIntradayEntriesAreRejected`, `MandateTimes.LateIntradayEntryIsRejected`;
* mirrored forecasts: `SignedReturnSignal.MirrorNegatesUnlessTied`, `SignedReturnSignal.TiedForecastIsNotMirrored`;
* the largest drawdown: `Drawdown.PeakFallIsLargestIff`, `Drawdown.DebtAfterARiseIsMissed`;
* the last records of a log: `LogTail.TailIsExactIff`, `LogTail.EmptyLinesHideARecord`;
* exclusive locks between processes: `ProcessLock.ExclusiveIffNoTheft`, `ProcessLock.TwoBreakersSteal`,
  `ProcessLock.OneBreakerSteals`;
* spaced samples: `OutcomeLabeler.SpacedIffNeverForgets`, `OutcomeLabeler.ForgottenSampleBreaksSpacing`.

`dafny verify dfyconfig.toml` checks the whole project.

## Model

| member | source | states |
|---|---|---|
| AllocatorSleeve.Sleeve.Run | scripts/discovery/ai_instrument_allocator_pipeline.py:70-136 | over any sequence of stages, each killed after any number of durable writes, every plan has at most one entry order and no order or allocation link is ever forgotten or changed |
| AllocatorSleeve.Sleeve.RunStage | scripts/discovery/ai_instrument_allocator_pipeline.py:70-136 | one stage run keeps at most one entry order per plan however far it gets; monitoring, hence recovery, comes before any entry; a disabled strategy changes nothing; there is no new entry order outside the market window, without permission to enter, or in a stage that only researches, and execution creates no plan |
| AllocatorSleeve.Sleeve.MonitorOnly | scripts/discovery/ai_instrument_allocator_pipeline.py:138-219 | a monitor run that completes leaves no plan active that has an entry order and no entry order just created; in regular hours every submitted order has been answered, and no entry order can still be filled when the marked value is unavailable |
| AllocatorSleeve.Sleeve.RecoverAndReconcile | scripts/discovery/ai_instrument_allocator_pipeline.py:138-153 | the start of every stage: recovery, then reconciliation, retires every ordered plan, keeps every entry order that fits its mandate and has no rival, leaves no mandate pending on a decided order and touches no link |
| AllocatorSleeve.Sleeve.RetryAndExit | scripts/discovery/ai_instrument_allocator_pipeline.py:192-219 | when it completes, every retryable order has expired, rests, or is filled or rejected; retries and exits keep all links, keep at most one entry per plan, add no entry and leave ordered plans retired |
| AllocatorSleeve.Sleeve.ExitPosition | scripts/discovery/ai_instrument_allocator_pipeline.py:281-308 | an exit that completes adds exactly one order, no entry, that has been answered, and leaves no active mandate on its exposure once filled; the other orders, plans and allocations stay as they were and no claim about entries changes |
| AllocatorSleeve.Sleeve.RecoverEntryOrders | scripts/discovery/ai_instrument_allocator_pipeline.py:1525-1600 | the write-by-write recovery loop, working from what it read up front, computes exactly the specified pass when it completes: every plan follows its entry order and every mandate follows the orders it concerns; when it is cut short it has only cancelled, closed and retired |
| AllocatorSleeve.Sleeve.RecoverEntry | scripts/discovery/ai_instrument_allocator_pipeline.py:1528-1600 | one turn of that loop with its separate durable writes, each of which may be the last: an order is cancelled only once its plan is invalidated, a mandate closed only once the order is cancelled, and a turn that completes leaves the plan telling how the order stands |
| AllocatorSleeve.Sleeve.ExecutePlan | scripts/discovery/ai_instrument_allocator_pipeline.py:1360-1448 | allocation record, order, mandate, submission, reconciliation, plan status in that order, any of which may be the last write: a crash anywhere leaves at most one entry order per plan; a trade that completes leaves an answered order for the answered instrument, the plan status that says how it went and a mandate naming the order; without usable data nothing changes, without an instrument only the allocation is recorded |
| AllocatorSleeve.Sleeve.FinishEntry | scripts/discovery/ai_instrument_allocator_pipeline.py:1397-1448 | nothing after the creation of the entry order creates another one, and when all of it completes the order, its plan and its mandate fit together |
| AllocatorSleeve.Sleeve.PlaceEntry | scripts/discovery/ai_instrument_allocator_pipeline.py:1397-1436 | mandate, submission, reconciliation: when they complete the mandate of the exposure names the order, the order is answered, and no mandate is pending on a decided order |
| AllocatorSleeve.Sleeve.RecordAllocation | scripts/strategies/allocator_state.py:237-255 | the allocation that links a decision to its plan is durable before the order that refers to it exists |
| AllocatorSleeve.Sleeve.RegisterMandate | scripts/discovery/ai_instrument_allocator_pipeline.py:1468-1493 | registration either aborts the stage or writes exactly the registered mandate |
| AllocatorSleeve.Sleeve.CreateOrder | scripts/simulation/paper_broker.py:48-87 | an order is persisted in one write under a fresh identifier, even when an order for the same plan exists |
| AllocatorSleeve.Sleeve.CancelOrder | scripts/simulation/paper_broker.py:312-330 | cancelling makes a live order terminal and leaves a finished one alone |
| AllocatorSleeve.Sleeve.ProcessOpenOrders | scripts/simulation/paper_broker.py:268-310 | retrying touches open orders only and leaves each of them expired or answered; links never change |
| AllocatorSleeve.Sleeve.SubmitOrder | scripts/simulation/paper_broker.py:89-190 | a live order is persisted as submitted and then as resting, rejected or filled; a crash before the first write leaves it as it was, one before the second leaves it submitted; a finished order stays |
| AllocatorSleeve.Sleeve.ReconcileMandates | scripts/discovery/ai_instrument_allocator_pipeline.py:149-153 | reconciliation in the sleeve writes exactly the reconciled mandates, or nothing; when it completes no mandate is pending on a decided order |
| AllocatorSleeve.Sleeve.OpenExecutionStage | scripts/discovery/ai_instrument_allocator_pipeline.py:93-105 | every plan listed before the first execution still has no entry order when its own turn comes |
| AllocatorSleeve.Sleeve.ResearchStage | scripts/discovery/ai_instrument_allocator_pipeline.py:1134-1184 | research retires active plans as invalidated or superseded and saves new ones; only the intraday stage executes, and only plans it has just created |
| AllocatorSleeve.Sleeve.ActivePlans | scripts/strategies/allocator_state.py:123-137 | the executor's list holds active plans, each once |
| AllocatorSleeve.PassRetiresOrderedPlans | scripts/discovery/ai_instrument_allocator_pipeline.py:1525-1600 | a recovery pass over all entry orders leaves no plan active that an entry order was allocated from |
| AllocatorSleeve.NewEntryOrderKeepsClaims | scripts/discovery/ai_instrument_allocator_pipeline.py:1381-1396 | the decisive step: creating an entry order for a plan that has none keeps at most one entry per plan |
| AllocatorSleeve.NewAllocationKeepsClaims | scripts/discovery/ai_instrument_allocator_pipeline.py:1360 | an allocation whose order was never created claims nothing |
| AllocatorSleeve.SameLinksKeepClaims | scripts/discovery/ai_instrument_allocator_pipeline.py:1525-1600 | whatever leaves orders and allocations linked as they were keeps every claim about entries |
| EntryRecovery.TwoPassesSettle | scripts/discovery/ai_instrument_allocator_pipeline.py:1495-1601 | from any mix of orders, mandates and plans, two recovery passes, at any two times, in whatever order each visits and whether or not either cancels everything, reach a state with no created entry order, every retryable one backed by its own valid mandate, and no linked plan active |
| EntryRecovery.OnePassSettlesIff | scripts/discovery/ai_instrument_allocator_pipeline.py:1495-1601 | one pass settles if and only if it cancels everything live, or no fitting order that comes first on its exposure is followed by another live order there |
| EntryRecovery.SettledIsFixpoint | scripts/discovery/ai_instrument_allocator_pipeline.py:1495-1601 | another pass over a settled state changes nothing |
| EntryRecovery.SecondPassIsNeeded | scripts/discovery/ai_instrument_allocator_pipeline.py:1559-1564 | a concrete state on which one pass is not enough: cancelling one order closes the mandate of its whole exposure |
| EntryRecovery.PassLeavesOneLive | scripts/discovery/ai_instrument_allocator_pipeline.py:1528-1600 | after any pass no exposure has two live entry orders |
| EntryRecovery.PassAdvances | scripts/discovery/ai_instrument_allocator_pipeline.py:1528-1600 | a pass only cancels live orders, only closes mandates and only retires plans, and retires every order it visits |
| EntryRecovery.OrdersComeThroughIff | scripts/discovery/ai_instrument_allocator_pipeline.py:1528-1566 | the closed form of a pass: an order is cancelled if and only if it is live and is just created, does not fit the mandate of its exposure, comes after another live order there, or everything is cancelled |
| EntryRecovery.PlansFollowOrders | scripts/discovery/ai_instrument_allocator_pipeline.py:1529-1590 | the plan of every cancelled entry is invalidated, an active plan whose entry was not cancelled says executed, rejected, expired or cancelled as that entry stands, and every other plan is unchanged |
| EntryRecovery.MandatesFollowOrders | scripts/discovery/ai_instrument_allocator_pipeline.py:1559-1564 | exactly the mandates that sit on the exposure of a cancelled order or name one are closed, with time and reason; all others are unchanged |
| EntryRecovery.SurvivorsAreNamed | scripts/discovery/ai_instrument_allocator_pipeline.py:1537-1552 | an order that survives a pass fitted the mandate of its exposure, which names it |
| EntryRecovery.UnrivalledIsKept | scripts/discovery/ai_instrument_allocator_pipeline.py:1537-1552 | a fitting order and its mandate come through a pass that meets no other live order on the exposure |
| EntryRecovery.RivalsNeverFitAgain | scripts/discovery/ai_instrument_allocator_pipeline.py:1559-1564 | once a second live order on an exposure has been visited, no other order there fits for the rest of the pass |
| EntryRecovery.UndercutLeavesMisfit | scripts/discovery/ai_instrument_allocator_pipeline.py:1559-1564 | an undercut order survives the pass without a valid mandate |
| EntryRecovery.SurvivorStillFits | scripts/discovery/ai_instrument_allocator_pipeline.py:1537-1552 | a survivor that nobody undercut still has its valid mandate at the end of the pass |
| MandateTimes.PlannedExitTime | scripts/exit/position_mandates.py:109-136 | the program's stepping loop ends in the session that lies the holding count after the entry session, or fails exactly when the horizon forbids the count or the calendar ends |
| MandateTimes.PlannedExitIsValidated | scripts/exit/position_mandates.py:329-401 | what the exit-time constructor plans, the validator accepts if and only if it lies after creation, inside the thesis, the stop fits the instrument and the cutoff lies inside the session |
| MandateTimes.OnlyLateIntradayEntriesAreRejected | scripts/exit/position_mandates.py:109-136 | given the other conditions, the validator turns away exactly the intraday entries made at or after the cutoff |
| MandateTimes.LateIntradayEntryIsRejected | scripts/exit/position_mandates.py:109-136 | such an entry, ten minutes before the close with exits planned fifteen minutes before |
| MandateTimes.ValidMandatePlansTargetSession | scripts/exit/position_mandates.py:329-401 | conversely every valid mandate plans its exit inside the session the constructor would choose for the same entry time, horizon and holding count |
| MandateTimes.ValidatedIff | scripts/exit/position_mandates.py:329-401 | exactly what the validator accepts: an exit after creation and inside the thesis, a positive stop for shares and none for options, and the session the constructor would choose for the stated holding count, which only the first version may leave out |
| MandateTimes.HoldingIsDetermined | scripts/exit/position_mandates.py:109-136 | no two holding counts lead the constructor to the same session |
| MandateTimes.DateInsideSession | scripts/exit/position_mandates.py:370-379 | a time inside a session lies on that session's date and on no other's |
| PositionMandates.PositionMandateStore.RegisterOrder | scripts/exit/position_mandates.py:161-235 | refused exactly when the request is for another namespace or horizon, inconsistent, or the exposure is held active by different terms; then nothing changes. Otherwise the exposure holds an active mandate with the requested terms that passes the validator for its own order when the exposure key fits the ticker, a held one is kept as it is, and every other exposure is untouched |
| PositionMandates.PositionMandateStore.Reconcile | scripts/exit/position_mandates.py:237-272 | a pending mandate whose own order ended without a fill is closed with the reason, and any consistent request for its exposure is then accepted; one whose order is filled is open since the fill; every other mandate is unchanged; the changed ones are returned |
| PositionMandates.PositionMandateStore.MarkInvalidation | scripts/exit/position_mandates.py:277-294 | every later evaluation of a mandate that would have been valid sells because the thesis is invalidated; its terms and status and all other exposures are untouched |
| PositionMandates.PositionMandateStore.Close | scripts/exit/position_mandates.py:296-313 | whatever is expected and at whatever time, evaluating the exposure fails closed and no mandate is active there; its terms and all other exposures are untouched |
| PositionMandates.ExpectationsAreMet | scripts/exit/position_mandates.py:57-106 | validity for a caller is validity at large plus agreement with every expectation given, a ticker in any case |
| PositionMandates.ActiveMandateIsFrozen | scripts/exit/position_mandates.py:161-313 | over any sequence of operations an active registration keeps its order id, planned exit, thesis validity, stop and all other identity fields and only moves from pending to open to closed, until it has been closed |
| PositionMandates.StepMovesForward | scripts/exit/position_mandates.py:161-313 | one operation keeps a registration and moves it forward, or replaces one that is no longer active |
| PositionMandates.RepeatsChangeNothing | scripts/exit/position_mandates.py:202-272 | registering the same request again and reconciling the same orders again change nothing |
| PositionMandates.ExitNeverRevertsInTime | scripts/exit/position_mandates.py:26-54 | whatever is stored, or nothing, an exit decision never reverts by the passing of time |
| PositionMandates.ExitRevertsOnlyByFilling | scripts/exit/position_mandates.py:26-54 | over any run of operations an exit decision becomes a hold if and only if a reconciliation finds the order of a pending, valid, not invalidated mandate filled before its planned exit and no later operation closes or invalidates it |
| PositionMandates.OpenExitStandsUntilClosed | scripts/exit/position_mandates.py:26-54 | an exit decision on an open mandate stands over any run until that mandate has been closed |
| PositionMandates.HeldUntilPlannedExit | scripts/exit/position_mandates.py:26-54 | a valid mandate is held exactly until its planned exit unless invalidated; the thesis-expiry branch is never the first to fire |
| AverageCostLedger.ClosedTradePnls | scripts/evaluation/calculate_metrics.py:29-97 | the loop over the fills, holdings updated in place, returns for each sale that is not passed over its proceeds less its commission and its share of the cost held |
| AverageCostLedger.ProfitsAreProceedsLessShares | scripts/evaluation/calculate_metrics.py:29-97 | on every stream of fills with one multiplier per identity, priced or not, over-sold or not, every single profit and everything still held is what the cost-sharing account of the fills says |
| AverageCostLedger.AverageCostConserves | scripts/evaluation/calculate_metrics.py:29-97 | average-cost profit is the net cash flow plus the cost of what is still held, and the book tracks quantities bought and sold |
| FifoLedger.CostTrips | scripts/evaluation/calculate_metrics.py:138-227 | the outer loop with its table of lots computes the specified trips and lots |
| FifoLedger.MatchLots | scripts/evaluation/calculate_metrics.py:164-223 | the inner loop walks the lots in order, matches until the exit is used up and leaves the rest untouched |
| FifoLedger.OpenLots | scripts/evaluation/calculate_metrics.py:224-226 | exactly the used-up lots are dropped, in order |
| FifoLedger.TripAddsUp | scripts/evaluation/calculate_metrics.py:176-216 | gross less spread, slippage and commission is the executable net, without residual |
| FifoLedger.TripPartsAre | scripts/evaluation/calculate_metrics.py:183-215 | the spread of a trip is half of both quoted spreads, its slippage what was paid above the ask and given up below the bid, its gross the move between midpoints, its commission the matched part of both |
| FifoClosedForm.FifoIsClosedForm | scripts/evaluation/calculate_metrics.py:138-227 | without over-selling the quantity matched between an entry and an exit is the overlap of their cumulative-quantity intervals: the walk and the closed form give the same trips and the same remaining lots |
| FifoClosedForm.MatchIsOverlap | scripts/evaluation/calculate_metrics.py:164-223 | one exit against the remaining lots cuts out exactly the overlaps |
| FifoClosedForm.GreedyIsOverlap | scripts/evaluation/calculate_metrics.py:172-175 | the minimum of what is left on both sides is the overlap of the two intervals |
| LedgerAgreement.MatchedQuantity | scripts/evaluation/calculate_metrics.py:164-223 | the trips of an exit add up to the length of its interval |
| LedgerAgreement.MatchesTake | scripts/evaluation/calculate_metrics.py:164-223 | an exit takes from each entry exactly their overlap and nothing from any other fill |
| LedgerAgreement.EntriesGiveWhatWasSold | scripts/evaluation/calculate_metrics.py:138-227 | over the whole stream each entry has given up exactly the part of its interval that was sold |
| LedgerAgreement.MatchConserves | scripts/evaluation/calculate_metrics.py:164-223 | what the trips of one exit earn and what the lots still carry balances against the quantity moved |
| LedgerAgreement.FifoConserves | scripts/evaluation/calculate_metrics.py:138-227 | FIFO net is the net cash flow plus the prorated cost of the open lots, and matched and open lots together carry every commission paid |
| LedgerAgreement.LedgersDifferByHeldCost | scripts/evaluation/calculate_metrics.py:29-227 | on any priced stream without over-selling the two totals differ exactly by what the two books still carry |
| LedgerAgreement.LedgersAgreeWhenFlat | scripts/evaluation/calculate_metrics.py:29-227 | on a stream that ends flat both ledgers report the net cash flow, and the trips carry every commission; equities and options with a fixed multiplier alike |
| Drawdown.MaxDrawdownPct | scripts/evaluation/calculate_metrics.py:371-378 | for every sequence the running peak returns the largest fall from the peak of its moment; without negative equities that is the largest percentage fall over all pairs of moments, between 0 and 100 |
| Drawdown.PeakFallIsLargestIff | scripts/evaluation/calculate_metrics.py:371-378 | it is the largest fall over all pairs if and only if no negative equity comes after a positive one, or one that falls furthest from the lowest positive equity before it comes while all positive equities so far are equal: a condition on the equities alone |
| Drawdown.CoveredDebtsStartLevel | scripts/evaluation/calculate_metrics.py:371-378 | wherever the running peak finds the largest fall and there is a debt at all, some debt with the worst fall of all comes before any change among the positive equities |
| Drawdown.DebtFallsBeyondAll | scripts/evaluation/calculate_metrics.py:371-378 | a fall is more than 100 percent exactly when it ends in debt, so one debt outweighs every other fall |
| Drawdown.DebtAfterARiseIsMissed | scripts/evaluation/calculate_metrics.py:371-378 | an equity sequence on which it is not: a debt after a rise |
| Drawdown.LowerStartFallsFurther | scripts/evaluation/calculate_metrics.py:371-378 | to a negative equity a lower start falls further, so the peak is not the worst start there |
| Drawdown.HigherStartFallsFurther | scripts/evaluation/calculate_metrics.py:371-378 | measuring from the peak is enough: a higher start falls further to the same place |
| SignedReturnSignal.DeriveSummary | scripts/decision/signed_return_signal.py:114-154 | exactly the valid bucket sets are summarised, with the specified direction, masses and conservative move; the recorded scenarios are the positive parts of the greedy allocation of half the directional mass |
| SignedReturnSignal.LowerTail | scripts/decision/signed_return_signal.py:139-152 | the loop records exactly the positive parts of the greedy allocation, each with its signed move, and weighs exactly that allocation |
| SignedReturnSignal.LargestMass | scripts/decision/signed_return_signal.py:114-121 | the direction is the first with the largest mass: neutral exactly when no direction has more, bullish exactly when it has more than both |
| SignedReturnSignal.GreedyIsLowerTail | scripts/decision/signed_return_signal.py:138-152 | the greedy allocation draws exactly the asked mass, and no other way of drawing it from the three buckets has a smaller weighted move |
| SignedReturnSignal.ConservativeSizeIsLowerHalfMean | scripts/decision/signed_return_signal.py:136-154 | the conservative size is the mean move of the lower half of the mass: no way of drawing half the mass has a smaller mean and one has exactly this |
| SignedReturnSignal.RecordedAddsUp | scripts/decision/signed_return_signal.py:141-150 | the recorded scenarios account for all the mass drawn and for its whole signed move, each including something |
| SignedReturnSignal.ValidMassesAddUp | scripts/decision/signed_return_signal.py:49-58 | a forecast is accepted exactly when its buckets are probabilities and the three masses add up to one within a millionth |
| SignedReturnSignal.ConservativeSizeIsBelowTheMean | scripts/decision/signed_return_signal.py:153-154 | the conservative size lies between 0.5 and the full directional mean, and is at most 5 |
| SignedReturnSignal.OutwardShiftNeverLowersTheMove | scripts/decision/signed_return_signal.py:138-154 | the conservative size never falls when mass of the same direction moves to larger-move buckets |
| SignedReturnSignal.MirrorNegatesUnlessTied | scripts/decision/signed_return_signal.py:116-154 | mirroring the buckets negates the move if and only if bullish and bearish masses do not tie above neutral |
| SignedReturnSignal.TiedForecastIsNotMirrored | scripts/decision/signed_return_signal.py:116-154 | a forecast that ties above neutral: it and its mirror both move half a percent down |
| SignedReturnSignal.MoveFollowsDirection | scripts/decision/signed_return_signal.py:134-154 | the sign and size of the move tell the direction and the other way round |
| InstrumentAllocator.FloorIsLargestMultiple | scripts/decision/instrument_allocator.py:32-33 | the fractional floor is the largest multiple of the increment not above the value |
| InstrumentAllocator.UnmovedRoundTripLosesCosts | scripts/decision/instrument_allocator.py:62-69 | a share bought and sold at an unmoved midpoint loses the spread and both slippages, no more and no less |
| InstrumentAllocator.EntryPriceIs | scripts/decision/instrument_allocator.py:20-29 | a price is at or above the entry exactly when it covers the ask with the relative and with the least slippage |
| InstrumentAllocator.ExitPriceIs | scripts/decision/instrument_allocator.py:64-69 | a positive price is reached by the exit exactly when the forecast bid, half a spread below the moved last price, reaches it after either slippage |
| InstrumentAllocator.StopRiskIs | scripts/decision/instrument_allocator.py:82-83 | the risk of one share is the stop part of its entry price, if positive |
| InstrumentAllocator.MetricsAre | scripts/decision/instrument_allocator.py:36-52 | return and risk are parts of a positive net asset value, zero without one, and the score is their ratio wherever there is risk |
| InstrumentAllocator.EquityQuantityIsLargestFit | scripts/decision/instrument_allocator.py:71-90 | the sized quantity is a whole number of increments, and a multiple of the increment is within it if and only if it meets the cash, 25%, 50%, 60% and 1% stop-risk bounds |
| InstrumentAllocator.EquityIsEligibleIff | scripts/decision/instrument_allocator.py:71-117 | shares are eligible if and only if entry and stop risk are positive, one increment fits the cash, 25%, 50%, 60% and 1% bounds, and the exit clears the entry by the hurdle |
| InstrumentAllocator.OptionIsEligibleIff | scripts/decision/instrument_allocator.py:149-168 | one contract is eligible if and only if its premium is positive, fits the cash, 3%, 8% and 60% bounds and its return clears the hurdle; never more than one |
| InstrumentAllocator.EligibleEntryFits | scripts/decision/instrument_allocator.py:71-164 | an eligible entry of either kind stays within all caps and has positive cost and risk |
| InstrumentAllocator.CandidatesAddUp | scripts/decision/instrument_allocator.py:90-168 | an eligible candidate costs, risks and is expected to bring its quantity times the entry price, stop risk and move of one share, or the premium and repriced profit of one contract |
| InstrumentAllocator.EntriesKeepCaps | scripts/decision/instrument_allocator.py:71-164 | any sequence of accepted entries at one net asset value keeps equity at most 50%, options at most 8%, the total at most 60% and cash non-negative, and conserves cash plus deployed |
| InstrumentAllocator.EntriesArePaid | scripts/decision/instrument_allocator.py:71-164 | each eligible offer in turn moves exactly its cost from cash to its kind of holding |
| InstrumentAllocator.ScoreIgnoresAccount | scripts/decision/instrument_allocator.py:36-52 | an eligible candidate always has a score, and it is the scenario profit per unit of risk: account value, cash and holdings cancel out |
| InstrumentAllocator.SelectInstrument | scripts/decision/instrument_allocator.py:510-551 | the loop sizes every offer in turn and returns an eligible candidate that none beats by score, return on assets, less risk, equity before options or contract identifier, in this order; none exactly when nothing is eligible |
| InstrumentAllocator.SelectionIgnoresOrder | scripts/decision/instrument_allocator.py:537-551 | with distinct instruments the choice depends neither on the order of the candidates nor on ineligible ones |
| InstrumentAllocator.BestScoredStaysSelected | scripts/decision/instrument_allocator.py:537-551 | a uniquely best-scored instrument is the one selected under every account that makes the same offers eligible |
| QuotaChoice.ChooseIsBest | scripts/discovery/ai_gated_pipeline.py:798-833 | exchange argument: no choice that fills the places and meets the quota of each direction has a larger total than the greedy one |
| QuotaChoice.ChooseMeetsQuota | scripts/discovery/ai_gated_pipeline.py:798-833 | the greedy choice fills the places and meets every feasible quota |
| QuotaChoice.ExchangeForHead | scripts/discovery/ai_gated_pipeline.py:798-833 | a choice without the best entry can exchange one of its own for it, keep its quotas and lose nothing |
| QuotaChoice.ReserveThenFillChooses | scripts/discovery/ai_gated_pipeline.py:823-832 | reserving each direction first and filling the rest afterwards selects exactly the entry-by-entry greedy choice |
| QuotaChoice.FillPlaces | scripts/discovery/ai_gated_pipeline.py:819-832 | the closing loop with its set of seen tickers adds the first entries not taken, while places remain |
| DeepResearch.ValidatedRanking | scripts/discovery/ai_gated_pipeline.py:779-796 | the result holds exactly the entries that are the first of an allowed ticker, in any case, with enough score, one per ticker, best first, and those with equal scores keep their order |
| DeepResearch.AcceptedAreFirst | scripts/discovery/ai_gated_pipeline.py:779-794 | an entry is accepted exactly when it is the first acceptable one for its upper-cased ticker |
| DeepResearch.SelectDeepResearch | scripts/discovery/ai_gated_pipeline.py:798-833 | the two loops select as many entries as there are places for, with the reserved bearish ones as far as there are any, and no other choice that does has a larger total score |
| DeepResearch.ReserveBearish | scripts/discovery/ai_gated_pipeline.py:823-829 | the first loop takes the first bearish entries up to the reserve |
| DeepResearch.SelectionIsOptimal | scripts/discovery/ai_gated_pipeline.py:798-833 | the same for the specification of the two loops, for every limit and reserve, negative ones included |
| DeepResearch.DeepResearchCandidates | scripts/discovery/ai_gated_pipeline.py:370-372 | whatever the model returns, the candidates researched deeply are an optimal choice among the accepted entries |
| TechnicalSelection.SelectTechnicalCandidates | scripts/discovery/ai_gated_pipeline.py:643-701 | the selection is full, holds the priority candidates and serves the minimums as far as the places go, bullish first, with the largest total score of all choices that do; it meets both minimums exactly when the places suffice for them, and no choice meets them otherwise; it starts with the leading reported candidates as far as limit and places go |
| TechnicalSelection.AddPriority | scripts/discovery/ai_gated_pipeline.py:658-675 | the first loop takes the leading confirmed-earnings candidates up to the priority limit and the places |
| TechnicalSelection.AddDirection | scripts/discovery/ai_gated_pipeline.py:677-696 | the loop of one direction adds its best candidates not yet taken until the minimum is met or no place is left |
| TechnicalSelection.SelectionIsOptimal | scripts/discovery/ai_gated_pipeline.py:643-701 | the same for the specification of the loops, for all limits and minimums |
| TechnicalSelection.ServedIsFeasible | scripts/discovery/ai_gated_pipeline.py:677-696 | what is served can always be met, and it is all that the minimums ask beside the priority candidates exactly when the places suffice |
| TechnicalSelection.SelectionIsPick | scripts/discovery/ai_gated_pipeline.py:643-701 | whatever the places, the selection has no duplicates, starts with the priority candidates and is full |
| CredentialEnvelope.NoUpdateIsLost | scripts/broker/robinhood_mcp_audit.py:180-189 | in every interleaving the file is the committed updates replayed one after another, and the next write applies its operation to the current file |
| CredentialEnvelope.ReadersSeeLastCommit | scripts/broker/robinhood_mcp_audit.py:211-339 | in every run, until the next commit that writes the same part, whoever reads the file at any time sees what the last one left: the new token with its rotated or kept refresh token, valid for its seconds less the skew; no valid token after an expiry; the cooldown, client data, metadata or migrated expiry |
| CredentialEnvelope.WriteCommitsIff | scripts/broker/robinhood_mcp_audit.py:254-339 | a write commits unless it is an expiry that finds another token or no refresh token, or a migration that has been done |
| CredentialEnvelope.ForcedTokenWasUnusable | scripts/broker/robinhood_mcp_audit.py:670-703 | in every run a worker that has finished forcing a refresh has, since it took the refresh lock, left or found an envelope in which the rejected token is no longer usable |
| CredentialEnvelope.LockIsKeptUntilServed | scripts/broker/robinhood_mcp_audit.py:631-639 | in every run a worker keeps the refresh lock after its look exactly when the file does not serve it, and then refreshes or expires the very token it found |
| CredentialEnvelope.DropsOutOnlyIfServed | scripts/broker/robinhood_mcp_audit.py:615-630 | before that it asks for the lock unless it is served or there is no refresh token; a rejected token is looked up twice |
| CredentialEnvelope.WorkersFinish | scripts/broker/robinhood_mcp_audit.py:180-285 | in every run, whatever a worker is in the middle of, its own next step brings it closer to the end as soon as the lock it needs is free: nothing else is waited for, and a legacy envelope is migrated once |
| CredentialEnvelope.RefresherSawExpiredToken | scripts/broker/robinhood_mcp_audit.py:615-639 | at most one worker is inside the refresh lock, and one that goes on to refresh looked at the file after taking the lock and found no usable token |
| CredentialEnvelope.NoTimeoutStrandsTheRefreshLock | scripts/broker/robinhood_mcp_audit.py:615-639 | in every run a worker that waits for the refresh lock or looks again under it finds nothing to migrate, so it never waits for the envelope lock there and no timeout leaves the refresh lock behind |
| CredentialEnvelope.MigrationStaysDone | scripts/broker/robinhood_mcp_audit.py:211-252 | no committed operation brings back an envelope that needs migration |
| CredentialEnvelope.RunKeepsRefreshToken | scripts/broker/robinhood_mcp_audit.py:254-272 | in every run, once the file holds a refresh token it always does (section 6 of RFC 6749) |
| CredentialEnvelope.RefreshTokenSurvives | scripts/broker/robinhood_mcp_audit.py:254-272 | the same over any log of commits |
| CredentialEnvelope.MigrationAndExpiryAreGuarded | scripts/broker/robinhood_mcp_audit.py:211-285 | in every run the legacy migration never overwrites an expiry, and expiry by comparison hits exactly the token it names and changes nothing else |
| CredentialEnvelope.PartsStayUntilRewritten | scripts/broker/robinhood_mcp_audit.py:254-339 | a committed value stays until the next commit of an operation that writes the same part of the envelope |
| CredentialEnvelope.RunKeepsInv | scripts/broker/robinhood_mcp_audit.py:180-339 | every action keeps both locks exclusive, the file serial and every look under the refresh lock current |
| ProcessLock.ExclusiveIffNoTheft | scripts/runtime/process_lock.py:16-40 | in every run of any number of processes, dying anywhere, nobody can get in beside the owner at any moment if and only if no contender that found its process dead removes the file of a process that is inside |
| ProcessLock.OnlyTheftTakesTheFile | scripts/runtime/process_lock.py:16-40 | of all steps of all processes, that removal is the only one that parts an owner from its file |
| ProcessLock.UndisturbedBreakersKeepExclusive | scripts/runtime/process_lock.py:30-39 | the lock is exclusive in every run in which each breaker removes the file before anybody else has removed it since it read it |
| ProcessLock.OnlyStaleContendersSteal | scripts/runtime/process_lock.py:30-39 | in every run a contender that removes a living owner's file read it before somebody else removed the one it read |
| ProcessLock.TwoBreakersSteal | scripts/runtime/process_lock.py:30-39 | a run with two breakers of one dead process's lock that ends so |
| ProcessLock.OneBreakerSteals | scripts/runtime/process_lock.py:33-39 | a run with a single breaker that ends so: the owner releases and exits between the reading and the check for life, and a third process takes the lock |
| EvidenceEvents.NormalizeEvents | scripts/discovery/evidence_store.py:24-64 | the pass with three sets of seen keys computes the specified normalization |
| EvidenceEvents.KeptIsSubsequence | scripts/discovery/evidence_store.py:24-64 | what is kept is a subsequence of the feed, annotated |
| EvidenceEvents.KeptShareNoKeys | scripts/discovery/evidence_store.py:24-64 | no two kept entries share a URL, fingerprint or content digest |
| EvidenceEvents.DroppedShareAKey | scripts/discovery/evidence_store.py:24-64 | every well-formed entry that is dropped shares a key with an entry kept before it |
| EvidenceEvents.FingerprintsMeetIff | scripts/discovery/evidence_store.py:32-49 | two entries share a fingerprint exactly when they are about the same ticker and date and their headlines have the same words, whatever their case, punctuation and spacing |
| EvidenceEvents.NormalTextIsWords | scripts/discovery/evidence_store.py:385-387 | the normal text of a headline is its lower-case runs of letters and digits with single blanks between them |
| EvidenceEvents.ContentsMeetIff | scripts/discovery/evidence_store.py:39-45 | two entries share their content exactly when link, headline and highlights agree up to white space around the first two |
| EvidenceEvents.WellFormedIff | scripts/discovery/evidence_store.py:35-38 | an entry is considered exactly when it has a publication time and its headline is not blank |
| EvidenceEvents.NormalizeIsIdempotent | scripts/discovery/evidence_store.py:24-64 | normalizing twice is normalizing once |
| EvidenceEvents.RefreshEvidence | scripts/discovery/ai_instrument_allocator_pipeline.py:738-776 | a refresh returns nothing exactly when no entry is new, else the new entries followed by all prior ones: the merge drops and reorders nothing |
| EvidenceEvents.MergeKeepsAll | scripts/discovery/ai_instrument_allocator_pipeline.py:749-776 | entries whose pooled keys are unseen share no key with prior ones, so normalizing them together is the identity |
| EvidenceEvents.UnseenHolds | scripts/discovery/ai_instrument_allocator_pipeline.py:754-769 | an entry counts as new exactly when none of its keys is held by a prior entry |
| EvidenceEvents.NewIff | scripts/discovery/ai_instrument_allocator_pipeline.py:754-769 | that is, when link, fingerprint and content of the entry have nothing but empty texts in common with those of any prior entry, whichever is compared with which |
| ResearchCooldown.CooldownStore.StagedEligibility | scripts/discovery/evidence_store.py:143-256 | the gate as the program computes it from the stored state, legacy branch included; it only reads |
| ResearchCooldown.CooldownStore.MarkStaged | scripts/discovery/evidence_store.py:258-300 | marking records every fingerprint and the outcome with its time, and leaves other tickers alone |
| ResearchCooldown.GateOpensIff | scripts/discovery/evidence_store.py:143-256 | after any history of visits the gate is open exactly when some evidence was never covered by research, there was no research yet, or the cooldown of the last research is over; it lets the uncovered events through, or all if there are none |
| ResearchCooldown.LegacyGateOpensIff | scripts/discovery/evidence_store.py:218-245 | state without a recorded outcome keeps the gate closed exactly for the legacy hours after the latest research of any of the events |
| ResearchCooldown.RunRemembers | scripts/discovery/evidence_store.py:258-300 | what is stored is the history: exactly the events covered by research, and the outcome and time of the last |
| ResearchCooldown.MarkNeedsNewsOrTime | scripts/discovery/evidence_store.py:143-256 | a mark either researches a fingerprint never researched before or follows the last mark by its whole cooldown |
| ResearchCooldown.ResearchIsAmortised | scripts/discovery/evidence_store.py:143-300 | over any run from empty state, the marks beyond the number of distinct fingerprints each cost a whole cooldown out of the elapsed time |
| LogTail.ReadJsonl | scripts/dashboard/paper_dashboard.py:312-352 | the chunked backwards reader returns the specified tail, always a suffix of what a full scan returns |
| LogTail.ReadBack | scripts/dashboard/paper_dashboard.py:320-327 | the chunk loop ends, and joins exactly the bytes from where it stopped |
| LogTail.LastRecords | scripts/dashboard/paper_dashboard.py:335-351 | the reversed record loop, reversed again, returns the last records of the lines in file order |
| LogTail.RetainedAreWholeLines | scripts/dashboard/paper_dashboard.py:328-334 | the retained lines are the whole lines from the first line start behind the stop position on, and the lines before them are the rest of the file's lines |
| LogTail.EnoughLinesAreKept | scripts/dashboard/paper_dashboard.py:320-334 | stopping before the start of the file leaves at least `limit` whole lines; otherwise all are kept |
| LogTail.TailIsSuffix | scripts/dashboard/paper_dashboard.py:312-352 | whatever the file holds, the tail is a suffix of the full scan of at most `limit` records |
| LogTail.TailIsExactIff | scripts/dashboard/paper_dashboard.py:312-352 | the tail equals the last `limit` records of the full scan if and only if the whole lines in the chunks that are needed hold at least `limit` records or the lines before them hold none; the number of chunks is a condition on the file alone |
| LogTail.WalkReadsEnoughChunks | scripts/dashboard/paper_dashboard.py:320-327 | for every file there is exactly one number of chunks that reach its start or hold more than `limit` newlines while one fewer does neither, and the walk stops behind it |
| LogTail.TailIsExactOnCleanTail | scripts/dashboard/paper_dashboard.py:312-352 | it is exact whenever the last `limit` lines of the file all hold records |
| LogTail.EmptyLinesHideARecord | scripts/dashboard/paper_dashboard.py:320-334 | a file on which it is not, for any line that holds a record: that line followed by one chunk of empty lines |
| LogTail.LinesConcat | scripts/dashboard/paper_dashboard.py:332 | splitting into lines distributes over a cut behind a complete line break, LF, CR and CR LF alike |
| OutcomeLabeler.CandidateOutcomeLabeler.Register | scripts/evaluation/outcome_labeler.py:41-78 | registration stores an observation due a horizon later at the ask and the larger slippage, exactly unless there is no ask, the id is pending, the ticker and strategy were sampled within the interval, or the market is closed at the target |
| OutcomeLabeler.CandidateOutcomeLabeler.Resolve | scripts/evaluation/outcome_labeler.py:80-132 | one pass labels exactly the due observations quoted within the allowed delay, with that quote and its profitability, expires exactly those off hours or quoted too late, gives up exactly those without a quote for a week, and keeps the others, all in order |
| OutcomeLabeler.ProfitableIff | scripts/evaluation/outcome_labeler.py:109-118 | an exit is profitable exactly when the bid, after the relative and after the least slippage, brings more than the entry and two commissions |
| OutcomeLabeler.NothingLeavesEarly | scripts/evaluation/outcome_labeler.py:80-97 | in every run with non-decreasing times no observation leaves the pending list before its target, except after a week |
| OutcomeLabeler.RegistrationsAreSpaced | scripts/evaluation/outcome_labeler.py:41-63 | in every such run the registered observations of one ticker and strategy are at least the sampling interval apart, in any market that never lets a sample be forgotten |
| OutcomeLabeler.SpacedIffNeverForgets | scripts/evaluation/outcome_labeler.py:41-97 | for every configuration and every market calendar, all runs are spaced if and only if no two times closer than the interval, both with a target in regular hours, are a horizon or more than a week apart |
| OutcomeLabeler.ForgottenSampleBreaksSpacing | scripts/evaluation/outcome_labeler.py:89-97 | for any two such times a run that registers both observations |
| OutcomeLabeler.RememberingConfigurationsNeverForget | scripts/evaluation/outcome_labeler.py:33-37 | an interval no longer than the horizon and a week is enough in every market, and needed in one that never closes |
| OutcomeLabeler.RunConservesAndLabelsTimely | scripts/evaluation/outcome_labeler.py:80-132 | every registered observation is at every moment in exactly one place: pending, labelled, expired or given up; and every label uses a quote at or after the target and within the delay |

## Left out

- AllocatorSleeve.Sleeve.RunStage: one process runs stages at a time; its lock file is modelled on its own, in `ProcessLock`, and journals, reports and daily counters are not modelled.
- AllocatorSleeve.Sleeve.CreateOrder: the idempotency key is not modelled, because order creation in the program does not look it up; fills, prices and the write-ahead record of a fill are reduced to the order status the broker answers with.
- AllocatorSleeve.Sleeve.ReconcileMandates: orders carry no timestamps here, so a mandate opened inside the sleeve is entered at the current time; `PositionMandates` has the timestamps.
- AllocatorSleeve.Sleeve.ResearchWrite: research is reduced to the plan writes it makes; watches, prompts, model calls and validation of their answers are not modelled.
- AllocatorSleeve.Sleeve.ExitPosition: which position is sold and at what price is arbitrary; price exits, flattening and session cutoffs are not modelled.
- AllocatorSleeve.Sleeve.ActivePlans: the validity window and the order by creation time are arbitrary, because no claim about entries depends on either.
- EntryRecovery.TwoPassesSettle: claims nothing about mandates of other orders on the same exposure, because the program closes by exposure key.
- EntryRecovery.MandatesFollowOrders: the three texts a recovery gives as its reason are one here.
- MandateTimes.ValidatedTimes: times and fields are already parsed; a stored value that is missing or of the wrong type has no counterpart, and a date beyond the calendar is an error.
- PositionMandates.PositionMandateStore.Reconcile: the changed mandates are returned as a map, not as a list in storage order; the append-only journal is not modelled.
- AverageCostLedger.ClosedTradePnls: decimal rounding and the 1e-9 and 1e-12 tolerances are dropped, and the fills arrive in the order of their fill times; the win rates and labels built on the ledger are thin sums.
- FifoLedger.CostTrips: trips carry the positions of their two fills, which the program drops, so that the closed form can name them; the percentages derived from the sums are not modelled.
- SignedReturnSignal.DeriveSummary: the dominant bucket, the echoed scenario records and rounding are not modelled; the 1e-12 stop of the loop is exact zero.
- InstrumentAllocator.SelectInstrument: quote freshness, spread and forecast checks before the loop, break-even moves and counterfactual benchmarks are not modelled; option repricing is a parameter.
- InstrumentAllocator.EntriesKeepCaps: an accepted entry is filled at its candidate price and deployed value stays at cost; the broker's own risk gate is not part of this model.
- TechnicalSelection.SelectTechnicalCandidates: the sort of confirmed earnings by surprise is a parameter, and the reason attached to each selection is dropped; candidates are sorted by score with one entry per ticker, as the scan produces them.
- DeepResearch.ValidatedRanking: malformed scores and other fields of the ranking are not modelled.
- CredentialEnvelope.NoUpdateIsLost: archiving the file, unreadable files, encryption, HTTP and the two-attempt retry loop around a read-only call are not modelled; reads are atomic because the file is replaced, not rewritten.
- CredentialEnvelope.RunKeepsInv: breaking the lock of a dead process is one step here; in scripts/runtime/process_lock.py reading, the check for life and the removal are separate steps, and `ProcessLock` says exactly in which runs that makes no difference to exclusion.
- ProcessLock.ExclusiveIffNoTheft: process numbers are not reused, a process takes the lock through one object at a time, and removing an open file succeeds, as on POSIX systems; a file without a number stays for ever, as in the program, and timeouts, polling and refused permissions are a contender's giving up.
- CredentialEnvelope.RefresherSawExpiredToken: the refresh itself is one later update; whether the server accepts it is arbitrary.
- EvidenceEvents.NormalizeEvents: SHA-256 is taken as injective, so a digest is the text it digests; white space and case are ASCII; highlights are already joined.
- EvidenceEvents.RefreshEvidence: the snapshot written for the merged events is not modelled.
- ResearchCooldown.ResearchIsAmortised: covers marks that follow an eligible answer; the updates of existing plans mark without asking, and the older ticker and event cooldowns, the search window and the history of the last hundred outcomes are not modelled.
- LogTail.ReadJsonl: the file is one snapshot of bytes; decoding and parsing a line is a parameter, and a file that cannot be opened reads as no records.
- OutcomeLabeler.ProfitableIff: an entry price of zero has no return in the program; it needs a slippage that eats up the ask.
- OutcomeLabeler.CandidateOutcomeLabeler.Resolve: the adaptive weights and the journal are not modelled; the pending list keeps the order of registration.
- Market data, news and language-model adapters, the dashboard's pages, Black-Scholes pricing and log loss are outside the model: foreign calls, presentation or floating-point detail.

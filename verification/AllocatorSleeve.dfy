/** The allocator's durable state and the stages that write it, one durable write at a time.
    `writesLeft` is the number of durable writes the process still completes before it dies; every
    method reports whether the process is still running its stage. A crash, or an exception that
    aborts the stage, leaves exactly the writes completed so far. */
module AllocatorSleeve {
  import opened Basics
  import opened TradingCalendar
  import opened MandateTimes
  import opened PositionMandates
  import opened EntryRecovery

  datatype Stage = Overnight | PremarketUpdate | PreopenRevalidation | Intraday | OpenExecution

  /** What a stage learns about itself: whether the strategy and its entries are enabled, whether the stage is inside
      its market window, and for monitoring whether it is regular hours and the account's marked value is available. */
  datatype Setting = Setting(enabled: bool, entriesEnabled: bool, sessionAllowed: bool, regularHours: bool,
                             navAvailable: bool)

  /** What the allocator answers for a plan: no usable data, no instrument worth trading, or an instrument to enter. */
  datatype Answer = NoData | NoTrade | Trade(req: Request)

  /** No entry order was allocated from the plan. */
  ghost predicate Unordered(d: Durable, plan: Id) {
    forall id :: id in d.orders && d.orders[id].entry ==> LinkedPlan(d, id) != Some(plan)
  }

  /** Every plan with an entry order has been retired. */
  ghost predicate OrderedPlansRetired(d: Durable) {
    forall id :: id in d.orders && d.orders[id].entry && LinkedPlan(d, id).Some?
      ==> LinkedPlan(d, id).value !in d.plans || d.plans[LinkedPlan(d, id).value] != PlanActive
  }

  /** No entry order is left as it was created, before its mandate and submission. */
  ghost predicate NoEntryCreated(d: Durable) {
    forall id :: id in d.orders && d.orders[id].entry ==> d.orders[id].status != Created
  }

  /** No entry order can still be filled. */
  ghost predicate NoEntryLive(d: Durable) {
    forall id :: id in d.orders && d.orders[id].entry ==> !Live(d.orders[id].status)
  }

  /** No mandate is pending whose order has been filled or has ended. */
  ghost predicate NonePendingDecided(d: Durable) {
    forall e :: e in d.mandates && d.mandates[e].status == PendingFill && d.mandates[e].terms.orderId in d.orders ==>
      d.orders[d.mandates[e].terms.orderId].status !in {Filled, Cancelled, Expired, Rejected}
  }

  /** One order was added, no entry; it has been answered, and once it is filled its exposure has no active mandate. */
  ghost predicate Exited(d: Durable, p: Durable, id: Id) {
    && id !in d.orders && p.orders.Keys == d.orders.Keys + {id} && !p.orders[id].entry
    && p.orders[id].status in {Resting, Rejected, Filled}
    && (p.orders[id].status == Filled && p.orders[id].exposure in p.mandates ==>
          !Active(p.mandates[p.orders[id].exposure]))
  }

  /** Every order that was submitted has been answered and did not stay filled in part. */
  ghost predicate AllAnswered(d: Durable) {
    forall id :: id in d.orders ==> d.orders[id].status != Submitted && d.orders[id].status != PartiallyFilled
  }

  /** A retryable entry order that fits the mandate of its exposure, with no other live entry order there. */
  ghost predicate Unrivalled(cal: Calendar, d: Durable, id: Id) {
    && id in d.orders && d.orders[id].entry && Retryable(d.orders[id].status)
    && MandateFits(cal, d.mandates, id, d.orders[id])
    && forall x | x in d.orders && x != id && d.orders[x].entry && Live(d.orders[x].status) ::
         d.orders[x].exposure != d.orders[id].exposure
  }

  /** No entry order that was not there before. */
  ghost predicate NoNewEntries(d: Durable, p: Durable) {
    forall id :: id in p.orders && p.orders[id].entry ==> id in d.orders
  }

  /** No order went back to being just created, or live. */
  ghost predicate NoneRecreated(d: Durable, p: Durable) {
    && (forall id :: id in p.orders && p.orders[id].entry && p.orders[id].status == Created
          ==> id in d.orders && d.orders[id].entry && d.orders[id].status == Created)
    && (forall id :: id in p.orders && p.orders[id].entry && Live(p.orders[id].status)
          ==> id in d.orders && d.orders[id].entry && Live(d.orders[id].status))
  }

  /** What a completed entry leaves behind: an answered order of the plan, a plan that says how it went, and a
      mandate on the exposure that names the order. */
  ghost predicate Entered(d: Durable, plan: Id, id: Id) {
    && id in d.orders && d.orders[id].entry && LinkedPlan(d, id) == Some(plan)
    && (d.orders[id].status == Resting || d.orders[id].status == Filled || d.orders[id].status == Rejected)
    && plan in d.plans && d.plans[plan] == (if d.orders[id].status == Rejected then PlanRejected else PlanExecuted)
    && d.orders[id].exposure in d.mandates && d.mandates[d.orders[id].exposure].terms.orderId == id
  }

  /** Nothing but the status of retryable orders has changed, and none of them went back to being just created. */
  ghost predicate OnlyRetried(d: Durable, p: Durable) {
    && p.orders.Keys == d.orders.Keys && p.allocations == d.allocations && p.plans == d.plans
    && p.mandates == d.mandates
    && forall id :: id in d.orders ==>
         || p.orders[id] == d.orders[id]
         || (Retryable(d.orders[id].status) && p.orders[id].status != Created
             && p.orders[id] == d.orders[id].(status := p.orders[id].status))
  }

  /** An entry on its way to be given up: each write is done only after the ones before it. */
  ghost predicate Abandoning(d: Durable, p: Durable, id: Id, now: int)
    requires id in d.orders
  {
    var plan, order := LinkedPlan(d, id), d.orders[id];
    var closed := CloseFor(d.mandates, order.exposure, id, now);
    && p.allocations == d.allocations
    && p.plans in {d.plans, WithPlan(d.plans, plan, PlanInvalidated)}
    && p.orders in {d.orders, d.orders[id := order.(status := Cancelled)]}
    && p.mandates.Keys == d.mandates.Keys == closed.Keys
    && (forall k | k in d.mandates :: p.mandates[k] in {d.mandates[k], closed[k]})
    && (p.orders != d.orders ==> p.plans == WithPlan(d.plans, plan, PlanInvalidated))
    && (p.mandates != d.mandates ==> p.orders == d.orders[id := order.(status := Cancelled)])
  }

  lemma {:induction false} NothingClosedYet(mandates: Mandates, e: Exposure, id: Id, now: int)
    ensures CloseFor(mandates, e, id, now).Keys == mandates.Keys
  {
  }

  lemma {:induction false} AbandoningAdvances(d: Durable, p: Durable, id: Id, now: int)
    requires id in d.orders && Live(d.orders[id].status) && Abandoning(d, p, id, now)
    ensures Advances(d, p)
    ensures forall other :: other in d.orders && other != id ==> p.orders[other] == d.orders[other]
    ensures Changed(d, p, id) && LinkedPlan(d, id).Some? && LinkedPlan(d, id).value in d.plans ==>
              p.plans[LinkedPlan(d, id).value] == PlanInvalidated
    ensures p.mandates != d.mandates ==> p.orders[id].status == Cancelled
  {
  }

  lemma {:induction false} RetiringAdvances(d: Durable, p: Durable, plan: Id)
    requires plan in d.plans && d.plans[plan] == PlanActive
    requires plan in p.plans && p == d.(plans := d.plans[plan := p.plans[plan]])
    ensures Advances(d, p)
  {
  }

  /** The same orders allocated from the same plans; statuses, mandates and plans may differ. */
  ghost predicate SameLinks(d: Durable, p: Durable) {
    && p.allocations == d.allocations && p.orders.Keys == d.orders.Keys
    && forall id :: id in d.orders
        ==> p.orders[id].entry == d.orders[id].entry && p.orders[id].decision == d.orders[id].decision
  }

  /** Orders and allocations are never forgotten or relinked. */
  ghost predicate LinksGrow(d: Durable, p: Durable) {
    && (forall a :: a in d.allocations ==> a in p.allocations && p.allocations[a] == d.allocations[a])
    && (forall id :: id in d.orders ==>
          id in p.orders && p.orders[id].entry == d.orders[id].entry && p.orders[id].decision == d.orders[id].decision)
  }

  /** Plans are only ever retired, never revived. */
  ghost predicate PlansRetire(d: Durable, p: Durable) {
    forall q :: q in p.plans && p.plans[q] == PlanActive ==> q in d.plans && d.plans[q] == PlanActive
  }

  /** Identifiers are drawn fresh: everything stored was drawn before `next`. */
  ghost predicate DrawnBefore(d: Durable, next: Id) {
    && (forall id :: id in d.orders ==> id < next && d.orders[id].decision < next)
    && (forall a :: a in d.allocations ==> a < next && d.allocations[a] < next)
    && (forall q :: q in d.plans ==> q < next)
  }

  lemma {:induction false} SameLinksKeepClaims(d: Durable, p: Durable)
    requires SameLinks(d, p)
    ensures AtMostOneEntry(d) ==> AtMostOneEntry(p)
    ensures forall q :: Unordered(d, q) ==> Unordered(p, q)
    ensures OrderedPlansRetired(d) && PlansRetire(d, p) ==> OrderedPlansRetired(p)
  {
    assert forall id :: id in p.orders ==> LinkedPlan(p, id) == LinkedPlan(d, id);
  }

  class Sleeve {
    const cal: Calendar
    var orders: map<Id, Order>
    var mandates: Mandates
    var plans: map<Id, PlanStatus>
    var allocations: map<Id, Id>
    var writesLeft: nat
    var nextId: Id

    constructor (cal: Calendar)
      ensures Valid() && this.cal == cal
      ensures State() == Durable(map[], map[], map[], map[])
    {
      this.cal := cal;
      orders, mandates, plans, allocations := map[], map[], map[], map[];
      writesLeft, nextId := 0, 0;
    }

    ghost function State(): Durable
      reads this
    {
      Durable(orders, mandates, plans, allocations)
    }

    ghost predicate Valid()
      reads this
    {
      DrawnBefore(State(), nextId)
    }

    // ---- Single durable writes ------------------------------------------------------------------

    method Write() returns (alive: bool)
      modifies this`writesLeft
      ensures alive == (old(writesLeft) > 0)
      ensures writesLeft == if alive then old(writesLeft) - 1 else 0
    {
      alive := writesLeft > 0;
      if alive {
        writesLeft := writesLeft - 1;
      }
    }

    method SetPlanStatus(plan: Id, status: PlanStatus) returns (alive: bool)
      modifies this`plans, this`writesLeft
      ensures plans == if alive then WithPlan(old(plans), Some(plan), status) else old(plans)
      ensures !alive ==> writesLeft == 0
    {
      if plan !in plans {
        return true;
      }
      alive := Write();
      if alive {
        plans := plans[plan := status];
      }
    }

    method CancelOrder(id: Id) returns (alive: bool)
      requires id in orders
      modifies this`orders, this`writesLeft
      ensures orders == if alive
              && Live(old(orders)[id].status) then old(orders)[id := old(orders)[id].(status := Cancelled)]
                        else old(orders)
      ensures !alive ==> writesLeft == 0
    {
      if !Live(orders[id].status) {
        return true;
      }
      alive := Write();
      if alive {
        orders := orders[id := orders[id].(status := Cancelled)];
      }
    }

    /** Closes, one write each, the mandate of an exposure and every mandate naming an order. */
    method CloseMandates(e: Exposure, id: Id, now: int) returns (alive: bool)
      modifies this`mandates, this`writesLeft
      ensures alive ==> mandates == CloseFor(old(mandates), e, id, now)
      ensures mandates.Keys == old(mandates).Keys
      ensures forall k :: k in mandates ==>
                mandates[k] == old(mandates)[k] || mandates[k] == CloseFor(old(mandates), e, id, now)[k]
      ensures !alive ==> writesLeft == 0
    {
      ghost var before := mandates;
      ghost var closed := CloseFor(mandates, e, id, now);
      var todo := mandates.Keys;
      while todo != {}
        invariant todo <= mandates.Keys == before.Keys == closed.Keys
        invariant forall k :: k in before ==> mandates[k] == if k in todo then before[k] else closed[k]
      {
        var k :| k in todo;
        if k == e || mandates[k].terms.orderId == id {
          alive := Write();
          if !alive {
            return;
          }
          mandates := mandates[k := ClosedMandate(mandates[k], RECOVERY_REASON, now)];
        }
        todo := todo - {k};
      }
      alive := true;
    }

    // ---- Recovery -------------------------------------------------------------------------------

    /** The entry orders, in some order, each once. */
    method EntryOrders() returns (entries: seq<Id>)
      ensures Complete(State(), entries)
    {
      entries := [];
      var todo := orders.Keys;
      while todo != {}
        invariant todo <= orders.Keys
        invariant Listing(State(), entries)
        invariant forall id :: id in orders && id !in todo && orders[id].entry ==> id in entries
        invariant forall id :: id in entries ==> id !in todo
      {
        var id :| id in todo;
        if orders[id].entry {
          entries := entries + [id];
        }
        todo := todo - {id};
      }
    }

    /** One turn of the recovery loop, working from the order and link as they were read before the loop. However far
        it gets, an order is cancelled only once its plan is invalidated, and a mandate closed only once the order is
        cancelled. */
    method RecoverEntry(ctx: Context, id: Id, order: Order, plan: Option<Id>) returns (alive: bool)
      requires ctx.cal == cal && id in orders && orders[id] == order && order.entry && plan == LinkedPlan(State(), id)
      modifies this`orders, this`mandates, this`plans, this`writesLeft
      ensures Advances(old(State()), State())
      ensures alive ==> State() == RecoverOne(ctx, old(State()), id)
      ensures alive && plan.Some? && plan.value in plans ==> FollowsEntry(old(State()), State(), id, plan.value)
      ensures Changed(old(State()), State(), id) && plan.Some? && plan.value in plans ==>
                plans[plan.value] == PlanInvalidated
      ensures mandates != old(mandates) ==> orders[id].status == Cancelled
      ensures forall other :: other in orders && other != id ==> orders[other] == old(orders)[other]
      ensures !alive ==> writesLeft == 0
    {
      hide ValidMandate, MandateFits, Advances, CloseFor;
      ghost var before := State();
      AdvancesIsReflexive(before);
      alive := true;
      if Abandons(ctx, mandates, id, order) {
        alive := AbandonEntry(id, order, plan, ctx.now);
        AbandoningAdvances(before, State(), id, ctx.now);
      } else if plan.Some? && plan.value in plans && plans[plan.value] == PlanActive {
        alive := SetPlanStatus(plan.value, PlanStatusOf(order.status));
        RetiringAdvances(before, State(), plan.value);
      }
      if alive && plan.Some? && plan.value in plans {
        TurnTellsPlan(ctx, before, id, plan.value);
      }
    }

    /** Gives up an entry: its plan is invalidated, the order cancelled and its mandates closed, in that order. */
    method AbandonEntry(id: Id, order: Order, plan: Option<Id>, now: int) returns (alive: bool)
      requires id in orders && orders[id] == order && Live(order.status) && plan == LinkedPlan(State(), id)
      modifies this`orders, this`mandates, this`plans, this`writesLeft
      ensures Abandoning(old(State()), State(), id, now)
      ensures alive ==> && plans == WithPlan(old(plans), plan, PlanInvalidated)
                        && orders == old(orders)[id := order.(status := Cancelled)]
                        && mandates == CloseFor(old(mandates), order.exposure, id, now)
      ensures !alive ==> writesLeft == 0
    {
      hide CloseFor;
      alive := true;
      NothingClosedYet(mandates, order.exposure, id, now);
      if plan.Some? {
        alive := SetPlanStatus(plan.value, PlanInvalidated);
        if !alive {
          return;
        }
      }
      alive := CancelOrder(id);
      if !alive {
        return;
      }
      alive := CloseMandates(order.exposure, id, now);
    }

    /** The whole pass: what it reads up front never goes stale, so it computes the specified pass. */
    method RecoverEntryOrders(ctx: Context) returns (alive: bool)
      requires ctx.cal == cal
      modifies this`orders, this`mandates, this`plans, this`writesLeft
      ensures Advances(old(State()), State())
      ensures alive ==> exists entries :: Complete(old(State()), entries) && State() == Pass(ctx, old(State()), entries)
      ensures alive ==> OrderedPlansRetired(State()) && NoEntryCreated(State())
      ensures alive && ctx.cancelAll ==> NoEntryLive(State())
      ensures alive && !ctx.cancelAll ==> forall id | Unrivalled(cal, old(State()), id) :: orders[id] == old(orders)[id]
      ensures alive ==> MandatesFollow(old(State()), State(), ctx.now)
      ensures alive && AtMostOneEntry(old(State())) ==> PlansFollow(old(State()), State())
      ensures !alive ==> writesLeft == 0
    {
      hide ValidMandate, RecoverOne, Advances, Pass, Complete, OrderedPlansRetired, NoEntryCreated, MandatesFollow,
        PlansFollow, AtMostOneEntry;
      ghost var d := State();
      var entries := EntryOrders();
      CompleteIsListing(d, entries);
      PassOfNone(ctx, d);
      var snapshot, links := orders, allocations;
      AdvancesIsReflexive(d);
      assert entries[..0] == [];
      var i := 0;
      while i < |entries|
        invariant 0 <= i <= |entries|
        invariant State() == Pass(ctx, d, entries[..i]) && Advances(d, State())
        invariant links == allocations && orders.Keys == snapshot.Keys
        invariant forall j :: i <= j < |entries| ==> orders[entries[j]] == snapshot[entries[j]]
      {
        var id := entries[i];
        var plan := if snapshot[id].decision in links then Some(links[snapshot[id].decision]) else None;
        ghost var before := State();
        alive := RecoverEntry(ctx, id, snapshot[id], plan);
        AdvancesIsTransitive(d, before, State());
        if !alive {
          return;
        }
        PassNext(ctx, d, entries, i);
        i := i + 1;
      }
      assert entries[..i] == entries;
      PassAdvances(ctx, d, entries);
      PassRetiresOrderedPlans(ctx, d, entries);
      MandatesFollowOrders(ctx, d, entries);
      if !ctx.cancelAll {
        UnrivalledOrdersStay(ctx, d, entries);
      }
      if ctx.cancelAll {
        CancelAllLeavesNoneLive(ctx, d, entries);
      }
      if AtMostOneEntry(d) {
        PlansFollowOrders(ctx, d, entries);
      }
      alive := true;
    }

    // ---- The rest of monitoring -----------------------------------------------------------------

    function OrderViews(): map<Id, OrderView>
      reads this
    {
      map id | id in orders :: OrderView(orders[id].status, None, None)
    }

    method ReconcileMandates(now: int) returns (alive: bool)
      modifies this`mandates, this`writesLeft
      ensures mandates == old(mandates) || mandates == Reconciled(old(mandates), OrderViews(), now)
      ensures alive ==> mandates == Reconciled(old(mandates), OrderViews(), now) && NonePendingDecided(State())
      ensures !alive ==> writesLeft == 0
    {
      var values := Reconciled(mandates, OrderViews(), now);
      alive := true;
      if values != mandates {
        alive := Write();
        if alive {
          mandates := values;
        }
      }
    }

    /** Submits a live order: it is first persisted as submitted, then with whatever the paper broker answers. */
    method SubmitOrder(id: Id) returns (alive: bool)
      requires id in orders
      modifies this`orders, this`writesLeft
      ensures SameLinks(old(State()), State()) && NoneRecreated(old(State()), State())
      ensures forall other :: other in orders && other != id ==> orders[other] == old(orders)[other]
      ensures orders[id] == old(orders)[id].(status := orders[id].status)
      ensures !Live(old(orders)[id].status) ==> alive && orders == old(orders)
      ensures Live(old(orders)[id].status) && alive ==> orders[id].status in {Resting, Rejected, Filled}
      ensures !alive ==> orders[id].status == if old(writesLeft) == 0 then old(orders)[id].status else Submitted
      ensures !alive ==> writesLeft == 0
    {
      hide SameLinks, NoneRecreated;
      ghost var before := State();
      OneStatusIsHarmless(before, before, id);
      if !Live(orders[id].status) {
        return true;
      }
      alive := Write();
      if !alive {
        return;
      }
      orders := orders[id := orders[id].(status := Submitted)];
      var answer :| answer == Resting || answer == Rejected || answer == Filled;
      alive := Write();
      if alive {
        orders := orders[id := orders[id].(status := answer)];
      }
      OneStatusIsHarmless(before, State(), id);
    }

    /** Each retryable order either expires or is submitted again. */
    method ProcessOpenOrders() returns (alive: bool)
      modifies this`orders, this`writesLeft
      ensures OnlyRetried(old(State()), State())
      ensures forall id :: id in orders && alive && Retryable(old(orders)[id].status) ==>
                orders[id].status in {Expired, Resting, Rejected, Filled}
      ensures !alive ==> writesLeft == 0
    {
      ghost var before := State();
      var todo := orders.Keys;
      while todo != {}
        invariant todo <= orders.Keys
        invariant OnlyRetried(before, State())
        invariant forall id :: id in todo ==> orders[id] == before.orders[id]
        invariant forall id :: id in orders && id !in todo && Retryable(before.orders[id].status) ==>
                    orders[id].status in {Expired, Resting, Rejected, Filled}
      {
        var id :| id in todo;
        todo := todo - {id};
        alive := RetryOrder(id);
        if !alive {
          return;
        }
      }
      alive := true;
    }

    method RetryOrder(id: Id) returns (alive: bool)
      requires id in orders
      modifies this`orders, this`writesLeft
      ensures orders.Keys == old(orders).Keys
      ensures forall other :: other in orders && other != id ==> orders[other] == old(orders)[other]
      ensures orders[id] == old(orders)[id].(status := orders[id].status)
      ensures !Retryable(old(orders)[id].status) ==> alive && orders == old(orders)
      ensures Retryable(old(orders)[id].status) ==> orders[id].status != Created
      ensures Retryable(old(orders)[id].status) && alive ==> orders[id].status in {Expired, Resting, Rejected, Filled}
      ensures !alive ==> writesLeft == 0
    {
      if !Retryable(orders[id].status) {
        return true;
      }
      var tooOld: bool := *;
      if tooOld {
        alive := Write();
        if alive {
          orders := orders[id := orders[id].(status := Expired)];
        }
      } else {
        alive := SubmitOrder(id);
      }
    }

    /** Persists a new order under a fresh identifier. */
    method CreateOrder(order: Order) returns (alive: bool, id: Id)
      requires Valid() && order.decision < nextId
      modifies this`orders, this`writesLeft, this`nextId
      ensures Valid() && id !in old(orders) && old(nextId) <= nextId
      ensures orders == if alive then old(orders)[id := order] else old(orders)
      ensures !alive ==> writesLeft == 0
    {
      id := nextId;
      nextId := nextId + 1;
      alive := Write();
      if alive {
        orders := orders[id := order];
      }
    }

    /** A sell order for one held exposure; the exposure's mandate is closed once it is filled. */
    method ExitPosition(now: int) returns (alive: bool)
      requires Valid()
      modifies this
      ensures Valid() && Harmless(old(State()), State())
      ensures forall id :: id in old(orders) ==> id in orders && orders[id] == old(orders)[id]
      ensures forall id :: id in orders && id !in old(orders) ==> !orders[id].entry
      ensures plans == old(plans) && allocations == old(allocations)
      ensures alive ==> exists id :: Exited(old(State()), State(), id)
      ensures !alive ==> writesLeft == 0
    {
      hide Harmless, SameLinks;
      var e: Exposure, ticker: string, instrument: Instrument := *, *, *;
      ghost var before := State();
      var decision, id := nextId, 0;
      nextId := nextId + 1;
      alive, id := CreateOrder(Order(decision, false, e, ticker, instrument, Created));
      HarmlessIsReflexive(before);
      if !alive {
        return;
      }
      ghost var created := State();
      NewExitOrderIsHarmless(before, created, id);
      alive := FinishExit(id, e, now);
      SameLinksStayDrawn(created, State(), nextId);
      SameLinksSameLink(created, State(), id);
      HarmlessIsTransitive(before, created, State());
      if alive {
        AnsweredExit(before, created, State(), id, now);
      }
    }

    method FinishExit(id: Id, e: Exposure, now: int) returns (alive: bool)
      requires id in orders
      modifies this`orders, this`mandates, this`writesLeft
      ensures SameLinks(old(State()), State()) && (!old(orders)[id].entry ==> Harmless(old(State()), State()))
      ensures forall other :: other in orders && other != id ==> orders[other] == old(orders)[other]
      ensures mandates == old(mandates) || (orders[id].status == Filled
              && mandates == ClosedAt(old(mandates), e, "exit filled", now))
      ensures alive && orders[id].status == Filled ==> mandates == ClosedAt(old(mandates), e, "exit filled", now)
      ensures !alive ==> writesLeft == 0
      ensures alive && Live(old(orders)[id].status) ==> orders[id].status in {Resting, Rejected, Filled}
      ensures id in orders && orders[id] == old(orders)[id].(status := orders[id].status)
    {
      hide Harmless, Live, Retryable;
      ghost var before := State();
      alive := SubmitOrder(id);
      if alive && orders[id].status == Filled && e in mandates {
        alive := Write();
        if alive {
          mandates := ClosedAt(mandates, e, "exit filled", now);
        }
      }
      if !before.orders[id].entry {
        SameLinksAreHarmless(before, State());
      }
    }

    /** Every stage starts here: recovery, reconciliation, then (in regular hours) retries and exits.
        Whatever happens, a monitor run that completes leaves no plan active that has an entry order, and no
        entry order that is just created; none at all that can be filled if the account's value is not available. */
    method MonitorOnly(now: int, setting: Setting) returns (alive: bool)
      requires Valid()
      modifies this
      ensures Valid() && LinksGrow(old(State()), State()) && NoNewEntries(old(State()), State())
      ensures AtMostOneEntry(old(State())) ==> AtMostOneEntry(State())
      ensures alive ==> OrderedPlansRetired(State()) && NoEntryCreated(State())
      ensures alive && setting.regularHours && !setting.navAvailable ==> NoEntryLive(State())
      ensures !alive ==> writesLeft == 0
      ensures alive && setting.regularHours ==> AllAnswered(State())
      ensures plans.Keys == old(plans).Keys
    {
      alive := RecoverAndReconcile(now);
      if !alive || !setting.regularHours {
        return;
      }
      if !setting.navAvailable {
        alive := Recover(Context(cal, true, now));
        if !alive {
          return;
        }
      }
      alive := RetryAndExit(now);
    }

    method RecoverAndReconcile(now: int) returns (alive: bool)
      requires Valid()
      modifies this`orders, this`mandates, this`plans, this`writesLeft
      ensures Valid() && SameLinks(old(State()), State())
      ensures AtMostOneEntry(old(State())) ==> AtMostOneEntry(State())
      ensures alive ==> OrderedPlansRetired(State()) && NoEntryCreated(State()) && NonePendingDecided(State())
      ensures !alive ==> writesLeft == 0
      ensures alive ==> forall id | Unrivalled(cal, old(State()), id) :: orders[id] == old(orders)[id]
      ensures plans.Keys == old(plans).Keys
    {
      alive := Recover(Context(cal, false, now));
      if !alive {
        return;
      }
      ghost var recovered := State();
      alive := ReconcileMandates(now);
      SameLinksKeepClaims(recovered, State());
    }

    /** The regular-hours half of monitoring: every retryable order is decided or rests again. */
    method RetryAndExit(now: int) returns (alive: bool)
      requires Valid()
      modifies this
      ensures Valid() && Harmless(old(State()), State())
      ensures forall id :: id in old(orders) && alive && Retryable(old(orders)[id].status) ==>
                id in orders && orders[id].status in {Expired, Resting, Rejected, Filled}
      ensures !alive ==> writesLeft == 0
      ensures alive ==> AllAnswered(State())
      ensures plans == old(plans)
    {
      hide Harmless;
      ghost var start := State();
      alive := RetryOrders(now);
      SameLinksAreHarmless(start, State());
      if !alive {
        return;
      }
      var exits: nat := *;
      while exits > 0
        invariant Valid() && Harmless(start, State())
        invariant forall id :: id in start.orders && Retryable(start.orders[id].status) ==>
                    id in orders && orders[id].status in {Expired, Resting, Rejected, Filled}
        invariant AllAnswered(State()) && plans == start.plans
      {
        exits := exits - 1;
        ghost var before := State();
        alive := ExitPosition(now);
        HarmlessIsTransitive(start, before, State());
        if !alive {
          return;
        }
      }
      alive := true;
    }

    method RetryOrders(now: int) returns (alive: bool)
      requires Valid()
      modifies this`orders, this`mandates, this`writesLeft
      ensures Valid() && SameLinks(old(State()), State()) && NoneRecreated(old(State()), State())
      ensures alive ==> NonePendingDecided(State())
      ensures forall id :: id in orders && alive && Retryable(old(orders)[id].status) ==>
                orders[id].status in {Expired, Resting, Rejected, Filled}
      ensures !alive ==> writesLeft == 0
      ensures alive ==> AllAnswered(State())
    {
      hide SameLinks, NoneRecreated, NonePendingDecided, DrawnBefore, OnlyRetried, AllAnswered;
      ghost var before := State();
      alive := ProcessOpenOrders();
      ghost var retried := State();
      RetriesKeepLinks(before, retried);
      if alive {
        alive := ReconcileMandates(now);
      }
      SameOrdersSameLinks(before, retried, State());
      SameLinksStayDrawn(before, State(), nextId);
    }

    /** Recovery as monitoring uses it: links are untouched, and a completed pass retires every ordered plan. */
    method Recover(ctx: Context) returns (alive: bool)
      requires Valid() && ctx.cal == cal
      modifies this`orders, this`mandates, this`plans, this`writesLeft
      ensures Valid() && SameLinks(old(State()), State())
      ensures AtMostOneEntry(old(State())) ==> AtMostOneEntry(State())
      ensures alive ==> OrderedPlansRetired(State()) && NoEntryCreated(State())
      ensures alive && ctx.cancelAll ==> NoEntryLive(State())
      ensures !alive ==> writesLeft == 0
      ensures alive && !ctx.cancelAll ==> forall id | Unrivalled(cal, old(State()), id) :: orders[id] == old(orders)[id]
      ensures plans.Keys == old(plans).Keys
    {
      hide Pass;
      hide Complete;
      ghost var d := State();
      alive := RecoverEntryOrders(ctx);
      SameLinksKeepClaims(d, State());
    }

    // ---- Executing plans ------------------------------------------------------------------------

    /** One plan's entry: allocation record, order, mandate, submission, reconciliation, plan status, in
        that order, any of which may be the last write. Not trading leaves the plan as it was. */
    method ExecutePlan(plan: Id, now: int, answer: Answer) returns (alive: bool, entry: Option<Id>)
      requires Valid() && plan in plans && plans[plan] == PlanActive
      requires AtMostOneEntry(State()) && Unordered(State(), plan)
      modifies this
      ensures Valid() && AtMostOneEntry(State()) && LinksGrow(old(State()), State())
      ensures forall q :: q != plan && Unordered(old(State()), q) ==> Unordered(State(), q)
      ensures plans.Keys == old(plans).Keys
      ensures forall q :: q in plans && q != plan ==> plans[q] == old(plans)[q]
      ensures forall id :: id in old(orders) ==> id in orders && orders[id] == old(orders)[id]
      ensures entry.Some? ==> alive && entry.value !in old(orders) && Entered(State(), plan, entry.value)
      ensures alive && answer.Trade? ==> entry.Some?
      ensures !answer.Trade? ==>
                entry.None? && orders == old(orders) && mandates == old(mandates) && plans == old(plans)
      ensures answer.NoData? ==> alive && allocations == old(allocations)
      ensures entry.Some? ==>
                && orders[entry.value].exposure == answer.req.exposure
                && orders[entry.value].ticker == answer.req.ticker
                && orders[entry.value].instrument == answer.req.instrument
    {
      hide AtMostOneEntry, Unordered, SameLinks, LinksGrow, Entered, DrawnBefore;
      LinksGrowReflexively(State());
      entry := None;
      if answer.NoData? {
        alive := true;
        return;
      }
      ghost var before := State();
      var allocation := 0;
      DrawnPlan(before, nextId, plan);
      alive, allocation := RecordAllocation(plan);
      if !alive {
        return;
      }
      ghost var recorded := State();
      NewAllocationKeepsClaims(before, recorded, allocation);
      if answer.NoTrade? {
        return;
      }
      var req, id := answer.req, 0;
      alive, id := CreateOrder(Order(allocation, true, req.exposure, req.ticker, req.instrument, Created));
      if !alive {
        return;
      }
      ghost var ordered := State();
      NewEntryOrderKeepsClaims(recorded, ordered, id, plan);
      LinksGrowTransitively(before, recorded, ordered);
      alive := FinishEntry(plan, id, req, now);
      SameLinksKeepClaims(ordered, State());
      SameLinksStayDrawn(ordered, State(), nextId);
      LinksGrowTransitively(before, ordered, State());
      if alive {
        entry := Some(id);
      }
    }

    /** Everything after the entry order exists: none of it can create another order. */
    method FinishEntry(plan: Id, id: Id, req: Request, now: int) returns (alive: bool)
      requires id in orders
      modifies this`orders, this`mandates, this`plans, this`writesLeft
      ensures SameLinks(old(State()), State())
      ensures id in orders && orders[id] == old(orders)[id].(status := orders[id].status)
      ensures plans == old(plans) || (plan in plans && plans == old(plans)[plan := plans[plan]])
      ensures forall other :: other in orders && other != id ==> orders[other] == old(orders)[other]
      ensures alive && plan in plans && old(orders)[id].entry && old(orders)[id].status == Created
              && old(orders)[id].exposure == req.exposure && LinkedPlan(old(State()), id) == Some(plan)
              ==> Entered(State(), plan, id)
      ensures alive ==> NonePendingDecided(State())
    {
      hide SameLinks;
      ghost var before := State();
      alive := PlaceEntry(id, req, now);
      ghost var placed := State();
      if alive {
        var done := orders[id].status == Filled || orders[id].status == Resting || orders[id].status == PartiallyFilled;
        alive := SetPlanStatus(plan, if done then PlanExecuted else PlanRejected);
      }
      SameOrdersSameLinks(before, placed, State());
      SameLinksSameLink(before, State(), id);
    }

    /** Registers the entry's mandate, submits the order and lets the mandate follow it. */
    method PlaceEntry(id: Id, req: Request, now: int) returns (alive: bool)
      requires id in orders
      modifies this`orders, this`mandates, this`writesLeft
      ensures SameLinks(old(State()), State())
      ensures id in orders && orders[id] == old(orders)[id].(status := orders[id].status)
      ensures forall other :: other in orders && other != id ==> orders[other] == old(orders)[other]
      ensures alive ==> NonePendingDecided(State())
      ensures alive ==> req.exposure in mandates && mandates[req.exposure].terms.orderId == id
      ensures alive && Live(old(orders)[id].status) ==> orders[id].status in {Resting, Rejected, Filled}
    {
      hide Register, Reconciled, Live, NonePendingDecided;
      ghost var registered := req.(orderId := id, strategy := STRATEGY);
      ghost var before := State();
      alive := RegisterMandate(req.(orderId := id, strategy := STRATEGY));
      if !alive {
        return;
      }
      RegisteredNamesOrder(cal, STRATEGY, before.mandates, registered);
      alive := SubmitOrder(id);
      if !alive {
        return;
      }
      ReconcileKeepsTerms(mandates, OrderViews(), now, req.exposure);
      alive := ReconcileMandates(now);
    }

    /** The allocation record is durable before the order that refers to it exists. */
    method RecordAllocation(plan: Id) returns (alive: bool, allocation: Id)
      requires Valid() && plan < nextId
      modifies this`allocations, this`writesLeft, this`nextId
      ensures Valid() && allocation < nextId && allocation !in old(allocations)
      ensures forall id :: id in orders ==> orders[id].decision != allocation
      ensures allocations == if alive then old(allocations)[allocation := plan] else old(allocations)
      ensures !alive ==> writesLeft == 0
    {
      allocation := nextId;
      nextId := nextId + 1;
      alive := Write();
      if alive {
        allocations := allocations[allocation := plan];
      }
    }

    /** Registration may refuse (an exception that aborts the stage) or write the new mandate. */
    method RegisterMandate(req: Request) returns (alive: bool)
      modifies this`mandates, this`writesLeft
      ensures alive ==> Register(cal, STRATEGY, old(mandates), req).Ok?
      ensures mandates == if alive then Register(cal, STRATEGY, old(mandates), req).value.0 else old(mandates)
    {
      var r := Register(cal, STRATEGY, mandates, req);
      if r.Err? {
        return false;
      }
      alive := Write();
      if alive {
        mandates := r.value.0;
      }
    }

    // ---- Stages and runs ------------------------------------------------------------------------

    /** One research write: retire an active plan, save a new one, replace one, or re-save one unchanged.
        The plan that was created, if any, is new, so no order was ever allocated from it. */
    method ResearchWrite() returns (alive: bool, saved: Option<Id>)
      requires Valid()
      modifies this`plans, this`writesLeft, this`nextId
      ensures Valid() && old(nextId) <= nextId
      ensures saved.Some? ==> alive && saved.value in plans && plans[saved.value] == PlanActive
      ensures saved.Some? ==> old(nextId) <= saved.value
      ensures forall q :: q in plans && plans[q] == PlanActive && q < old(nextId) ==>
                q in old(plans) && old(plans)[q] == PlanActive
      ensures forall q | q in old(plans) :: q in plans
                && (|| plans[q] == old(plans)[q]
                    || (old(plans)[q] == PlanActive && plans[q] in {PlanInvalidated, PlanSuperseded}))
    {
      var retire: Option<Id>, create: bool := *, *;
      saved := None;
      alive := Write();
      if !alive {
        return;
      }
      if retire.Some? && retire.value in plans && plans[retire.value] == PlanActive {
        var status :| status == PlanInvalidated || status == PlanSuperseded;
        plans := plans[retire.value := status];
      }
      if create {
        saved := Some(nextId);
        plans := plans[nextId := PlanActive];
        nextId := nextId + 1;
      }
    }

    /** The executor's list: active plans without duplicates, in some order (the time window may leave some out). */
    method ActivePlans() returns (listed: seq<Id>)
      ensures forall q :: q in listed ==> q in plans && plans[q] == PlanActive
      ensures forall i, j :: 0 <= i < j < |listed| ==> listed[i] != listed[j]
    {
      listed := [];
      var todo := plans.Keys;
      while todo != {}
        invariant todo <= plans.Keys
        invariant forall q :: q in listed ==> q in plans && plans[q] == PlanActive && q !in todo
        invariant forall i, j :: 0 <= i < j < |listed| ==> listed[i] != listed[j]
      {
        var q :| q in todo;
        todo := todo - {q};
        var inWindow: bool := *;
        if plans[q] == PlanActive && inWindow {
          listed := listed + [q];
        }
      }
    }

    /** Executes the plans that were active when the stage listed them. */
    method OpenExecutionStage(now: int) returns (alive: bool)
      requires Valid() && AtMostOneEntry(State()) && OrderedPlansRetired(State())
      modifies this
      ensures Valid() && AtMostOneEntry(State()) && LinksGrow(old(State()), State())
      ensures plans.Keys == old(plans).Keys
    {
      hide AtMostOneEntry;
      hide Unordered;
      ghost var start := State();
      var listed := ActivePlans();
      forall q | q in listed
        ensures Unordered(State(), q)
      {
        ActivePlansAreUnordered(State(), q);
      }
      var i := 0;
      while i < |listed|
        invariant 0 <= i <= |listed|
        invariant Valid() && AtMostOneEntry(State()) && LinksGrow(start, State())
        invariant plans.Keys == start.plans.Keys
        invariant forall j :: i <= j < |listed| ==>
                    listed[j] in plans && plans[listed[j]] == PlanActive && Unordered(State(), listed[j])
      {
        ghost var before := State();
        var entry: Option<Id>;
        var answer: Answer := *;
        alive, entry := ExecutePlan(listed[i], now, answer);
        LinksGrowTransitively(start, before, State());
        if !alive {
          return;
        }
        i := i + 1;
      }
      alive := true;
    }

    /** Research may write any number of plans; the intraday stage also executes each plan it has just saved. */
    method ResearchStage(execute: bool, now: int) returns (alive: bool)
      requires Valid() && AtMostOneEntry(State())
      modifies this
      ensures Valid() && AtMostOneEntry(State()) && LinksGrow(old(State()), State())
      ensures !execute ==> NoNewEntries(old(State()), State())
    {
      hide AtMostOneEntry;
      ghost var start := State();
      var writes: nat := *;
      while writes > 0
        invariant Valid() && AtMostOneEntry(State()) && LinksGrow(start, State())
        invariant !execute ==> orders == start.orders
      {
        writes := writes - 1;
        ghost var before, drawn := State(), nextId;
        var saved: Option<Id> := None;
        alive, saved := ResearchWrite();
        ghost var written := State();
        SameLinksKeepClaims(before, written);
        if !alive {
          return;
        }
        if execute && saved.Some? {
          UndrawnPlansAreUnordered(before, drawn, saved.value);
          var entry: Option<Id>;
          var answer: Answer := *;
          alive, entry := ExecutePlan(saved.value, now, answer);
          LinksGrowTransitively(start, written, State());
          if !alive {
            return;
          }
        }
      }
      alive := true;
    }

    /** A stage run: monitoring (hence recovery) first, then research or execution. However far it gets,
        the state it leaves has at most one entry order per plan and forgets no order or link; a disabled strategy
        changes nothing, and without permission to enter there is no new entry order. */
    method RunStage(stage: Stage, now: int, setting: Setting) returns (alive: bool)
      requires Valid() && AtMostOneEntry(State())
      modifies this
      ensures Valid() && AtMostOneEntry(State()) && LinksGrow(old(State()), State())
      ensures !setting.enabled ==> State() == old(State())
      ensures !setting.entriesEnabled || !setting.sessionAllowed ==> NoNewEntries(old(State()), State())
      ensures stage != OpenExecution && stage != Intraday ==> NoNewEntries(old(State()), State())
      ensures stage == OpenExecution ==> plans.Keys == old(plans).Keys
    {
      if !setting.enabled {
        return true;
      }
      ghost var start := State();
      alive := MonitorOnly(now, setting);
      if !alive || !setting.entriesEnabled || !setting.sessionAllowed {
        return;
      }
      ghost var monitored := State();
      if stage == OpenExecution {
        alive := OpenExecutionStage(now);
      } else {
        alive := ResearchStage(stage == Intraday, now);
      }
      LinksGrowTransitively(start, monitored, State());
    }

    /** Any number of stages, each killed after any number of durable writes (or not at all): throughout
        the run every plan has at most one entry order, so an order, once created, stays its plan's only one. */
    method Run(stages: seq<Stage>, kills: seq<nat>, times: seq<int>)
      requires |stages| == |kills| == |times|
      requires Valid() && AtMostOneEntry(State())
      modifies this
      ensures Valid() && AtMostOneEntry(State()) && LinksGrow(old(State()), State())
    {
      hide AtMostOneEntry;
      ghost var start := State();
      for i := 0 to |stages|
        invariant Valid() && AtMostOneEntry(State()) && LinksGrow(start, State())
      {
        writesLeft := kills[i];
        ghost var before := State();
        var setting: Setting := *;
        var alive := RunStage(stages[i], times[i], setting);
        LinksGrowTransitively(start, before, State());
      }
    }
  }

  lemma {:induction false} SameLinksSameLink(d: Durable, p: Durable, id: Id)
    requires SameLinks(d, p) && id in d.orders
    ensures id in p.orders && LinkedPlan(p, id) == LinkedPlan(d, id) && p.orders[id].entry == d.orders[id].entry
    ensures p.orders.Keys == d.orders.Keys
  {
  }

  lemma {:induction false} SameOrdersSameLinks(d: Durable, p: Durable, q: Durable)
    requires SameLinks(d, p) && q.orders == p.orders && q.allocations == p.allocations
    ensures SameLinks(d, q) && (NoneRecreated(d, p) ==> NoneRecreated(d, q))
  {
  }

  lemma {:induction false} RegisteredNamesOrder(cal: Calendar, namespace: string, values: Mandates, req: Request)
    requires Register(cal, namespace, values, req).Ok?
    ensures var after := Register(cal, namespace, values, req).value.0;
            req.exposure in after && after[req.exposure].terms.orderId == req.orderId
  {
  }

  lemma {:induction false} ReconcileKeepsTerms(values: Mandates, orders: map<Id, OrderView>, now: int, e: Exposure)
    requires e in values
    ensures e in Reconciled(values, orders, now) && Reconciled(values, orders, now)[e].terms == values[e].terms
  {
  }

  lemma {:induction false} LinksGrowReflexively(d: Durable)
    ensures LinksGrow(d, d)
  {
  }

  lemma {:induction false} DrawnPlan(d: Durable, next: Id, plan: Id)
    requires DrawnBefore(d, next) && plan in d.plans
    ensures plan < next
  {
  }

  lemma {:induction false} SameLinksStayDrawn(d: Durable, p: Durable, next: Id)
    requires SameLinks(d, p) && p.plans.Keys == d.plans.Keys && DrawnBefore(d, next)
    ensures DrawnBefore(p, next) && LinksGrow(d, p)
  {
  }

  lemma {:induction false} LinksGrowTransitively(a: Durable, b: Durable, c: Durable)
    requires LinksGrow(a, b) && LinksGrow(b, c)
    ensures LinksGrow(a, c)
  {
  }

  lemma {:induction false} ActivePlansAreUnordered(d: Durable, plan: Id)
    requires OrderedPlansRetired(d) && plan in d.plans && d.plans[plan] == PlanActive
    ensures Unordered(d, plan)
  {
  }

  lemma {:induction false} UndrawnPlansAreUnordered(d: Durable, next: Id, plan: Id)
    requires DrawnBefore(d, next) && next <= plan
    ensures Unordered(d, plan)
  {
    assert forall id :: id in d.orders && LinkedPlan(d, id).Some? ==> LinkedPlan(d, id).value < next;
  }

  /** What a write outside plan execution keeps: all links, at most one entry per plan, ordered plans retired, no
      entry order just created. */
  ghost predicate Harmless(d: Durable, p: Durable) {
    && LinksGrow(d, p)
    && (AtMostOneEntry(d) ==> AtMostOneEntry(p))
    && (OrderedPlansRetired(d) ==> OrderedPlansRetired(p))
    && (NoEntryCreated(d) ==> NoEntryCreated(p))
    && (NoEntryLive(d) ==> NoEntryLive(p))
    && NoNewEntries(d, p)
  }

  lemma {:induction false} HarmlessIsReflexive(d: Durable)
    ensures Harmless(d, d)
  {
  }

  lemma {:induction false} HarmlessIsTransitive(a: Durable, b: Durable, c: Durable)
    requires Harmless(a, b) && Harmless(b, c)
    ensures Harmless(a, c)
  {
  }

  lemma {:induction false} SameLinksAreHarmless(d: Durable, p: Durable)
    requires SameLinks(d, p) && PlansRetire(d, p) && NoneRecreated(d, p)
    ensures Harmless(d, p)
  {
    SameLinksKeepClaims(d, p);
  }

  lemma {:induction false} AnsweredExit(d: Durable, created: Durable, p: Durable, id: Id, now: int)
    requires id !in d.orders && id in created.orders && created.orders == d.orders[id := created.orders[id]]
    requires p.orders.Keys == created.orders.Keys && p.orders[id].status in {Resting, Rejected, Filled}
    requires !created.orders[id].entry && p.orders[id] == created.orders[id].(status := p.orders[id].status)
    requires p.orders[id].status == Filled ==>
               p.mandates == ClosedAt(created.mandates, created.orders[id].exposure, "exit filled", now)
    ensures Exited(d, p, id)
  {
  }

  lemma {:induction false} OneStatusIsHarmless(d: Durable, p: Durable, id: Id)
    requires id in d.orders && id in p.orders && p.allocations == d.allocations
    requires p.orders == d.orders[id := d.orders[id].(status := p.orders[id].status)]
    requires p.orders[id] == d.orders[id] || (Live(d.orders[id].status) && p.orders[id].status != Created)
    ensures SameLinks(d, p) && NoneRecreated(d, p)
  {
  }

  lemma {:induction false} RetriesKeepLinks(d: Durable, p: Durable)
    requires OnlyRetried(d, p)
    ensures SameLinks(d, p) && NoneRecreated(d, p) && p.plans == d.plans
    ensures (forall id :: id in p.orders && Retryable(d.orders[id].status) ==>
               p.orders[id].status in {Expired, Resting, Rejected, Filled}) ==> AllAnswered(p)
    ensures forall q: Durable :: q.orders == p.orders && AllAnswered(p) ==> AllAnswered(q)
  {
  }

  lemma {:induction false} NewExitOrderIsHarmless(d: Durable, p: Durable, id: Id)
    requires id !in d.orders && id in p.orders && !p.orders[id].entry
    requires p.orders == d.orders[id := p.orders[id]] && p.allocations == d.allocations && p.plans == d.plans
    ensures Harmless(d, p)
  {
    assert forall x :: x in d.orders ==> LinkedPlan(p, x) == LinkedPlan(d, x);
  }

  lemma {:induction false} NewAllocationKeepsClaims(d: Durable, p: Durable, allocation: Id)
    requires allocation !in d.allocations && forall id :: id in d.orders ==> d.orders[id].decision != allocation
    requires allocation in p.allocations && p.allocations == d.allocations[allocation := p.allocations[allocation]]
    requires p.orders == d.orders
    ensures LinksGrow(d, p) && (AtMostOneEntry(d) ==> AtMostOneEntry(p))
    ensures forall q :: Unordered(d, q) ==> Unordered(p, q)
  {
    assert forall x :: x in d.orders ==> LinkedPlan(p, x) == LinkedPlan(d, x);
  }

  /** The decisive step: an entry order may be created only for a plan that has none. */
  lemma {:induction false} NewEntryOrderKeepsClaims(d: Durable, p: Durable, id: Id, plan: Id)
    requires id !in d.orders && id in p.orders && p.orders[id].entry
    requires p.orders == d.orders[id := p.orders[id]] && p.allocations == d.allocations
    requires LinkedPlan(p, id) == Some(plan) && Unordered(d, plan) && AtMostOneEntry(d)
    ensures LinksGrow(d, p) && AtMostOneEntry(p)
    ensures forall q :: q != plan && Unordered(d, q) ==> Unordered(p, q)
  {
    assert forall x :: x in d.orders ==> LinkedPlan(p, x) == LinkedPlan(d, x);
  }

  lemma {:induction false} PassOfNone(ctx: Context, d: Durable)
    ensures Pass(ctx, d, []) == d
  {
  }

  lemma {:induction false} PassNext(ctx: Context, d: Durable, entries: seq<Id>, i: nat)
    requires i < |entries| && forall id :: id in entries ==> id in d.orders
    ensures Pass(ctx, d, entries[..i + 1]) == RecoverOne(ctx, Pass(ctx, d, entries[..i]), entries[i])
  {
    assert entries[..i + 1][..i] == entries[..i];
  }

  lemma {:induction false} AdvancesIsReflexive(d: Durable)
    ensures Advances(d, d)
  {
  }

  lemma {:induction false} UnrivalledOrdersStay(ctx: Context, d: Durable, entries: seq<Id>)
    requires Complete(d, entries) && !ctx.cancelAll
    ensures forall id | Unrivalled(ctx.cal, d, id) ::
              id in Pass(ctx, d, entries).orders && Pass(ctx, d, entries).orders[id] == d.orders[id]
  {
    hide MandateFits, ValidMandate, Pass;
    CompleteIsListing(d, entries);
    forall id | Unrivalled(ctx.cal, d, id)
      ensures Pass(ctx, d, entries).orders[id] == d.orders[id]
    {
      UnrivalledIsKept(ctx, d, entries, id);
    }
  }

  lemma {:induction false} CancelAllLeavesNoneLive(ctx: Context, d: Durable, entries: seq<Id>)
    requires Complete(d, entries) && ctx.cancelAll
    ensures NoEntryLive(Pass(ctx, d, entries))
  {
    hide ValidMandate;
    PassAdvances(ctx, d, entries);
    SurvivorsAreNamed(ctx, d, entries);
  }

  lemma {:induction false} PassRetiresOrderedPlans(ctx: Context, d: Durable, entries: seq<Id>)
    requires Complete(d, entries)
    ensures OrderedPlansRetired(Pass(ctx, d, entries)) && NoEntryCreated(Pass(ctx, d, entries))
  {
    hide ValidMandate;
    var p := Pass(ctx, d, entries);
    PassAdvances(ctx, d, entries);
    forall id | id in p.orders && p.orders[id].entry && LinkedPlan(p, id).Some?
      ensures LinkedPlan(p, id).value !in p.plans || p.plans[LinkedPlan(p, id).value] != PlanActive
    {
      assert id in entries && Retired(p, id);
    }
    forall id | id in p.orders && p.orders[id].entry
      ensures p.orders[id].status != Created
    {
      assert id in entries && Retired(p, id);
    }
  }
}

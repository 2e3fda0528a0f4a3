/** Restart recovery of allocator entry orders: one pass over the persisted entry orders, as a
    function of the durable state, and what one and two passes reach. */
module EntryRecovery {
  import opened Basics
  import opened TradingCalendar
  import opened MandateTimes
  import opened PositionMandates

  const STRATEGY := "ai_instrument_allocator_v1"

  const RECOVERY_REASON := "cancelled during restart recovery"

  /** `entry`: the allocator's own buy (equity) or buy-to-open (option); anything else is not recovered. */
  datatype Order = Order(decision: Id, entry: bool, exposure: Exposure, ticker: string, instrument: Instrument,
      status: OrderStatus)

  datatype PlanStatus =
    PlanActive | PlanExecuted | PlanRejected | PlanExpired | PlanCancelled | PlanInvalidated | PlanSuperseded

  /** Everything that survives a crash. An allocation links an order's decision to a plan. */
  datatype Durable = Durable(orders: map<Id, Order>, mandates: Mandates, plans: map<Id, PlanStatus>,
      allocations: map<Id, Id>)

  /** How a recovery call decides and what it writes with. */
  datatype Context = Context(cal: Calendar, cancelAll: bool, now: int)

  predicate Retryable(s: OrderStatus) {
    s == Submitted || s == Resting || s == PartiallyFilled
  }

  predicate Live(s: OrderStatus) {
    s == Created || Retryable(s)
  }

  function LinkedPlan(d: Durable, id: Id): Option<Id>
    requires id in d.orders
  {
    var decision := d.orders[id].decision;
    if decision in d.allocations then Some(d.allocations[decision]) else None
  }

  /** The exposure's stored mandate is active, consistent and was registered for exactly this order. */
  predicate MandateFits(cal: Calendar, mandates: Mandates, id: Id, o: Order) {
    ValidMandate(cal, if o.exposure in mandates then Some(mandates[o.exposure]) else None, {PendingFill, Open},
                 Expected(Some(o.exposure), Some(o.ticker), Some(o.instrument), Some(id), Some(STRATEGY)))
  }

  lemma {:induction false} FittingMandateNamesOrder(cal: Calendar, mandates: Mandates, id: Id, o: Order)
    requires MandateFits(cal, mandates, id, o)
    ensures o.exposure in mandates && Active(mandates[o.exposure]) && mandates[o.exposure].terms.orderId == id
  {
  }

  predicate Abandons(ctx: Context, mandates: Mandates, id: Id, o: Order) {
    o.status == Created || (Retryable(o.status) && (ctx.cancelAll || !MandateFits(ctx.cal, mandates, id, o)))
  }

  /** Cancelling an order closes the mandate of its exposure and every mandate naming it. */
  function CloseFor(mandates: Mandates, e: Exposure, id: Id, now: int): Mandates {
    map k | k in mandates :: if k == e
        || mandates[k].terms.orderId == id then ClosedMandate(mandates[k], RECOVERY_REASON, now) else mandates[k]
  }

  function WithPlan(plans: map<Id, PlanStatus>, plan: Option<Id>, status: PlanStatus): map<Id, PlanStatus> {
    if plan.Some? && plan.value in plans then plans[plan.value := status] else plans
  }

  /** The plan status that a persisted order status stands for. */
  function PlanStatusOf(s: OrderStatus): PlanStatus {
    match s
    case Rejected => PlanRejected
    case Expired => PlanExpired
    case Cancelled => PlanCancelled
    case _ => PlanExecuted
  }

  function RecoverOne(ctx: Context, d: Durable, id: Id): Durable
    requires id in d.orders
  {
    var o := d.orders[id];
    var plan := LinkedPlan(d, id);
    if Abandons(ctx, d.mandates, id, o) then
      d.(plans := WithPlan(d.plans, plan, PlanInvalidated),
         orders := d.orders[id := o.(status := Cancelled)],
         mandates := CloseFor(d.mandates, o.exposure, id, ctx.now))
    else if plan.Some? && plan.value in d.plans && d.plans[plan.value] == PlanActive then
      d.(plans := d.plans[plan.value := PlanStatusOf(o.status)])
    else d
  }

  /** `entries` lists entry orders of `d`, each once. */
  ghost predicate Listing(d: Durable, entries: seq<Id>) {
    && (forall id :: id in entries ==> id in d.orders && d.orders[id].entry)
    && (forall i, j :: 0 <= i < j < |entries| ==> entries[i] != entries[j])
  }

  ghost predicate Complete(d: Durable, entries: seq<Id>) {
    Listing(d, entries) && forall id :: id in d.orders && d.orders[id].entry ==> id in entries
  }

  function Pass(ctx: Context, d: Durable, entries: seq<Id>): (p: Durable)
    requires forall id :: id in entries ==> id in d.orders
    ensures p.orders.Keys == d.orders.Keys
  {
    if entries == [] then d
    else RecoverOne(ctx, Pass(ctx, d, entries[..|entries| - 1]), entries[|entries| - 1])
  }

  // ---- What recovery may change ---------------------------------------------------------------

  /** Orders are only cancelled, mandates only closed, plans only retired. */
  ghost predicate Advances(d: Durable, p: Durable) {
    && p.allocations == d.allocations
    && p.orders.Keys == d.orders.Keys && p.plans.Keys == d.plans.Keys && p.mandates.Keys == d.mandates.Keys
    && (forall id :: id in d.orders ==>
          p.orders[id] == d.orders[id] || (Live(d.orders[id].status)
              && p.orders[id] == d.orders[id].(status := Cancelled)))
    && (forall q :: q in d.plans && d.plans[q] != PlanActive ==> p.plans[q] != PlanActive)
    && (forall e :: e in d.mandates ==>
          p.mandates[e] == d.mandates[e]
          || (p.mandates[e].terms == d.mandates[e].terms && p.mandates[e].status == Closed))
  }

  lemma {:induction false} AdvancesIsTransitive(a: Durable, b: Durable, c: Durable)
    requires Advances(a, b) && Advances(b, c)
    ensures Advances(a, c)
  {
  }

  /** The order is retired: not `created` any more and not holding an active plan. */
  predicate Retired(d: Durable, id: Id)
    requires id in d.orders
  {
    && d.orders[id].status != Created
    && var plan := LinkedPlan(d, id);
       (plan.Some? && plan.value in d.plans ==> d.plans[plan.value] != PlanActive)
  }

  lemma {:induction false} RecoverOneAdvances(ctx: Context, d: Durable, id: Id)
    requires id in d.orders && d.orders[id].entry
    ensures Advances(d, RecoverOne(ctx, d, id))
    ensures Retired(RecoverOne(ctx, d, id), id)
    ensures forall other :: other in d.orders && other != id ==> RecoverOne(ctx, d, id).orders[other] == d.orders[other]
  {
  }

  lemma {:induction false} RetiredStays(d: Durable, p: Durable, id: Id)
    requires Advances(d, p) && id in d.orders && Retired(d, id)
    ensures Retired(p, id)
  {
  }

  lemma {:induction false} PassAdvances(ctx: Context, d: Durable, entries: seq<Id>)
    requires Listing(d, entries)
    ensures Advances(d, Pass(ctx, d, entries))
    ensures forall id :: id in entries ==> Retired(Pass(ctx, d, entries), id)
    ensures forall id :: id in d.orders && id !in entries ==> Pass(ctx, d, entries).orders[id] == d.orders[id]
  {
    if entries != [] {
      var front, last := entries[..|entries| - 1], entries[|entries| - 1];
      PassAdvances(ctx, d, front);
      var before, after := Pass(ctx, d, front), Pass(ctx, d, entries);
      assert before.orders[last] == d.orders[last];
      RecoverOneAdvances(ctx, before, last);
      AdvancesIsTransitive(d, before, after);
      forall id | id in entries
        ensures Retired(after, id)
      {
        if id != last {
          assert id in front;
          RetiredStays(before, after, id);
        }
      }
    }
  }

  // ---- Reaching a fixpoint --------------------------------------------------------------------

  /** Nothing is left to recover. */
  ghost predicate Settled(cal: Calendar, d: Durable) {
    forall id :: id in d.orders && d.orders[id].entry ==>
      Retired(d, id) && (Retryable(d.orders[id].status) ==> MandateFits(cal, d.mandates, id, d.orders[id]))
  }

  /** No exposure has two live entry orders. */
  ghost predicate OneLivePerExposure(d: Durable) {
    forall a, b :: a in d.orders && b in d.orders && d.orders[a].entry && d.orders[b].entry
      && Live(d.orders[a].status) && Live(d.orders[b].status) && d.orders[a].exposure == d.orders[b].exposure
      ==> a == b
  }

  /** What is closed stays closed: an order that fits now fitted before. */
  lemma {:induction false} FitsEarlier(cal: Calendar, d: Durable, p: Durable, id: Id, o: Order)
    requires Advances(d, p) && MandateFits(cal, p.mandates, id, o)
    ensures MandateFits(cal, d.mandates, id, o)
    ensures o.exposure in d.mandates && d.mandates[o.exposure].terms.orderId == id
  {
    FittingMandateNamesOrder(cal, p.mandates, id, o);
    assert p.mandates[o.exposure] == d.mandates[o.exposure];
  }

  /** An order still live after its own turn fitted the mandate of its exposure. */
  lemma {:induction false} SurvivorFits(ctx: Context, d: Durable, id: Id)
    requires id in d.orders && Live(RecoverOne(ctx, d, id).orders[id].status)
    ensures MandateFits(ctx.cal, d.mandates, id, d.orders[id]) && !ctx.cancelAll && Retryable(d.orders[id].status)
    ensures RecoverOne(ctx, d, id).orders == d.orders && RecoverOne(ctx, d, id).mandates == d.mandates
  {
  }

  /** The mandate stored for the order's exposure was registered for this very order. */
  predicate Named(d: Durable, id: Id)
    requires id in d.orders
  {
    var e := d.orders[id].exposure;
    e in d.mandates && d.mandates[e].terms.orderId == id
  }

  lemma {:induction false} SurvivorsAreNamed(ctx: Context, d: Durable, entries: seq<Id>)
    requires Listing(d, entries)
    ensures forall id ::
              id in entries && Live(Pass(ctx, d, entries).orders[id].status) ==> Named(d, id) && !ctx.cancelAll
  {
    if entries != [] {
      var front, last := entries[..|entries| - 1], entries[|entries| - 1];
      SurvivorsAreNamed(ctx, d, front);
      PassAdvances(ctx, d, front);
      var before, p := Pass(ctx, d, front), Pass(ctx, d, entries);
      assert before.orders[last] == d.orders[last];
      RecoverOneAdvances(ctx, before, last);
      forall id | id in entries && Live(p.orders[id].status)
        ensures Named(d, id) && !ctx.cancelAll
      {
        if id == last {
          SurvivorFits(ctx, before, last);
          FitsEarlier(ctx.cal, d, before, last, d.orders[last]);
        } else {
          assert id in front && before.orders[id] == p.orders[id];
        }
      }
    }
  }

  /** After any pass no exposure has two live entry orders: a mandate names only one. */
  lemma {:induction false} PassLeavesOneLive(ctx: Context, d: Durable, entries: seq<Id>)
    requires Complete(d, entries)
    ensures OneLivePerExposure(Pass(ctx, d, entries))
  {
    var p := Pass(ctx, d, entries);
    PassAdvances(ctx, d, entries);
    SurvivorsAreNamed(ctx, d, entries);
    forall a, b | a in p.orders && b in p.orders && p.orders[a].entry && p.orders[b].entry
      && Live(p.orders[a].status) && Live(p.orders[b].status) && p.orders[a].exposure == p.orders[b].exposure
      ensures a == b
    {
      assert Named(d, a) && Named(d, b);
    }
  }

  // ---- When one pass is enough ----------------------------------------------------------------

  lemma {:induction false} PassSplits(ctx: Context, d: Durable, front: seq<Id>, back: seq<Id>)
    requires forall id :: id in front ==> id in d.orders
    requires forall id :: id in back ==> id in d.orders
    ensures Pass(ctx, d, front + back) == Pass(ctx, Pass(ctx, d, front), back)
  {
    if back == [] {
      assert front + back == front;
    } else {
      var b, last := back[..|back| - 1], back[|back| - 1];
      PassSplits(ctx, d, front, b);
      assert (front + back)[..|front + back| - 1] == front + b;
      assert (front + back)[|front + back| - 1] == last;
    }
  }

  /** A fitting order and its mandate come through a pass that meets no other live order on the exposure. */
  lemma {:induction false} UnrivalledIsKept(ctx: Context, d: Durable, entries: seq<Id>, id: Id)
    requires Listing(d, entries) && id in d.orders && !ctx.cancelAll
    requires Retryable(d.orders[id].status) && MandateFits(ctx.cal, d.mandates, id, d.orders[id])
    requires forall x ::
               x in entries && x != id && Live(d.orders[x].status) ==> d.orders[x].exposure != d.orders[id].exposure
    ensures var p := Pass(ctx, d, entries);
            var e := d.orders[id].exposure;
            p.orders[id] == d.orders[id] && e in d.mandates && e in p.mandates && p.mandates[e] == d.mandates[e]
  {
    hide ValidMandate, Retired, MandateFits, RecoverOne, Advances;
    FittingMandateNamesOrder(ctx.cal, d.mandates, id, d.orders[id]);
    if entries != [] {
      var front, last := entries[..|entries| - 1], entries[|entries| - 1];
      UnrivalledIsKept(ctx, d, front, id);
      PassAdvances(ctx, d, front);
      var before := Pass(ctx, d, front);
      assert before.orders[last] == d.orders[last];
      if last != id {
        RecoverOneSparesOthers(ctx, before, last, d.orders[id].exposure);
      } else {
        SameMandateSameFit(ctx.cal, d.mandates, before.mandates, id, d.orders[id]);
        FittingIsSpared(ctx, before, id);
      }
    }
  }

  lemma {:induction false} FittingIsSpared(ctx: Context, d: Durable, id: Id)
    requires id in d.orders && Retryable(d.orders[id].status) && !ctx.cancelAll
    requires MandateFits(ctx.cal, d.mandates, id, d.orders[id])
    ensures RecoverOne(ctx, d, id).orders == d.orders && RecoverOne(ctx, d, id).mandates == d.mandates
  {
  }

  /** Recovering an order leaves other orders alone, and the mandates that neither sit on its exposure nor name it. */
  lemma {:induction false} RecoverOneSparesOthers(ctx: Context, d: Durable, id: Id, e: Exposure)
    requires id in d.orders && e in d.mandates && d.mandates[e].terms.orderId != id
    requires Live(d.orders[id].status) ==> d.orders[id].exposure != e
    ensures RecoverOne(ctx, d, id).mandates.Keys == d.mandates.Keys
    ensures RecoverOne(ctx, d, id).mandates[e] == d.mandates[e]
    ensures forall x ::
              x in d.orders && x != id ==>
                x in RecoverOne(ctx, d, id).orders && RecoverOne(ctx, d, id).orders[x] == d.orders[x]
  {
  }

  /** A live order that does not fit takes the mandate of its exposure down with it. */
  lemma {:induction false} MisfitClosesExposure(ctx: Context, d: Durable, id: Id)
    requires id in d.orders && Live(d.orders[id].status)
    requires d.orders[id].status == Created || !MandateFits(ctx.cal, d.mandates, id, d.orders[id])
    ensures var e := d.orders[id].exposure;
            e in d.mandates ==>
              e in RecoverOne(ctx, d, id).mandates && RecoverOne(ctx, d, id).mandates[e].status == Closed
    ensures !Live(RecoverOne(ctx, d, id).orders[id].status)
  {
  }

  /** Right after a live order's turn the mandate that names somebody else on its exposure is closed. */
  lemma {:induction false} RivalClosesMandate(ctx: Context, d: Durable, front: seq<Id>, rival: Id, id: Id)
    requires Listing(d, front + [rival]) && id in d.orders && rival in d.orders && id != rival
    requires Live(d.orders[rival].status) && d.orders[id].exposure == d.orders[rival].exposure
    requires Named(d, id)
    ensures var e := d.orders[id].exposure;
            var p := Pass(ctx, d, front + [rival]);
            e in p.mandates && p.mandates[e].status == Closed
  {
    hide ValidMandate;
    var entries := front + [rival];
    assert entries[..|front|] == front && entries[|front|] == rival;
    assert Listing(d, front);
    assert rival !in front;
    PassAdvances(ctx, d, front);
    var before := Pass(ctx, d, front);
    assert before.orders[rival] == d.orders[rival];
    if MandateFits(ctx.cal, before.mandates, rival, d.orders[rival]) {
      FitsEarlier(ctx.cal, d, before, rival, d.orders[rival]);
      assert false;
    }
    MisfitClosesExposure(ctx, before, rival);
  }

  /** ... and no later turn revives it: nobody else on that exposure fits any more. */
  lemma {:induction false} RivalsNeverFitAgain(ctx: Context, d: Durable, entries: seq<Id>, j: nat, id: Id)
    requires Listing(d, entries) && j < |entries| && id in d.orders && id != entries[j]
    requires Live(d.orders[entries[j]].status) && d.orders[id].exposure == d.orders[entries[j]].exposure
    requires Named(d, id)
    ensures !MandateFits(ctx.cal, Pass(ctx, d, entries).mandates, id, d.orders[id])
  {
    hide ValidMandate;
    assert entries[..j + 1] == entries[..j] + [entries[j]];
    PassCutAt(ctx, d, entries, j + 1);
    RivalClosesMandate(ctx, d, entries[..j], entries[j], id);
    if MandateFits(ctx.cal, Pass(ctx, d, entries).mandates, id, d.orders[id]) {
      FittingMandateNamesOrder(ctx.cal, Pass(ctx, d, entries).mandates, id, d.orders[id]);
      assert false;
    }
  }

  lemma {:induction false} ListingOfPrefix(d: Durable, entries: seq<Id>, k: nat)
    requires Listing(d, entries) && k <= |entries|
    ensures Listing(d, entries[..k])
  {
    assert forall i :: 0 <= i < k ==> entries[..k][i] == entries[i];
  }

  lemma {:induction false} ListingOfSuffix(d: Durable, p: Durable, entries: seq<Id>, k: nat)
    requires Listing(d, entries) && Advances(d, p) && k <= |entries|
    ensures Listing(p, entries[k..])
  {
  }

  /** A pass may be cut at any point: the rest only advances what the front left, and only at its own entries. */
  lemma {:induction false} PassCutAt(ctx: Context, d: Durable, entries: seq<Id>, k: nat)
    requires Listing(d, entries) && k <= |entries|
    ensures Listing(d, entries[..k]) && Advances(d, Pass(ctx, d, entries[..k]))
    ensures Advances(Pass(ctx, d, entries[..k]), Pass(ctx, d, entries))
    ensures forall id :: id in d.orders && id !in entries[k..] ==>
              Pass(ctx, d, entries).orders[id] == Pass(ctx, d, entries[..k]).orders[id]
  {
    hide ValidMandate;
    hide RecoverOne;
    var front, back := entries[..k], entries[k..];
    assert entries == front + back;
    ListingOfPrefix(d, entries, k);
    PassAdvances(ctx, d, front);
    PassSplits(ctx, d, front, back);
    var p := Pass(ctx, d, front);
    ListingOfSuffix(d, p, entries, k);
    PassAdvances(ctx, p, back);
  }

  /** Some order fits its mandate and is the first live one processed on its exposure, but another live one follows. */
  ghost predicate Undercut(cal: Calendar, d: Durable, entries: seq<Id>)
    requires Listing(d, entries)
  {
    exists i, j :: 0 <= i < j < |entries| && UndercutAt(cal, d, entries, i, j)
  }

  ghost predicate UndercutAt(cal: Calendar, d: Durable, entries: seq<Id>, i: nat, j: nat)
    requires Listing(d, entries) && i < j < |entries|
  {
    var o := d.orders[entries[i]];
    && Retryable(o.status) && MandateFits(cal, d.mandates, entries[i], o)
    && Live(d.orders[entries[j]].status) && d.orders[entries[j]].exposure == o.exposure
    && forall h :: 0 <= h < i && Live(d.orders[entries[h]].status) ==> d.orders[entries[h]].exposure != o.exposure
  }

  /** An undercut order survives the pass without its mandate. */
  lemma {:induction false} UndercutLeavesMisfit(ctx: Context, d: Durable, entries: seq<Id>, i: nat, j: nat)
    requires Complete(d, entries) && i < j < |entries| && !ctx.cancelAll && UndercutAt(ctx.cal, d, entries, i, j)
    ensures !Settled(ctx.cal, Pass(ctx, d, entries))
  {
    hide ValidMandate;
    var id := entries[i];
    assert id !in entries[i + 1..];
    FittingMandateNamesOrder(ctx.cal, d.mandates, id, d.orders[id]);
    PassCutAt(ctx, d, entries, i + 1);
    UnrivalledIsKept(ctx, d, entries[..i + 1], id);
    RivalsNeverFitAgain(ctx, d, entries, j, id);
    assert Pass(ctx, d, entries).orders[id] == d.orders[id];
  }

  /** A survivor that nobody undercut met no other live order on its exposure, so it still fits. */
  lemma {:induction false} SurvivorStillFits(ctx: Context, d: Durable, entries: seq<Id>, i: nat)
    requires Complete(d, entries) && !Undercut(ctx.cal, d, entries) && i < |entries|
    requires Live(Pass(ctx, d, entries).orders[entries[i]].status)
    ensures MandateFits(ctx.cal, Pass(ctx, d, entries).mandates, entries[i], d.orders[entries[i]])
    ensures Pass(ctx, d, entries).orders[entries[i]] == d.orders[entries[i]]
  {
    hide ValidMandate, Pass, MandateFits, Retired, RecoverOne, Complete;
    CompleteIsListing(d, entries);
    var id := entries[i];
    var p := Pass(ctx, d, entries);
    PassAdvances(ctx, d, entries);
    SurvivorsAreNamed(ctx, d, entries);
    FitsAtOwnTurn(ctx, d, entries, i);
    forall x | x in entries && x != id && Live(d.orders[x].status)
      ensures d.orders[x].exposure != d.orders[id].exposure
    {
      var h :| 0 <= h < |entries| && entries[h] == x;
      if h > i {
        assert !UndercutAt(ctx.cal, d, entries, i, h);
      }
    }
    UnrivalledIsKept(ctx, d, entries, id);
    SameMandateSameFit(ctx.cal, d.mandates, p.mandates, id, d.orders[id]);
  }

  lemma {:induction false} SameMandateSameFit(cal: Calendar, a: Mandates, b: Mandates, id: Id, o: Order)
    requires o.exposure in a && o.exposure in b && a[o.exposure] == b[o.exposure]
    requires MandateFits(cal, a, id, o)
    ensures MandateFits(cal, b, id, o)
  {
  }

  /** A survivor was retryable, fitted from the start, and no live order on its exposure came before it. */
  lemma {:induction false} FitsAtOwnTurn(ctx: Context, d: Durable, entries: seq<Id>, i: nat)
    requires Complete(d, entries) && i < |entries|
    requires Live(Pass(ctx, d, entries).orders[entries[i]].status)
    ensures var o := d.orders[entries[i]];
            && Retryable(o.status) && MandateFits(ctx.cal, d.mandates, entries[i], o)
            && forall h :: 0 <= h < i && Live(d.orders[entries[h]].status)
                ==> d.orders[entries[h]].exposure != o.exposure
  {
    hide ValidMandate, Pass, MandateFits, Retired, RecoverOne, Complete;
    CompleteIsListing(d, entries);
    var id, front := entries[i], entries[..i];
    ListingOfPrefix(d, entries, i);
    assert id !in front;
    PassAdvances(ctx, d, front);
    var before := Pass(ctx, d, front);
    StillLiveAfterTurn(ctx, d, entries, i);
    SurvivorFits(ctx, before, id);
    FitsEarlier(ctx.cal, d, before, id, d.orders[id]);
    PassAdvances(ctx, d, entries);
    hide Advances, Listing;
    forall h | 0 <= h < i && Live(d.orders[entries[h]].status)
      ensures d.orders[entries[h]].exposure != d.orders[id].exposure
    {
      if d.orders[entries[h]].exposure == d.orders[id].exposure {
        RivalsNeverFitAgain(ctx, d, front, h, id);
        assert false;
      }
    }
  }

  lemma {:induction false} CompleteIsListing(d: Durable, entries: seq<Id>)
    requires Complete(d, entries)
    ensures Listing(d, entries)
  {
  }

  lemma {:induction false} StillLiveAfterTurn(ctx: Context, d: Durable, entries: seq<Id>, i: nat)
    requires Listing(d, entries) && i < |entries|
    requires Live(Pass(ctx, d, entries).orders[entries[i]].status)
    ensures entries[i] in Pass(ctx, d, entries[..i]).orders
    ensures Live(RecoverOne(ctx, Pass(ctx, d, entries[..i]), entries[i]).orders[entries[i]].status)
  {
    hide ValidMandate;
    assert entries[..i + 1][..i] == entries[..i];
    PassCutAt(ctx, d, entries, i + 1);
    assert entries[i] !in entries[i + 1..];
  }

  /** One pass settles everything exactly when no fitting order is undercut (or the pass cancels everything live). */
  lemma {:induction false} OnePassSettlesIff(ctx: Context, d: Durable, entries: seq<Id>)
    requires Complete(d, entries)
    ensures Settled(ctx.cal, Pass(ctx, d, entries)) <==> ctx.cancelAll || !Undercut(ctx.cal, d, entries)
  {
    hide ValidMandate;
    var p := Pass(ctx, d, entries);
    PassAdvances(ctx, d, entries);
    SurvivorsAreNamed(ctx, d, entries);
    if !ctx.cancelAll && Undercut(ctx.cal, d, entries) {
      var i, j :| 0 <= i < j < |entries| && UndercutAt(ctx.cal, d, entries, i, j);
      UndercutLeavesMisfit(ctx, d, entries, i, j);
    } else {
      forall id | id in p.orders && p.orders[id].entry
        ensures Retired(p, id) && (Retryable(p.orders[id].status)
                ==> MandateFits(ctx.cal, p.mandates, id, p.orders[id]))
      {
        assert id in entries;
        if Live(p.orders[id].status) {
          var i :| 0 <= i < |entries| && entries[i] == id;
          SurvivorStillFits(ctx, d, entries, i);
        }
      }
    }
  }

  /** From any mix of orders, mandates and plans, two passes settle everything, whatever order each visits, at whatever
      times, and whether or not either cancels everything live. */
  lemma {:induction false} TwoPassesSettle(once: Context, again: Context, d: Durable, first: seq<Id>, second: seq<Id>)
    requires once.cal == again.cal && Complete(d, first) && Complete(Pass(once, d, first), second)
    ensures Settled(again.cal, Pass(again, Pass(once, d, first), second))
  {
    hide ValidMandate;
    var p := Pass(once, d, first);
    PassLeavesOneLive(once, d, first);
    LoneOrdersAreNotUndercut(again.cal, p, second);
    OnePassSettlesIff(again, p, second);
  }

  lemma {:induction false} LoneOrdersAreNotUndercut(cal: Calendar, d: Durable, entries: seq<Id>)
    requires Complete(d, entries) && OneLivePerExposure(d)
    ensures !Undercut(cal, d, entries)
  {
    hide ValidMandate;
    forall i, j | 0 <= i < j < |entries|
      ensures !UndercutAt(cal, d, entries, i, j)
    {
      assert entries[i] != entries[j];
    }
  }

  // ---- What a pass leaves ----------------------------------------------------------------------

  /** The order at position i comes through the pass: it is retryable, fits the mandate of its exposure, and no live
      order on that exposure is visited before it. */
  ghost predicate ComesThrough(ctx: Context, d: Durable, entries: seq<Id>, i: nat)
    requires Listing(d, entries) && i < |entries|
  {
    var o := d.orders[entries[i]];
    && !ctx.cancelAll && Retryable(o.status) && MandateFits(ctx.cal, d.mandates, entries[i], o)
    && forall h | 0 <= h < i && Live(d.orders[entries[h]].status) :: d.orders[entries[h]].exposure != o.exposure
  }

  /** Exactly the live orders that do not come through are cancelled, and nothing else about any order changes. */
  lemma {:induction false} OrdersComeThroughIff(ctx: Context, d: Durable, entries: seq<Id>, i: nat)
    requires Complete(d, entries) && i < |entries|
    ensures var o := d.orders[entries[i]];
            Pass(ctx, d, entries).orders[entries[i]]
            == if Live(o.status) && !ComesThrough(ctx, d, entries, i) then o.(status := Cancelled) else o
    ensures forall id | id in d.orders && !d.orders[id].entry :: Pass(ctx, d, entries).orders[id] == d.orders[id]
  {
    hide ValidMandate, Pass, MandateFits, Retired, RecoverOne;
    PassAdvances(ctx, d, entries);
    SurvivorsAreNamed(ctx, d, entries);
    if Live(Pass(ctx, d, entries).orders[entries[i]].status) {
      FitsAtOwnTurn(ctx, d, entries, i);
    }
    if ComesThrough(ctx, d, entries, i) {
      PassCutAt(ctx, d, entries, i + 1);
      forall x | x in entries[..i + 1] && x != entries[i] && Live(d.orders[x].status)
        ensures d.orders[x].exposure != d.orders[entries[i]].exposure
      {
        var h :| 0 <= h <= i && entries[h] == x;
      }
      UnrivalledIsKept(ctx, d, entries[..i + 1], entries[i]);
      assert entries[i] !in entries[i + 1..];
    }
  }

  /** The order was cancelled between d and p. */
  predicate Changed(d: Durable, p: Durable, id: Id) {
    id in d.orders && id in p.orders && p.orders[id] != d.orders[id]
  }

  /** The order sits on the exposure or is the one its mandate names. */
  predicate Concerns(d: Durable, id: Id, e: Exposure) {
    id in d.orders && e in d.mandates && (d.orders[id].exposure == e || d.mandates[e].terms.orderId == id)
  }

  ghost predicate LosesOrder(d: Durable, p: Durable, e: Exposure) {
    exists id :: Changed(d, p, id) && Concerns(d, id, e)
  }

  /** Exactly the mandates that lose an order are closed, with time and reason; nothing else about any changes. */
  ghost predicate MandatesFollow(d: Durable, p: Durable, now: int) {
    && p.mandates.Keys == d.mandates.Keys
    && forall e | e in d.mandates :: FollowsAt(d, p, now, e)
  }

  ghost predicate FollowsAt(d: Durable, p: Durable, now: int, e: Exposure) {
    && e in d.mandates && e in p.mandates
    && p.mandates[e] == if LosesOrder(d, p, e) then
         d.mandates[e].(status := Closed, closedAt := Some(now), closeReason := Some(RECOVERY_REASON))
       else d.mandates[e]
  }

  lemma {:induction false} TurnClosesMandates(ctx: Context, d: Durable, id: Id, e: Exposure)
    requires id in d.orders && e in d.mandates
    ensures var p := RecoverOne(ctx, d, id);
            && e in p.mandates
            && p.mandates[e] == if Changed(d, p, id) && Concerns(d, id, e) then
                 d.mandates[e].(status := Closed, closedAt := Some(ctx.now), closeReason := Some(RECOVERY_REASON))
               else d.mandates[e]
  {
    hide ValidMandate, MandateFits;
  }

  lemma {:induction false} MandatesFollowOrders(ctx: Context, d: Durable, entries: seq<Id>)
    requires Listing(d, entries)
    ensures MandatesFollow(d, Pass(ctx, d, entries), ctx.now)
  {
    hide RecoverOne, MandateFits, ValidMandate, Retired;
    PassAdvances(ctx, d, entries);
    if entries != [] {
      var front, last := entries[..|entries| - 1], entries[|entries| - 1];
      MandatesFollowOrders(ctx, d, front);
      PassAdvances(ctx, d, front);
      var before, p := Pass(ctx, d, front), Pass(ctx, d, entries);
      assert before.orders[last] == d.orders[last] && last !in front;
      RecoverOneAdvances(ctx, before, last);
      hide Advances, Listing, Pass;
      forall e | e in d.mandates
        ensures FollowsAt(d, p, ctx.now, e)
      {
        assert FollowsAt(d, before, ctx.now, e);
        TurnClosesMandates(ctx, before, last, e);
        OneMoreLoss(d, before, p, last, e);
      }
    }
  }

  lemma {:induction false} OneMoreLoss(d: Durable, before: Durable, p: Durable, last: Id, e: Exposure)
    requires last in d.orders && last in before.orders && last in p.orders && before.orders[last] == d.orders[last]
    requires forall id | id != last :: Changed(d, p, id) <==> Changed(d, before, id)
    ensures LosesOrder(d, p, e) <==> LosesOrder(d, before, e) || (Changed(d, p, last) && Concerns(d, last, e))
  {
    hide Concerns;
    if LosesOrder(d, before, e) {
      var id :| Changed(d, before, id) && Concerns(d, id, e);
      assert id != last && Changed(d, p, id);
    }
  }

  /** No two entry orders were allocated from the same plan. */
  ghost predicate AtMostOneEntry(d: Durable) {
    forall a, b :: a in d.orders && b in d.orders && d.orders[a].entry && d.orders[b].entry
      && LinkedPlan(d, a).Some? && LinkedPlan(d, a) == LinkedPlan(d, b)
      ==> a == b
  }

  /** A retired plan says how its entry order stands. */
  predicate Tells(plan: PlanStatus, status: OrderStatus) {
    && (plan == PlanExecuted <==> status in {Submitted, Resting, PartiallyFilled, Filled})
    && (plan == PlanRejected <==> status == Rejected)
    && (plan == PlanExpired <==> status == Expired)
    && (plan == PlanCancelled <==> status == Cancelled)
  }

  ghost predicate LinkedTo(d: Durable, id: Id, plan: Id) {
    id in d.orders && d.orders[id].entry && LinkedPlan(d, id) == Some(plan)
  }

  /** The plan of a cancelled entry is invalidated; an active plan whose entry was not cancelled tells how that entry
      stands. */
  ghost predicate FollowsEntry(d: Durable, p: Durable, id: Id, q: Id) {
    && id in d.orders && q in d.plans && q in p.plans
    && (Changed(d, p, id) ==> p.plans[q] == PlanInvalidated)
    && (!Changed(d, p, id) && d.plans[q] == PlanActive ==> Tells(p.plans[q], d.orders[id].status))
    && (!Changed(d, p, id) && d.plans[q] != PlanActive ==> p.plans[q] == d.plans[q])
  }

  /** Every plan follows its entry order, and a plan without one stays as it was. */
  ghost predicate PlansFollow(d: Durable, p: Durable) {
    && p.plans.Keys == d.plans.Keys
    && (forall id, q | LinkedTo(d, id, q) && q in d.plans :: FollowsEntry(d, p, id, q))
    && (forall q | q in d.plans && (forall id :: !LinkedTo(d, id, q)) :: p.plans[q] == d.plans[q])
  }

  /** One turn for the plan of one order. */
  lemma {:induction false} TurnTellsPlan(ctx: Context, d: Durable, id: Id, q: Id)
    requires id in d.orders && d.orders[id].entry && q in d.plans
    ensures q in RecoverOne(ctx, d, id).plans
    ensures if LinkedTo(d, id, q) then FollowsEntry(d, RecoverOne(ctx, d, id), id, q)
            else RecoverOne(ctx, d, id).plans[q] == d.plans[q]
  {
    hide ValidMandate, MandateFits;
  }

  /** What the entries seen so far make of a plan. */
  ghost predicate FollowsSeen(d: Durable, p: Durable, entries: seq<Id>, q: Id) {
    && q in d.plans && q in p.plans
    && (forall id | id in entries && LinkedTo(d, id, q) :: FollowsEntry(d, p, id, q))
    && ((forall id | id in entries :: !LinkedTo(d, id, q)) ==> p.plans[q] == d.plans[q])
  }

  lemma {:induction false} PlanFollowsPrefix(ctx: Context, d: Durable, entries: seq<Id>, q: Id)
    requires Listing(d, entries) && AtMostOneEntry(d) && q in d.plans
    ensures FollowsSeen(d, Pass(ctx, d, entries), entries, q)
  {
    if entries != [] {
      hide RecoverOne, MandateFits, ValidMandate, FollowsEntry, Retired, FollowsSeen;
      var front, last := entries[..|entries| - 1], entries[|entries| - 1];
      PlanFollowsPrefix(ctx, d, front, q);
      PassAdvances(ctx, d, front);
      var before := Pass(ctx, d, front);
      assert before.orders[last] == d.orders[last] && last !in front;
      RecoverOneAdvances(ctx, before, last);
      PlanInTurn(ctx, before, last, q, front, d);
      assert entries == front + [last];
    }
  }

  lemma {:induction false} PlanInTurn(ctx: Context, before: Durable, last: Id, q: Id, front: seq<Id>, d: Durable)
    requires last in d.orders && d.orders[last].entry && last in before.orders && before.orders[last] == d.orders[last]
    requires AtMostOneEntry(d) && FollowsSeen(d, before, front, q) && last !in front
    requires before.allocations == d.allocations
    requires forall id :: id in before.orders && id != last ==>
                            id in RecoverOne(ctx, before, last).orders
                            && RecoverOne(ctx, before, last).orders[id] == before.orders[id]
    requires forall id | id in front :: id in before.orders
    requires forall id :: id in RecoverOne(ctx, before, last).orders ==> id in before.orders
    ensures FollowsSeen(d, RecoverOne(ctx, before, last), front + [last], q)
  {
    hide RecoverOne, Tells;
    TurnTellsPlan(ctx, before, last, q);
    assert LinkedTo(before, last, q) <==> LinkedTo(d, last, q);
    if LinkedTo(d, last, q) {
      assert forall id | id in front :: !LinkedTo(d, id, q);
    } else {
      assert forall id | id in front + [last] && LinkedTo(d, id, q) :: id in front;
    }
  }

  lemma {:induction false} PlansFollowOrders(ctx: Context, d: Durable, entries: seq<Id>)
    requires Complete(d, entries) && AtMostOneEntry(d)
    ensures PlansFollow(d, Pass(ctx, d, entries))
  {
    hide RecoverOne, MandateFits, ValidMandate, Pass, Retired, FollowsEntry;
    PassAdvances(ctx, d, entries);
    forall q | q in d.plans
      ensures forall id | LinkedTo(d, id, q) :: FollowsEntry(d, Pass(ctx, d, entries), id, q)
      ensures (forall id :: !LinkedTo(d, id, q)) ==> Pass(ctx, d, entries).plans[q] == d.plans[q]
    {
      PlanFollowsPrefix(ctx, d, entries, q);
    }
  }

  /** A settled state is a fixpoint: another pass changes nothing at all. */
  lemma {:induction false} SettledIsFixpoint(ctx: Context, d: Durable, entries: seq<Id>)
    requires Listing(d, entries) && Settled(ctx.cal, d) && !ctx.cancelAll
    ensures Pass(ctx, d, entries) == d
  {
    hide ValidMandate;
    if entries != [] {
      SettledIsFixpoint(ctx, d, entries[..|entries| - 1]);
      assert Retired(d, entries[|entries| - 1]);
    }
  }

  /** The second pass is really needed: a submitted order whose mandate fits is left behind without it when
      a crash also left a `created` order on the same exposure, because cancelling that one closes the mandate. */
  lemma {:induction false} SecondPassIsNeeded() returns (ctx: Context, d: Durable, entries: seq<Id>)
    ensures Complete(d, entries) && !ctx.cancelAll
    ensures !Settled(ctx.cal, Pass(ctx, d, entries))
    ensures |d.orders| == 2
  {
    var today := Session(0, 50000, 75000);
    assert IsCalendar([today]);
    var cal: Calendar := [today];
    ctx := Context(cal, false, 60000);
    var terms := Terms(2, EquityExposure("AAPL"), 1, STRATEGY, 7, "AAPL", Equity, IntradayClose, Some(0), 60000,
        70000, 70000, "", Some(97.0));
    SessionOnUnique(cal, 0);
    assert ValidatedTimes(cal, terms).Some?;
    UpperAapl();
    var submitted := Order(10, true, EquityExposure("AAPL"), "AAPL", Equity, Submitted);
    d := Durable(map[1 := submitted, 2 := submitted.(decision := 11, status := Created)],
                 map[EquityExposure("AAPL") := Mandate(terms, PendingFill, None, false, None, None)], map[], map[]);
    entries := [1, 2];
    assert MandateFits(cal, d.mandates, 1, submitted);
    assert UndercutAt(cal, d, entries, 0, 1);
    UndercutLeavesMisfit(ctx, d, entries, 0, 1);
  }

  lemma {:induction false} UpperAapl()
    ensures Upper("AAPL") == "AAPL"
  {
    assert forall i :: 0 <= i < 4 ==> Upper("AAPL")[i] == UpperChar("AAPL"[i]) == "AAPL"[i];
  }
}

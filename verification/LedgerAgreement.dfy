/** What both ledgers conserve over the same fills, and when their totals agree. */
module LedgerAgreement {
  import opened Basics
  import opened TradeFills
  import opened FifoLedger
  import opened FifoClosedForm
  import Average = AverageCostLedger

  function Nets(trips: seq<Trip>): seq<real> {
    seq(|trips|, i requires 0 <= i < |trips| => trips[i].net)
  }

  function Commissions(trips: seq<Trip>): seq<real> {
    seq(|trips|, i requires 0 <= i < |trips| => trips[i].commission)
  }

  function Quantities(trips: seq<Trip>): seq<real> {
    seq(|trips|, i requires 0 <= i < |trips| => trips[i].quantity)
  }

  // ---- Quantities -----------------------------------------------------------------------------

  /** What the trips take from the fill at one position, as an entry. */
  function TakenFrom(trips: seq<Trip>, i: nat): real {
    if trips == [] then 0.0
    else
      var last := trips[|trips| - 1];
      TakenFrom(trips[..|trips| - 1], i) + if last.entry == i then last.quantity else 0.0
  }

  lemma {:induction false} TakenFromConcat(a: seq<Trip>, b: seq<Trip>, i: nat)
    ensures TakenFrom(a + b, i) == TakenFrom(a, i) + TakenFrom(b, i)
  {
    if b == [] {
      assert a + b == a;
    } else {
      TakenFromConcat(a, b[..|b| - 1], i);
      assert (a + b)[..|a + b| - 1] == a + b[..|b| - 1];
    }
  }

  /** An exit's trips together have the length of its interval up to what was bought. */
  lemma {:induction false} MatchedQuantity(fills: seq<Fill>, exit: SizedFill, j: nat, from: real, to: real)
    requires 0.0 <= from <= to
    ensures Sum(Quantities(Matches(fills, exit, j, from, to)))
         == Min(to, Bought(fills, exit.identity)) - Min(from, Bought(fills, exit.identity))
  {
    hide MakeTrip;
    if fills != [] {
      hide Matches;
      hide Bought;
      hide Overlap;
      hide Min;
      var front, f := fills[..|fills| - 1], fills[|fills| - 1];
      assert fills == front + [f];
      MatchedQuantity(front, exit, j, from, to);
      OneMoreFill(front, f, exit, j, from, to);
      var start := Bought(front, exit.identity);
      var trips := Matches(front, exit, j, from, to);
      if Buys(f, exit.identity) {
        OverlapIsDifference(start, f.quantity, from, to);
        if Overlap(start, start + f.quantity, from, to) > 0.0 {
          TripQuantity(trips, |front|, f, exit, j, Overlap(start, start + f.quantity, from, to));
        } else {
          assert Matches(fills, exit, j, from, to) == trips;
        }
      } else {
        assert Matches(fills, exit, j, from, to) == trips;
      }
    }
  }

  lemma {:induction false} OverlapIsDifference(start: real, q: real, from: real, to: real)
    requires q > 0.0 && from <= to
    ensures Overlap(start, start + q, from, to)
            == (Min(to, start + q) - Min(from, start + q)) - (Min(to, start) - Min(from, start))
    ensures Overlap(start, start + q, from, to) >= 0.0
  {
  }

  lemma {:induction false} TripQuantity(trips: seq<Trip>, i: nat, entry: SizedFill, exit: SizedFill, j: nat, q: real)
    ensures Sum(Quantities(trips + [MakeTrip(i, entry, j, exit, q)])) == Sum(Quantities(trips)) + q
  {
    var t := MakeTrip(i, entry, j, exit, q);
    assert Quantities(trips + [t]) == Quantities(trips) + [q];
    SumAppend(Quantities(trips), q);
  }

  lemma {:induction false} OneTripTakes(n: nat, entry: SizedFill, j: nat, exit: SizedFill, matched: real, i: nat)
    ensures TakenFrom([MakeTrip(n, entry, j, exit, matched)], i) == if i == n then matched else 0.0
  {
    assert [MakeTrip(n, entry, j, exit, matched)][..0] == [];
  }

  lemma {:induction false} OverlapIsNotNegative(a0: real, a1: real, b0: real, b1: real)
    ensures Overlap(a0, a1, b0, b1) >= 0.0
  {
  }

  /** An exit takes from each entry exactly their overlap, and nothing from any other fill. */
  lemma {:induction false} MatchesTake(fills: seq<Fill>, exit: SizedFill, j: nat, from: real, to: real, i: nat)
    ensures TakenFrom(Matches(fills, exit, j, from, to), i)
         == if i < |fills| && Buys(fills[i], exit.identity) then
              var start := Bought(fills[..i], exit.identity);
              Overlap(start, start + fills[i].quantity, from, to)
            else 0.0
  {
    hide Bought, Overlap, MakeTrip, TakenFrom, Matches;
    if fills == [] {
      NothingTaken(exit, j, from, to, i);
    } else {
      var n := |fills| - 1;
      var front := fills[..n];
      MatchesTake(front, exit, j, from, to, i);
      MatchesOfLast(fills, exit, j, from, to);
      assert i < n ==> front[i] == fills[i] && front[..i] == fills[..i];
      var start := Bought(front, exit.identity);
      if Buys(fills[n], exit.identity) {
        var matched := Overlap(start, start + fills[n].quantity, from, to);
        OverlapIsNotNegative(start, start + fills[n].quantity, from, to);
        if matched > 0.0 {
          TakenFromConcat(Matches(front, exit, j, from, to), [MakeTrip(n, fills[n], j, exit, matched)], i);
          OneTripTakes(n, fills[n], j, exit, matched, i);
        }
      }
    }
  }

  lemma {:induction false} NothingTaken(exit: SizedFill, j: nat, from: real, to: real, i: nat)
    ensures TakenFrom(Matches([], exit, j, from, to), i) == 0.0
  {
  }

  lemma {:induction false} MatchesOfLast(fills: seq<Fill>, exit: SizedFill, j: nat, from: real, to: real)
    requires fills != []
    ensures var n := |fills| - 1;
            var start := Bought(fills[..n], exit.identity);
            var before := Matches(fills[..n], exit, j, from, to);
            Matches(fills, exit, j, from, to)
            == if Buys(fills[n], exit.identity) && Overlap(start, start + fills[n].quantity, from, to) > 0.0
               then before + [MakeTrip(n, fills[n], j, exit, Overlap(start, start + fills[n].quantity, from, to))]
               else before
  {
    hide Bought, Overlap, MakeTrip;
  }

  /** Consecutive sales cut consecutive pieces out of an entry. */
  lemma {:induction false} PiecesJoin(start: real, q: real, sold: real, more: real)
    requires q > 0.0 && sold >= 0.0 && more > 0.0
    ensures Min(q, Max(0.0, sold - start)) + Overlap(start, start + q, sold, sold + more)
            == Min(q, Max(0.0, sold + more - start))
  {
  }

  lemma {:induction false} EntryGivesMore(front: seq<Fill>, f: Fill, i: nat)
    requires i < |front| && Buys(front[i], front[i].identity)
    requires TakenFrom(ClosedForm(front), i)
            == Min(front[i].quantity, Max(0.0, Sold(front, front[i].identity) - EntryStart(front, i)))
    ensures TakenFrom(ClosedForm(front + [f]), i)
         == Min(front[i].quantity, Max(0.0, Sold(front + [f], front[i].identity) - EntryStart(front, i)))
  {
    hide ClosedForm;
    hide Matches;
    hide Overlap;
    hide Min;
    hide Max;
    var id, sold := front[i].identity, Sold(front, f.identity);
    ClosedFormGrows(front, f);
    CumulativeQuantities(front, f, id);
    if Sells(f, f.identity) {
      TakenFromConcat(ClosedForm(front), Matches(front, f, |front|, sold, sold + f.quantity), i);
      MatchesTake(front, f, |front|, sold, sold + f.quantity, i);
      if f.identity == id {
        PiecesJoin(EntryStart(front, i), front[i].quantity, sold, f.quantity);
      }
    } else {
      assert ClosedForm(front + [f]) == ClosedForm(front);
    }
  }

  /** Over the whole stream each entry has given up the part of its interval that was sold. */
  lemma {:induction false} EntriesGiveWhatWasSold(fills: seq<Fill>, i: nat)
    requires i < |fills| && Buys(fills[i], fills[i].identity) && NoOverSell(fills)
    ensures TakenFrom(ClosedForm(fills), i)
         == Min(fills[i].quantity, Max(0.0, Sold(fills, fills[i].identity) - EntryStart(fills, i)))
  {
    var n, id := |fills| - 1, fills[i].identity;
    var front, f := fills[..n], fills[n];
    assert fills == front + [f];
    PrefixesAreFine(EquityMarket, fills, n);
    if i < n {
      assert front[i] == fills[i] && front[..i] == fills[..i];
      EntriesGiveWhatWasSold(front, i);
      EntryGivesMore(front, f, i);
    } else {
      ClosedFormGrows(front, f);
      assert ClosedForm(fills) == ClosedForm(front);
      FutureEntriesUntouched(front, i);
      FifoIsClosedForm(front);
      assert Follows(Run(front), front, id);
      CumulativeQuantities(front, f, id);
    }
  }

  lemma {:induction false} FutureEntriesUntouched(fills: seq<Fill>, i: nat)
    requires |fills| <= i
    ensures TakenFrom(ClosedForm(fills), i) == 0.0
  {
    if fills != [] {
      var front, f := fills[..|fills| - 1], fills[|fills| - 1];
      var sold := Sold(front, f.identity);
      FutureEntriesUntouched(front, i);
      ClosedFormGrows(front, f);
      assert fills == front + [f];
      if Sells(f, f.identity) {
        TakenFromConcat(ClosedForm(front), Matches(front, f, |front|, sold, sold + f.quantity), i);
        MatchesTake(front, f, |front|, sold, sold + f.quantity, i);
      } else {
        assert ClosedForm(fills) == ClosedForm(front);
      }
    }
  }

  // ---- Money ----------------------------------------------------------------------------------

  /** Commission of an entry that its open quantity still carries. */
  function OpenCommission(lot: Lot): real {
    Share(lot.fill.commission, lot.remaining, lot.fill.quantity)
  }

  /** What the open quantity cost, its share of the entry commission included. */
  function OpenCost(lot: Lot): real {
    Amount(lot.remaining, lot.fill.price, lot.fill.multiplier) + OpenCommission(lot)
  }

  function LotCosts(lots: seq<Lot>): seq<real> {
    seq(|lots|, i requires 0 <= i < |lots| => OpenCost(lots[i]))
  }

  function LotCommissions(lots: seq<Lot>): seq<real> {
    seq(|lots|, i requires 0 <= i < |lots| => OpenCommission(lots[i]))
  }

  function TotalCost(lots: seq<Lot>): real {
    Sum(LotCosts(lots))
  }

  function TotalCommission(lots: seq<Lot>): real {
    Sum(LotCommissions(lots))
  }

  function Net(trips: seq<Trip>): real {
    Sum(Nets(trips))
  }

  function Commission(trips: seq<Trip>): real {
    Sum(Commissions(trips))
  }

  lemma {:induction false} LotsConcat(a: seq<Lot>, b: seq<Lot>)
    ensures TotalCost(a + b) == TotalCost(a) + TotalCost(b)
    ensures TotalCommission(a + b) == TotalCommission(a) + TotalCommission(b)
  {
    assert LotCosts(a + b) == LotCosts(a) + LotCosts(b);
    assert LotCommissions(a + b) == LotCommissions(a) + LotCommissions(b);
    SumConcat(LotCosts(a), LotCosts(b));
    SumConcat(LotCommissions(a), LotCommissions(b));
  }

  lemma {:induction false} TripsConcat(a: seq<Trip>, b: seq<Trip>)
    ensures Net(a + b) == Net(a) + Net(b) && Commission(a + b) == Commission(a) + Commission(b)
  {
    assert Nets(a + b) == Nets(a) + Nets(b);
    assert Commissions(a + b) == Commissions(a) + Commissions(b);
    SumConcat(Nets(a), Nets(b));
    SumConcat(Commissions(a), Commissions(b));
  }

  lemma {:induction false} OneLot(lot: Lot)
    ensures TotalCost([lot]) == OpenCost(lot) && TotalCommission([lot]) == OpenCommission(lot)
  {
    assert LotCosts([lot]) == [OpenCost(lot)] && LotCommissions([lot]) == [OpenCommission(lot)];
    SumAppend([], OpenCost(lot));
    SumAppend([], OpenCommission(lot));
    assert [] + [OpenCost(lot)] == [OpenCost(lot)] && [] + [OpenCommission(lot)] == [OpenCommission(lot)];
  }

  lemma {:induction false} OneTrip(t: Trip)
    ensures Net([t]) == t.net && Commission([t]) == t.commission
  {
    assert Nets([t]) == [t.net] && Commissions([t]) == [t.commission];
    SumAppend([], t.net);
    SumAppend([], t.commission);
    assert [] + [t.net] == [t.net] && [] + [t.commission] == [t.commission];
  }

  lemma {:induction false} ShareSplits(amount: real, all: real, part: real, whole: real)
    requires whole > 0.0
    ensures Share(amount, all - part, whole) == Share(amount, all, whole) - Share(amount, part, whole)
    ensures Share(amount, whole, whole) == amount && Share(amount, 0.0, whole) == 0.0
  {
    assert amount * (all - part) == amount * all - amount * part;
    assert (amount * all - amount * part) / whole == amount * all / whole - amount * part / whole;
  }

  /** A trip earns its proceeds less the cost it takes out of the lot, less its share of the exit commission. */
  lemma {:induction false} TripTakesCost(lot: Lot, exit: SizedFill, j: nat, matched: real)
    requires lot.fill.multiplier == exit.multiplier
    ensures var t := MakeTrip(lot.entry, lot.fill, j, exit, matched);
            var after := lot.(remaining := lot.remaining - matched);
            && t.net - OpenCost(after) == Amount(matched, exit.price, exit.multiplier)
                                          - Share(exit.commission, matched, exit.quantity) - OpenCost(lot)
            && t.commission + OpenCommission(after)
                == Share(exit.commission, matched, exit.quantity) + OpenCommission(lot)
  {
    TripProceeds(lot, exit, j, matched);
    hide Amount;
    hide Share;
    hide MakeTrip;
    AmountSplits(lot.remaining, matched, lot.fill.price, lot.fill.multiplier);
    ShareSplits(lot.fill.commission, lot.remaining, matched, lot.fill.quantity);
  }

  lemma {:induction false} TripProceeds(lot: Lot, exit: SizedFill, j: nat, matched: real)
    ensures var t := MakeTrip(lot.entry, lot.fill, j, exit, matched);
            && t.commission == Share(lot.fill.commission, matched, lot.fill.quantity)
                + Share(exit.commission, matched, exit.quantity)
            && t.net == Amount(matched, exit.price, exit.multiplier) - Amount(matched, lot.fill.price,
                exit.multiplier) - t.commission
  {
    var gain := (exit.price - lot.fill.price) * (matched * exit.multiplier);
    assert gain == Amount(matched, exit.price, exit.multiplier) - Amount(matched, lot.fill.price, exit.multiplier);
  }

  ghost predicate SameMultiplier(lots: seq<Lot>, multiplier: real) {
    forall n :: 0 <= n < |lots| ==> lots[n].fill.multiplier == multiplier
  }

  /** What the trips of an exit earn, and what the lots still carry, balances against the quantity moved. */
  ghost predicate Balances(before: seq<Lot>, after: seq<Lot>, trips: seq<Trip>, exit: SizedFill, moved: real) {
    && Net(trips) - TotalCost(after)
       == Amount(moved, exit.price, exit.multiplier) - Share(exit.commission, moved, exit.quantity) - TotalCost(before)
    && Commission(trips) + TotalCommission(after)
        == Share(exit.commission, moved, exit.quantity) + TotalCommission(before)
  }

  lemma {:induction false} MatchConserves(lots: seq<Lot>, exit: SizedFill, j: nat, remaining: real)
    requires SameMultiplier(lots, exit.multiplier)
    ensures var m := Match(lots, exit, j, remaining);
            Balances(lots, m.lots, m.trips, exit, remaining - m.left) && SameMultiplier(m.lots, exit.multiplier)
  {
    hide MakeTrip;
    hide Match;
    hide Balances;
    if lots == [] || remaining <= 0.0 {
      MatchStops(lots, exit, j, remaining);
      NothingMoved(lots, exit);
    } else {
      var matched := Max(0.0, Min(lots[0].remaining, remaining));
      MatchHead(lots, exit, j, remaining);
      MatchConserves(lots[1..], exit, j, remaining - matched);
      var rest := Match(lots[1..], exit, j, remaining - matched);
      TurnConserves(lots[0], lots[1..], rest, exit, j, matched, remaining - matched - rest.left);
      assert lots == [lots[0]] + lots[1..];
    }
  }

  /** One turn of the walk on top of the rest of it. */
  lemma {:induction false} TurnConserves(lot: Lot, lots: seq<Lot>, rest: Matching, exit: SizedFill, j: nat,
      matched: real, moved: real)
    requires lot.fill.multiplier == exit.multiplier && matched >= 0.0
    requires Balances(lots, rest.lots, rest.trips, exit, moved)
    ensures Balances([lot] + lots, [lot.(remaining := lot.remaining - matched)] + rest.lots,
                     (if matched > 0.0 then [MakeTrip(lot.entry, lot.fill, j, exit, matched)] else []) + rest.trips,
                     exit, matched + moved)
  {
    hide MakeTrip;
    hide Share;
    hide Amount;
    hide Net;
    hide Commission;
    hide TotalCost;
    hide TotalCommission;
    hide OpenCost;
    hide OpenCommission;
    var turned := lot.(remaining := lot.remaining - matched);
    LotsConcat([turned], rest.lots);
    LotsConcat([lot], lots);
    OneLot(turned);
    OneLot(lot);
    AmountSplits(matched + moved, moved, exit.price, exit.multiplier);
    ShareSplits(exit.commission, matched + moved, moved, exit.quantity);
    if matched > 0.0 {
      var t := MakeTrip(lot.entry, lot.fill, j, exit, matched);
      TripTakesCost(lot, exit, j, matched);
      OneTrip(t);
      TripsConcat([t], rest.trips);
    } else {
      ShareSplits(exit.commission, 0.0, 0.0, exit.quantity);
      assert turned == lot && [] + rest.trips == rest.trips;
    }
  }

  lemma {:induction false} NothingMoved(lots: seq<Lot>, exit: SizedFill)
    ensures Balances(lots, lots, [], exit, 0.0)
  {
  }

  // ---- The FIFO ledger over a whole stream ----------------------------------------------------

  function CostTable(lots: map<string, seq<Lot>>): map<string, real> {
    map id | id in lots :: TotalCost(lots[id])
  }

  function CommissionTable(lots: map<string, seq<Lot>>): map<string, real> {
    map id | id in lots :: TotalCommission(lots[id])
  }

  /** All commissions paid on counted fills. */
  function Paid(fills: seq<Fill>): real {
    if fills == [] then 0.0
    else
      var f := fills[|fills| - 1];
      Paid(fills[..|fills| - 1]) + if Counted(f) && f.action != OtherAction then f.commission else 0.0
  }

  lemma {:induction false} TablesUpdate(ledger: Ledger, id: string, lots: seq<Lot>)
    ensures Total(CostTable(ledger.lots[id := lots])) - Total(CostTable(ledger.lots))
            == TotalCost(lots) - TotalCost(LotsOf(ledger, id))
    ensures Total(CommissionTable(ledger.lots[id := lots])) - Total(CommissionTable(ledger.lots))
         == TotalCommission(lots) - TotalCommission(LotsOf(ledger, id))
  {
    EmptyLotsAreFree();
    hide TotalCost;
    hide TotalCommission;
    assert CostTable(ledger.lots[id := lots]) == CostTable(ledger.lots)[id := TotalCost(lots)];
    assert CommissionTable(ledger.lots[id := lots]) == CommissionTable(ledger.lots)[id := TotalCommission(lots)];
    TotalUpdate(CostTable(ledger.lots), id, TotalCost(lots));
    TotalUpdate(CommissionTable(ledger.lots), id, TotalCommission(lots));
  }

  lemma {:induction false} EmptyLotsAreFree()
    ensures TotalCost([]) == 0.0 && TotalCommission([]) == 0.0
  {
  }

  /** Lots that are used up cost nothing, so dropping them changes no total. */
  lemma {:induction false} OpenKeepsTotals(lots: seq<Lot>)
    requires forall n :: 0 <= n < |lots| ==> lots[n].remaining >= 0.0
    ensures TotalCost(Open(lots)) == TotalCost(lots) && TotalCommission(Open(lots)) == TotalCommission(lots)
  {
    hide TotalCost;
    hide TotalCommission;
    if lots != [] {
      var front, last := lots[..|lots| - 1], lots[|lots| - 1];
      OpenKeepsTotals(front);
      assert lots == front + [last];
      LotsConcat(front, [last]);
      LotsConcat(Open(front), [last]);
      OneLot(last);
      if last.remaining == 0.0 {
        SpentLotIsFree(last);
        assert Open(lots) == Open(front);
      }
    }
  }

  lemma {:induction false} SpentLotIsFree(lot: Lot)
    requires lot.remaining == 0.0
    ensures OpenCost(lot) == 0.0 && OpenCommission(lot) == 0.0
  {
  }

  lemma {:induction false} MatchLeavesNoDebt(lots: seq<Lot>, exit: SizedFill, j: nat, remaining: real)
    requires forall n :: 0 <= n < |lots| ==> lots[n].remaining >= 0.0
    ensures forall n :: 0 <= n < |Match(lots, exit, j, remaining).lots| ==>
              Match(lots, exit, j, remaining).lots[n].remaining >= 0.0
  {
    hide MakeTrip;
    if lots != [] && remaining > 0.0 {
      var matched := Min(lots[0].remaining, remaining);
      MatchLeavesNoDebt(lots[1..], exit, j, if matched <= 0.0 then remaining else remaining - matched);
    }
  }

  lemma {:induction false} RemainingShareMultiplier(fills: seq<Fill>, id: string, sold: real, multiplier: real)
    requires forall k :: 0 <= k < |fills| && fills[k].identity == id ==> fills[k].multiplier == multiplier
    ensures SameMultiplier(RemainingLots(fills, id, sold), multiplier)
  {
    if fills != [] {
      RemainingShareMultiplier(fills[..|fills| - 1], id, sold, multiplier);
    }
  }

  /** One sale: the trips it makes and the lots it leaves. */
  lemma {:induction false} SaleBalances(front: seq<Fill>, f: SizedFill)
    requires Follows(Run(front), front, f.identity) && Sells(f, f.identity)
    requires Sold(front, f.identity) + f.quantity <= Bought(front, f.identity)
    requires forall k :: 0 <= k < |front| && front[k].identity == f.identity ==> front[k].multiplier == f.multiplier
    ensures var lots := LotsOf(Run(front), f.identity);
            var m := Match(lots, f, |front|, f.quantity);
            Balances(lots, Open(m.lots), m.trips, f, f.quantity)
  {
    hide Match;
    hide MakeTrip;
    hide Balances;
    var lots := LotsOf(Run(front), f.identity);
    var m := Match(lots, f, |front|, f.quantity);
    MatchIsOverlap(front, f, |front|, Sold(front, f.identity));
    RemainingShareMultiplier(front, f.identity, Sold(front, f.identity), f.multiplier);
    MatchConserves(lots, f, |front|, f.quantity);
    MatchLeavesNoDebt(lots, f, |front|, f.quantity);
    assert m.left == 0.0;
    BalancesAfterOpen(lots, m.lots, m.trips, f);
  }

  lemma {:induction false} BalancesAfterOpen(before: seq<Lot>, after: seq<Lot>, trips: seq<Trip>, exit: SizedFill)
    requires Balances(before, after, trips, exit, exit.quantity)
    requires forall n :: 0 <= n < |after| ==> after[n].remaining >= 0.0
    ensures Balances(before, Open(after), trips, exit, exit.quantity)
  {
    OpenKeepsTotals(after);
  }

  /** Both FIFO balances carry over one more fill. */
  lemma {:induction false} FifoStepConserves(front: seq<Fill>, f: Fill)
    requires f.identity != "" ==> Follows(Run(front), front, f.identity)
    requires Sells(f, f.identity) ==> Sold(front, f.identity) + f.quantity <= Bought(front, f.identity)
    requires forall k :: 0 <= k < |front| && front[k].identity == f.identity ==> front[k].multiplier == f.multiplier
    ensures var before, after := Run(front), Step(Run(front), f, |front|);
            && Net(after.trips) - Total(CostTable(after.lots))
                == Net(before.trips) - Total(CostTable(before.lots)) + CashOf(f)
            && Commission(after.trips) + Total(CommissionTable(after.lots))
               == Commission(before.trips) + Total(CommissionTable(before.lots))
                  + if Counted(f) && f.action != OtherAction then f.commission else 0.0
  {
    hide Match;
    hide Net;
    hide Commission;
    hide TotalCost;
    hide TotalCommission;
    hide Amount;
    hide Share;
    var ledger := Run(front);
    if Counted(f) && f.action == Buy {
      var lot := Lot(|front|, f.quantity, f);
      LotsConcat(LotsOf(ledger, f.identity), [lot]);
      OneLot(lot);
      ShareSplits(f.commission, f.quantity, 0.0, f.quantity);
      TablesUpdate(ledger, f.identity, LotsOf(ledger, f.identity) + [lot]);
    } else if Counted(f) && f.action == Sell {
      var m := Match(LotsOf(ledger, f.identity), f, |front|, f.quantity);
      SaleBalances(front, f);
      ShareSplits(f.commission, f.quantity, 0.0, f.quantity);
      TripsConcat(ledger.trips, m.trips);
      TablesUpdate(ledger, f.identity, Open(m.lots));
    }
  }

  /** FIFO net is the net cash flow plus the cost of the open lots; matched and open lots together
      carry every commission paid. */
  lemma {:induction false} FifoConserves(market: Market, fills: seq<Fill>)
    requires WellFormed(market, fills) && NoOverSell(fills)
    ensures Net(Run(fills).trips) == Cash(fills) + Total(CostTable(Run(fills).lots))
    ensures Commission(Run(fills).trips) + Total(CommissionTable(Run(fills).lots)) == Paid(fills)
  {
    if fills == [] {
      assert CostTable(map[]) == map[] && CommissionTable(map[]) == map[];
    } else {
      hide Match;
      hide Step;
      hide Follows;
      hide Net;
      hide Commission;
      var n := |fills| - 1;
      var front, f := fills[..n], fills[n];
      PrefixesAreFine(market, fills, n);
      FifoConserves(market, front);
      FifoIsClosedForm(front);
      assert forall k :: 0 <= k < n ==> front[k] == fills[k];
      FifoStepConserves(front, f);
    }
  }

  /** On any priced stream without over-selling the two totals differ by what the books carry. */
  lemma {:induction false} LedgersDifferByHeldCost(market: Market, fills: seq<Fill>)
    requires WellFormed(market, fills) && NoOverSell(fills)
    ensures Sum(Average.Run(market, fills).pnls) - Total(Average.Costs(Average.Run(market, fills).holdings))
         == Net(Run(fills).trips) - Total(CostTable(Run(fills).lots))
  {
    Average.AverageCostConserves(market, fills);
    FifoConserves(market, fills);
  }

  lemma {:induction false} TotalOfZeros(m: map<string, real>)
    requires forall k :: k in m ==> m[k] == 0.0
    ensures Total(m) == 0.0
    decreases |m|
  {
    if m != map[] {
      var k :| k in m;
      TotalSplits(m, k);
      TotalOfZeros(m - {k});
    }
  }

  lemma {:induction false} NothingRemains(fills: seq<Fill>, id: string, sold: real)
    requires Bought(fills, id) <= sold
    ensures RemainingLots(fills, id, sold) == []
  {
    if fills != [] {
      NothingRemains(fills[..|fills| - 1], id, sold);
    }
  }

  /** Neither book ever has an entry without identity. */
  lemma {:induction false} NoBlankEntries(market: Market, fills: seq<Fill>)
    requires forall k :: 0 <= k < |fills| ==> fills[k].multiplier > 0.0
    ensures "" !in Run(fills).lots && "" !in Average.Run(market, fills).holdings
  {
    hide Match;
    if fills != [] {
      NoBlankEntries(market, fills[..|fills| - 1]);
    }
  }

  /** On any priced stream without over-selling that ends flat, the two ledgers report the same total,
      and the trips carry every commission that was paid. */
  lemma {:induction false} LedgersAgreeWhenFlat(market: Market, fills: seq<Fill>)
    requires WellFormed(market, fills) && NoOverSell(fills) && Flat(fills)
    ensures Sum(Average.Run(market, fills).pnls) == Net(Run(fills).trips) == Cash(fills)
    ensures Commission(Run(fills).trips) == Paid(fills)
  {
    hide Net;
    hide Commission;
    FifoConserves(market, fills);
    LotsAreSpent(market, fills);
    HoldingsAreSpent(market, fills);
  }

  lemma {:induction false} LotsAreSpent(market: Market, fills: seq<Fill>)
    requires WellFormed(market, fills) && NoOverSell(fills) && Flat(fills)
    ensures Total(CostTable(Run(fills).lots)) == 0.0 && Total(CommissionTable(Run(fills).lots)) == 0.0
  {
    FifoIsClosedForm(fills);
    NoBlankEntries(market, fills);
    EmptyLotsAreFree();
    var lots := Run(fills).lots;
    forall id | id in lots
      ensures lots[id] == []
    {
      assert Follows(Run(fills), fills, id);
      NothingRemains(fills, id, Sold(fills, id));
    }
    hide TotalCost;
    hide TotalCommission;
    TotalOfZeros(CostTable(lots));
    TotalOfZeros(CommissionTable(lots));
  }

  lemma {:induction false} HoldingsAreSpent(market: Market, fills: seq<Fill>)
    requires WellFormed(market, fills) && NoOverSell(fills) && Flat(fills)
    ensures Sum(Average.Run(market, fills).pnls) == Cash(fills)
  {
    Average.AverageCostConserves(market, fills);
    NoBlankEntries(market, fills);
    var holdings := Average.Run(market, fills).holdings;
    forall id | id in holdings
      ensures Average.CostOf(holdings[id]) == 0.0
    {
      Average.EmptyHoldingCostsNothing(holdings[id]);
    }
    TotalOfZeros(Average.Costs(holdings));
  }
}

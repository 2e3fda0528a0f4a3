/** The first-in-first-out walk needs no lots: what it matches is the overlap of the entry's and the
    exit's intervals on the axis of cumulative quantity. */
module FifoClosedForm {
  import opened Basics
  import opened TradeFills
  import opened FifoLedger

  /** Length of the intersection of [a0, a1] and [b0, b1]. */
  function Overlap(a0: real, a1: real, b0: real, b1: real): real {
    Max(0.0, Min(a1, b1) - Max(a0, b0))
  }

  /** An entry's interval begins at what was bought before it. */
  function EntryStart(fills: seq<Fill>, i: nat): real
    requires i < |fills|
  {
    Bought(fills[..i], fills[i].identity)
  }

  /** The entries of an identity that reach beyond the first `sold` units, with what they have left. */
  function RemainingLots(fills: seq<Fill>, id: string, sold: real): (r: seq<Lot>)
    ensures forall n :: 0 <= n < |r| ==> r[n].remaining > 0.0
  {
    if fills == [] then []
    else
      var n := |fills| - 1;
      var end := Bought(fills[..n], id) + fills[n].quantity;
      RemainingLots(fills[..n], id, sold)
      + if Buys(fills[n], id) && end > sold then [Lot(n, Min(fills[n].quantity, end - sold), fills[n])] else []
  }

  /** The trips of an exit that covers the units from `from` to `to`. */
  function Matches(fills: seq<Fill>, exit: SizedFill, j: nat, from: real, to: real): seq<Trip>
  {
    if fills == [] then []
    else
      var n := |fills| - 1;
      var start := Bought(fills[..n], exit.identity);
      Matches(fills[..n], exit, j, from, to)
      + if Buys(fills[n], exit.identity) && Overlap(start, start + fills[n].quantity, from, to) > 0.0 then
          [MakeTrip(n, fills[n], j, exit, Overlap(start, start + fills[n].quantity, from, to))]
        else []
  }

  /** All trips, written down directly. */
  function ClosedForm(fills: seq<Fill>): seq<Trip> {
    if fills == [] then []
    else
      var n := |fills| - 1;
      var f := fills[n];
      var sold := Sold(fills[..n], f.identity);
      ClosedForm(fills[..n])
      + if Sells(f, f.identity) then Matches(fills[..n], f, n, sold, sold + f.quantity) else []
  }

  /** The first turn of a walk that has quantity left. */
  lemma {:induction false} MatchHead(lots: seq<Lot>, exit: SizedFill, j: nat, remaining: real)
    requires lots != [] && remaining > 0.0
    ensures var matched := Max(0.0, Min(lots[0].remaining, remaining));
            var rest := Match(lots[1..], exit, j, remaining - matched);
            Match(lots, exit, j, remaining)
            == Matching([lots[0].(remaining := lots[0].remaining - matched)] + rest.lots,
                        (if matched > 0.0 then [MakeTrip(lots[0].entry, lots[0].fill, j, exit, matched)]
                            else []) + rest.trips,
                        rest.left)
  {
    hide MakeTrip;
  }

  lemma {:induction false} MatchAppend(lots: seq<Lot>, last: Lot, exit: SizedFill, j: nat, remaining: real)
    ensures var m := Match(lots, exit, j, remaining);
            var tail := Match([last], exit, j, m.left);
            Match(lots + [last], exit, j, remaining) == Matching(m.lots + tail.lots, m.trips + tail.trips, tail.left)
  {
    hide MakeTrip;
    hide Match;
    var all := lots + [last];
    if lots == [] {
      assert all == [last];
      MatchStops([], exit, j, remaining);
    } else if remaining <= 0.0 {
      MatchStops(lots, exit, j, remaining);
      MatchStops([last], exit, j, remaining);
      MatchStops(all, exit, j, remaining);
    } else {
      assert all[0] == lots[0] && all[1..] == lots[1..] + [last];
      MatchHead(lots, exit, j, remaining);
      MatchHead(all, exit, j, remaining);
      MatchAppend(lots[1..], last, exit, j, remaining - Max(0.0, Min(lots[0].remaining, remaining)));
    }
  }

  lemma {:induction false} MatchOne(last: Lot, exit: SizedFill, j: nat, remaining: real)
    requires last.remaining > 0.0
    ensures var matched := Min(last.remaining, remaining);
            Match([last], exit, j, remaining) ==
              if remaining <= 0.0 then Matching([last], [], remaining)
              else Matching([last.(remaining := last.remaining - matched)],
                            [MakeTrip(last.entry, last.fill, j, exit, matched)], remaining - matched)
  {
    hide MakeTrip;
    assert [last][1..] == [];
  }

  lemma {:induction false} OpenAppend(lots: seq<Lot>, more: seq<Lot>)
    requires |more| <= 1
    ensures Open(lots + more) == Open(lots) + Open(more)
  {
    if more == [] {
      assert lots + more == lots;
    } else {
      assert (lots + more)[..|lots|] == lots;
      assert more[..0] == [];
    }
  }

  /** What one exit does to an identity's remaining lots. */
  ghost predicate MatchesOverlap(fills: seq<Fill>, exit: SizedFill, j: nat, sold: real)
  {
    var to := sold + exit.quantity;
    var m := Match(RemainingLots(fills, exit.identity, sold), exit, j, exit.quantity);
    && m.trips == Matches(fills, exit, j, sold, to)
    && Open(m.lots) == RemainingLots(fills, exit.identity, to)
    && m.left == Max(0.0, to - Max(sold, Bought(fills, exit.identity)))
  }

  /** Matching greedily what is left of an entry with what is left of an exit cuts out their overlap. */
  lemma {:induction false} GreedyIsOverlap(start: real, q: real, sold: real, to: real)
    requires q > 0.0 && sold < to && start + q > sold
    ensures var left := Max(0.0, to - Max(sold, start));
            var remaining := Min(q, start + q - sold);
            var matched := Min(remaining, left);
            && remaining > 0.0
            && Overlap(start, start + q, sold, to) == matched
            && (left <= 0.0 ==> matched == 0.0 && start + q > to && remaining == Min(q, start + q - to))
            && (left > 0.0 ==> matched > 0.0)
            && (remaining - matched > 0.0 <==> start + q > to)
            && (start + q > to ==> remaining - matched == Min(q, start + q - to))
            && left - matched == Max(0.0, to - Max(sold, start + q))
  {
  }

  /** How the three descriptions grow with one more fill. */
  lemma {:induction false} OneMoreFill(fills: seq<Fill>, f: Fill, exit: SizedFill, j: nat, from: real, to: real)
    ensures var id, start := exit.identity, Bought(fills, exit.identity);
            && Bought(fills + [f], id) == start + (if Buys(f, id) then f.quantity else 0.0)
            && RemainingLots(fills + [f], id, from) == RemainingLots(fills, id, from)
               + (if Buys(f, id) && start + f.quantity > from
                   then [Lot(|fills|, Min(f.quantity, start + f.quantity - from), f)] else [])
            && Matches(fills + [f], exit, j, from, to) == Matches(fills, exit, j, from, to)
               + (if Buys(f, id) && Overlap(start, start + f.quantity, from, to) > 0.0 then
                    [MakeTrip(|fills|, f, j, exit, Overlap(start, start + f.quantity, from, to))] else [])
  {
    hide MakeTrip;
    hide Overlap;
    hide Min;
    var all := fills + [f];
    assert all[|all| - 1] == f && all[..|all| - 1] == fills;
  }

  /** An entry that still has something left is matched by exactly its overlap. */
  lemma {:induction false} OneMoreLot(fills: seq<Fill>, f: Fill, exit: SizedFill, j: nat, sold: real)
    requires sold >= 0.0 && MatchesOverlap(fills, exit, j, sold)
    requires Buys(f, exit.identity) && Bought(fills, exit.identity) + f.quantity > sold
    ensures MatchesOverlap(fills + [f], exit, j, sold)
  {
    hide MakeTrip;
    hide Match;
    hide Open;
    hide Overlap;
    hide Min;
    hide Max;
    hide RemainingLots;
    hide Matches;
    hide Bought;
    var id, to, start := exit.identity, sold + exit.quantity, Bought(fills, exit.identity);
    GreedyIsOverlap(start, f.quantity, sold, to);
    OneMoreFill(fills, f, exit, j, sold, to);
    OneMoreFill(fills, f, exit, j, to, to);
    var lots := RemainingLots(fills, id, sold);
    var last := Lot(|fills|, Min(f.quantity, start + f.quantity - sold), f);
    var m := Match(lots, exit, j, exit.quantity);
    MatchAppend(lots, last, exit, j, exit.quantity);
    MatchOne(last, exit, j, m.left);
    var tail := Match([last], exit, j, m.left);
    OpenAppend(m.lots, tail.lots);
    OpenOne(tail.lots[0]);
  }

  /** One exit against the remaining lots produces the overlaps and leaves the later remaining lots. */
  lemma {:induction false} MatchIsOverlap(fills: seq<Fill>, exit: SizedFill, j: nat, sold: real)
    requires sold >= 0.0
    ensures MatchesOverlap(fills, exit, j, sold)
  {
    hide MakeTrip, Match, Overlap;
    if fills == [] {
      MatchNothing(exit, j);
    } else {
      hide RemainingLots, Matches;
      var front, f := fills[..|fills| - 1], fills[|fills| - 1];
      assert fills == front + [f];
      MatchIsOverlap(front, exit, j, sold);
      if Buys(f, exit.identity) && Bought(front, exit.identity) + f.quantity > sold {
        OneMoreLot(front, f, exit, j, sold);
      } else {
        SpentFill(front, f, exit, j, sold);
      }
    }
  }

  /** A fill that is no entry of the identity, or was sold before, changes nothing for a later exit. */
  lemma {:induction false} SpentFill(front: seq<Fill>, f: Fill, exit: SizedFill, j: nat, sold: real)
    requires sold >= 0.0 && !(Buys(f, exit.identity) && Bought(front, exit.identity) + f.quantity > sold)
    ensures var fills, to := front + [f], sold + exit.quantity;
            && RemainingLots(fills, exit.identity, sold) == RemainingLots(front, exit.identity, sold)
            && RemainingLots(fills, exit.identity, to) == RemainingLots(front, exit.identity, to)
            && Matches(fills, exit, j, sold, to) == Matches(front, exit, j, sold, to)
  {
    hide MakeTrip, Bought, RemainingLots, Matches;
    var to := sold + exit.quantity;
    OneMoreFill(front, f, exit, j, sold, to);
    OneMoreFill(front, f, exit, j, to, to);
  }

  lemma {:induction false} MatchNothing(exit: SizedFill, j: nat)
    ensures Match([], exit, j, exit.quantity) == Matching([], [], exit.quantity)
  {
  }

  lemma {:induction false} OpenOne(lot: Lot)
    ensures Open([lot]) == if lot.remaining > 0.0 then [lot] else []
  {
    assert [lot][..0] == [];
  }

  // ---- Whole streams --------------------------------------------------------------------------

  /** The ledger's open lots of an identity are the entries that reach beyond what was sold of it. */
  ghost predicate Follows(ledger: Ledger, fills: seq<Fill>, id: string) {
    && LotsOf(ledger, id) == RemainingLots(fills, id, Sold(fills, id))
    && Sold(fills, id) <= Bought(fills, id)
  }

  lemma {:induction false} OthersLeaveRemaining(front: seq<Fill>, f: Fill, id: string, sold: real)
    requires !Buys(f, id)
    ensures RemainingLots(front + [f], id, sold) == RemainingLots(front, id, sold)
  {
    assert (front + [f])[..|front|] == front;
  }

  lemma {:induction false} CumulativeQuantities(front: seq<Fill>, f: Fill, id: string)
    ensures Sold(front + [f], id) == Sold(front, id) + if Sells(f, id) then f.quantity else 0.0
    ensures Bought(front + [f], id) == Bought(front, id) + if Buys(f, id) then f.quantity else 0.0
  {
    assert (front + [f])[..|front|] == front;
  }

  lemma {:induction false} BuyAddsLot(ledger: Ledger, front: seq<Fill>, f: SizedFill)
    requires Follows(ledger, front, f.identity) && Buys(f, f.identity)
    ensures Follows(Step(ledger, f, |front|), front + [f], f.identity)
  {
    hide RemainingLots;
    CumulativeQuantities(front, f, f.identity);
    OneMoreFill(front, f, f, 0, Sold(front, f.identity), 0.0);
  }

  lemma {:induction false} SaleTakesOverlap(ledger: Ledger, front: seq<Fill>, f: SizedFill, sold: real)
    requires Sells(f, f.identity) && sold >= 0.0
    requires LotsOf(ledger, f.identity) == RemainingLots(front, f.identity, sold)
    ensures var next := Step(ledger, f, |front|);
            && next.trips == ledger.trips + Matches(front, f, |front|, sold, sold + f.quantity)
            && LotsOf(next, f.identity) == RemainingLots(front, f.identity, sold + f.quantity)
  {
    hide MakeTrip, Matches, RemainingLots, Match, Open;
    MatchIsOverlap(front, f, |front|, sold);
  }

  lemma {:induction false} SaleLeavesRest(ledger: Ledger, front: seq<Fill>, f: SizedFill)
    requires Follows(ledger, front, f.identity) && Sells(f, f.identity)
    requires Sold(front, f.identity) + f.quantity <= Bought(front, f.identity)
    ensures Follows(Step(ledger, f, |front|), front + [f], f.identity)
  {
    hide Step;
    CumulativeQuantities(front, f, f.identity);
    SaleTakesOverlap(ledger, front, f, Sold(front, f.identity));
    OthersLeaveRemaining(front, f, f.identity, Sold(front, f.identity) + f.quantity);
  }

  lemma {:induction false} OtherFillsLeaveLots(ledger: Ledger, front: seq<Fill>, f: Fill, id: string)
    requires id != "" && Follows(ledger, front, id) && !Buys(f, id) && !Sells(f, id)
    ensures Follows(Step(ledger, f, |front|), front + [f], id)
  {
    hide Match;
    CumulativeQuantities(front, f, id);
    OthersLeaveRemaining(front, f, id, Sold(front, id));
  }

  lemma {:induction false} StepFollows(ledger: Ledger, front: seq<Fill>, f: Fill, id: string)
    requires id != "" && Follows(ledger, front, id)
    requires Sells(f, id) ==> Sold(front, id) + f.quantity <= Bought(front, id)
    ensures Follows(Step(ledger, f, |front|), front + [f], id)
  {
    hide Follows;
    if Buys(f, id) {
      BuyAddsLot(ledger, front, f);
    } else if Sells(f, id) {
      SaleLeavesRest(ledger, front, f);
    } else {
      OtherFillsLeaveLots(ledger, front, f, id);
    }
  }

  /** Without over-selling, the walk over lots and the closed form produce the same trips, and every
      identity is left with the entries that reach beyond what was sold of it. */
  lemma {:induction false} FifoIsClosedForm(fills: seq<Fill>)
    requires NoOverSell(fills)
    ensures Run(fills).trips == ClosedForm(fills)
    ensures forall id :: id != "" ==> Follows(Run(fills), fills, id)
  {
    if fills != [] {
      hide Follows;
      hide Step;
      hide Matches;
      var n := |fills| - 1;
      var front, f := fills[..n], fills[n];
      assert fills == front + [f];
      PrefixesAreFine(EquityMarket, fills, n);
      FifoIsClosedForm(front);
      var before := Run(front);
      forall id | id != ""
        ensures Follows(Run(fills), fills, id)
      {
        StepFollows(before, front, f, id);
      }
      TripsOfLastFill(before, front, f);
    } else {
      assert forall id :: RemainingLots([], id, 0.0) == [];
    }
  }

  lemma {:induction false} ClosedFormGrows(front: seq<Fill>, f: Fill)
    ensures var sold := Sold(front, f.identity);
            ClosedForm(front + [f]) == ClosedForm(front)
              + if Sells(f, f.identity) then Matches(front, f, |front|, sold, sold + f.quantity) else []
  {
    hide Matches;
    var all := front + [f];
    assert all[..|front|] == front && all[|front|] == f;
  }

  lemma {:induction false} TripsOfLastFill(ledger: Ledger, front: seq<Fill>, f: Fill)
    requires ledger.trips == ClosedForm(front)
    requires f.identity != "" ==> Follows(ledger, front, f.identity)
    ensures Step(ledger, f, |front|).trips == ClosedForm(front + [f])
  {
    hide ClosedForm;
    hide Matches;
    hide Match;
    ClosedFormGrows(front, f);
    if Sells(f, f.identity) {
      hide Step;
      SaleTakesOverlap(ledger, front, f, Sold(front, f.identity));
    } else {
      assert Step(ledger, f, |front|).trips == ledger.trips == ledger.trips + [];
    }
  }
}

/** Closed round trips by first-in-first-out lots, with their cost decomposition. */
module FifoLedger {
  import opened Basics
  import opened TradeFills

  /** An open entry: position of its fill in the stream, quantity still open, and the fill itself. */
  datatype Lot = Lot(entry: nat, remaining: real, fill: SizedFill)

  /** A matched quantity of one entry and one exit, with its decomposed result. `entry` and `exit` are the
      positions of the two fills in the stream. */
  datatype Trip = Trip(entry: nat, exit: nat, quantity: real, gross: real, spread: real, slippage: real,
                       commission: real, net: real)

  datatype Matching = Matching(lots: seq<Lot>, trips: seq<Trip>, left: real)

  datatype Ledger = Ledger(lots: map<string, seq<Lot>>, trips: seq<Trip>)

  function Mid(f: Fill): real {
    (f.bid + f.ask) / 2.0
  }

  /** The part of an amount that falls on `part` of `whole`. */
  function Share(amount: real, part: real, whole: real): real
    requires whole > 0.0
  {
    amount * part / whole
  }

  function MakeTrip(i: nat, entry: SizedFill, j: nat, exit: SizedFill, matched: real): Trip
  {
    var units := matched * exit.multiplier;
    var commission := Share(entry.commission, matched, entry.quantity) + Share(exit.commission, matched, exit.quantity);
    Trip(i, j, matched,
         (Mid(exit) - Mid(entry)) * units,
         (entry.ask - Mid(entry) + Mid(exit) - exit.bid) * units,
         (entry.price - entry.ask + exit.bid - exit.price) * units,
         commission,
         (exit.price - entry.price) * units - commission)
  }

  /** The decomposition leaves no residual. */
  lemma {:induction false} TripAddsUp(i: nat, entry: SizedFill, j: nat, exit: SizedFill, matched: real)
    ensures var t := MakeTrip(i, entry, j, exit, matched);
            t.gross - t.spread - t.slippage - t.commission == t.net
  {
    var units := matched * exit.multiplier;
    var a, b, c := Mid(exit) - Mid(entry), entry.ask - Mid(entry) + Mid(exit) - exit.bid,
                   entry.price - entry.ask + exit.bid - exit.price;
    assert a - b - c == exit.price - entry.price;
    assert a * units - b * units - c * units == (a - b - c) * units;
  }

  /** What each part of a trip is: half of both quoted spreads; what was paid above the ask and given up below the bid;
      the move from midpoint to midpoint; and of each commission the part that falls on the matched quantity. */
  lemma {:induction false} TripPartsAre(i: nat, entry: SizedFill, j: nat, exit: SizedFill, matched: real)
    ensures var t := MakeTrip(i, entry, j, exit, matched);
            var units := matched * exit.multiplier;
            && t.entry == i && t.exit == j && t.quantity == matched
            && 2.0 * t.spread == ((entry.ask - entry.bid) + (exit.ask - exit.bid)) * units
            && t.slippage == ((entry.price - entry.ask) + (exit.bid - exit.price)) * units
            && 2.0 * t.gross == ((exit.bid + exit.ask) - (entry.bid + entry.ask)) * units
            && t.net == (exit.price - entry.price) * units - t.commission
    ensures MakeTrip(i, entry, j, exit, matched).commission
            == entry.commission * (matched / entry.quantity) + exit.commission * (matched / exit.quantity)
  {
    var units := matched * exit.multiplier;
    assert 2.0 * (entry.ask - Mid(entry) + Mid(exit) - exit.bid) == (entry.ask - entry.bid) + (exit.ask - exit.bid);
    assert 2.0 * (Mid(exit) - Mid(entry)) == (exit.bid + exit.ask) - (entry.bid + entry.ask);
    Doubled(entry.ask - Mid(entry) + Mid(exit) - exit.bid, units);
    Doubled(Mid(exit) - Mid(entry), units);
  }

  lemma {:induction false} Doubled(x: real, units: real)
    ensures 2.0 * (x * units) == (2.0 * x) * units
  {
  }

  /** Walks the lots in order, matching until the exit quantity is used up. */
  function Match(lots: seq<Lot>, exit: SizedFill, j: nat, remaining: real): Matching {
    if lots == [] || remaining <= 0.0 then Matching(lots, [], remaining)
    else
      var lot := lots[0];
      var matched := Min(lot.remaining, remaining);
      if matched <= 0.0 then
        var rest := Match(lots[1..], exit, j, remaining);
        Matching([lot] + rest.lots, rest.trips, rest.left)
      else
        var rest := Match(lots[1..], exit, j, remaining - matched);
        Matching([lot.(remaining := lot.remaining - matched)] + rest.lots,
                 [MakeTrip(lot.entry, lot.fill, j, exit, matched)] + rest.trips, rest.left)
  }

  /** The lots that still have something left. */
  function Open(lots: seq<Lot>): seq<Lot> {
    if lots == [] then []
    else
      var last := lots[|lots| - 1];
      Open(lots[..|lots| - 1]) + if last.remaining > 0.0 then [last] else []
  }

  function LotsOf(ledger: Ledger, id: string): seq<Lot> {
    if id in ledger.lots then ledger.lots[id] else []
  }

  function Step(ledger: Ledger, f: Fill, j: nat): Ledger {
    if !Counted(f) || f.action == OtherAction then ledger
    else if f.action == Buy then
      ledger.(lots := ledger.lots[f.identity := LotsOf(ledger, f.identity) + [Lot(j, f.quantity, f)]])
    else
      var m := Match(LotsOf(ledger, f.identity), f, j, f.quantity);
      Ledger(ledger.lots[f.identity := Open(m.lots)], ledger.trips + m.trips)
  }

  function Run(fills: seq<Fill>): Ledger {
    if fills == [] then Ledger(map[], [])
    else Step(Run(fills[..|fills| - 1]), fills[|fills| - 1], |fills| - 1)
  }

  /** One turn of the walk, at position `n`. */
  lemma {:induction false} MatchTurn(lots: seq<Lot>, n: nat, exit: SizedFill, j: nat, remaining: real)
    requires n < |lots| && remaining > 0.0
    ensures var lot := lots[n];
            var m := Match(lots[n..], exit, j, remaining);
            var matched := Min(lot.remaining, remaining);
            if matched <= 0.0 then
              var rest := Match(lots[n + 1..], exit, j, remaining);
              m.lots == [lot] + rest.lots && m.trips == rest.trips
            else
              var rest := Match(lots[n + 1..], exit, j, remaining - matched);
              && m.lots == [lot.(remaining := lot.remaining - matched)] + rest.lots
              && m.trips == [MakeTrip(lot.entry, lot.fill, j, exit, matched)] + rest.trips
  {
    assert lots[n..][0] == lots[n] && lots[n..][1..] == lots[n + 1..];
  }

  /** One exit against an identity's lots: the program's inner loop; lots it does not reach stay as they are. */
  method MatchLots(lots: seq<Lot>, exit: SizedFill, j: nat) returns (updated: seq<Lot>, trips: seq<Trip>)
    ensures var m := Match(lots, exit, j, exit.quantity); updated == m.lots && trips == m.trips
  {
    hide Match;
    hide MakeTrip;
    var remaining, n := exit.quantity, 0;
    updated, trips := [], [];
    ghost var m := Match(lots, exit, j, exit.quantity);
    assert lots[0..] == lots;
    while n < |lots| && remaining > 0.0
      invariant 0 <= n <= |lots|
      invariant m.lots == updated + Match(lots[n..], exit, j, remaining).lots
      invariant m.trips == trips + Match(lots[n..], exit, j, remaining).trips
    {
      MatchTurn(lots, n, exit, j, remaining);
      var lot := lots[n];
      var matched := Min(lot.remaining, remaining);
      if matched > 0.0 {
        trips := trips + [MakeTrip(lot.entry, lot.fill, j, exit, matched)];
        updated := updated + [lot.(remaining := lot.remaining - matched)];
        remaining := remaining - matched;
      } else {
        updated := updated + [lot];
      }
      n := n + 1;
    }
    MatchStops(lots[n..], exit, j, remaining);
    updated := updated + lots[n..];
  }

  lemma {:induction false} MatchStops(lots: seq<Lot>, exit: SizedFill, j: nat, remaining: real)
    requires (lots == [] || remaining <= 0.0)
    ensures Match(lots, exit, j, remaining) == Matching(lots, [], remaining)
  {
  }

  method OpenLots(lots: seq<Lot>) returns (r: seq<Lot>)
    ensures r == Open(lots)
  {
    r := [];
    assert lots[..0] == [];
    for n := 0 to |lots|
      invariant r == Open(lots[..n])
    {
      assert lots[..n + 1][..n] == lots[..n];
      if lots[n].remaining > 0.0 {
        r := r + [lots[n]];
      }
    }
    assert lots[..|lots|] == lots;
  }

  /** The program's outer loop over the fills, with a table of lots per identity. */
  method CostTrips(fills: seq<Fill>) returns (trips: seq<Trip>)
    ensures trips == Run(fills).trips
  {
    var lots: map<string, seq<Lot>> := map[];
    trips := [];
    assert fills[..0] == [];
    for i := 0 to |fills|
      invariant Ledger(lots, trips) == Run(fills[..i])
    {
      assert fills[..i + 1][..i] == fills[..i];
      ghost var before := Ledger(lots, trips);
      var f := fills[i];
      if Counted(f) {
        var own := if f.identity in lots then lots[f.identity] else [];
        if f.action == Buy {
          lots := lots[f.identity := own + [Lot(i, f.quantity, f)]];
        } else if f.action == Sell {
          var updated, more := MatchLots(own, f, i);
          trips := trips + more;
          updated := OpenLots(updated);
          lots := lots[f.identity := updated];
        }
      }
      assert Ledger(lots, trips) == Step(before, f, i);
    }
    assert fills[..|fills|] == fills;
  }
}

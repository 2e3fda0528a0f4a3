/** Closed-trade profits by average cost. */
module AverageCostLedger {
  import opened Basics
  import opened TradeFills

  datatype Holding = Holding(quantity: real, average: real, multiplier: real)

  datatype Book = Book(holdings: map<string, Holding>, pnls: seq<real>)

  /** What an identity holds, an empty holding if it is not in the book yet. */
  function HoldingOf(book: Book, f: Fill): Holding {
    if f.identity in book.holdings then book.holdings[f.identity] else Holding(0.0, 0.0, f.multiplier)
  }

  /** Commission is spread over the multiplier so that it enters the average per unit. */
  function AfterBuy(h: Holding, f: Fill): Holding
    requires h.quantity >= 0.0 && f.quantity > 0.0 && f.multiplier > 0.0
  {
    var quantity := h.quantity + f.quantity;
    h.(quantity := quantity,
       average := (h.quantity * h.average + f.quantity * f.price + f.commission / f.multiplier) / quantity)
  }

  function PnlOf(h: Holding, f: Fill): real {
    f.quantity * f.multiplier * (f.price - h.average) - f.commission
  }

  ghost predicate Sane(book: Book) {
    forall id :: id in book.holdings ==> book.holdings[id].quantity >= 0.0
  }

  function Step(market: Market, book: Book, f: Fill): (r: Book)
    requires Sane(book) && f.multiplier > 0.0
    ensures Sane(r)
  {
    if !Counted(f) || !Priced(market, f) then book
    else
      var h := HoldingOf(book, f);
      if f.action == Buy then book.(holdings := book.holdings[f.identity := AfterBuy(h, f)])
      else if f.action == Sell && h.quantity >= f.quantity then
        var left := h.(quantity := h.quantity - f.quantity);
        Book(if left.quantity == 0.0 then book.holdings - {f.identity} else book.holdings[f.identity := left],
             book.pnls + [PnlOf(h, f)])
      else book.(holdings := book.holdings[f.identity := h])
  }

  function Run(market: Market, fills: seq<Fill>): (r: Book)
    requires forall k :: 0 <= k < |fills| ==> fills[k].multiplier > 0.0
    ensures Sane(r)
  {
    if fills == [] then Book(map[], [])
    else Step(market, Run(market, fills[..|fills| - 1]), fills[|fills| - 1])
  }

  /** The program's loop over the fills, with the holdings updated in place. */
  method ClosedTradePnls(market: Market, fills: seq<Fill>) returns (pnls: seq<real>)
    requires forall k :: 0 <= k < |fills| ==> fills[k].multiplier > 0.0
    ensures OneMultiplier(fills) ==> pnls == Profits(market, fills)
    ensures pnls == Run(market, fills).pnls
  {
    var holdings: map<string, Holding> := map[];
    pnls := [];
    assert fills[..0] == [];
    for i := 0 to |fills|
      invariant Book(holdings, pnls) == Run(market, fills[..i])
    {
      assert fills[..i + 1][..i] == fills[..i];
      var f := fills[i];
      if !Counted(f) || !Priced(market, f) {
        continue;
      }
      if f.identity !in holdings {
        holdings := holdings[f.identity := Holding(0.0, 0.0, f.multiplier)];
      }
      var holding := holdings[f.identity];
      if f.action == Buy {
        holdings := holdings[f.identity := AfterBuy(holding, f)];
      } else if f.action == Sell && holding.quantity >= f.quantity {
        pnls := pnls + [PnlOf(holding, f)];
        holding := holding.(quantity := holding.quantity - f.quantity);
        holdings := if holding.quantity == 0.0 then holdings - {f.identity} else holdings[f.identity := holding];
      }
    }
    assert fills[..|fills|] == fills;
    if OneMultiplier(fills) {
      ProfitsAreProceedsLessShares(market, fills);
    }
  }

  // ---- Conservation ---------------------------------------------------------------------------

  function CostOf(h: Holding): real {
    Amount(h.quantity, h.average, h.multiplier)
  }

  function Costs(holdings: map<string, Holding>): map<string, real> {
    map id | id in holdings :: CostOf(holdings[id])
  }

  /** The book holds exactly what was bought and not sold, at the identity's own multiplier. */
  ghost predicate Tracks(fills: seq<Fill>, book: Book) {
    && (forall id :: id != "" ==>
          (if id in book.holdings then book.holdings[id].quantity else 0.0) == Bought(fills, id) - Sold(fills, id))
    && KnowsFills(fills, book)
  }

  /** What is held has been filled, at the same multiplier. */
  ghost predicate KnowsFills(fills: seq<Fill>, book: Book) {
    && (forall k :: 0 <= k < |fills| && fills[k].identity in book.holdings ==>
          book.holdings[fills[k].identity].multiplier == fills[k].multiplier)
    && (forall id :: id in book.holdings ==> exists k :: 0 <= k < |fills| && fills[k].identity == id)
  }

  lemma {:induction false} BuyCost(h: Holding, f: Fill)
    requires h.quantity >= 0.0 && f.quantity > 0.0 && f.multiplier > 0.0 && h.multiplier == f.multiplier
    ensures CostOf(AfterBuy(h, f)) == CostOf(h) + Amount(f.quantity, f.price, f.multiplier) + f.commission
  {
    var spent := h.quantity * h.average + f.quantity * f.price + f.commission / f.multiplier;
    assert AfterBuy(h, f).quantity * AfterBuy(h, f).average == spent;
    assert spent * f.multiplier
        == h.quantity * h.average * f.multiplier + f.quantity * f.price * f.multiplier + f.commission;
  }

  /** A sale's profit is its proceeds less the average cost of what was sold. */
  lemma {:induction false} PnlSplits(h: Holding, f: Fill)
    ensures PnlOf(h, f) == Amount(f.quantity, f.price, f.multiplier) - Amount(f.quantity, h.average,
            f.multiplier) - f.commission
  {
    var gain := f.quantity * f.multiplier * (f.price - h.average);
    assert gain == Amount(f.quantity, f.price, f.multiplier) - Amount(f.quantity, h.average, f.multiplier);
  }

  lemma {:induction false} SellCost(h: Holding, f: Fill)
    requires h.multiplier == f.multiplier
    ensures PnlOf(h, f) - CostOf(h.(quantity := h.quantity - f.quantity))
            == Amount(f.quantity, f.price, f.multiplier) - f.commission - CostOf(h)
  {
    hide Amount;
    hide PnlOf;
    PnlSplits(h, f);
    AmountSplits(h.quantity, f.quantity, h.average, h.multiplier);
  }

  /** Entering or changing a holding changes the total cost by its own change. */
  lemma {:induction false} CostsUpdate(holdings: map<string, Holding>, id: string, h: Holding)
    ensures Total(Costs(holdings[id := h])) - Total(Costs(holdings))
            == CostOf(h) - (if id in holdings then CostOf(holdings[id]) else 0.0)
  {
    assert Costs(holdings[id := h]) == Costs(holdings)[id := CostOf(h)];
    TotalUpdate(Costs(holdings), id, CostOf(h));
  }

  lemma {:induction false} CostsRemove(holdings: map<string, Holding>, id: string)
    requires id in holdings
    ensures Total(Costs(holdings - {id})) == Total(Costs(holdings)) - CostOf(holdings[id])
  {
    assert Costs(holdings - {id}) == Costs(holdings) - {id};
    TotalSplits(Costs(holdings), id);
  }

  /** Profit taken, cash moved and cost still held balance at every fill that is not refused. */
  lemma {:induction false} StepConserves(market: Market, book: Book, f: Fill)
    requires Sane(book) && f.multiplier > 0.0 && Priced(market, f)
    requires HoldingOf(book, f).multiplier == f.multiplier
    requires Sells(f, f.identity) ==> HoldingOf(book, f).quantity >= f.quantity
    ensures var next := Step(market, book, f);
            Sum(next.pnls) - Total(Costs(next.holdings)) == Sum(book.pnls) - Total(Costs(book.holdings)) + CashOf(f)
  {
    hide CostOf;
    hide Amount;
    hide AfterBuy;
    hide PnlOf;
    if !Counted(f) {
    } else if f.action == Buy {
      BuyCost(HoldingOf(book, f), f);
      CostsUpdate(book.holdings, f.identity, AfterBuy(HoldingOf(book, f), f));
      EmptyHoldingCostsNothing(HoldingOf(book, f));
    } else if f.action == Sell {
      SellConserves(market, book, f);
    } else {
      CostsUpdate(book.holdings, f.identity, HoldingOf(book, f));
      EmptyHoldingCostsNothing(HoldingOf(book, f));
    }
  }

  lemma {:induction false} EmptyHoldingCostsNothing(h: Holding)
    ensures h.quantity == 0.0 ==> CostOf(h) == 0.0
  {
  }

  lemma {:induction false} SellConserves(market: Market, book: Book, f: Fill)
    requires Sane(book) && f.multiplier > 0.0 && Priced(market, f) && Sells(f, f.identity)
    requires HoldingOf(book, f).multiplier == f.multiplier && HoldingOf(book, f).quantity >= f.quantity
    ensures var next := Step(market, book, f);
            Sum(next.pnls) - Total(Costs(next.holdings)) == Sum(book.pnls) - Total(Costs(book.holdings)) + CashOf(f)
  {
    hide CostOf, Amount, PnlOf, AfterBuy, Total, Costs;
    var h := book.holdings[f.identity];
    var left := h.(quantity := h.quantity - f.quantity);
    SellCost(h, f);
    SumAppend(book.pnls, PnlOf(h, f));
    if left.quantity == 0.0 {
      EmptyHoldingCostsNothing(left);
      CostsRemove(book.holdings, f.identity);
    } else {
      CostsUpdate(book.holdings, f.identity, left);
    }
  }

  lemma {:induction false} StepTracks(market: Market, fills: seq<Fill>, book: Book, f: Fill)
    requires WellFormed(market, fills + [f]) && f.multiplier > 0.0 && Sane(book) && Tracks(fills, book)
    requires Sells(f, f.identity) ==> Sold(fills, f.identity) + f.quantity <= Bought(fills, f.identity)
    ensures HoldingOf(book, f).multiplier == f.multiplier
    ensures Sells(f, f.identity) ==> HoldingOf(book, f).quantity >= f.quantity
    ensures Tracks(fills + [f], Step(market, book, f))
  {
    IdentitiesTrack(market, fills, book, f);
    assert (fills + [f])[|fills|] == f;
    QuantitiesTrack(market, fills, book, f);
  }

  lemma {:induction false} QuantitiesTrack(market: Market, fills: seq<Fill>, book: Book, f: Fill)
    requires f.multiplier > 0.0 && Priced(market, f) && Sane(book) && Tracks(fills, book)
    requires Sells(f, f.identity) ==> HoldingOf(book, f).quantity >= f.quantity
    ensures var next := Step(market, book, f);
            forall id :: id != "" ==>
              (if id in next.holdings then next.holdings[id].quantity
                  else 0.0) == Bought(fills + [f], id) - Sold(fills + [f], id)
  {
    assert (fills + [f])[..|fills|] == fills;
  }

  lemma {:induction false} IdentitiesTrack(market: Market, fills: seq<Fill>, book: Book, f: Fill)
    requires OneMultiplier(fills + [f]) && Sane(book) && KnowsFills(fills, book)
    ensures HoldingOf(book, f).multiplier == f.multiplier > 0.0 && KnowsFills(fills + [f], Step(market, book, f))
  {
    hide PnlOf, Priced;
    var all := fills + [f];
    assert all[|fills|] == f && forall k :: 0 <= k < |fills| ==> all[k] == fills[k];
    if f.identity in book.holdings {
      var k :| 0 <= k < |fills| && fills[k].identity == f.identity;
      assert all[k].multiplier == all[|fills|].multiplier;
    }
    var next := Step(market, book, f);
    forall k | 0 <= k < |all| && all[k].identity in next.holdings
      ensures next.holdings[all[k].identity].multiplier == all[k].multiplier
    {
      if all[k].identity == f.identity {
        assert all[k].multiplier == all[|fills|].multiplier;
      }
    }
    forall id | id in next.holdings
      ensures exists k :: 0 <= k < |all| && all[k].identity == id
    {
      if id in book.holdings {
        var k :| 0 <= k < |fills| && fills[k].identity == id;
        assert all[k].identity == id;
      }
    }
  }

  lemma {:induction false} NothingHeld(fills: seq<Fill>)
    requires fills == []
    ensures Tracks(fills, Book(map[], [])) && Total(Costs(map[])) == 0.0 && Cash(fills) == 0.0 && Sum([]) == 0.0
  {
    assert Costs(map[]) == map[];
  }

  /** Average-cost profit is the net cash flow plus the cost of what is still held. */
  lemma {:induction false} AverageCostConserves(market: Market, fills: seq<Fill>)
    requires WellFormed(market, fills) && NoOverSell(fills)
    ensures Tracks(fills, Run(market, fills))
    ensures Sum(Run(market, fills).pnls) == Cash(fills) + Total(Costs(Run(market, fills).holdings))
  {
    hide Step, Tracks, Costs, Total, CashOf, HoldingOf, Priced;
    if fills == [] {
      NothingHeld(fills);
    } else {
      var n := |fills| - 1;
      PrefixesAreFine(market, fills, n);
      AverageCostConserves(market, fills[..n]);
      assert fills[..n] + [fills[n]] == fills;
      StepTracks(market, fills[..n], Run(market, fills[..n]), fills[n]);
      StepConserves(market, Run(market, fills[..n]), fills[n]);
    }
  }

  // ---- Each profit on its own -----------------------------------------------------------------

  /** How much of one identity is held, and what it has cost, commissions included. */
  datatype Position = Position(quantity: real, cost: real)

  /** A fill of the identity that is read at all: with a quantity and a price, which only an option may have at zero. */
  ghost predicate Read(market: Market, f: Fill, id: string, action: Action) {
    && id != "" && f.identity == id && f.action == action && 0.0 < f.quantity
    && (if market.EquityMarket? then 0.0 < f.price else 0.0 <= f.price)
  }

  /** One fill for one identity: a purchase adds its cost; a sale of no more than is held takes its share of the cost
      along; a larger sale is passed over. */
  ghost function Moved(market: Market, p: Position, f: Fill, id: string): Position {
    if Read(market, f, id, Buy) then
      Position(p.quantity + f.quantity, p.cost + Amount(f.quantity, f.price, f.multiplier) + f.commission)
    else if Read(market, f, id, Sell) && p.quantity >= f.quantity then
      Position(p.quantity - f.quantity, p.cost - SoldCost(p, f))
    else p
  }

  /** The cost of what is held falls on every unit alike. */
  ghost function SoldCost(p: Position, f: Fill): real
    requires p.quantity >= f.quantity > 0.0
  {
    p.cost * f.quantity / p.quantity
  }

  ghost function Held(market: Market, fills: seq<Fill>, id: string): Position {
    if fills == [] then Position(0.0, 0.0)
    else Moved(market, Held(market, fills[..|fills| - 1], id), fills[|fills| - 1], id)
  }

  /** The proceeds of every sale that is not passed over, less its commission and its share of the cost. */
  ghost function Profits(market: Market, fills: seq<Fill>): seq<real> {
    if fills == [] then []
    else
      var f, front := fills[|fills| - 1], fills[..|fills| - 1];
      var p := Held(market, front, f.identity);
      Profits(market, front)
      + if Read(market, f, f.identity, Sell) && p.quantity >= f.quantity
        then [Amount(f.quantity, f.price, f.multiplier) - f.commission - SoldCost(p, f)] else []
  }

  ghost function PositionOf(book: Book, id: string): Position {
    if id in book.holdings then Position(book.holdings[id].quantity, CostOf(book.holdings[id])) else Position(0.0, 0.0)
  }

  lemma {:induction false} SaleTakesItsShare(h: Holding, f: Fill)
    requires h.quantity >= f.quantity > 0.0 && h.multiplier == f.multiplier
    ensures var p := Position(h.quantity, CostOf(h));
            && PnlOf(h, f) == Amount(f.quantity, f.price, f.multiplier) - f.commission - SoldCost(p, f)
            && CostOf(h.(quantity := h.quantity - f.quantity)) == p.cost - SoldCost(p, f)
  {
    PnlSplits(h, f);
    AmountSplits(h.quantity, f.quantity, h.average, h.multiplier);
    hide PnlOf;
    var unit := h.average * h.multiplier;
    assert CostOf(h) == unit * h.quantity && Amount(f.quantity, h.average, f.multiplier) == unit * f.quantity;
    ShareOfProduct(unit, h.quantity, f.quantity);
  }

  lemma {:induction false} ShareOfProduct(unit: real, all: real, part: real)
    requires all > 0.0
    ensures unit * all * part / all == unit * part
  {
    assert unit * all * part == unit * part * all;
  }

  lemma {:induction false} StepMoves(market: Market, book: Book, f: Fill)
    requires Sane(book) && HoldingOf(book, f).multiplier == f.multiplier > 0.0
    ensures var next, p := Step(market, book, f), PositionOf(book, f.identity);
            && (forall id | id != "" :: PositionOf(next, id) == Moved(market, PositionOf(book, id), f, id))
            && next.pnls == book.pnls
              + if Read(market, f, f.identity, Sell) && p.quantity >= f.quantity
                then [Amount(f.quantity, f.price, f.multiplier) - f.commission - SoldCost(p, f)] else []
  {
    hide CostOf, Amount, AfterBuy, PnlOf, SoldCost;
    var h := HoldingOf(book, f);
    EmptyHoldingCostsNothing(h);
    if Buys(f, f.identity) {
      BuyCost(h, f);
      BoughtQuantity(h, f);
    } else if Sells(f, f.identity) && h.quantity >= f.quantity {
      SaleTakesItsShare(h, f);
      EmptyHoldingCostsNothing(h.(quantity := h.quantity - f.quantity));
    }
  }

  lemma {:induction false} BoughtQuantity(h: Holding, f: Fill)
    requires h.quantity >= 0.0 && f.quantity > 0.0 && f.multiplier > 0.0
    ensures AfterBuy(h, f).quantity == h.quantity + f.quantity
  {
  }

  lemma {:induction false} OneFillMore(market: Market, front: seq<Fill>, f: Fill)
    ensures forall id :: Held(market, front + [f], id) == Moved(market, Held(market, front, id), f, id)
    ensures var p := Held(market, front, f.identity);
            Profits(market, front + [f])
            == Profits(market, front)
               + if Read(market, f, f.identity, Sell) && p.quantity >= f.quantity
                 then [Amount(f.quantity, f.price, f.multiplier) - f.commission - SoldCost(p, f)] else []
  {
    hide Moved, SoldCost, Amount, Priced;
    assert (front + [f])[..|front|] == front;
  }

  /** The book holds and has earned what the fills say. */
  ghost predicate Agrees(market: Market, fills: seq<Fill>, book: Book) {
    && book.pnls == Profits(market, fills)
    && forall id | id != "" :: PositionOf(book, id) == Held(market, fills, id)
  }

  lemma {:induction false} StepAgrees(market: Market, front: seq<Fill>, book: Book, f: Fill)
    requires Sane(book) && HoldingOf(book, f).multiplier == f.multiplier > 0.0 && Agrees(market, front, book)
    ensures Agrees(market, front + [f], Step(market, book, f))
  {
    hide Moved, PositionOf, Step, SoldCost, Amount, Held, Profits, Priced, HoldingOf;
    StepMoves(market, book, f);
    OneFillMore(market, front, f);
  }

  /** Every single profit of the average-cost ledger, and what it still carries, on any stream of fills: priced or not,
      over-sold or not. */
  lemma {:induction false} ProfitsAreProceedsLessShares(market: Market, fills: seq<Fill>)
    requires OneMultiplier(fills)
    ensures Agrees(market, fills, Run(market, fills)) && KnowsFills(fills, Run(market, fills))
  {
    hide Step, KnowsFills, Agrees;
    if fills == [] {
      NothingAgrees(market);
    } else {
      var front, f := fills[..|fills| - 1], fills[|fills| - 1];
      PrefixesAreFine(market, fills, |front|);
      ProfitsAreProceedsLessShares(market, front);
      assert front + [f] == fills;
      IdentitiesTrack(market, front, Run(market, front), f);
      StepAgrees(market, front, Run(market, front), f);
    }
  }

  lemma {:induction false} NothingAgrees(market: Market)
    ensures Agrees(market, [], Book(map[], [])) && KnowsFills([], Book(map[], []))
  {
  }
}

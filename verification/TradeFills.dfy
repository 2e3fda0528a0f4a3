/** Fills as both trade ledgers read them, in the order of their fill times, in exact arithmetic. */
module TradeFills {
  import opened Basics

  datatype Market = EquityMarket | OptionMarket

  datatype Action = Buy | Sell | OtherAction

  /** Equities and options share one shape: `identity` is the symbol or the option id, `Buy` opens and
      `Sell` closes, and an equity's multiplier is 1. `bid` and `ask` are the quote the fill was made on. */
  datatype Fill = Fill(identity: string, action: Action, quantity: real, price: real, multiplier: real,
                       commission: real, bid: real, ask: real)

  /** Both ledgers pass over a fill without identity or quantity. */
  predicate Counted(f: Fill) {
    f.identity != "" && f.quantity > 0.0
  }

  predicate Buys(f: Fill, id: string) {
    Counted(f) && f.action == Buy && f.identity == id
  }

  predicate Sells(f: Fill, id: string) {
    Counted(f) && f.action == Sell && f.identity == id
  }

  /** A fill that can be matched: both ledgers divide by its quantity. */
  type SizedFill = f: Fill | f.quantity > 0.0 witness Fill("", Buy, 1.0, 0.0, 1.0, 0.0, 0.0, 0.0)

  function Bought(fills: seq<Fill>, id: string): (r: real)
    ensures r >= 0.0
  {
    if fills == [] then 0.0
    else
      var f := fills[|fills| - 1];
      Bought(fills[..|fills| - 1], id) + if Buys(f, id) then f.quantity else 0.0
  }

  function Sold(fills: seq<Fill>, id: string): (r: real)
    ensures r >= 0.0
  {
    if fills == [] then 0.0
    else
      var f := fills[|fills| - 1];
      Sold(fills[..|fills| - 1], id) + if Sells(f, id) then f.quantity else 0.0
  }

  /** What a quantity is worth at a unit price. */
  function Amount(quantity: real, price: real, multiplier: real): real {
    quantity * price * multiplier
  }

  lemma {:induction false} AmountSplits(all: real, part: real, price: real, multiplier: real)
    ensures Amount(all - part, price, multiplier) == Amount(all, price, multiplier) - Amount(part, price, multiplier)
  {
  }

  /** Money received minus money paid, commissions included. */
  function Cash(fills: seq<Fill>): real {
    if fills == [] then 0.0
    else
      var f := fills[|fills| - 1];
      Cash(fills[..|fills| - 1]) + CashOf(f)
  }

  function CashOf(f: Fill): real {
    if !Counted(f) || f.action == OtherAction then 0.0
    else if f.action == Buy then -Amount(f.quantity, f.price, f.multiplier) - f.commission
    else Amount(f.quantity, f.price, f.multiplier) - f.commission
  }

  /** The average-cost ledger passes over unpriced fills; an option may be sold for nothing, a share may not. */
  predicate Priced(market: Market, f: Fill) {
    match market
    case EquityMarket => f.price > 0.0
    case OptionMarket => f.price >= 0.0
  }

  /** Each identity keeps one positive multiplier. */
  ghost predicate OneMultiplier(fills: seq<Fill>) {
    && (forall k :: 0 <= k < |fills| ==> fills[k].multiplier > 0.0)
    && (forall j, k :: 0 <= j < |fills| && 0 <= k < |fills| && fills[j].identity == fills[k].identity ==>
          fills[j].multiplier == fills[k].multiplier)
  }

  ghost predicate WellFormed(market: Market, fills: seq<Fill>) {
    OneMultiplier(fills) && forall k :: 0 <= k < |fills| ==> Priced(market, fills[k])
  }

  /** Never more is sold than is held. */
  ghost predicate NoOverSell(fills: seq<Fill>) {
    forall k :: 0 <= k < |fills| && Sells(fills[k], fills[k].identity) ==>
      Sold(fills[..k], fills[k].identity) + fills[k].quantity <= Bought(fills[..k], fills[k].identity)
  }

  /** Everything bought has been sold. */
  ghost predicate Flat(fills: seq<Fill>) {
    forall id :: id != "" ==> Bought(fills, id) == Sold(fills, id)
  }

  lemma {:induction false} PrefixesAreFine(market: Market, fills: seq<Fill>, k: nat)
    requires k <= |fills|
    ensures OneMultiplier(fills) ==> OneMultiplier(fills[..k])
    ensures WellFormed(market, fills) ==> WellFormed(market, fills[..k])
    ensures NoOverSell(fills) ==> NoOverSell(fills[..k])
  {
    assert forall j :: 0 <= j < k ==> fills[..k][j] == fills[j] && fills[..k][..j] == fills[..j];
  }

  // ---- Sums -----------------------------------------------------------------------------------

  function Sum(xs: seq<real>): real {
    if xs == [] then 0.0 else Sum(xs[..|xs| - 1]) + xs[|xs| - 1]
  }

  lemma {:induction false} SumAppend(xs: seq<real>, x: real)
    ensures Sum(xs + [x]) == Sum(xs) + x
  {
    assert (xs + [x])[..|xs|] == xs;
  }

  lemma {:induction false} SumConcat(xs: seq<real>, ys: seq<real>)
    ensures Sum(xs + ys) == Sum(xs) + Sum(ys)
  {
    if ys == [] {
      assert xs + ys == xs;
    } else {
      SumConcat(xs, ys[..|ys| - 1]);
      assert (xs + ys)[..|xs + ys| - 1] == xs + ys[..|ys| - 1];
    }
  }

  /** The sum of a map's values. */
  ghost function Total(m: map<string, real>): real
    decreases |m|
  {
    if m == map[] then 0.0
    else
      var k :| k in m;
      m[k] + Total(m - {k})
  }

  lemma {:induction false} TotalSplits(m: map<string, real>, k: string)
    requires k in m
    ensures Total(m) == m[k] + Total(m - {k})
    decreases |m|
  {
    var pick :| pick in m && Total(m) == m[pick] + Total(m - {pick});
    if pick != k {
      TotalSplits(m - {pick}, k);
      TotalSplits(m - {k}, pick);
      assert m - {pick} - {k} == m - {k} - {pick};
    }
  }

  lemma {:induction false} TotalUpdate(m: map<string, real>, k: string, v: real)
    ensures Total(m[k := v]) == Total(m - {k}) + v
    ensures Total(m) == Total(m - {k}) + if k in m then m[k] else 0.0
  {
    TotalSplits(m[k := v], k);
    assert m[k := v] - {k} == m - {k};
    if k in m {
      TotalSplits(m, k);
    } else {
      assert m - {k} == m;
    }
  }
}

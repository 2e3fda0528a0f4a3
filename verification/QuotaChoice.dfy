/** Choosing a limited number of scored candidates so that each direction gets its reserved places: the two greedy
    selections of the program build on reserving first and filling afterwards, and that is optimal. */
module QuotaChoice {
  import opened Basics

  datatype Item = Item(ticker: string, score: real, bearish: bool)

  ghost predicate DistinctTickers(s: seq<Item>) {
    forall i, j | 0 <= i < j < |s| :: s[i].ticker != s[j].ticker
  }

  ghost predicate Descending(s: seq<Item>) {
    forall i, j | 0 <= i < j < |s| :: s[i].score >= s[j].score
  }

  /** What both selections are handed: best first, one entry per ticker. */
  ghost predicate IsRanking(s: seq<Item>) {
    DistinctTickers(s) && Descending(s)
  }

  function Tickers(s: seq<Item>): set<string> {
    set x | x in s :: x.ticker
  }

  ghost function Items(s: seq<Item>): set<Item> {
    set x | x in s
  }

  function NonNegative(n: int): nat {
    if n < 0 then 0 else n
  }

  function Count(s: seq<Item>, bearish: bool): nat {
    if s == [] then 0 else (if s[0].bearish == bearish then 1 else 0) + Count(s[1..], bearish)
  }

  /** The first `places` entries of one direction. */
  function Reserve(ranked: seq<Item>, bearish: bool, places: nat): seq<Item> {
    if ranked == [] || places == 0 then []
    else if ranked[0].bearish == bearish then [ranked[0]] + Reserve(ranked[1..], bearish, places - 1)
    else Reserve(ranked[1..], bearish, places)
  }

  /** The first `places` entries whose ticker is not among those already taken. */
  function Fill(ranked: seq<Item>, taken: set<string>, places: nat): seq<Item> {
    if ranked == [] || places == 0 then []
    else if ranked[0].ticker in taken then Fill(ranked[1..], taken, places)
    else [ranked[0]] + Fill(ranked[1..], taken, places - 1)
  }

  /** The loop that closes both selections: every entry in order is added unless its ticker is taken, while places
      remain. */
  method FillPlaces(ranked: seq<Item>, most: nat, reserved: seq<Item>) returns (selected: seq<Item>)
    requires DistinctTickers(ranked) && |reserved| <= most
    ensures selected == reserved + Fill(ranked, Tickers(reserved), most - |reserved|)
  {
    selected := reserved;
    var taken := Tickers(reserved);
    var seen, i := taken, 0;
    while i < |ranked|
      invariant 0 <= i <= |ranked| && |selected| <= most
      invariant forall t | t in seen :: t in taken || exists j :: 0 <= j < i && ranked[j].ticker == t
      invariant taken <= seen
      invariant selected + Fill(ranked[i..], taken, most - |selected|)
              == reserved + Fill(ranked, taken, most - |reserved|)
    {
      var item := ranked[i];
      assert ranked[i..][0] == item && ranked[i..][1..] == ranked[i + 1..];
      assert item.ticker in seen <==> item.ticker in taken;
      if item.ticker !in seen && |selected| < most {
        selected := selected + [item];
        seen := seen + {item.ticker};
      }
      i := i + 1;
    }
  }

  // ---- Quotas ----------------------------------------------------------------------------------------------------

  /** How many entries of each direction are asked for. */
  datatype Quota = Quota(bullish: nat, bearish: nat)

  function Need(q: Quota, bearish: bool): nat {
    if bearish then q.bearish else q.bullish
  }

  /** What is still asked for after one more entry of a direction. */
  function Met(q: Quota, bearish: bool): Quota {
    if bearish then Quota(q.bullish, NonNegative(q.bearish - 1)) else Quota(NonNegative(q.bullish - 1), q.bearish)
  }

  /** The places suffice for the quota and the list has the entries for it. */
  ghost predicate Feasible(ranked: seq<Item>, limit: nat, q: Quota) {
    && q.bullish + q.bearish <= limit
    && q.bullish <= Count(ranked, false) && q.bearish <= Count(ranked, true)
  }

  ghost function Of(chosen: set<Item>, bearish: bool): set<Item> {
    set x | x in chosen && x.bearish == bearish
  }

  /** A choice of as many entries as there are places for, with what is asked for of each direction. */
  ghost predicate MeetsQuota(ranked: seq<Item>, chosen: set<Item>, limit: nat, q: Quota) {
    && chosen <= Items(ranked)
    && |chosen| == Least(limit, |ranked|)
    && |Of(chosen, false)| >= q.bullish && |Of(chosen, true)| >= q.bearish
  }

  /** The total score of the chosen entries of the ranking. */
  ghost function Total(ranked: seq<Item>, chosen: set<Item>): real {
    if ranked == [] then 0.0
    else (if ranked[0] in chosen then ranked[0].score else 0.0) + Total(ranked[1..], chosen)
  }

  // ---- The greedy choice, entry by entry --------------------------------------------------------------------------

  /** An entry is taken when its direction still needs one, or a place remains beyond what the other one needs. */
  ghost predicate Takes(q: Quota, limit: nat, bearish: bool) {
    Need(q, bearish) > 0 || limit > Need(q, !bearish)
  }

  ghost function Choose(ranked: seq<Item>, limit: nat, q: Quota): set<Item>
    requires Feasible(ranked, limit, q)
  {
    if ranked == [] || limit == 0 then {}
    else if Takes(q, limit, ranked[0].bearish)
    then {ranked[0]} + Choose(ranked[1..], limit - 1, Met(q, ranked[0].bearish))
    else Choose(ranked[1..], limit, q)
  }

  ghost predicate HeadIsBest(ranked: seq<Item>) {
    ranked != [] ==> forall x | x in ranked[1..] :: x.ticker != ranked[0].ticker && x.score <= ranked[0].score
  }

  ghost predicate HeadIsNew(ranked: seq<Item>) {
    ranked != [] && Items(ranked) == {ranked[0]} + Items(ranked[1..]) && ranked[0] !in Items(ranked[1..])
  }

  lemma {:induction false} HeadOfRanking(ranked: seq<Item>)
    requires IsRanking(ranked) && ranked != []
    ensures IsRanking(ranked[1..]) && HeadIsBest(ranked) && HeadIsNew(ranked)
  {
    assert ranked == [ranked[0]] + ranked[1..];
    forall x | x in ranked[1..]
      ensures x.ticker != ranked[0].ticker && x.score <= ranked[0].score
    {
      var j :| 0 < j < |ranked| && ranked[j] == x;
    }
  }

  lemma {:induction false} CountBound(s: seq<Item>)
    ensures Count(s, false) + Count(s, true) == |s|
  {
    if s != [] {
      CountBound(s[1..]);
    }
  }

  lemma {:induction false} OneMoreOf(head: Item, rest: set<Item>)
    requires head !in rest
    ensures |{head} + rest| == |rest| + 1
    ensures |Of({head} + rest, head.bearish)| == |Of(rest, head.bearish)| + 1
    ensures Of({head} + rest, !head.bearish) == Of(rest, !head.bearish)
  {
    assert Of({head} + rest, head.bearish) == {head} + Of(rest, head.bearish);
  }

  /** Taking the head onto a choice from the tail. */
  lemma {:induction false} TakeMeetsQuota(ranked: seq<Item>, rest: set<Item>, limit: nat, q: Quota)
    requires HeadIsNew(ranked) && limit > 0
    requires MeetsQuota(ranked[1..], rest, limit - 1, Met(q, ranked[0].bearish))
    ensures MeetsQuota(ranked, {ranked[0]} + rest, limit, q)
  {
    hide Of, Items;
    OneMoreOf(ranked[0], rest);
  }

  /** Leaving the head out, when there are entries enough without it. */
  lemma {:induction false} SkipMeetsQuota(ranked: seq<Item>, chosen: set<Item>, limit: nat, q: Quota)
    requires HeadIsNew(ranked) && limit < |ranked| && MeetsQuota(ranked[1..], chosen, limit, q)
    ensures MeetsQuota(ranked, chosen, limit, q)
  {
    hide Of, Items;
  }

  lemma {:induction false} NothingMeetsQuota(ranked: seq<Item>, limit: nat, q: Quota)
    requires (ranked == [] || limit == 0) && Feasible(ranked, limit, q)
    ensures MeetsQuota(ranked, {}, limit, q)
  {
  }

  lemma {:induction false} ChooseMeetsQuota(ranked: seq<Item>, limit: nat, q: Quota)
    requires IsRanking(ranked) && Feasible(ranked, limit, q)
    ensures MeetsQuota(ranked, Choose(ranked, limit, q), limit, q)
  {
    hide HeadIsNew, HeadIsBest, MeetsQuota;
    if ranked == [] || limit == 0 {
      NothingMeetsQuota(ranked, limit, q);
    } else {
      HeadOfRanking(ranked);
      hide IsRanking;
      if Takes(q, limit, ranked[0].bearish) {
        ChooseMeetsQuota(ranked[1..], limit - 1, Met(q, ranked[0].bearish));
        TakeMeetsQuota(ranked, Choose(ranked[1..], limit - 1, Met(q, ranked[0].bearish)), limit, q);
      } else {
        CountBound(ranked[1..]);
        ChooseMeetsQuota(ranked[1..], limit, q);
        SkipMeetsQuota(ranked, Choose(ranked[1..], limit, q), limit, q);
      }
    }
  }

  // ---- Exchange ----------------------------------------------------------------------------------------------------

  lemma {:induction false} TotalIgnores(ranked: seq<Item>, chosen: set<Item>, x: Item)
    requires x !in ranked
    ensures Total(ranked, chosen + {x}) == Total(ranked, chosen) == Total(ranked, chosen - {x})
  {
    if ranked != [] {
      TotalIgnores(ranked[1..], chosen, x);
    }
  }

  lemma {:induction false} TotalRemove(ranked: seq<Item>, chosen: set<Item>, x: Item)
    requires DistinctTickers(ranked) && x in ranked && x in chosen
    ensures Total(ranked, chosen) == Total(ranked, chosen - {x}) + x.score
  {
    if ranked[0] == x {
      TotalIgnores(ranked[1..], chosen, x);
    } else {
      TotalRemove(ranked[1..], chosen, x);
    }
  }

  lemma {:induction false} AddHead(ranked: seq<Item>, rest: set<Item>)
    requires HeadIsNew(ranked)
    ensures Total(ranked, {ranked[0]} + rest) == ranked[0].score + Total(ranked[1..], rest)
  {
    TotalIgnores(ranked[1..], rest, ranked[0]);
    assert {ranked[0]} + rest == rest + {ranked[0]};
  }

  /** An entry to give up for a head that is taken: one of its own direction, or any when there is none. */
  lemma {:induction false} GiveUpOne(chosen: set<Item>, limit: nat, q: Quota, bearish: bool) returns (y: Item)
    requires |chosen| == limit > 0 && Takes(q, limit, bearish)
    requires |Of(chosen, false)| >= q.bullish && |Of(chosen, true)| >= q.bearish
    ensures y in chosen && |chosen - {y}| == limit - 1
    ensures var left := Met(q, bearish);
            |Of(chosen - {y}, false)| >= left.bullish && |Of(chosen - {y}, true)| >= left.bearish
  {
    if Of(chosen, bearish) != {} {
      y :| y in Of(chosen, bearish);
    } else {
      y :| y in chosen;
      assert forall x | x in chosen :: x !in Of(chosen, bearish);
      assert Of(chosen, !bearish) == chosen;
    }
    RemoveOf(chosen, y, false);
    RemoveOf(chosen, y, true);
  }

  lemma {:induction false} RemoveOf(chosen: set<Item>, y: Item, bearish: bool)
    requires y in chosen
    ensures |Of(chosen - {y}, bearish)| == |Of(chosen, bearish)| - (if y.bearish == bearish then 1 else 0)
    ensures |chosen - {y}| == |chosen| - 1
  {
    if y.bearish == bearish {
      assert Of(chosen - {y}, bearish) == Of(chosen, bearish) - {y};
    } else {
      assert Of(chosen - {y}, bearish) == Of(chosen, bearish);
    }
  }

  lemma {:induction false} ChosenFit(s: seq<Item>, chosen: set<Item>)
    requires chosen <= Items(s)
    ensures |chosen| <= |s|
  {
    if s != [] {
      ChosenFit(s[1..], chosen - {s[0]});
    }
  }

  lemma {:induction false} KeepHead(ranked: seq<Item>, chosen: set<Item>, limit: nat,
      q: Quota) returns (rest: set<Item>)
    requires HeadIsNew(ranked) && ranked[0] in chosen && 0 < limit && MeetsQuota(ranked, chosen, limit, q)
    ensures MeetsQuota(ranked[1..], rest, limit - 1, Met(q, ranked[0].bearish))
    ensures Total(ranked, chosen) == ranked[0].score + Total(ranked[1..], rest)
  {
    rest := chosen - {ranked[0]};
    assert {ranked[0]} + rest == chosen;
    AddHead(ranked, rest);
    hide Of, Total;
    OneMoreOf(ranked[0], rest);
  }

  lemma {:induction false} RemoveFromTail(ranked: seq<Item>, chosen: set<Item>, y: Item)
    requires IsRanking(ranked) && ranked != [] && ranked[0] !in chosen && y in chosen && y in ranked[1..]
    ensures Total(ranked, chosen) == Total(ranked[1..], chosen - {y}) + y.score
  {
    TotalRemove(ranked[1..], chosen, y);
  }

  /** A choice without the head of the ranking exchanges one of its entries for it and loses nothing. */
  lemma {:induction false} ExchangeForHead(ranked: seq<Item>, chosen: set<Item>, limit: nat, q: Quota)
    returns (rest: set<Item>)
    requires IsRanking(ranked) && HeadIsNew(ranked) && HeadIsBest(ranked)
    requires 0 < limit && Takes(q, limit, ranked[0].bearish) && MeetsQuota(ranked, chosen, limit, q)
    ensures MeetsQuota(ranked[1..], rest, limit - 1, Met(q, ranked[0].bearish))
    ensures Total(ranked, chosen) <= ranked[0].score + Total(ranked[1..], rest)
  {
    if ranked[0] in chosen {
      hide IsRanking, HeadIsBest;
      rest := KeepHead(ranked, chosen, limit, q);
    } else {
      ChosenFit(ranked[1..], chosen);
      var y := GiveUpOne(chosen, limit, q, ranked[0].bearish);
      rest := chosen - {y};
      RemoveFromTail(ranked, chosen, y);
      hide IsRanking;
      assert y in Items(ranked[1..]);
    }
  }

  /** With as many places as one direction needs, every chosen entry has it. */
  lemma {:induction false} OnlyNeededFit(chosen: set<Item>, bearish: bool)
    requires |Of(chosen, bearish)| >= |chosen|
    ensures forall x | x in chosen :: x.bearish == bearish
  {
    SubsetSize(Of(chosen, bearish), chosen);
  }

  /** A choice that leaves no place for the head is a choice from the tail. */
  lemma {:induction false} HeadHasNoPlace(ranked: seq<Item>, chosen: set<Item>, limit: nat, q: Quota)
    requires HeadIsNew(ranked) && Feasible(ranked, limit, q) && !Takes(q, limit, ranked[0].bearish)
    requires MeetsQuota(ranked, chosen, limit, q)
    ensures MeetsQuota(ranked[1..], chosen, limit, q)
    ensures Total(ranked, chosen) == Total(ranked[1..], chosen)
  {
    CountBound(ranked[1..]);
    OnlyNeededFit(chosen, !ranked[0].bearish);
  }

  lemma {:induction false} NothingChosen(ranked: seq<Item>, chosen: set<Item>, limit: nat, q: Quota)
    requires (ranked == [] || limit == 0) && MeetsQuota(ranked, chosen, limit, q)
    ensures chosen == {}
  {
  }

  /** No choice that meets the quota has a larger total than the greedy one. */
  lemma {:induction false} ChooseIsBest(ranked: seq<Item>, chosen: set<Item>, limit: nat, q: Quota)
    requires IsRanking(ranked) && Feasible(ranked, limit, q) && MeetsQuota(ranked, chosen, limit, q)
    ensures Total(ranked, chosen) <= Total(ranked, Choose(ranked, limit, q))
  {
    hide HeadIsBest, HeadIsNew, MeetsQuota;
    if ranked == [] || limit == 0 {
      NothingChosen(ranked, chosen, limit, q);
    } else {
      HeadOfRanking(ranked);
      if Takes(q, limit, ranked[0].bearish) {
        var rest := ExchangeForHead(ranked, chosen, limit, q);
        hide IsRanking;
        ChooseIsBest(ranked[1..], rest, limit - 1, Met(q, ranked[0].bearish));
        AddHead(ranked, Choose(ranked[1..], limit - 1, Met(q, ranked[0].bearish)));
      } else {
        HeadHasNoPlace(ranked, chosen, limit, q);
        ChooseIsBest(ranked[1..], chosen, limit, q);
        ChooseMeetsQuota(ranked, limit, q);
        HeadHasNoPlace(ranked, Choose(ranked, limit, q), limit, q);
      }
    }
  }

  // ---- Reserving first and filling afterwards makes the same choice -----------------------------------------------

  lemma {:induction false} ReserveSize(ranked: seq<Item>, bearish: bool, places: nat)
    ensures |Reserve(ranked, bearish, places)| == Least(places, Count(ranked, bearish))
    ensures forall x | x in Reserve(ranked, bearish, places) :: x in ranked && x.bearish == bearish
  {
    if ranked != [] && places > 0 {
      ReserveSize(ranked[1..], bearish, if ranked[0].bearish == bearish then places - 1 else places);
    }
  }

  lemma {:induction false} ReserveIsCapped(ranked: seq<Item>, bearish: bool, places: nat)
    ensures Reserve(ranked, bearish, places) == Reserve(ranked, bearish, Least(places, Count(ranked, bearish)))
  {
    if ranked != [] && places > 0 {
      ReserveIsCapped(ranked[1..], bearish, if ranked[0].bearish == bearish then places - 1 else places);
      if Count(ranked, bearish) == 0 {
        ReserveSize(ranked, bearish, places);
      }
    }
  }

  /** A taken ticker that the list does not hold makes no difference. */
  lemma {:induction false} FillIgnoresStrangers(ranked: seq<Item>, taken: set<string>, more: set<string>, places: nat)
    requires forall x | x in ranked :: x.ticker in taken <==> x.ticker in more
    ensures Fill(ranked, taken, places) == Fill(ranked, more, places)
  {
    if ranked != [] && places > 0 {
      FillIgnoresStrangers(ranked[1..], taken, more, if ranked[0].ticker in taken then places else places - 1);
    }
  }

  ghost function Reserved(ranked: seq<Item>, q: Quota): seq<Item> {
    Reserve(ranked, false, q.bullish) + Reserve(ranked, true, q.bearish)
  }

  ghost function Filling(ranked: seq<Item>, limit: nat, q: Quota): seq<Item> {
    Fill(ranked, Tickers(Reserved(ranked, q)), NonNegative(limit - q.bullish - q.bearish))
  }

  ghost function ReserveThenFill(ranked: seq<Item>, limit: nat, q: Quota): set<Item> {
    Items(Reserved(ranked, q)) + Items(Filling(ranked, limit, q))
  }

  lemma {:induction false} ReservedAreListed(ranked: seq<Item>, q: Quota)
    ensures forall x | x in Reserved(ranked, q) :: x in ranked
  {
    ReserveSize(ranked, false, q.bullish);
    ReserveSize(ranked, true, q.bearish);
  }

  lemma {:induction false} NothingToFill(ranked: seq<Item>, limit: nat, q: Quota)
    requires (ranked == [] || limit == 0) && Feasible(ranked, limit, q)
    ensures ReserveThenFill(ranked, limit, q) == {} && |Filling(ranked, limit, q)| == 0
  {
  }

  lemma {:induction false} ReserveHead(ranked: seq<Item>, limit: nat, q: Quota)
    requires HeadIsNew(ranked) && HeadIsBest(ranked) && Need(q, ranked[0].bearish) > 0 && limit > 0
    ensures var left := Met(q, ranked[0].bearish);
            && Items(Reserved(ranked, q)) == {ranked[0]} + Items(Reserved(ranked[1..], left))
            && Filling(ranked, limit, q) == Filling(ranked[1..], limit - 1, left)
  {
    var left := Met(q, ranked[0].bearish);
    var head, reserved := ranked[0], Reserved(ranked[1..], left);
    ReservedSplitsHead(ranked, q);
    assert head.ticker in Tickers(Reserved(ranked, q));
    FillIgnoresStrangers(ranked[1..], Tickers(Reserved(ranked, q)), Tickers(reserved),
        NonNegative(limit - q.bullish - q.bearish));
  }

  lemma {:induction false} ReservedSplitsHead(ranked: seq<Item>, q: Quota)
    requires ranked != [] && Need(q, ranked[0].bearish) > 0
    ensures forall x :: x in Reserved(ranked, q) <==>
              x == ranked[0] || x in Reserved(ranked[1..], Met(q, ranked[0].bearish))
  {
  }

  lemma {:induction false} FillHead(ranked: seq<Item>, limit: nat, q: Quota)
    requires HeadIsNew(ranked) && HeadIsBest(ranked) && Need(q, ranked[0].bearish) == 0 && limit > q.bullish + q.bearish
    ensures Reserved(ranked, q) == Reserved(ranked[1..], Met(q, ranked[0].bearish))
    ensures Filling(ranked, limit, q) == [ranked[0]] + Filling(ranked[1..], limit - 1, Met(q, ranked[0].bearish))
  {
    assert Met(q, ranked[0].bearish) == q;
    ReservedAreListed(ranked[1..], q);
    PassHead(ranked, q);
    assert ranked[0].ticker !in Tickers(Reserved(ranked, q));
  }

  lemma {:induction false} PassHead(ranked: seq<Item>, q: Quota)
    requires ranked != [] && Need(q, ranked[0].bearish) == 0
    ensures Reserved(ranked, q) == Reserved(ranked[1..], q)
  {
  }

  lemma {:induction false} ReserveThenFillChooses(ranked: seq<Item>, limit: nat, q: Quota)
    requires IsRanking(ranked) && Feasible(ranked, limit, q)
    ensures ReserveThenFill(ranked, limit, q) == Choose(ranked, limit, q)
    ensures |Filling(ranked, limit, q)| + q.bullish + q.bearish == Least(limit, |ranked|)
  {
    hide HeadIsBest, HeadIsNew, Reserved, Filling;
    if ranked == [] || limit == 0 {
      NothingToFill(ranked, limit, q);
    } else {
      HeadOfRanking(ranked);
      hide IsRanking;
      CountBound(ranked[1..]);
      if Takes(q, limit, ranked[0].bearish) {
        ReserveThenFillChooses(ranked[1..], limit - 1, Met(q, ranked[0].bearish));
        if Need(q, ranked[0].bearish) > 0 {
          ReserveHead(ranked, limit, q);
        } else {
          FillHead(ranked, limit, q);
        }
      } else {
        ReserveThenFillChooses(ranked[1..], limit, q);
        PassHead(ranked, q);
        NothingLeft(ranked, limit, q);
      }
    }
  }

  lemma {:induction false} NothingLeft(ranked: seq<Item>, limit: nat, q: Quota)
    requires ranked != [] && limit == q.bullish + q.bearish
    ensures Filling(ranked, limit, q) == [] == Filling(ranked[1..], limit, q)
  {
  }
}

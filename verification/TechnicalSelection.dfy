/** The technical screen: confirmed earnings first, then each direction up to its minimum, bullish before bearish,
    then whatever scores best. */
module TechnicalSelection {
  import opened Basics
  import opened QuotaChoice

  /** The candidates whose ticker is not taken. */
  function Unselected(candidates: seq<Item>, taken: set<string>): seq<Item> {
    if candidates == [] then []
    else if candidates[0].ticker in taken then Unselected(candidates[1..], taken)
    else [candidates[0]] + Unselected(candidates[1..], taken)
  }

  /** The confirmed-earnings candidates that get in, `reported` being sorted by surprise. */
  function Priority(reported: seq<Item>, priorityLimit: int, top: nat): seq<Item> {
    reported[..Least(Least(NonNegative(priorityLimit), |reported|), top)]
  }

  /** As many of the best reported candidates get in as there are, as the limit allows and as there are places. */
  lemma {:induction false} PriorityIs(reported: seq<Item>, priorityLimit: int, top: nat, k: nat)
    ensures Priority(reported, priorityLimit, top) <= reported
    ensures k <= |Priority(reported, priorityLimit, top)|
            <==> k <= |reported| && (k == 0 || k <= priorityLimit) && k <= top
  {
  }

  /** One direction is filled up to its minimum, or until no place is left. */
  function WithDirection(candidates: seq<Item>, selected: seq<Item>, bearish: bool, minimum: nat, top: nat): seq<Item> {
    var places := Least(NonNegative(minimum - Count(selected, bearish)), NonNegative(top - |selected|));
    selected + Reserve(Unselected(candidates, Tickers(selected)), bearish, places)
  }

  function WithBest(candidates: seq<Item>, selected: seq<Item>, top: nat): seq<Item> {
    selected + Fill(candidates, Tickers(selected), NonNegative(top - |selected|))
  }

  function Selection(candidates: seq<Item>, priority: seq<Item>, minimum: nat, top: nat): seq<Item> {
    var bullish := WithDirection(candidates, priority, false, minimum, top);
    WithBest(candidates, WithDirection(candidates, bullish, true, minimum, top), top)
  }

  // ---- The loops -------------------------------------------------------------------------------------------------

  method AddPriority(reported: seq<Item>, priorityLimit: int, top: nat) returns (selected: seq<Item>)
    requires DistinctTickers(reported)
    ensures selected == Priority(reported, priorityLimit, top)
  {
    selected := [];
    var seen: set<string> := {};
    var first := reported[..Least(NonNegative(priorityLimit), |reported|)];
    for i := 0 to |first|
      invariant selected == first[..Least(i, top)]
      invariant forall t | t in seen :: exists j :: 0 <= j < i && first[j].ticker == t
    {
      assert first[i].ticker !in seen;
      if first[i].ticker !in seen && |selected| < top {
        selected := selected + [first[i]];
        seen := seen + {first[i].ticker};
      }
    }
  }

  lemma {:induction false} NextPlace(candidates: seq<Item>, i: nat, taken: set<string>, bearish: bool, places: nat)
    requires i < |candidates|
    ensures var item, rest := candidates[i], Unselected(candidates[i + 1..], taken);
            Reserve(Unselected(candidates[i..], taken), bearish, places)
            == if item.ticker in taken || item.bearish != bearish || places == 0 then Reserve(rest, bearish, places)
               else [item] + Reserve(rest, bearish, places - 1)
  {
    assert candidates[i..][0] == candidates[i] && candidates[i..][1..] == candidates[i + 1..];
    var rest := Unselected(candidates[i + 1..], taken);
    if candidates[i].ticker !in taken {
      assert ([candidates[i]] + rest)[1..] == rest;
    }
  }

  lemma {:induction false} NoPlace(s: seq<Item>, bearish: bool, places: nat)
    requires s == [] || places == 0
    ensures Reserve(s, bearish, places) == []
  {
  }

  method AddDirection(candidates: seq<Item>, before: seq<Item>, bearish: bool, minimum: nat,
      top: nat) returns (selected: seq<Item>)
    requires DistinctTickers(candidates)
    ensures selected == WithDirection(candidates, before, bearish, minimum, top)
  {
    hide Count, Tickers, Reserve, Unselected;
    selected := before;
    var taken, current, i := Tickers(before), Count(before, bearish), 0;
    var seen := taken;
    ghost var goal := WithDirection(candidates, before, bearish, minimum, top);
    assert candidates[0..] == candidates;
    while i < |candidates| && current < minimum
      invariant 0 <= i <= |candidates|
      invariant taken <= seen
      invariant forall t | t in seen :: t in taken || exists j :: 0 <= j < i && candidates[j].ticker == t
      invariant selected + Reserve(Unselected(candidates[i..], taken), bearish,
                                   Least(NonNegative(minimum - current), NonNegative(top - |selected|)))
                == goal
    {
      var item := candidates[i];
      NextPlace(candidates, i, taken, bearish, Least(NonNegative(minimum - current), NonNegative(top - |selected|)));
      assert item.ticker in seen <==> item.ticker in taken;
      if item.bearish == bearish && item.ticker !in seen && |selected| < top {
        selected := selected + [item];
        seen := seen + {item.ticker};
        current := current + 1;
      }
      i := i + 1;
    }
    assert i == |candidates| ==> candidates[i..] == [];
    NothingUnselected(taken);
    NoPlace(Unselected(candidates[i..], taken), bearish, Least(NonNegative(minimum - current),
        NonNegative(top - |selected|)));
  }

  lemma {:induction false} NothingUnselected(taken: set<string>)
    ensures Unselected([], taken) == []
  {
  }

  /** _select_technical_candidates. `reported` holds the candidates with confirmed earnings, largest surprise first. */
  method SelectTechnicalCandidates(candidates: seq<Item>, reported: seq<Item>, priorityLimit: int,
      minimumPerDirection: int, topCount: int)
    returns (selected: seq<Item>)
    requires IsRanking(candidates) && IsPick(candidates, reported)
    ensures selected == Selection(candidates, Priority(reported, priorityLimit, NonNegative(topCount)),
                                  NonNegative(minimumPerDirection), NonNegative(topCount))
    ensures IsOptimal(candidates, Priority(reported, priorityLimit, NonNegative(topCount)), Items(selected),
                      NonNegative(minimumPerDirection), NonNegative(topCount))
    ensures forall k | 0 <= k <= |reported| && k <= priorityLimit && k <= topCount ::
              k <= |selected| && selected[..k] == reported[..k]
  {
    var top, minimum := NonNegative(topCount), NonNegative(minimumPerDirection);
    selected := AddPriority(reported, priorityLimit, top);
    ghost var priority := selected;
    assert IsPick(candidates, priority);
    SelectionIsPick(candidates, priority, minimum, top);
    SelectionIsOptimal(candidates, priority, minimum, top);
    hide IsRanking, IsPick;
    selected := AddDirection(candidates, selected, false, minimum, top);
    selected := AddDirection(candidates, selected, true, minimum, top);
    selected := FillPlaces(candidates, top, selected);
  }

  // ---- What is promised ------------------------------------------------------------------------------------------

  /** Distinct candidates from the list. */
  ghost predicate IsPick(candidates: seq<Item>, picked: seq<Item>) {
    DistinctTickers(picked) && forall x | x in picked :: x in candidates
  }

  /** The minimum of each direction, or all its candidates when there are fewer. */
  ghost function Minimums(candidates: seq<Item>, minimum: nat): Quota {
    Quota(Least(minimum, Count(candidates, false)), Least(minimum, Count(candidates, true)))
  }

  /** What the minimums still ask for beside the priority candidates. */
  ghost function LeftQuota(candidates: seq<Item>, priority: seq<Item>, minimum: nat): Quota {
    var q := Minimums(candidates, minimum);
    Quota(NonNegative(q.bullish - Count(priority, false)), NonNegative(q.bearish - Count(priority, true)))
  }

  /** What can be served of that, bullish entries before bearish ones. */
  ghost function ServedQuota(candidates: seq<Item>, priority: seq<Item>, minimum: nat, top: nat): Quota {
    var q, places := LeftQuota(candidates, priority, minimum), NonNegative(top - |priority|);
    var bullish := Least(q.bullish, places);
    Quota(bullish, Least(q.bearish, places - bullish))
  }

  ghost predicate PlacesSuffice(candidates: seq<Item>, priority: seq<Item>, minimum: nat, top: nat) {
    var q := LeftQuota(candidates, priority, minimum);
    q.bullish + q.bearish <= top - |priority|
  }

  /** A quota beside the entries already picked, as a quota of the whole choice. */
  ghost function Beside(picked: seq<Item>, q: Quota): Quota {
    Quota(Count(picked, false) + q.bullish, Count(picked, true) + q.bearish)
  }

  /** A full choice that holds the priority candidates and meets a quota. */
  ghost predicate Admissible(candidates: seq<Item>, priority: seq<Item>, chosen: set<Item>, q: Quota, top: nat) {
    Items(priority) <= chosen && MeetsQuota(candidates, chosen, top, q)
  }

  /** The choice is full, holds the priority candidates and serves the minimums as far as the places go, bullish
      entries first, with the largest total score of all choices that do. It meets both minimums exactly when the
      places suffice for what they ask beside the priority candidates, exactly when any choice does; and then its
      total is the largest of all that do. */
  ghost predicate IsOptimal(candidates: seq<Item>, priority: seq<Item>, selected: set<Item>, minimum: nat, top: nat) {
    var served := Beside(priority, ServedQuota(candidates, priority, minimum, top));
    var both := Minimums(candidates, minimum);
    && Admissible(candidates, priority, selected, served, top)
    && (forall chosen | Admissible(candidates, priority, chosen, served, top) ::
          Total(candidates, chosen) <= Total(candidates, selected))
    && (Admissible(candidates, priority, selected, both, top) <==> PlacesSuffice(candidates, priority, minimum, top))
    && (forall chosen | Admissible(candidates, priority, chosen, both, top) ::
          && PlacesSuffice(candidates, priority, minimum, top)
          && Total(candidates, chosen) <= Total(candidates, selected))
  }

  // ---- Picks -------------------------------------------------------------------------------------------------------

  lemma {:induction false} UnselectedHolds(candidates: seq<Item>, taken: set<string>, x: Item)
    ensures x in Unselected(candidates, taken) <==> x in candidates && x.ticker !in taken
  {
    if candidates != [] {
      UnselectedHolds(candidates[1..], taken, x);
    }
  }

  lemma {:induction false} UnselectedIsRanking(candidates: seq<Item>, taken: set<string>)
    requires IsRanking(candidates)
    ensures IsRanking(Unselected(candidates, taken))
  {
    if candidates != [] {
      HeadOfRanking(candidates);
      UnselectedIsRanking(candidates[1..], taken);
      var rest := Unselected(candidates[1..], taken);
      forall x | x in rest
        ensures x.ticker != candidates[0].ticker && x.score <= candidates[0].score
      {
        UnselectedHolds(candidates[1..], taken, x);
      }
    }
  }

  lemma {:induction false} DistinctSize(s: seq<Item>, bearish: bool)
    requires DistinctTickers(s)
    ensures |Items(s)| == |s| && |Of(Items(s), bearish)| == Count(s, bearish)
  {
    if s != [] {
      DistinctSize(s[1..], bearish);
      var rest := Items(s[1..]);
      assert Items(s) == {s[0]} + rest && s[0] !in rest;
      OneMoreOf(s[0], rest);
    }
  }

  lemma {:induction false} CountConcat(a: seq<Item>, b: seq<Item>, bearish: bool)
    ensures Count(a + b, bearish) == Count(a, bearish) + Count(b, bearish)
  {
    if a == [] {
      assert a + b == b;
    } else {
      assert (a + b)[1..] == a[1..] + b;
      CountConcat(a[1..], b, bearish);
    }
  }

  lemma {:induction false} CountOfOther(s: seq<Item>, bearish: bool)
    requires forall x | x in s :: x.bearish != bearish
    ensures Count(s, bearish) == 0
  {
    if s != [] {
      CountOfOther(s[1..], bearish);
    }
  }

  lemma {:induction false} DistinctConcat(a: seq<Item>, b: seq<Item>)
    requires DistinctTickers(a) && DistinctTickers(b) && forall x, y | x in a && y in b :: x.ticker != y.ticker
    ensures DistinctTickers(a + b)
  {
  }

  lemma {:induction false} ReserveIsPick(s: seq<Item>, bearish: bool, places: nat)
    requires DistinctTickers(s)
    ensures IsPick(s, Reserve(s, bearish, places))
  {
    if s != [] && places > 0 {
      if s[0].bearish == bearish {
        ReserveIsPick(s[1..], bearish, places - 1);
        DistinctConcat([s[0]], Reserve(s[1..], bearish, places - 1));
      } else {
        ReserveIsPick(s[1..], bearish, places);
      }
    }
  }

  lemma {:induction false} FillIsPick(s: seq<Item>, taken: set<string>, places: nat)
    requires DistinctTickers(s)
    ensures IsPick(s, Fill(s, taken, places))
    ensures forall x | x in Fill(s, taken, places) :: x.ticker !in taken
    ensures |Fill(s, taken, places)| == Least(places, |Unselected(s, taken)|)
  {
    if s != [] && places > 0 {
      if s[0].ticker in taken {
        FillIsPick(s[1..], taken, places);
      } else {
        FillIsPick(s[1..], taken, places - 1);
        DistinctConcat([s[0]], Fill(s[1..], taken, places - 1));
      }
    }
  }

  /** In a ranking a picked ticker names the picked entry, so what is left is everything else. */
  lemma {:induction false} LeftOver(candidates: seq<Item>, picked: seq<Item>, bearish: bool)
    requires IsRanking(candidates) && IsPick(candidates, picked)
    ensures var left := Unselected(candidates, Tickers(picked));
            && IsRanking(left)
            && Items(left) == Items(candidates) - Items(picked)
            && |left| == |candidates| - |picked|
            && Count(left, bearish) == Count(candidates, bearish) - Count(picked, bearish)
  {
    var left := Unselected(candidates, Tickers(picked));
    UnselectedIsRanking(candidates, Tickers(picked));
    forall x
      ensures x in Items(left) <==> x in Items(candidates) - Items(picked)
    {
      UnselectedHolds(candidates, Tickers(picked), x);
      if x in candidates {
        SameTicker(candidates, picked, x);
      }
    }
    DistinctSize(left, bearish);
    DistinctSize(candidates, bearish);
    DistinctSize(picked, bearish);
    hide IsRanking, Unselected, Count;
    assert Of(Items(left), bearish) == Of(Items(candidates), bearish) - Of(Items(picked), bearish);
    assert Of(Items(picked), bearish) <= Of(Items(candidates), bearish);
    assert Items(picked) <= Items(candidates);
  }

  lemma {:induction false} SameTicker(candidates: seq<Item>, picked: seq<Item>, x: Item)
    requires DistinctTickers(candidates) && IsPick(candidates, picked) && x in candidates
    ensures x.ticker in Tickers(picked) <==> x in picked
  {
    if x.ticker in Tickers(picked) {
      var y :| y in picked && y.ticker == x.ticker;
      var i, j :| 0 <= i < |candidates| && 0 <= j < |candidates| && candidates[i] == x && candidates[j] == y;
    }
  }

  lemma {:induction false} ExtendPick(candidates: seq<Item>, picked: seq<Item>, more: seq<Item>)
    requires IsPick(candidates, picked) && DistinctTickers(more)
    requires forall x | x in more :: x in candidates && x.ticker !in Tickers(picked)
    ensures IsPick(candidates, picked + more)
  {
    DistinctConcat(picked, more);
  }

  lemma {:induction false} WithDirectionIsPick(candidates: seq<Item>, selected: seq<Item>, bearish: bool,
      minimum: nat, top: nat)
    requires IsRanking(candidates) && IsPick(candidates, selected) && |selected| <= top
    ensures var more := WithDirection(candidates, selected, bearish, minimum, top);
            IsPick(candidates, more) && selected <= more && |more| <= top
  {
    var left := Unselected(candidates, Tickers(selected));
    var places := Least(NonNegative(minimum - Count(selected, bearish)), NonNegative(top - |selected|));
    var more := Reserve(left, bearish, places);
    UnselectedIsRanking(candidates, Tickers(selected));
    ReserveIsPick(left, bearish, places);
    ReserveSize(left, bearish, places);
    forall x | x in more
      ensures x in candidates && x.ticker !in Tickers(selected)
    {
      UnselectedHolds(candidates, Tickers(selected), x);
    }
    ExtendPick(candidates, selected, more);
  }

  lemma {:induction false} WithBestIsFull(candidates: seq<Item>, selected: seq<Item>, top: nat)
    requires IsRanking(candidates) && IsPick(candidates, selected) && |selected| <= top
    ensures var all := WithBest(candidates, selected, top);
            IsPick(candidates, all) && selected <= all && |all| == Least(top, |candidates|)
  {
    FillIsPick(candidates, Tickers(selected), top - |selected|);
    LeftOver(candidates, selected, false);
    ExtendPick(candidates, selected, Fill(candidates, Tickers(selected), top - |selected|));
  }

  /** Whatever the places, the selection is full, without duplicates, and starts with the priority candidates. */
  lemma {:induction false} SelectionIsPick(candidates: seq<Item>, priority: seq<Item>, minimum: nat, top: nat)
    requires IsRanking(candidates) && IsPick(candidates, priority) && |priority| <= top
    ensures var selected := Selection(candidates, priority, minimum, top);
            && IsPick(candidates, selected) && priority <= selected && |selected| == Least(top, |candidates|)
            && |WithDirection(candidates, priority, false, minimum, top)| <= top
            && |WithDirection(candidates, WithDirection(candidates, priority, false, minimum, top), true, minimum,
                top)| <= top
  {
    hide IsRanking, IsPick, WithDirection, WithBest;
    var bullish := WithDirection(candidates, priority, false, minimum, top);
    WithDirectionIsPick(candidates, priority, false, minimum, top);
    WithDirectionIsPick(candidates, bullish, true, minimum, top);
    WithBestIsFull(candidates, WithDirection(candidates, bullish, true, minimum, top), top);
  }

  // ---- Optimality -------------------------------------------------------------------------------------------------

  ghost function Left(candidates: seq<Item>, priority: seq<Item>): seq<Item> {
    Unselected(candidates, Tickers(priority))
  }

  lemma {:induction false} OfMinus(chosen: set<Item>, given: set<Item>, bearish: bool)
    requires given <= chosen
    ensures |Of(chosen - given, bearish)| == |Of(chosen, bearish)| - |Of(given, bearish)|
    ensures |chosen - given| == |chosen| - |given|
  {
    assert Of(chosen, bearish) == Of(chosen - given, bearish) + Of(given, bearish);
    assert Of(chosen - given, bearish) !! Of(given, bearish);
  }

  lemma {:induction false} OfBoth(chosen: set<Item>)
    ensures |chosen| == |Of(chosen, false)| + |Of(chosen, true)|
  {
    assert chosen == Of(chosen, false) + Of(chosen, true);
    assert Of(chosen, false) !! Of(chosen, true);
  }

  /** A choice that holds the priority candidates meets a quota beside them exactly when the rest of it meets the
      quota on what is left. */
  lemma {:induction false} QuotaOfTheRest(candidates: seq<Item>, priority: seq<Item>, chosen: set<Item>, q: Quota,
      top: nat)
    requires IsRanking(candidates) && IsPick(candidates, priority) && |priority| <= top && Items(priority) <= chosen
    ensures MeetsQuota(candidates, chosen, top, Beside(priority, q))
            <==> MeetsQuota(Left(candidates, priority), chosen - Items(priority), top - |priority|, q)
  {
    hide IsRanking, Unselected, Count, Of, Tickers;
    LeftOver(candidates, priority, false);
    PickHas(candidates, priority);
    OfMinus(chosen, Items(priority), false);
    OfMinus(chosen, Items(priority), true);
    var left, rest := Left(candidates, priority), chosen - Items(priority);
    SubsetOfTheRest(chosen, Items(priority), Items(candidates));
    assert |chosen| == Least(top, |candidates|) <==> |rest| == Least(top - |priority|, |left|);
  }

  lemma {:induction false} SubsetOfTheRest<T>(chosen: set<T>, given: set<T>, whole: set<T>)
    requires given <= chosen && given <= whole
    ensures chosen <= whole <==> chosen - given <= whole - given
  {
    if chosen - given <= whole - given {
      forall x | x in chosen
        ensures x in whole
      {
        assert x in given || x in chosen - given;
      }
    }
  }

  /** Served quotas can be met, and they are the left quota exactly when the places suffice. */
  lemma {:induction false} ServedIsFeasible(candidates: seq<Item>, priority: seq<Item>, minimum: nat, top: nat)
    requires IsRanking(candidates) && IsPick(candidates, priority) && |priority| <= top
    ensures Feasible(Left(candidates, priority), top - |priority|, ServedQuota(candidates, priority, minimum, top))
    ensures PlacesSuffice(candidates, priority, minimum, top)
            <==> ServedQuota(candidates, priority, minimum, top) == LeftQuota(candidates, priority, minimum)
  {
    LeftOver(candidates, priority, false);
    LeftOver(candidates, priority, true);
    hide IsRanking, IsPick, Unselected, Count, Tickers;
  }

  /** A choice meets both minimums exactly when it meets what they ask beside the priority candidates, and then the
      places suffice. */
  lemma {:induction false} MinimumsBesidePriority(candidates: seq<Item>, priority: seq<Item>, chosen: set<Item>,
      minimum: nat, top: nat)
    requires IsRanking(candidates) && IsPick(candidates, priority) && |priority| <= top && Items(priority) <= chosen
    ensures MeetsQuota(candidates, chosen, top, Minimums(candidates, minimum))
            <==> MeetsQuota(candidates, chosen, top, Beside(priority, LeftQuota(candidates, priority, minimum)))
    ensures MeetsQuota(candidates, chosen, top, Minimums(candidates, minimum))
            ==> PlacesSuffice(candidates, priority, minimum, top)
  {
    hide IsRanking, Unselected, Count, Of, Tickers;
    PickHas(candidates, priority);
    OfMinus(chosen, Items(priority), false);
    OfMinus(chosen, Items(priority), true);
    OfBoth(chosen - Items(priority));
  }

  lemma {:induction false} TotalOfUnion(ranked: seq<Item>, a: set<Item>, b: set<Item>)
    requires a !! b
    ensures Total(ranked, a + b) == Total(ranked, a) + Total(ranked, b)
  {
    if ranked != [] {
      TotalOfUnion(ranked[1..], a, b);
    }
  }

  lemma {:induction false} TotalOfLeft(candidates: seq<Item>, taken: set<string>, chosen: set<Item>)
    requires forall x | x in chosen :: x.ticker !in taken
    ensures Total(candidates, chosen) == Total(Unselected(candidates, taken), chosen)
  {
    if candidates != [] {
      TotalOfLeft(candidates[1..], taken, chosen);
    }
  }

  lemma {:induction false} TotalSplits(candidates: seq<Item>, priority: seq<Item>, rest: set<Item>)
    requires rest <= Items(Left(candidates, priority))
    ensures Total(candidates, Items(priority) + rest)
            == Total(candidates, Items(priority)) + Total(Left(candidates, priority), rest)
  {
    forall x | x in rest
      ensures x.ticker !in Tickers(priority)
    {
      UnselectedHolds(candidates, Tickers(priority), x);
    }
    TotalOfLeft(candidates, Tickers(priority), rest);
    TotalOfUnion(candidates, Items(priority), rest);
  }

  // ---- The three loops choose greedily from what is left ----------------------------------------------------------

  /** Taking away entries of one direction does not change what is reserved for the other. */
  lemma {:induction false} ReserveSkipsOther(candidates: seq<Item>, taken: set<string>, more: set<string>,
      bearish: bool, places: nat)
    requires taken <= more
    requires forall x | x in candidates && x.ticker in more && x.ticker !in taken :: x.bearish != bearish
    ensures Reserve(Unselected(candidates, more), bearish, places)
            == Reserve(Unselected(candidates, taken), bearish, places)
  {
    if candidates != [] {
      var head, tail := candidates[0], candidates[1..];
      ReserveSkipsOther(tail, taken, more, bearish, places);
      if head.ticker !in more && head.bearish == bearish && places > 0 {
        ReserveSkipsOther(tail, taken, more, bearish, places - 1);
        assert Unselected(candidates, more)[1..] == Unselected(tail, more);
        assert Unselected(candidates, taken)[1..] == Unselected(tail, taken);
      } else if head.ticker !in taken {
        assert Unselected(candidates, taken)[1..] == Unselected(tail, taken);
        assert head.ticker !in more ==> Unselected(candidates, more)[1..] == Unselected(tail, more);
      }
    }
  }

  lemma {:induction false} FillOfLeft(candidates: seq<Item>, taken: set<string>, more: set<string>, places: nat)
    ensures Fill(candidates, taken + more, places) == Fill(Unselected(candidates, taken), more, places)
  {
    if candidates != [] && places > 0 {
      var head, tail := candidates[0], candidates[1..];
      if head.ticker in taken {
        FillOfLeft(tail, taken, more, places);
      } else {
        assert Unselected(candidates, taken)[1..] == Unselected(tail, taken);
        FillOfLeft(tail, taken, more, if head.ticker in more then places else places - 1);
      }
    }
  }

  lemma {:induction false} BullishStage(candidates: seq<Item>, priority: seq<Item>, minimum: nat, top: nat)
    requires IsRanking(candidates) && IsPick(candidates, priority) && |priority| <= top
    ensures var q := ServedQuota(candidates, priority, minimum, top);
            WithDirection(candidates, priority, false, minimum, top)
                == priority + Reserve(Left(candidates, priority), false, q.bullish)
  {
    var left, q := Left(candidates, priority), ServedQuota(candidates, priority, minimum, top);
    LeftOver(candidates, priority, false);
    hide IsRanking, IsPick, Unselected, Count, Reserve;
    var places := Least(NonNegative(minimum - Count(priority, false)), NonNegative(top - |priority|));
    ReserveIsCapped(left, false, places);
    assert Least(places, Count(left, false)) == q.bullish;
  }

  lemma {:induction false} BearishStage(candidates: seq<Item>, priority: seq<Item>, bullish: seq<Item>, minimum: nat,
      top: nat)
    requires IsRanking(candidates) && IsPick(candidates, priority) && |priority| <= top
    requires var q := ServedQuota(candidates, priority, minimum, top);
             bullish == Reserve(Left(candidates, priority), false, q.bullish)
    ensures var q := ServedQuota(candidates, priority, minimum, top);
            WithDirection(candidates, priority + bullish, true, minimum, top)
            == priority + bullish + Reserve(Left(candidates, priority), true, q.bearish)
  {
    hide IsRanking, IsPick, Unselected, Count, Reserve, Tickers;
    var left, q := Left(candidates, priority), ServedQuota(candidates, priority, minimum, top);
    LeftOver(candidates, priority, true);
    ServedIsFeasible(candidates, priority, minimum, top);
    ReserveSize(left, false, q.bullish);
    CountConcat(priority, bullish, true);
    CountOfOther(bullish, true);
    MoreTickers(priority, bullish);
    var places := Least(NonNegative(minimum - Count(priority, true)), NonNegative(top - |priority| - q.bullish));
    BullishTickers(candidates, priority, bullish);
    ReserveSkipsOther(candidates, Tickers(priority), Tickers(priority + bullish), true, places);
    ReserveIsCapped(left, true, places);
    assert Least(places, Count(left, true)) == q.bearish;
  }

  lemma {:induction false} MoreTickers(a: seq<Item>, b: seq<Item>)
    ensures Tickers(a) <= Tickers(a + b)
  {
  }

  lemma {:induction false} BullishTickers(candidates: seq<Item>, priority: seq<Item>, bullish: seq<Item>)
    requires IsRanking(candidates)
    requires forall x | x in bullish :: x in Left(candidates, priority) && !x.bearish
    ensures forall x | x in candidates && x.ticker in Tickers(priority + bullish)
            && x.ticker !in Tickers(priority) :: !x.bearish
  {
    forall x | x in candidates && x.ticker in Tickers(priority + bullish) && x.ticker !in Tickers(priority)
      ensures !x.bearish
    {
      var y :| y in priority + bullish && y.ticker == x.ticker;
      assert y in bullish;
      UnselectedHolds(candidates, Tickers(priority), y);
      var i, j :| 0 <= i < |candidates| && 0 <= j < |candidates| && candidates[i] == x && candidates[j] == y;
    }
  }

  lemma {:induction false} SelectionChooses(candidates: seq<Item>, priority: seq<Item>, minimum: nat, top: nat)
    requires IsRanking(candidates) && IsPick(candidates, priority) && |priority| <= top
    ensures Feasible(Left(candidates, priority), top - |priority|, ServedQuota(candidates, priority, minimum, top))
    ensures Items(Selection(candidates, priority, minimum, top))
            == Items(priority)
               + Choose(Left(candidates, priority), top - |priority|, ServedQuota(candidates, priority, minimum, top))
  {
    hide IsRanking, IsPick, WithDirection, Choose, Unselected, Count, Reserve, Fill, Tickers, ServedQuota, Feasible;
    var left, q := Left(candidates, priority), ServedQuota(candidates, priority, minimum, top);
    var bullish, bearish := Reserve(left, false, q.bullish), Reserve(left, true, q.bearish);
    ServedIsFeasible(candidates, priority, minimum, top);
    BullishStage(candidates, priority, minimum, top);
    BearishStage(candidates, priority, bullish, minimum, top);
    LeftOver(candidates, priority, false);
    ReserveThenFillChooses(left, top - |priority|, q);
    BestStage(candidates, priority, bullish, bearish, q, top);
    assert Selection(candidates, priority, minimum, top)
        == priority + bullish + bearish + Filling(left, top - |priority|, q);
    ItemsOfConcat(priority + bullish + bearish, Filling(left, top - |priority|, q));
    ItemsOfConcat(priority + bullish, bearish);
    ItemsOfConcat(priority, bullish);
    ItemsOfConcat(bullish, bearish);
  }

  lemma {:induction false} ItemsOfConcat(a: seq<Item>, b: seq<Item>)
    ensures Items(a + b) == Items(a) + Items(b)
  {
  }

  lemma {:induction false} BestStage(candidates: seq<Item>, priority: seq<Item>, bullish: seq<Item>,
      bearish: seq<Item>, q: Quota, top: nat)
    requires var left := Left(candidates, priority);
             && bullish == Reserve(left, false, q.bullish) && bearish == Reserve(left, true, q.bearish)
             && |priority| <= top && Feasible(left, top - |priority|, q)
    ensures WithBest(candidates, priority + bullish + bearish, top)
            == priority + bullish + bearish + Filling(Left(candidates, priority), top - |priority|, q)
  {
    var left := Left(candidates, priority);
    ReserveSize(left, false, q.bullish);
    ReserveSize(left, true, q.bearish);
    FillOfLeft(candidates, Tickers(priority), Tickers(bullish + bearish), top - |priority| - q.bullish - q.bearish);
    assert Tickers(priority + bullish + bearish) == Tickers(priority) + Tickers(bullish + bearish);
  }

  /** Among all choices that serve the same quota the selection is the best. */
  lemma {:induction false} BestServed(candidates: seq<Item>, priority: seq<Item>, chosen: set<Item>, minimum: nat,
      top: nat)
    requires IsRanking(candidates) && IsPick(candidates, priority) && |priority| <= top
    requires var served := Beside(priority, ServedQuota(candidates, priority, minimum, top));
             Admissible(candidates, priority, chosen, served, top)
    ensures Total(candidates, chosen) <= Total(candidates, Items(Selection(candidates, priority, minimum, top)))
  {
    hide Choose, Selection, IsRanking, IsPick, Unselected, Count, Of, Feasible, MeetsQuota, Total, ServedQuota, Beside;
    var left, q := Left(candidates, priority), ServedQuota(candidates, priority, minimum, top);
    ServedIsFeasible(candidates, priority, minimum, top);
    SelectionChooses(candidates, priority, minimum, top);
    LeftOver(candidates, priority, false);
    QuotaOfTheRest(candidates, priority, chosen, q, top);
    var rest, best := chosen - Items(priority), Choose(left, top - |priority|, q);
    ChooseMeetsQuota(left, top - |priority|, q);
    ChooseIsBest(left, rest, top - |priority|, q);
    ChosenIsListed(left, rest, top - |priority|, q);
    ChosenIsListed(left, best, top - |priority|, q);
    TotalSplits(candidates, priority, rest);
    TotalSplits(candidates, priority, best);
    assert chosen == Items(priority) + rest;
  }

  lemma {:induction false} ChosenIsListed(ranked: seq<Item>, chosen: set<Item>, limit: nat, q: Quota)
    requires MeetsQuota(ranked, chosen, limit, q)
    ensures chosen <= Items(ranked)
  {
  }

  lemma {:induction false} SelectionServes(candidates: seq<Item>, priority: seq<Item>, minimum: nat, top: nat)
    requires IsRanking(candidates) && IsPick(candidates, priority) && |priority| <= top
    ensures Admissible(candidates, priority, Items(Selection(candidates, priority, minimum, top)),
                       Beside(priority, ServedQuota(candidates, priority, minimum, top)), top)
  {
    hide Choose, Selection, IsRanking, IsPick, Unselected, Count, Of, Feasible, MeetsQuota, ServedQuota, Beside;
    var left, q := Left(candidates, priority), ServedQuota(candidates, priority, minimum, top);
    ServedIsFeasible(candidates, priority, minimum, top);
    SelectionChooses(candidates, priority, minimum, top);
    LeftOver(candidates, priority, false);
    var best := Choose(left, top - |priority|, q);
    ChooseMeetsQuota(left, top - |priority|, q);
    ChosenIsListed(left, best, top - |priority|, q);
    assert Items(priority) + best - Items(priority) == best;
    QuotaOfTheRest(candidates, priority, Items(priority) + best, q, top);
  }

  /** The selection serves the minimums as far as the places go and is the best of all choices that do; it meets both
      whenever any choice can. */
  lemma {:induction false} SelectionIsOptimal(candidates: seq<Item>, priority: seq<Item>, minimum: nat, top: nat)
    requires IsRanking(candidates) && IsPick(candidates, priority) && |priority| <= top
    ensures IsOptimal(candidates, priority, Items(Selection(candidates, priority, minimum, top)), minimum, top)
  {
    hide Selection, IsRanking, IsPick, MeetsQuota, ServedQuota, LeftQuota, Minimums, Beside, PlacesSuffice, Total;
    hide Items;
    var selected := Items(Selection(candidates, priority, minimum, top));
    var served := Beside(priority, ServedQuota(candidates, priority, minimum, top));
    SelectionServes(candidates, priority, minimum, top);
    ServedIsFeasible(candidates, priority, minimum, top);
    MinimumsBesidePriority(candidates, priority, selected, minimum, top);
    forall chosen | Admissible(candidates, priority, chosen, served, top)
      ensures Total(candidates, chosen) <= Total(candidates, selected)
    {
      BestServed(candidates, priority, chosen, minimum, top);
    }
    forall chosen | Admissible(candidates, priority, chosen, Minimums(candidates, minimum), top)
      ensures PlacesSuffice(candidates, priority, minimum, top) && Admissible(candidates, priority, chosen, served, top)
    {
      MinimumsBesidePriority(candidates, priority, chosen, minimum, top);
    }
  }

  lemma {:induction false} PickHas(candidates: seq<Item>, picked: seq<Item>)
    requires IsPick(candidates, picked)
    ensures |Items(picked)| == |picked| && Items(picked) <= Items(candidates)
    ensures |Of(Items(picked), false)| == Count(picked, false) && |Of(Items(picked), true)| == Count(picked, true)
  {
    DistinctSize(picked, false);
    DistinctSize(picked, true);
  }
}

/** The ranking the model returns is validated, then a few candidates are chosen for deep research with places
    reserved for bearish ones. */
module DeepResearch {
  import opened Basics
  import opened QuotaChoice

  // ---- Validating the ranking --------------------------------------------------------------------------------

  function Normal(x: Item): Item {
    x.(ticker := Upper(x.ticker))
  }

  predicate Acceptable(x: Item, allowed: set<string>, minimum: real) {
    Upper(x.ticker) in allowed && x.score >= minimum
  }

  /** raw[i] is the first acceptable entry for its ticker. */
  ghost predicate FirstAcceptable(raw: seq<Item>, allowed: set<string>, minimum: real, i: nat) {
    && i < |raw| && Acceptable(raw[i], allowed, minimum)
    && forall j | 0 <= j < i && Acceptable(raw[j], allowed, minimum) :: Upper(raw[j].ticker) != Upper(raw[i].ticker)
  }

  /** The entries kept, in the order they came. */
  ghost function Accepted(raw: seq<Item>, allowed: set<string>, minimum: real): seq<Item> {
    if raw == [] then []
    else
      var front, last := Accepted(raw[..|raw| - 1], allowed, minimum), raw[|raw| - 1];
      if Acceptable(last, allowed, minimum)
          && Upper(last.ticker) !in Tickers(front) then front + [Normal(last)] else front
  }

  lemma {:induction false} AcceptedTickers(raw: seq<Item>, allowed: set<string>, minimum: real, t: string)
    ensures t in Tickers(Accepted(raw, allowed, minimum))
            <==> exists j :: 0 <= j < |raw| && Acceptable(raw[j], allowed, minimum) && Upper(raw[j].ticker) == t
  {
    if raw != [] {
      AcceptedTickers(raw[..|raw| - 1], allowed, minimum, t);
      hide Acceptable, Upper;
      var front, last := raw[..|raw| - 1], raw[|raw| - 1];
      assert raw == front + [last];
      var a := Accepted(front, allowed, minimum);
      assert Tickers(a + [Normal(last)]) == Tickers(a) + {Upper(last.ticker)};
    }
  }

  /** An entry is kept exactly when it is the first acceptable one for its ticker. */
  lemma {:induction false} AcceptedAreFirst(raw: seq<Item>, allowed: set<string>, minimum: real, x: Item)
    ensures x in Accepted(raw, allowed, minimum)
            <==> exists i: nat :: FirstAcceptable(raw, allowed, minimum, i) && i < |raw| && x == Normal(raw[i])
  {
    if raw != [] {
      hide Acceptable, Upper, Normal;
      var front, last := raw[..|raw| - 1], raw[|raw| - 1];
      assert raw == front + [last];
      AcceptedAreFirst(front, allowed, minimum, x);
      AcceptedTickers(front, allowed, minimum, Upper(last.ticker));
      assert forall i: nat | i < |front| ::
          FirstAcceptable(front, allowed, minimum, i) == FirstAcceptable(raw, allowed, minimum, i);
    }
  }

  /** One step of the stable sort by descending score. */
  function Insert(s: seq<Item>, x: Item): seq<Item> {
    if s == [] || s[|s| - 1].score >= x.score then s + [x]
    else Insert(s[..|s| - 1], x) + [s[|s| - 1]]
  }

  lemma {:induction false} InsertHolds(s: seq<Item>, x: Item, y: Item)
    ensures y in Insert(s, x) <==> y in s || y == x
  {
    if s != [] && s[|s| - 1].score < x.score {
      InsertHolds(s[..|s| - 1], x, y);
      assert s == s[..|s| - 1] + [s[|s| - 1]];
    }
  }

  /** The entries of one score, in order. */
  function WithScore(s: seq<Item>, score: real): seq<Item> {
    if s == [] then []
    else
      var last := s[|s| - 1];
      WithScore(s[..|s| - 1], score) + if last.score == score then [last] else []
  }

  /** Among equal scores the inserted entry comes last. */
  lemma {:induction false} InsertIsStable(s: seq<Item>, x: Item, score: real)
    ensures WithScore(Insert(s, x), score) == WithScore(s, score) + if x.score == score then [x] else []
  {
    if s != [] && s[|s| - 1].score < x.score {
      var front, last := s[..|s| - 1], s[|s| - 1];
      InsertIsStable(front, x, score);
      assert (Insert(front, x) + [last])[..|Insert(front, x)|] == Insert(front, x);
    } else {
      assert (s + [x])[..|s|] == s;
    }
  }

  lemma {:induction false} AppendKeepsRanking(s: seq<Item>, x: Item)
    requires IsRanking(s)
    requires forall y | y in s :: y.ticker != x.ticker && y.score >= x.score
    ensures IsRanking(s + [x])
  {
  }

  lemma {:induction false} PrefixIsRanking(s: seq<Item>)
    requires IsRanking(s) && s != []
    ensures IsRanking(s[..|s| - 1])
    ensures forall y | y in s[..|s| - 1] :: y.ticker != s[|s| - 1].ticker && y.score >= s[|s| - 1].score
  {
  }

  lemma {:induction false} InsertKeepsRanking(s: seq<Item>, x: Item)
    requires IsRanking(s) && x.ticker !in Tickers(s)
    ensures IsRanking(Insert(s, x))
  {
    if s == [] {
    } else {
      PrefixIsRanking(s);
      var front, last := s[..|s| - 1], s[|s| - 1];
      assert s == front + [last];
      if last.score >= x.score {
        AppendKeepsRanking(s, x);
      } else {
        InsertKeepsRanking(front, x);
        forall y | y in Insert(front, x)
          ensures y.ticker != last.ticker && y.score >= last.score
        {
          InsertHolds(front, x, y);
        }
        AppendKeepsRanking(Insert(front, x), last);
      }
    }
  }

  /** raw[i] names an allowed ticker with enough score, and earlier entries for it, in any case, have too little. */
  ghost predicate Qualifies(raw: seq<Item>, allowed: set<string>, minimum: real, i: int) {
    && 0 <= i < |raw| && Upper(raw[i].ticker) in allowed && minimum <= raw[i].score
    && forall j | 0 <= j < i && Upper(raw[j].ticker) == Upper(raw[i].ticker) :: raw[j].score < minimum
  }

  lemma {:induction false} AcceptedQualify(raw: seq<Item>, allowed: set<string>, minimum: real, x: Item)
    ensures x in Accepted(raw, allowed, minimum)
            <==> exists i :: Qualifies(raw, allowed, minimum, i)
                   && x == Item(Upper(raw[i].ticker), raw[i].score, raw[i].bearish)
  {
    AcceptedAreFirst(raw, allowed, minimum, x);
    hide Upper;
    forall i: nat
      ensures FirstAcceptable(raw, allowed, minimum, i) <==> Qualifies(raw, allowed, minimum, i)
    {
    }
    if i: nat :| FirstAcceptable(raw, allowed, minimum, i) && i < |raw| && x == Normal(raw[i]) {
      assert Qualifies(raw, allowed, minimum, i);
    }
    if i :| Qualifies(raw, allowed, minimum, i) && x == Item(Upper(raw[i].ticker), raw[i].score, raw[i].bearish) {
      assert FirstAcceptable(raw, allowed, minimum, i);
    }
  }

  /** _validated_ranking: keep the first acceptable entry of each allowed ticker, then sort. */
  method ValidatedRanking(raw: seq<Item>, allowed: set<string>, minimum: real) returns (result: seq<Item>)
    ensures IsRanking(result)
    ensures Items(result) == Items(Accepted(raw, allowed, minimum))
    ensures forall x :: x in result
              <==> exists i :: Qualifies(raw, allowed, minimum, i)
                     && x == Item(Upper(raw[i].ticker), raw[i].score, raw[i].bearish)
    ensures forall score :: WithScore(result, score) == WithScore(Accepted(raw, allowed, minimum), score)
  {
    hide IsRanking, Upper;
    var seen: set<string> := {};
    var kept: seq<Item> := [];
    for i := 0 to |raw|
      invariant kept == Accepted(raw[..i], allowed, minimum)
      invariant seen == Tickers(kept)
    {
      var ticker := Upper(raw[i].ticker);
      assert raw[..i + 1][..i] == raw[..i];
      if ticker in allowed && ticker !in seen && raw[i].score >= minimum {
        seen := seen + {ticker};
        kept := kept + [Normal(raw[i])];
      }
    }
    assert raw[..|raw|] == raw;
    AcceptedDistinct(raw, allowed, minimum);
    result := SortByScore(kept);
    forall x
      ensures x in result
              <==> exists i :: Qualifies(raw, allowed, minimum, i)
                     && x == Item(Upper(raw[i].ticker), raw[i].score, raw[i].bearish)
    {
      assert x in result <==> x in Items(result);
      AcceptedQualify(raw, allowed, minimum, x);
    }
  }

  lemma {:induction false} AcceptedDistinct(raw: seq<Item>, allowed: set<string>, minimum: real)
    ensures DistinctTickers(Accepted(raw, allowed, minimum))
  {
    if raw != [] {
      hide Acceptable, Upper;
      AcceptedDistinct(raw[..|raw| - 1], allowed, minimum);
    }
  }

  /** `sort` with descending score as its key: stable. */
  method SortByScore(s: seq<Item>) returns (sorted: seq<Item>)
    requires DistinctTickers(s)
    ensures IsRanking(sorted) && Items(sorted) == Items(s)
    ensures forall score :: WithScore(sorted, score) == WithScore(s, score)
  {
    sorted := [];
    for i := 0 to |s|
      invariant IsRanking(sorted) && Items(sorted) == Items(s[..i])
      invariant forall score :: WithScore(sorted, score) == WithScore(s[..i], score)
    {
      hide IsRanking;
      forall score
        ensures WithScore(Insert(sorted, s[i]), score) == WithScore(s[..i + 1], score)
      {
        InsertIsStable(sorted, s[i], score);
        assert s[..i + 1][..i] == s[..i];
      }
      assert s[i].ticker !in Tickers(sorted) by {
        assert forall x | x in s[..i] :: x.ticker != s[i].ticker;
        assert forall x | x in sorted :: x in Items(sorted);
      }
      InsertKeepsRanking(sorted, s[i]);
      forall y
        ensures y in Insert(sorted, s[i]) <==> y in Items(s[..i + 1])
      {
        InsertHolds(sorted, s[i], y);
        assert s[..i + 1] == s[..i] + [s[i]];
        assert y in sorted <==> y in Items(sorted);
      }
      sorted := Insert(sorted, s[i]);
    }
    assert s[..|s|] == s;
  }

  // ---- Selecting under the quota -----------------------------------------------------------------------------

  /** The places reserved for bearish entries, within the limit. */
  function Places(limit: int, minimumBearish: int): nat {
    Least(NonNegative(minimumBearish), NonNegative(limit))
  }

  /** What the two loops of the program select, in order. */
  function Selection(ranked: seq<Item>, limit: int, minimumBearish: int): seq<Item> {
    var reserved := Reserve(ranked, true, Places(limit, minimumBearish));
    reserved + Fill(ranked, Tickers(reserved), NonNegative(NonNegative(limit) - |reserved|))
  }

  /** The first loop: bearish entries up to the reserve. */
  method ReserveBearish(ranked: seq<Item>, most: nat, reserve: nat) returns (selected: seq<Item>)
    requires DistinctTickers(ranked) && reserve <= most
    ensures selected == Reserve(ranked, true, reserve)
  {
    selected := [];
    var seen: set<string> := {};
    var i := 0;
    while i < |ranked| && |selected| < reserve
      invariant 0 <= i <= |ranked| && |selected| <= reserve
      invariant forall t | t in seen :: exists j :: 0 <= j < i && ranked[j].ticker == t
      invariant selected + Reserve(ranked[i..], true, reserve - |selected|) == Reserve(ranked, true, reserve)
    {
      var item := ranked[i];
      assert ranked[i..][0] == item && ranked[i..][1..] == ranked[i + 1..];
      assert item.ticker !in seen;
      if item.bearish && item.ticker !in seen && |selected| < most {
        selected := selected + [item];
        seen := seen + {item.ticker};
      }
      i := i + 1;
    }
  }

  /** _select_deep_research_candidates: the limits clamped, then both loops over the same list. */
  method SelectDeepResearch(ranked: seq<Item>, limit: int, minimumBearish: int) returns (selected: seq<Item>)
    requires IsRanking(ranked)
    ensures selected == Selection(ranked, limit, minimumBearish)
    ensures IsOptimal(ranked, selected, NonNegative(limit),
                      if minimumBearish <= limit then NonNegative(minimumBearish) else NonNegative(limit))
  {
    var most, reserve := NonNegative(limit), Places(limit, minimumBearish);
    ReserveSize(ranked, true, reserve);
    selected := ReserveBearish(ranked, most, reserve);
    selected := FillPlaces(ranked, most, selected);
    SelectionIsOptimal(ranked, limit, minimumBearish);
  }

  /** What the selection promises of a ranking: it fills the places there are, holds as many bearish entries as are
      reserved for or all of them when there are fewer, and no other choice that does has a larger total score. */
  ghost predicate IsOptimal(ranked: seq<Item>, selected: seq<Item>, limit: nat, reserve: nat) {
    var quota := Quota(0, Least(reserve, Count(ranked, true)));
    && |selected| == Least(limit, |ranked|)
    && MeetsQuota(ranked, Items(selected), limit, quota)
    && forall chosen | MeetsQuota(ranked, chosen, limit, quota) ::
        Total(ranked, chosen) <= Total(ranked, Items(selected))
  }

  lemma {:induction false} SelectionChooses(ranked: seq<Item>, limit: int, minimumBearish: int)
    requires IsRanking(ranked)
    ensures var quota := Quota(0, Least(Places(limit, minimumBearish), Count(ranked, true)));
            && Items(Selection(ranked, limit, minimumBearish)) == Choose(ranked, NonNegative(limit), quota)
            && |Selection(ranked, limit, minimumBearish)| == Least(NonNegative(limit), |ranked|)
  {
    hide IsRanking, Choose, Count, Fill, Tickers;
    var places := Places(limit, minimumBearish);
    var quota := Quota(0, Least(places, Count(ranked, true)));
    ReserveIsCapped(ranked, true, places);
    ReserveSize(ranked, true, places);
    ReserveThenFillChooses(ranked, NonNegative(limit), quota);
    assert Reserved(ranked, quota) == Reserve(ranked, true, places);
  }

  /** The two loops select an optimal set: as many entries as there are places for, the bearish quota met as far as
      the ranking allows, and the largest total among all choices that do both. */
  lemma {:induction false} SelectionIsOptimal(ranked: seq<Item>, limit: int, minimumBearish: int)
    requires IsRanking(ranked)
    ensures IsOptimal(ranked, Selection(ranked, limit, minimumBearish), NonNegative(limit), Places(limit,
            minimumBearish))
  {
    var most, places := NonNegative(limit), Places(limit, minimumBearish);
    var quota := Quota(0, Least(places, Count(ranked, true)));
    var selected := Selection(ranked, limit, minimumBearish);
    SelectionChooses(ranked, limit, minimumBearish);
    ChooseMeetsQuota(ranked, most, quota);
    hide Selection, Choose, IsRanking, Total, Of, Items;
    forall chosen | MeetsQuota(ranked, chosen, most, quota)
      ensures Total(ranked, chosen) <= Total(ranked, Items(selected))
    {
      ChooseIsBest(ranked, chosen, most, quota);
    }
  }

  /** The two calls in a row: whatever the model returns, the candidates researched deeply are an optimal choice among
      the first acceptable entries of the allowed tickers. */
  method DeepResearchCandidates(raw: seq<Item>, allowed: set<string>, minimum: real, limit: int, minimumBearish: int)
    returns (ranked: seq<Item>, selected: seq<Item>)
    ensures IsRanking(ranked) && Items(ranked) == Items(Accepted(raw, allowed, minimum))
    ensures IsOptimal(ranked, selected, NonNegative(limit),
                      if minimumBearish <= limit then NonNegative(minimumBearish) else NonNegative(limit))
  {
    ranked := ValidatedRanking(raw, allowed, minimum);
    selected := SelectDeepResearch(ranked, limit, minimumBearish);
  }
}

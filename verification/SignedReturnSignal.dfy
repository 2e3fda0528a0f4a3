/** The conservative move derived from a seven-bucket signed return forecast: the mean of the lower
    half of the dominant direction's probability mass. Exact arithmetic, no rounding. */
module SignedReturnSignal {
  import opened Basics

  const TAIL_FRACTION := 0.5

  /** Probabilities from "below -5%" to "above +5%". */
  datatype Buckets = Buckets(
    below5: real, minus5to2: real, minus2to05: real, flat: real, plus05to2: real, plus2to5: real, above5: real)

  datatype Direction = Bearish | Neutral | Bullish

  /** A direction's mass by the size of the move: 0.5%, 2% and 5%. */
  datatype Profile = Profile(small: real, medium: real, large: real)

  /** A recorded scenario: the move of a bucket, and how much of its probability is included. */
  datatype Scenario = Scenario(move: real, probability: real)

  datatype Summary = Summary(bearish: real, neutral: real, bullish: real, direction: Direction,
                             scenarios: seq<Scenario>, move: real)

  predicate IsProbability(x: real) {
    0.0 <= x <= 1.0
  }

  predicate ValidBuckets(b: Buckets) {
    && IsProbability(b.below5) && IsProbability(b.minus5to2) && IsProbability(b.minus2to05) && IsProbability(b.flat)
    && IsProbability(b.plus05to2) && IsProbability(b.plus2to5) && IsProbability(b.above5)
    && var sum := b.below5 + b.minus5to2 + b.minus2to05 + b.flat + b.plus05to2 + b.plus2to5 + b.above5;
       -0.000001 <= sum - 1.0 <= 0.000001
  }

  function ProfileOf(b: Buckets, d: Direction): Profile {
    match d
    case Bearish => Profile(b.minus2to05, b.minus5to2, b.below5)
    case Bullish => Profile(b.plus05to2, b.plus2to5, b.above5)
    case Neutral => Profile(0.0, 0.0, 0.0)
  }

  function Mass(p: Profile): real {
    p.small + p.medium + p.large
  }

  /** The largest mass; neutral wins its ties, bearish comes before bullish. */
  function DirectionOf(b: Buckets): Direction {
    var bearish, bullish := Mass(ProfileOf(b, Bearish)), Mass(ProfileOf(b, Bullish));
    if b.flat >= bearish && b.flat >= bullish then Neutral
    else if bullish > bearish then Bullish
    else Bearish
  }

  function Weighted(p: Profile): real {
    0.5 * p.small + 2.0 * p.medium + 5.0 * p.large
  }

  /** How much of each bucket the smallest-move-first allocation of `mass` takes. */
  function Greedy(p: Profile, mass: real): Profile {
    var small := Min(p.small, mass);
    var medium := Min(p.medium, mass - small);
    Profile(small, medium, Min(p.large, mass - small - medium))
  }

  /** Size of the conservative move of a direction with some mass. */
  function ConservativeSize(p: Profile): real
    requires Mass(p) > 0.0
  {
    var tail := Mass(p) * TAIL_FRACTION;
    Weighted(Greedy(p, tail)) / tail
  }

  function ConservativeMove(b: Buckets): real {
    var d := DirectionOf(b);
    var p := ProfileOf(b, d);
    if d == Neutral || Mass(p) <= 0.0 then 0.0
    else if d == Bullish then ConservativeSize(p)
    else -ConservativeSize(p)
  }

  ghost predicate NonNegative(p: Profile) {
    p.small >= 0.0 && p.medium >= 0.0 && p.large >= 0.0
  }

  /** What the allocation of `tail` puts in the `k` smallest-move buckets. */
  ghost function Used(p: Profile, tail: real, k: nat): Profile {
    var taken := Greedy(p, tail);
    Profile(if k > 0 then taken.small else 0.0, if k > 1 then taken.medium else 0.0, if k > 2 then taken.large else 0.0)
  }

  function Move(k: nat, bullish: bool): real {
    var size := if k == 0 then 0.5 else if k == 1 then 2.0 else 5.0;
    if bullish then size else -size
  }

  function Bucket(p: Profile, k: nat): real {
    if k == 0 then p.small else if k == 1 then p.medium else p.large
  }

  function Entry(amount: real, k: nat, bullish: bool): seq<Scenario> {
    if amount > 0.0 then [Scenario(Move(k, bullish), amount)] else []
  }

  /** The scenarios that are recorded: those with something to include, smallest move first. */
  function Recorded(taken: Profile, bullish: bool): seq<Scenario> {
    Entry(taken.small, 0, bullish) + Entry(taken.medium, 1, bullish) + Entry(taken.large, 2, bullish)
  }

  lemma {:induction false} ValidProfile(b: Buckets, d: Direction)
    requires ValidBuckets(b)
    ensures NonNegative(ProfileOf(b, d))
  {
  }

  lemma {:induction false} Contribution(take: real, k: nat, bullish: bool)
    ensures var size := if k == 0 then 0.5 * take else if k == 1 then 2.0 * take else 5.0 * take;
            take * Move(k, bullish) == if bullish then size else -size
  {
    if k == 0 {
      assert Move(k, bullish) == if bullish then 0.5 else -0.5;
    } else if k == 1 {
      assert Move(k, bullish) == if bullish then 2.0 else -2.0;
    } else {
      assert Move(k, bullish) == if bullish then 5.0 else -5.0;
    }
  }

  /** The program's loop over the direction's scenarios, smallest move first; a scenario with nothing
      to include is skipped, and the loop stops once the tail is used up. */
  method LowerTail(p: Profile, bullish: bool, tail: real) returns (scenarios: seq<Scenario>, weighted: real)
    requires NonNegative(p) && 0.0 <= tail <= Mass(p)
    ensures scenarios == Recorded(Greedy(p, tail), bullish)
    ensures var w := Weighted(Greedy(p, tail)); weighted == if bullish then w else -w
  {
    hide Move, Recorded, Greedy, Used, Mass, Weighted, Bucket;
    NothingUsed(p, tail);
    scenarios, weighted := [], 0.0;
    NothingRecorded(bullish);
    var remaining, k := tail, 0;
    while k < 3
      invariant 0 <= k <= 3
      invariant remaining == tail - Mass(Used(p, tail, k)) >= 0.0
      invariant weighted == if bullish then Weighted(Used(p, tail, k)) else -Weighted(Used(p, tail, k))
      invariant scenarios == Recorded(Used(p, tail, k), bullish)
    {
      var take := Min(Bucket(p, k), remaining);
      TakenNext(p, tail, k);
      UsedNext(p, tail, k);
      RecordNext(p, tail, k, bullish);
      if take > 0.0 {
        Contribution(take, k, bullish);
        scenarios := scenarios + [Scenario(Move(k, bullish), take)];
        weighted := weighted + take * Move(k, bullish);
        remaining := remaining - take;
        if remaining <= 0.0 {
          RestIsEmpty(p, tail, k);
          break;
        }
      }
      k := k + 1;
    }
    AllUsed(p, tail);
  }

  lemma {:induction false} NothingUsed(p: Profile, tail: real)
    ensures Used(p, tail, 0) == Profile(0.0, 0.0, 0.0)
    ensures Mass(Profile(0.0, 0.0, 0.0)) == 0.0 == Weighted(Profile(0.0, 0.0, 0.0))
  {
  }

  lemma {:induction false} AllUsed(p: Profile, tail: real)
    ensures Used(p, tail, 3) == Greedy(p, tail)
  {
  }

  lemma {:induction false} NothingRecorded(bullish: bool)
    ensures Recorded(Profile(0.0, 0.0, 0.0), bullish) == []
  {
  }

  /** What the loop takes of a bucket is what the greedy allocation gives it. */
  lemma {:induction false} TakenNext(p: Profile, tail: real, k: nat)
    requires NonNegative(p) && 0.0 <= tail <= Mass(p) && k < 3
    ensures Min(Bucket(p, k), tail - Mass(Used(p, tail, k))) == Bucket(Greedy(p, tail), k) >= 0.0
  {
    var taken := Greedy(p, tail);
    assert 0.0 <= taken.small <= p.small && 0.0 <= taken.medium <= p.medium;
    if k == 0 {
      assert Mass(Used(p, tail, 0)) == 0.0;
    } else if k == 1 {
      assert Mass(Used(p, tail, 1)) == taken.small;
    } else {
      assert Mass(Used(p, tail, 2)) == taken.small + taken.medium;
    }
  }

  lemma {:induction false} RecordNext(p: Profile, tail: real, k: nat, bullish: bool)
    requires k < 3
    ensures Recorded(Used(p, tail, k + 1), bullish)
            == Recorded(Used(p, tail, k), bullish) + Entry(Bucket(Greedy(p, tail), k), k, bullish)
  {
    hide Greedy, Entry;
    forall j: nat
      ensures Entry(0.0, j, bullish) == []
    {
      NoEntry(j, bullish);
    }
  }

  lemma {:induction false} NoEntry(k: nat, bullish: bool)
    ensures Entry(0.0, k, bullish) == []
  {
  }

  lemma {:induction false} UsedNext(p: Profile, tail: real, k: nat)
    requires k < 3
    ensures var taken := Bucket(Greedy(p, tail), k);
            && Mass(Used(p, tail, k + 1)) == Mass(Used(p, tail, k)) + taken
            && Weighted(Used(p, tail, k + 1))
               == Weighted(Used(p, tail, k))
                  + (if k == 0 then 0.5 * taken else if k == 1 then 2.0 * taken else 5.0 * taken)
  {
    hide Greedy;
  }

  lemma {:induction false} RestIsEmpty(p: Profile, tail: real, k: nat)
    requires NonNegative(p) && 0.0 <= tail <= Mass(p) && k < 3 && Mass(Used(p, tail, k + 1)) >= tail
    ensures Used(p, tail, k + 1) == Greedy(p, tail)
  {
  }

  ghost function Probabilities(b: Buckets): seq<real> {
    [b.below5, b.minus5to2, b.minus2to05, b.flat, b.plus05to2, b.plus2to5, b.above5]
  }

  /** A forecast is accepted exactly when its buckets are probabilities and the three masses add up to one within a
      millionth. */
  lemma {:induction false} ValidMassesAddUp(b: Buckets)
    ensures ValidBuckets(b)
            <==> && (forall i | 0 <= i < 7 :: 0.0 <= Probabilities(b)[i] <= 1.0)
                 && 0.999999 <= Mass(ProfileOf(b, Bearish)) + b.flat + Mass(ProfileOf(b, Bullish)) <= 1.000001
  {
    var all := Probabilities(b);
    assert (forall i | 0 <= i < 7 :: 0.0 <= all[i] <= 1.0)
      ==> && IsProbability(all[0]) && IsProbability(all[1]) && IsProbability(all[2]) && IsProbability(all[3])
          && IsProbability(all[4]) && IsProbability(all[5]) && IsProbability(all[6]);
  }

  /** The first of bearish, neutral, bullish with the largest (mass, is neutral) pair. */
  method LargestMass(b: Buckets) returns (direction: Direction, mass: real)
    ensures direction == DirectionOf(b)
    ensures var bearish, bullish := Mass(ProfileOf(b, Bearish)), Mass(ProfileOf(b, Bullish));
            && (direction == Neutral <==> b.flat >= bearish && b.flat >= bullish)
            && (direction == Bullish <==> bullish > b.flat && bullish > bearish)
    ensures direction != Neutral ==> mass == Mass(ProfileOf(b, direction)) > b.flat
  {
    hide Mass;
    var bearish, bullish := Mass(ProfileOf(b, Bearish)), Mass(ProfileOf(b, Bullish));
    direction, mass := Bearish, bearish;
    if b.flat >= mass {
      direction, mass := Neutral, b.flat;
    }
    if bullish > mass {
      direction, mass := Bullish, bullish;
    }
  }

  lemma {:induction false} NegatedQuotient(w: real, t: real)
    requires t > 0.0
    ensures (-w) / t == -(w / t)
  {
  }

  /** derive_signal_summary. */
  method DeriveSummary(b: Buckets) returns (r: Result<Summary, string>)
    ensures r.Ok? <==> ValidBuckets(b)
    ensures r.Ok? ==>
              && r.value.direction == DirectionOf(b)
              && r.value.move == ConservativeMove(b)
              && r.value.bearish == Mass(ProfileOf(b, Bearish)) && r.value.bullish == Mass(ProfileOf(b, Bullish))
              && r.value.neutral == b.flat
              && r.value.scenarios
                 == (if r.value.direction == Neutral then []
                     else var p := ProfileOf(b, r.value.direction);
                          Recorded(Greedy(p, Mass(p) * TAIL_FRACTION), r.value.direction == Bullish))
  {
    hide Greedy, Weighted, Recorded, Mass, ProfileOf, DirectionOf;
    if !ValidBuckets(b) {
      return Err("invalid signed return buckets");
    }
    var direction, mass := LargestMass(b);
    var scenarios: seq<Scenario>, move := [], 0.0;
    if direction != Neutral {
      ValidProfile(b, direction);
      var tail, weighted := mass * TAIL_FRACTION, 0.0;
      scenarios, weighted := LowerTail(ProfileOf(b, direction), direction == Bullish, tail);
      if tail > 0.0 {
        move := weighted / tail;
        NegatedQuotient(Weighted(Greedy(ProfileOf(b, direction), tail)), tail);
      }
    }
    return Ok(Summary(Mass(ProfileOf(b, Bearish)), b.flat, Mass(ProfileOf(b, Bullish)), direction, scenarios, move));
  }

  // ---- The greedy tail is the true lower tail ------------------------------------------------------------

  /** A way to draw `mass` from the buckets of a direction. */
  ghost predicate Feasible(p: Profile, mass: real, x: Profile) {
    && 0.0 <= x.small <= p.small && 0.0 <= x.medium <= p.medium && 0.0 <= x.large <= p.large
    && Mass(x) == mass
  }

  /** The greedy allocation draws exactly the asked mass, and no other way of drawing it moves less. */
  lemma {:induction false} GreedyIsLowerTail(p: Profile, mass: real)
    requires NonNegative(p) && 0.0 <= mass <= Mass(p)
    ensures Feasible(p, mass, Greedy(p, mass))
    ensures forall x :: Feasible(p, mass, x) ==> Weighted(Greedy(p, mass)) <= Weighted(x)
  {
    forall x | Feasible(p, mass, x)
      ensures Weighted(Greedy(p, mass)) <= Weighted(x)
    {
      var g := Greedy(p, mass);
      assert x.small <= g.small;
      assert x.small + x.medium <= g.small + g.medium;
    }
  }

  ghost function Included(scenarios: seq<Scenario>): real {
    if scenarios == [] then 0.0 else Included(scenarios[..|scenarios| - 1]) + scenarios[|scenarios| - 1].probability
  }

  ghost function MoveOf(scenarios: seq<Scenario>): real {
    if scenarios == [] then 0.0
    else
      var last := scenarios[|scenarios| - 1];
      MoveOf(scenarios[..|scenarios| - 1]) + last.probability * last.move
  }

  lemma {:induction false} EntryAddsUp(before: seq<Scenario>, amount: real, k: nat, bullish: bool)
    requires amount >= 0.0
    ensures var after := before + Entry(amount, k, bullish);
            Included(after) == Included(before) + amount && MoveOf(after) == MoveOf(before) + amount * Move(k, bullish)
  {
    if amount > 0.0 {
      var after := before + Entry(amount, k, bullish);
      assert after[..|after| - 1] == before;
    } else {
      assert before + [] == before;
    }
  }

  /** The recorded scenarios account for all the mass that was drawn and for its whole signed move, and each includes
      something. */
  lemma {:induction false} RecordedAddsUp(taken: Profile, bullish: bool)
    requires NonNegative(taken)
    ensures Included(Recorded(taken, bullish)) == taken.small + taken.medium + taken.large
    ensures MoveOf(Recorded(taken, bullish))
            == if bullish then 0.5 * taken.small + 2.0 * taken.medium + 5.0 * taken.large
               else -(0.5 * taken.small + 2.0 * taken.medium + 5.0 * taken.large)
    ensures forall s | s in Recorded(taken, bullish) :: s.probability > 0.0
  {
    hide Entry, Included, MoveOf, Move;
    SumsOfNone();
    var a, b := Entry(taken.small, 0, bullish), Entry(taken.medium, 1, bullish);
    SignedEntryAddsUp([], taken.small, 0, bullish);
    assert [] + a == a;
    SignedEntryAddsUp(a, taken.medium, 1, bullish);
    SignedEntryAddsUp(a + b, taken.large, 2, bullish);
    EntryIsPositive(taken.small, 0, bullish);
    EntryIsPositive(taken.medium, 1, bullish);
    EntryIsPositive(taken.large, 2, bullish);
  }

  lemma {:induction false} SumsOfNone()
    ensures Included([]) == 0.0 == MoveOf([])
  {
  }

  lemma {:induction false} SignedEntryAddsUp(before: seq<Scenario>, amount: real, k: nat, bullish: bool)
    requires amount >= 0.0
    ensures var after := before + Entry(amount, k, bullish);
            var size := if k == 0 then 0.5 * amount else if k == 1 then 2.0 * amount else 5.0 * amount;
            && Included(after) == Included(before) + amount
            && MoveOf(after) == MoveOf(before) + if bullish then size else -size
  {
    hide Entry, Included, MoveOf, Move;
    EntryAddsUp(before, amount, k, bullish);
    Contribution(amount, k, bullish);
  }

  lemma {:induction false} EntryIsPositive(amount: real, k: nat, bullish: bool)
    ensures forall s | s in Entry(amount, k, bullish) :: s.probability > 0.0
  {
  }

  /** The conservative size is the mean move of the lower half of the direction's mass: no way of drawing half of the
      mass has a smaller mean, and one has exactly this. */
  lemma {:induction false} ConservativeSizeIsLowerHalfMean(p: Profile)
    requires NonNegative(p) && Mass(p) > 0.0
    ensures var half := (p.small + p.medium + p.large) / 2.0;
            && (forall x | Feasible(p, half, x) ::
                  ConservativeSize(p) * half <= 0.5 * x.small + 2.0 * x.medium + 5.0 * x.large)
            && exists x :: Feasible(p, half, x)
                 && ConservativeSize(p) * half == 0.5 * x.small + 2.0 * x.medium + 5.0 * x.large
  {
    var tail := Mass(p) * TAIL_FRACTION;
    GreedyIsLowerTail(p, tail);
    QuotientTimes(Weighted(Greedy(p, tail)), tail);
    assert Feasible(p, tail, Greedy(p, tail));
  }

  lemma {:induction false} QuotientTimes(a: real, c: real)
    requires c > 0.0
    ensures a / c * c == a
  {
  }

  lemma {:induction false} DivideMonotone(a: real, b: real, c: real)
    requires a <= b && c > 0.0
    ensures a / c <= b / c
  {
  }

  lemma {:induction false} DivideBelow(a: real, k: real, c: real)
    requires c > 0.0
    ensures a >= k * c ==> a / c >= k
    ensures a <= k * c ==> a / c <= k
  {
    var q := a / c;
    assert q * c == a;
    if q < k {
      assert (k - q) * c > 0.0;
    }
    if q > k {
      assert (q - k) * c > 0.0;
    }
  }

  lemma {:induction false} HalfOfMean(w: real, whole: real, m: real)
    requires m > 0.0 && 2.0 * w <= whole
    ensures w / (m * TAIL_FRACTION) <= whole / m
  {
    var q := whole / m;
    assert q * m == whole;
    assert w <= q * (m * TAIL_FRACTION);
    DivideBelow(w, q, m * TAIL_FRACTION);
  }

  /** The conservative size lies between the smallest move and the full mean of the direction. */
  lemma {:induction false} ConservativeSizeIsBelowTheMean(p: Profile)
    requires NonNegative(p) && Mass(p) > 0.0
    ensures 0.5 <= ConservativeSize(p) <= Weighted(p) / Mass(p)
    ensures ConservativeSize(p) <= 5.0
  {
    var tail := Mass(p) * TAIL_FRACTION;
    var g := Greedy(p, tail);
    DivideBelow(Weighted(g), 0.5, tail);
    DivideBelow(Weighted(g), 5.0, tail);
    HalfOfMean(Weighted(g), Weighted(p), Mass(p));
  }

  /** q holds the same mass as p, shifted toward larger moves. */
  ghost predicate ShiftedOutward(p: Profile, q: Profile) {
    Mass(q) == Mass(p) && q.small <= p.small && q.small + q.medium <= p.small + p.medium
  }

  /** Shifting mass outward never lowers the conservative size. */
  lemma {:induction false} OutwardShiftNeverLowersTheMove(p: Profile, q: Profile)
    requires NonNegative(p) && NonNegative(q) && Mass(p) > 0.0 && ShiftedOutward(p, q)
    ensures ConservativeSize(p) <= ConservativeSize(q)
  {
    var tail := Mass(p) * TAIL_FRACTION;
    var g, h := Greedy(p, tail), Greedy(q, tail);
    assert h.small <= g.small;
    assert h.small + h.medium <= g.small + g.medium;
    DivideMonotone(Weighted(g), Weighted(h), tail);
  }

  // ---- Mirroring -----------------------------------------------------------------------------------------

  function Mirror(b: Buckets): Buckets {
    Buckets(b.above5, b.plus2to5, b.plus05to2, b.flat, b.minus2to05, b.minus5to2, b.below5)
  }

  /** Mirrored forecasts give mirrored moves, except exactly when the two directions tie above neutral:
      bearish then wins on both sides of the mirror. */
  lemma {:induction false} MirrorNegatesUnlessTied(b: Buckets)
    requires ValidBuckets(b)
    ensures ConservativeMove(Mirror(b)) == -ConservativeMove(b)
            <==> !(Mass(ProfileOf(b, Bullish)) == Mass(ProfileOf(b, Bearish)) > b.flat)
  {
    hide ProfileOf, Mass, ConservativeSize, ValidBuckets, DirectionOf;
    MirrorSwapsDirections(b);
    FlatIsNotNegative(b);
    ValidProfile(b, Bearish);
    ValidProfile(b, Bullish);
    if Mass(ProfileOf(b, Bullish)) == Mass(ProfileOf(b, Bearish)) > b.flat {
      ConservativeSizeIsBelowTheMean(ProfileOf(b, Bearish));
      ConservativeSizeIsBelowTheMean(ProfileOf(b, Bullish));
    }
  }

  lemma {:induction false} MirrorSwapsDirections(b: Buckets)
    ensures var m := Mirror(b);
            && ProfileOf(m, Bullish) == ProfileOf(b, Bearish) && ProfileOf(m, Bearish) == ProfileOf(b, Bullish)
            && DirectionOf(m) == (if Mass(ProfileOf(b, Bullish)) == Mass(ProfileOf(b, Bearish)) > b.flat then Bearish
                                  else match DirectionOf(b)
                                       case Bearish => Bullish
                                       case Neutral => Neutral
                                       case Bullish => Bearish)
    ensures Mass(ProfileOf(b, Bullish)) == Mass(ProfileOf(b, Bearish)) > b.flat ==> DirectionOf(b) == Bearish
    ensures DirectionOf(b) != Neutral ==> Mass(ProfileOf(b, DirectionOf(b))) > b.flat
  {
    hide Mass;
    assert ProfileOf(Mirror(b), Bullish) == ProfileOf(b, Bearish);
    assert ProfileOf(Mirror(b), Bearish) == ProfileOf(b, Bullish);
  }

  lemma {:induction false} FlatIsNotNegative(b: Buckets)
    requires ValidBuckets(b)
    ensures b.flat >= 0.0
  {
  }

  /** A forecast that ties: half the mass either way gives a bearish half percent, and so does its mirror. */
  lemma {:induction false} TiedForecastIsNotMirrored() returns (b: Buckets)
    ensures ValidBuckets(b) && Mass(ProfileOf(b, Bullish)) == Mass(ProfileOf(b, Bearish)) > b.flat
    ensures ConservativeMove(b) == -0.5 == ConservativeMove(Mirror(b))
  {
    b := Buckets(0.0, 0.0, 0.5, 0.0, 0.5, 0.0, 0.0);
    SmallMovesOnly(0.5);
    assert ProfileOf(b, Bearish) == ProfileOf(b, Bullish) == Profile(0.5, 0.0, 0.0);
    hide ConservativeSize;
    assert ProfileOf(Mirror(b), Bearish) == Profile(0.5, 0.0, 0.0);
  }

  lemma {:induction false} SmallMovesOnly(mass: real)
    requires mass > 0.0
    ensures ConservativeSize(Profile(mass, 0.0, 0.0)) == 0.5
  {
    var p, tail := Profile(mass, 0.0, 0.0), mass * TAIL_FRACTION;
    assert Mass(p) == mass;
    assert Greedy(p, tail) == Profile(tail, 0.0, 0.0);
    assert Weighted(Greedy(p, tail)) == 0.5 * tail;
    hide Greedy, Weighted;
    DivideBelow(0.5 * tail, 0.5, tail);
  }

  /** A directional summary points its own way and is at least half a percent; a neutral one is zero. */
  lemma {:induction false} MoveFollowsDirection(b: Buckets)
    requires ValidBuckets(b)
    ensures DirectionOf(b) == Bullish <==> ConservativeMove(b) >= 0.5
    ensures DirectionOf(b) == Bearish <==> ConservativeMove(b) <= -0.5
    ensures DirectionOf(b) == Neutral <==> ConservativeMove(b) == 0.0
  {
    var p := ProfileOf(b, DirectionOf(b));
    if DirectionOf(b) != Neutral {
      ConservativeSizeIsBelowTheMean(p);
    }
  }
}

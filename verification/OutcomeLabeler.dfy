/** Candidate observations wait in a pending list until the market shows what became of them: they are labelled
    by a timely quote at or after their target time, recorded as expired, or given up after a week. Times are
    whole seconds. */
module OutcomeLabeler {
  import opened Basics

  const WEEK := 7 * 24 * 3600

  datatype Observation = Observation(id: string, ticker: string, strategy: string, decisionTime: int, targetTime: int,
                                     entryPrice: real)

  datatype Quote = Quote(bid: real, asof: int)

  datatype Label = Label(observation: Observation, quote: Quote, resolvedAt: int, profitable: bool)

  /** What register is told: the decision and the quote it was made on. */
  datatype Snapshot = Snapshot(id: string, ticker: string, strategy: string, decisionTime: int, ask: real)

  /** `regular` says whether the market is in its regular session. */
  datatype Profile = Profile(horizonMinutes: int, samplingMinutes: int, maxDelayMinutes: int,
                             slippageBps: real, minimumSlippage: real, commission: real, regular: int -> bool)

  function AtLeastZero(n: int): nat {
    if n < 0 then 0 else n
  }

  function Horizon(p: Profile): int { 60 * p.horizonMinutes }

  function Sampling(p: Profile): nat { 60 * AtLeastZero(p.samplingMinutes) }

  function MaxDelay(p: Profile): nat { 60 * AtLeastZero(p.maxDelayMinutes) }

  function Slippage(reference: real, p: Profile): real {
    Max(reference * p.slippageBps / 10000.0, p.minimumSlippage)
  }

  /** Net proceeds of leaving at the quote, against the assumed entry. */
  function NetGain(o: Observation, q: Quote, p: Profile): real {
    Max(0.0, q.bid - Slippage(q.bid, p)) - o.entryPrice - 2.0 * p.commission
  }

  /** The sign of the net return on the entry price. */
  predicate Profitable(o: Observation, q: Quote, p: Profile) {
    if o.entryPrice > 0.0 then NetGain(o, q, p) > 0.0 else NetGain(o, q, p) < 0.0
  }

  /** What leaving at the quote must bring, and whether it does with the relative and with the least slippage. */
  ghost predicate PaysOff(o: Observation, q: Quote, p: Profile) {
    var cost, relative, least :=
      o.entryPrice + 2.0 * p.commission, q.bid - q.bid * p.slippageBps / 10000.0, q.bid - p.minimumSlippage;
    if o.entryPrice > 0.0 then cost < 0.0 || (cost < relative && cost < least)
    else 0.0 < cost && (relative < cost || least < cost)
  }

  /** An exit is profitable when the bid, less the larger slippage, brings more than the entry and two commissions. */
  lemma {:induction false} ProfitableIff(o: Observation, q: Quote, p: Profile)
    ensures Profitable(o, q, p) <==> PaysOff(o, q, p)
  {
  }

  // ---- One observation -----------------------------------------------------------------------------------------

  datatype Verdict = Wait | GiveUp | Expire | Settle(quote: Quote)

  function VerdictOn(o: Observation, quotes: map<string, Quote>, asof: int, p: Profile): Verdict {
    if !p.regular(o.targetTime) then Expire
    else if o.ticker !in quotes || asof < o.targetTime || quotes[o.ticker].asof < o.targetTime then
      if asof - o.decisionTime <= WEEK then Wait else GiveUp
    else if quotes[o.ticker].asof - o.targetTime > MaxDelay(p) then Expire
    else if quotes[o.ticker].asof > asof + 1 then Wait
    else Settle(quotes[o.ticker])
  }

  predicate Recent(o: Observation, s: Snapshot, p: Profile) {
    && Sampling(p) != 0 && o.ticker == s.ticker && o.strategy == s.strategy
    && 0 <= s.decisionTime - o.decisionTime < Sampling(p)
  }

  /** An observation of the same ticker and strategy, less than the sampling interval earlier. */
  ghost predicate SampledBefore(o: Observation, s: Snapshot, p: Profile) {
    o.ticker == s.ticker && o.strategy == s.strategy && 0 <= s.decisionTime - o.decisionTime < 60 * p.samplingMinutes
  }

  /** The observation stands for the decision: due a horizon later, entering at the ask and the larger slippage. */
  ghost predicate Describes(o: Observation, s: Snapshot, p: Profile) {
    var relative, least := s.ask + s.ask * p.slippageBps / 10000.0, s.ask + p.minimumSlippage;
    && o.id == s.id && o.ticker == s.ticker && o.strategy == s.strategy && o.decisionTime == s.decisionTime
    && o.targetTime == s.decisionTime + 60 * p.horizonMinutes
    && o.entryPrice in {relative, least} && o.entryPrice >= relative && o.entryPrice >= least
  }

  function Observed(s: Snapshot, p: Profile): Observation {
    Observation(s.id, s.ticker, s.strategy, s.decisionTime, s.decisionTime + Horizon(p), s.ask + Slippage(s.ask, p))
  }

  predicate Admits(pending: seq<Observation>, s: Snapshot, p: Profile) {
    && s.ask > 0.0
    && (forall o | o in pending :: o.id != s.id)
    && (forall o | o in pending :: !Recent(o, s, p))
    && p.regular(s.decisionTime + Horizon(p))
  }

  /** The ticker has a quote taken in the window that opens at the target and stays open for the allowed delay. */
  ghost predicate QuotedInWindow(o: Observation, quotes: map<string, Quote>, p: Profile) {
    && o.ticker in quotes && o.targetTime <= quotes[o.ticker].asof
    && (quotes[o.ticker].asof == o.targetTime || quotes[o.ticker].asof <= o.targetTime + 60 * p.maxDelayMinutes)
  }

  ghost predicate Labelled(o: Observation, quotes: map<string, Quote>, asof: int, p: Profile) {
    && p.regular(o.targetTime) && o.targetTime <= asof
    && QuotedInWindow(o, quotes, p) && quotes[o.ticker].asof <= asof + 1
  }

  /** The target is outside regular hours, or the window is over without a quote in it. */
  ghost predicate Expired(o: Observation, quotes: map<string, Quote>, asof: int, p: Profile) {
    || !p.regular(o.targetTime)
    || (o.targetTime <= asof && o.ticker in quotes && o.targetTime < quotes[o.ticker].asof
        && !QuotedInWindow(o, quotes, p))
  }

  /** There is no quote from the target on. */
  ghost predicate Unquoted(o: Observation, quotes: map<string, Quote>, asof: int) {
    asof < o.targetTime || o.ticker !in quotes || quotes[o.ticker].asof < o.targetTime
  }

  ghost predicate GivenUp(o: Observation, quotes: map<string, Quote>, asof: int, p: Profile) {
    p.regular(o.targetTime) && Unquoted(o, quotes, asof) && asof > o.decisionTime + 7 * 24 * 3600
  }

  /** It waits for its quote, or for a quote from the future to become present. */
  ghost predicate Kept(o: Observation, quotes: map<string, Quote>, asof: int, p: Profile) {
    && p.regular(o.targetTime)
    && if Unquoted(o, quotes, asof) then asof <= o.decisionTime + 7 * 24 * 3600
       else QuotedInWindow(o, quotes, p) && quotes[o.ticker].asof > asof + 1
  }

  lemma {:induction false} VerdictIs(o: Observation, quotes: map<string, Quote>, asof: int, p: Profile)
    ensures match VerdictOn(o, quotes, asof, p)
            case Wait => Kept(o, quotes, asof, p)
            case GiveUp => GivenUp(o, quotes, asof, p)
            case Expire => Expired(o, quotes, asof, p)
            case Settle(q) => Labelled(o, quotes, asof, p) && q == quotes[o.ticker]
    ensures Kept(o, quotes, asof, p) ==> VerdictOn(o, quotes, asof, p) == Wait
    ensures GivenUp(o, quotes, asof, p) ==> VerdictOn(o, quotes, asof, p) == GiveUp
    ensures Expired(o, quotes, asof, p) ==> VerdictOn(o, quotes, asof, p) == Expire
    ensures Labelled(o, quotes, asof, p) ==> VerdictOn(o, quotes, asof, p).Settle?
  {
  }

  // ---- The labeler ---------------------------------------------------------------------------------------------

  /** The pending file, the three logs, and what was given up without a record. */
  datatype State = State(pending: seq<Observation>, registered: seq<Observation>, labels: seq<Label>,
                         expired: seq<Observation>, abandoned: seq<Observation>)

  datatype Event = Register(snapshot: Snapshot) | Resolve(quotes: map<string, Quote>, asof: int)

  /** Settle the first pending observation and move on. */
  function ResolveOne(st: State, o: Observation, quotes: map<string, Quote>, asof: int, p: Profile): State {
    match VerdictOn(o, quotes, asof, p)
    case Wait => st.(pending := st.pending + [o])
    case GiveUp => st.(abandoned := st.abandoned + [o])
    case Expire => st.(expired := st.expired + [o])
    case Settle(q) => st.(labels := st.labels + [Label(o, q, asof, Profitable(o, q, p))])
  }

  function ResolveAll(st: State, waiting: seq<Observation>, quotes: map<string, Quote>, asof: int, p: Profile): State {
    if waiting == [] then st.(pending := [])
    else ResolveOne(ResolveAll(st, waiting[..|waiting| - 1], quotes, asof, p), waiting[|waiting| - 1], quotes, asof, p)
  }

  lemma {:induction false} ResolveNone(st: State, quotes: map<string, Quote>, asof: int, p: Profile)
    ensures ResolveAll(st, [], quotes, asof, p) == st.(pending := [])
  {
  }

  lemma {:induction false} ResolveNext(st: State, waiting: seq<Observation>, i: nat, quotes: map<string, Quote>,
      asof: int, p: Profile)
    requires i < |waiting|
    ensures ResolveAll(st, waiting[..i + 1], quotes, asof, p)
            == ResolveOne(ResolveAll(st, waiting[..i], quotes, asof, p), waiting[i], quotes, asof, p)
  {
    assert waiting[..i + 1][..i] == waiting[..i];
  }

  function Step(st: State, e: Event, p: Profile): State {
    match e
    case Register(s) =>
      if Admits(st.pending, s, p)
      then st.(pending := st.pending + [Observed(s, p)], registered := st.registered + [Observed(s, p)])
      else st
    case Resolve(quotes, asof) => ResolveAll(st, st.pending, quotes, asof, p)
  }

  const NOTHING := State([], [], [], [], [])

  function Run(events: seq<Event>, p: Profile): State {
    if events == [] then NOTHING
    else Step(Run(events[..|events| - 1], p), events[|events| - 1], p)
  }

  function Observations(labels: seq<Label>): seq<Observation> {
    seq(|labels|, i requires 0 <= i < |labels| => labels[i].observation)
  }

  /** A label rests on the quote its ticker has now. */
  ghost predicate RestsOn(l: Label, quotes: map<string, Quote>, asof: int, p: Profile) {
    && l.observation.ticker in quotes && l.quote == quotes[l.observation.ticker] && l.resolvedAt == asof
    && (l.profitable <==> PaysOff(l.observation, l.quote, p))
  }

  /** One pass sorts the waiting observations into labelled, expired, given up and kept ones, each in order. */
  ghost predicate Sorts(st: State, waiting: seq<Observation>, quotes: map<string, Quote>, asof: int, p: Profile,
                        after: State) {
    && after.registered == st.registered
    && after.pending == Where(waiting, o => Kept(o, quotes, asof, p))
    && after.expired == st.expired + Where(waiting, o => Expired(o, quotes, asof, p))
    && after.abandoned == st.abandoned + Where(waiting, o => GivenUp(o, quotes, asof, p))
    && st.labels <= after.labels
    && Observations(after.labels[|st.labels|..]) == Where(waiting, o => Labelled(o, quotes, asof, p))
    && forall l | l in after.labels[|st.labels|..] :: RestsOn(l, quotes, asof, p)
  }

  lemma {:induction false} ResolveSorts(st: State, waiting: seq<Observation>, quotes: map<string, Quote>, asof: int,
                                        p: Profile)
    ensures Sorts(st, waiting, quotes, asof, p, ResolveAll(st, waiting, quotes, asof, p))
  {
    if waiting != [] {
      hide VerdictOn, Profitable, PaysOff, Kept, Expired, GivenUp, Labelled;
      var front, o := waiting[..|waiting| - 1], waiting[|waiting| - 1];
      ResolveSorts(st, front, quotes, asof, p);
      VerdictIs(o, quotes, asof, p);
      var before, after := ResolveAll(st, front, quotes, asof, p), ResolveAll(st, waiting, quotes, asof, p);
      if VerdictOn(o, quotes, asof, p).Settle? {
        var l := after.labels[|before.labels|];
        ProfitableIff(o, l.quote, p);
        assert after.labels[|st.labels|..] == before.labels[|st.labels|..] + [l];
      }
    }
  }

  class CandidateOutcomeLabeler {
    const profile: Profile
    var pending: seq<Observation>
    var registered: seq<Observation>
    var labels: seq<Label>
    var expired: seq<Observation>
    ghost var abandoned: seq<Observation>

    ghost function Contents(): State
      reads this
    {
      State(pending, registered, labels, expired, abandoned)
    }

    constructor (profile: Profile)
      ensures this.profile == profile && Contents() == Run([], profile)
    {
      this.profile := profile;
      pending, registered, labels, expired, abandoned := [], [], [], [], [];
    }

    /** Registers a decision unless it has no ask, its id is pending, its ticker and strategy have been sampled within
        the interval, or the market is closed at its target. */
    method Register(s: Snapshot)
      modifies this
      ensures if && s.ask > 0.0 && profile.regular(s.decisionTime + 60 * profile.horizonMinutes)
                 && forall o | o in old(pending) :: o.id != s.id && !SampledBefore(o, s, profile)
              then && |pending| == |old(pending)| + 1 && Describes(pending[|old(pending)|], s, profile)
                   && pending == old(pending) + [pending[|old(pending)|]]
                   && registered == old(registered) + [pending[|old(pending)|]]
              else pending == old(pending) && registered == old(registered)
      ensures labels == old(labels) && expired == old(expired) && abandoned == old(abandoned)
      ensures Contents() == Step(old(Contents()), Event.Register(s), profile)
    {
      if s.ask <= 0.0 {
        return;
      }
      var taken, recent := false, false;
      for i := 0 to |pending|
        invariant pending == old(pending) && Contents() == old(Contents())
        invariant taken <==> exists o | o in pending[..i] :: o.id == s.id
        invariant recent <==> exists o | o in pending[..i] :: Recent(o, s, profile)
      {
        taken := taken || pending[i].id == s.id;
        recent := recent || Recent(pending[i], s, profile);
        assert pending[..i + 1] == pending[..i] + [pending[i]];
      }
      assert pending[..|pending|] == pending;
      if taken || recent {
        return;
      }
      var target := s.decisionTime + Horizon(profile);
      if !profile.regular(target) {
        return;
      }
      var observation := Observation(s.id, s.ticker, s.strategy, s.decisionTime, target, s.ask
          + Slippage(s.ask, profile));
      pending := pending + [observation];
      registered := registered + [observation];
    }

    /** resolve: one pass over the pending observations. */
    method Resolve(quotes: map<string, Quote>, asof: int) returns (resolved: seq<Label>)
      modifies this
      ensures Contents() == Step(old(Contents()), Event.Resolve(quotes, asof), profile)
      ensures labels == old(labels) + resolved
      ensures Sorts(old(Contents()), old(pending), quotes, asof, profile, Contents())
    {
      hide Profitable, MaxDelay, ResolveAll;
      var waiting, remaining: seq<Observation> := pending, [];
      resolved := [];
      ghost var start := Contents();
      ResolveNone(start, quotes, asof, profile);
      for i := 0 to |waiting|
        invariant Contents().(pending := remaining) == ResolveAll(start, waiting[..i], quotes, asof, profile)
        invariant labels == old(labels) + resolved
      {
        var o := waiting[i];
        ResolveNext(start, waiting, i, quotes, asof, profile);
        if !profile.regular(o.targetTime) {
          expired := expired + [o];
        } else if o.ticker !in quotes || asof < o.targetTime || quotes[o.ticker].asof < o.targetTime {
          if asof - o.decisionTime <= WEEK {
            remaining := remaining + [o];
          } else {
            abandoned := abandoned + [o];
          }
        } else if quotes[o.ticker].asof - o.targetTime > MaxDelay(profile) {
          expired := expired + [o];
        } else if quotes[o.ticker].asof > asof + 1 {
          remaining := remaining + [o];
        } else {
          var record := Label(o, quotes[o.ticker], asof, Profitable(o, quotes[o.ticker], profile));
          labels := labels + [record];
          resolved := resolved + [record];
        }
      }
      assert waiting[..|waiting|] == waiting;
      ResolveSorts(start, waiting, quotes, asof, profile);
      pending := remaining;
    }
  }

  // ---- What one resolving pass does ----------------------------------------------------------------------------

  lemma {:induction false} ResolveKeeps(st: State, waiting: seq<Observation>, quotes: map<string, Quote>, asof: int,
      p: Profile,
                                        o: Observation)
    ensures var after := ResolveAll(st, waiting, quotes, asof, p);
            && after.registered == st.registered
            && (o in after.pending <==> o in waiting && VerdictOn(o, quotes, asof, p) == Wait)
  {
    if waiting != [] {
      hide VerdictOn;
      ResolveKeeps(st, waiting[..|waiting| - 1], quotes, asof, p, o);
      assert waiting == waiting[..|waiting| - 1] + [waiting[|waiting| - 1]];
    }
  }

  /** A label rests on a quote taken at or after the target, no later than the allowed delay, and not from the
      future of the moment it was read. */
  ghost predicate Timely(l: Label, p: Profile) {
    && l.observation.targetTime <= l.quote.asof <= l.observation.targetTime + MaxDelay(p)
    && l.quote.asof <= l.resolvedAt + 1
    && l.observation.targetTime <= l.resolvedAt
    && (l.profitable <==> PaysOff(l.observation, l.quote, p))
  }

  lemma {:induction false} ResolveLabelsTimely(st: State, waiting: seq<Observation>, quotes: map<string, Quote>,
      asof: int, p: Profile)
    requires forall l | l in st.labels :: Timely(l, p)
    ensures forall l | l in ResolveAll(st, waiting, quotes, asof, p).labels :: Timely(l, p)
  {
    if waiting != [] {
      ResolveLabelsTimely(st, waiting[..|waiting| - 1], quotes, asof, p);
      hide Profitable, MaxDelay;
    }
  }

  /** Everything that was ever registered, wherever it is now. */
  ghost function Everywhere(st: State): multiset<Observation> {
    multiset(st.pending) + multiset(Observations(st.labels)) + multiset(st.expired) + multiset(st.abandoned)
  }

  lemma {:induction false} ResolveOneConserves(st: State, o: Observation, quotes: map<string, Quote>, asof: int,
      p: Profile)
    ensures Everywhere(ResolveOne(st, o, quotes, asof, p)) == Everywhere(st) + multiset{o}
  {
    hide VerdictOn, Profitable;
    match VerdictOn(o, quotes, asof, p)
    case Settle(q) =>
      var l := Label(o, q, asof, Profitable(o, q, p));
      assert Observations(st.labels + [l]) == Observations(st.labels) + [o];
    case _ =>
  }

  lemma {:induction false} ResolveConserves(st: State, waiting: seq<Observation>, quotes: map<string, Quote>,
      asof: int, p: Profile)
    ensures Everywhere(ResolveAll(st, waiting, quotes, asof, p)) == Everywhere(st.(pending := waiting))
  {
    if waiting != [] {
      hide ResolveOne;
      var front, o := waiting[..|waiting| - 1], waiting[|waiting| - 1];
      ResolveConserves(st, front, quotes, asof, p);
      ResolveOneConserves(ResolveAll(st, front, quotes, asof, p), o, quotes, asof, p);
      assert waiting == front + [o];
    }
  }

  // ---- Whole runs ----------------------------------------------------------------------------------------------

  /** Nothing is lost or counted twice: at every moment each registered observation is in exactly one place, and
      every label is timely. */
  lemma {:induction false} RunConservesAndLabelsTimely(events: seq<Event>, p: Profile)
    ensures Everywhere(Run(events, p)) == multiset(Run(events, p).registered)
    ensures forall l | l in Run(events, p).labels :: Timely(l, p)
  {
    if events != [] {
      hide ResolveAll, Timely, Observed, Admits;
      var before := Run(events[..|events| - 1], p);
      RunConservesAndLabelsTimely(events[..|events| - 1], p);
      match events[|events| - 1] {
        case Register(s) =>
        case Resolve(quotes, asof) =>
          ResolveConserves(before, before.pending, quotes, asof, p);
          ResolveLabelsTimely(before, before.pending, quotes, asof, p);
          ResolveKeeps(before, before.pending, quotes, asof, p, Observation("", "", "", 0, 0, 0.0));
      }
    }
  }

  function TimeOf(e: Event): int {
    match e
    case Register(s) => s.decisionTime
    case Resolve(_, asof) => asof
  }

  ghost predicate Orderly(events: seq<Event>) {
    forall i, j | 0 <= i < j < |events| :: TimeOf(events[i]) <= TimeOf(events[j])
  }

  ghost predicate StillWaits(st: State, now: int) {
    forall o | o in st.registered && now < o.targetTime && now - o.decisionTime <= WEEK :: o in st.pending
  }

  ghost predicate WellTargeted(st: State, p: Profile, now: int) {
    forall o | o in st.registered ::
      o.targetTime == o.decisionTime + Horizon(p) && p.regular(o.targetTime) && o.decisionTime <= now
  }

  /** No observation leaves the pending list before its target, except after a week. */
  lemma {:induction false} NothingLeavesEarly(events: seq<Event>, p: Profile)
    requires Orderly(events) && events != []
    ensures var now := TimeOf(events[|events| - 1]);
            StillWaits(Run(events, p), now) && WellTargeted(Run(events, p), p, now)
  {
    var front, e := events[..|events| - 1], events[|events| - 1];
    if front != [] {
      NothingLeavesEarly(front, p);
      assert TimeOf(front[|front| - 1]) <= TimeOf(e);
    }
    StepWaits(Run(front, p), e, p, if front == [] then TimeOf(e) else TimeOf(front[|front| - 1]));
  }

  lemma {:induction false} StepWaits(st: State, e: Event, p: Profile, before: int)
    requires before <= TimeOf(e) && StillWaits(st, before) && WellTargeted(st, p, before)
    ensures StillWaits(Step(st, e, p), TimeOf(e)) && WellTargeted(Step(st, e, p), p, TimeOf(e))
  {
    match e {
      case Register(s) =>
        hide Horizon, Slippage;
      case Resolve(quotes, asof) =>
        hide ResolveAll, Horizon;
        forall o
          ensures var after := ResolveAll(st, st.pending, quotes, asof, p);
                  && after.registered == st.registered
                  && (o in after.pending <==> o in st.pending && VerdictOn(o, quotes, asof, p) == Wait)
        {
          ResolveKeeps(st, st.pending, quotes, asof, p, o);
        }
    }
  }

  /** Two observations of one ticker and strategy are at least the sampling interval apart. */
  ghost predicate Spaced(registered: seq<Observation>, interval: int) {
    forall i, j | 0 <= i < j < |registered| && registered[i].ticker == registered[j].ticker
        && registered[i].strategy == registered[j].strategy ::
      registered[j].decisionTime - registered[i].decisionTime >= interval
  }

  /** Two decision times closer than the sampling interval, both with a target in regular hours, of which the first
      can have left the pending list by the second: its target is reached or a week is over. */
  ghost predicate Forgotten(p: Profile, a: int, b: int) {
    && 0 <= b - a < Sampling(p)
    && p.regular(a + Horizon(p)) && p.regular(b + Horizon(p))
    && (b - a >= Horizon(p) || b - a > WEEK)
  }

  ghost predicate NeverForgets(p: Profile) {
    forall a, b :: !Forgotten(p, a, b)
  }

  lemma {:induction false} RegistrationsAreSpaced(events: seq<Event>, p: Profile)
    requires Orderly(events) && NeverForgets(p)
    ensures Spaced(Run(events, p).registered, Sampling(p))
  {
    if events != [] {
      var front, e := events[..|events| - 1], events[|events| - 1];
      RegistrationsAreSpaced(front, p);
      if front != [] {
        NothingLeavesEarly(front, p);
        assert TimeOf(front[|front| - 1]) <= TimeOf(e);
      }
      StepIsSpaced(Run(front, p), e, p, if front == [] then TimeOf(e) else TimeOf(front[|front| - 1]));
    }
  }

  lemma {:induction false} StepIsSpaced(st: State, e: Event, p: Profile, before: int)
    requires before <= TimeOf(e) && StillWaits(st, before) && WellTargeted(st, p, before) && NeverForgets(p)
    requires Spaced(st.registered, Sampling(p))
    ensures Spaced(Step(st, e, p).registered, Sampling(p))
  {
    match e {
      case Register(s) =>
        hide Horizon, Sampling, Slippage;
        forall o | o in st.registered && Admits(st.pending, s, p) && o.ticker == s.ticker && o.strategy == s.strategy
          ensures s.decisionTime - o.decisionTime >= Sampling(p)
        {
          assert !Forgotten(p, o.decisionTime, s.decisionTime);
          assert o in st.pending || s.decisionTime - o.decisionTime >= Sampling(p);
        }
      case Resolve(quotes, asof) =>
        ResolveKeeps(st, st.pending, quotes, asof, p, Observation("", "", "", 0, 0, 0.0));
    }
  }

  // ---- Exactly when the samples are spaced ---------------------------------------------------------------------

  lemma {:induction false} RunExtends(events: seq<Event>, e: Event, p: Profile)
    ensures Run(events + [e], p) == Step(Run(events, p), e, p)
  {
    assert (events + [e])[..|events|] == events;
  }

  lemma {:induction false} AdmittedToEmpty(st: State, s: Snapshot, p: Profile)
    requires p.regular(s.decisionTime + Horizon(p)) && s.ask > 0.0 && st.pending == []
    ensures Step(st, Register(s), p) == st.(pending := [Observed(s, p)], registered := st.registered + [Observed(s, p)])
  {
    assert st.pending + [Observed(s, p)] == [Observed(s, p)];
  }

  lemma {:induction false} HasMember<T>(s: seq<T>)
    ensures s != [] ==> exists x :: x in s
  {
    assert s != [] ==> s[0] in s;
  }

  lemma {:induction false} OnlyOneResolved(st: State, quotes: map<string, Quote>, asof: int, p: Profile)
    requires |st.pending| == 1 && !VerdictOn(st.pending[0], quotes, asof, p).Wait?
    ensures var after := Step(st, Resolve(quotes, asof), p); after.pending == [] && after.registered == st.registered
  {
    var after := ResolveAll(st, st.pending, quotes, asof, p);
    ResolveKeeps(st, st.pending, quotes, asof, p, st.pending[0]);
    forall o
      ensures o !in after.pending
    {
      ResolveKeeps(st, st.pending, quotes, asof, p, o);
    }
    HasMember(after.pending);
  }

  lemma {:induction false} SecondIsAdmitted(first: Snapshot, quotes: map<string, Quote>, asof: int, second: Snapshot,
      p: Profile)
    requires p.regular(first.decisionTime + Horizon(p)) && p.regular(second.decisionTime + Horizon(p))
    requires first.ask > 0.0 && second.ask > 0.0
    requires !VerdictOn(Observed(first, p), quotes, asof, p).Wait?
    ensures Run([Register(first), Resolve(quotes, asof), Register(second)], p).registered
            == [Observed(first, p), Observed(second, p)]
  {
    hide VerdictOn, Observed, Step, Horizon;
    RunExtends([], Register(first), p);
    RunExtends([Register(first)], Resolve(quotes, asof), p);
    RunExtends([Register(first), Resolve(quotes, asof)], Register(second), p);
    assert [] + [Register(first)] == [Register(first)];
    assert [Register(first)] + [Resolve(quotes, asof)] == [Register(first), Resolve(quotes, asof)];
    assert [Register(first), Resolve(quotes, asof)] + [Register(second)]
        == [Register(first), Resolve(quotes, asof), Register(second)];
    hide Run;
    AdmittedToEmpty(NOTHING, first, p);
    var one := Run([Register(first)], p);
    OnlyOneResolved(one, quotes, asof, p);
    AdmittedToEmpty(Run([Register(first), Resolve(quotes, asof)], p), second, p);
  }

  /** Two such times make a run that takes both observations: the first is settled or given up, and the second is
      registered before the interval is over. */
  lemma {:induction false} ForgottenSampleBreaksSpacing(p: Profile, a: int, b: int) returns (events: seq<Event>)
    requires Forgotten(p, a, b)
    ensures Orderly(events) && !Spaced(Run(events, p).registered, Sampling(p))
  {
    var first, second := Snapshot("first", "T", "S", a, 1.0), Snapshot("second", "T", "S", b, 1.0);
    var quotes := if b - a >= Horizon(p) then map["T" := Quote(1.0, a + Horizon(p))] else map[];
    events := [Register(first), Resolve(quotes, b), Register(second)];
    assert !VerdictOn(Observed(first, p), quotes, b, p).Wait?;
    SecondIsAdmitted(first, quotes, b, second, p);
    hide Run;
    var registered := Run(events, p).registered;
    assert registered[1].decisionTime - registered[0].decisionTime < Sampling(p);
  }

  /** Whatever the market's hours, every orderly run keeps the samples of one ticker and strategy apart if and only if
      no two decision times closer than the interval are forgotten. */
  lemma {:induction false} SpacedIffNeverForgets(p: Profile)
    ensures (forall events :: Orderly(events) ==> Spaced(Run(events, p).registered, Sampling(p))) <==> NeverForgets(p)
  {
    hide Orderly, Spaced, Forgotten;
    if NeverForgets(p) {
      forall events | Orderly(events)
        ensures Spaced(Run(events, p).registered, Sampling(p))
      {
        RegistrationsAreSpaced(events, p);
      }
    } else {
      var a, b :| Forgotten(p, a, b);
      var events := ForgottenSampleBreaksSpacing(p, a, b);
    }
  }

  /** A configuration whose sampling interval is no longer than the horizon and no longer than a week. */
  predicate RemembersSamples(p: Profile) {
    Sampling(p) <= Horizon(p) && Sampling(p) <= WEEK
  }

  /** Such a configuration never forgets, in any market; in one that never closes no other configuration with a
      sampling interval does. */
  lemma {:induction false} RememberingConfigurationsNeverForget(p: Profile)
    ensures RemembersSamples(p) ==> NeverForgets(p)
    ensures (forall t :: p.regular(t)) && NeverForgets(p) && Sampling(p) > 0 ==> RemembersSamples(p)
  {
    if (forall t :: p.regular(t)) && Sampling(p) > 0 && !RemembersSamples(p) {
      var gap := if Horizon(p) < Sampling(p) then (if Horizon(p) < 0 then 0 else Horizon(p)) else WEEK + 1;
      assert p.regular(0 + Horizon(p)) && p.regular(gap + Horizon(p));
      assert Forgotten(p, 0, gap);
    }
  }
}

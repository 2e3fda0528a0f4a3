/** When a ticker may be researched again: an unseen event fingerprint opens the gate at once, otherwise the
    cooldown of the last recorded outcome must have run out. Times are whole seconds, cooldowns whole minutes. */
module ResearchCooldown {
  import opened Basics

  datatype Outcome = Outcome(name: string, triggeredAt: int)

  /** What is stored for one ticker. */
  datatype TickerState = TickerState(researched: map<string, int>, last: Option<Outcome>)

  const NEVER := TickerState(map[], None)

  /** A configured number of minutes; missing and negative ones count as none. */
  function Minutes(table: map<string, int>, name: string): nat {
    if name in table && table[name] > 0 then table[name] else 0
  }

  /** The events whose fingerprint has not been researched. */
  function NewEvents(researched: map<string, int>, events: seq<string>): seq<string> {
    if events == [] then []
    else
      var front, last := NewEvents(researched, events[..|events| - 1]), events[|events| - 1];
      if last != "" && last !in researched then front + [last] else front
  }

  /** The latest time any of the events was researched, for state written before outcomes were recorded. */
  function LatestResearch(researched: map<string, int>, events: seq<string>): Option<int> {
    if events == [] then None
    else
      var front, last := LatestResearch(researched, events[..|events| - 1]), events[|events| - 1];
      if last in researched && (front.None? || researched[last] > front.value) then Some(researched[last]) else front
  }

  /** The events to research now, or None while the gate is closed. */
  function Eligible(s: TickerState, events: seq<string>, now: int, table: map<string, int>,
      legacyHours: int): Option<seq<string>> {
    var unseen := NewEvents(s.researched, events);
    if events == [] then None
    else if unseen != [] then Some(unseen)
    else
      match s.last
      case Some(outcome) =>
        if now < outcome.triggeredAt + 60 * Minutes(table, outcome.name) then None else Some(events)
      case None =>
        match LatestResearch(s.researched, events)
        case Some(at) => if now < at + 3600 * (if legacyHours > 0 then legacyHours else 0) then None else Some(events)
        case None => Some(events)
  }

  function WithResearched(researched: map<string, int>, events: seq<string>, at: int): map<string, int> {
    if events == [] then researched
    else
      var front, last := WithResearched(researched, events[..|events| - 1], at), events[|events| - 1];
      if last == "" then front else front[last := at]
  }

  function Marked(s: TickerState, events: seq<string>, at: int, outcome: string): TickerState {
    TickerState(WithResearched(s.researched, events, at), Some(Outcome(outcome, at)))
  }

  class CooldownStore {
    var tickers: map<string, TickerState>

    constructor ()
      ensures tickers == map[]
    {
      tickers := map[];
    }

    ghost function StateOf(ticker: string): TickerState
      reads this
    {
      if ticker in tickers then tickers[ticker] else NEVER
    }

    /** staged_research_eligibility, which only reads the store. */
    method StagedEligibility(ticker: string, events: seq<string>, now: int, table: map<string, int>, legacyHours: int)
      returns (modelEvents: Option<seq<string>>)
      ensures modelEvents == Eligible(StateOf(ticker), events, now, table, legacyHours)
    {
      var state := if ticker in tickers then tickers[ticker] else NEVER;
      var unseen: seq<string> := [];
      for i := 0 to |events|
        invariant unseen == NewEvents(state.researched, events[..i])
      {
        assert events[..i + 1][..i] == events[..i];
        if events[i] != "" && events[i] !in state.researched {
          unseen := unseen + [events[i]];
        }
      }
      assert events[..|events|] == events;
      if events == [] {
        return None;
      }
      if unseen != [] {
        return Some(unseen);
      }
      if state.last.Some? {
        var expires := state.last.value.triggeredAt + 60 * Minutes(table, state.last.value.name);
        return if now < expires then None else Some(events);
      }
      var latest: Option<int> := None;
      for i := 0 to |events|
        invariant latest == LatestResearch(state.researched, events[..i])
      {
        assert events[..i + 1][..i] == events[..i];
        if events[i] in state.researched && (latest.None? || state.researched[events[i]] > latest.value) {
          latest := Some(state.researched[events[i]]);
        }
      }
      if latest.Some? && now < latest.value + 3600 * (if legacyHours > 0 then legacyHours else 0) {
        return None;
      }
      return Some(events);
    }

    /** mark_staged_research. */
    method MarkStaged(ticker: string, events: seq<string>, at: int, outcome: string)
      modifies this
      ensures tickers == old(tickers)[ticker := Marked(old(StateOf(ticker)), events, at, outcome)]
    {
      var state := if ticker in tickers then tickers[ticker] else NEVER;
      var researched := state.researched;
      for i := 0 to |events|
        invariant researched == WithResearched(state.researched, events[..i], at)
        invariant tickers == old(tickers)
      {
        assert events[..i + 1][..i] == events[..i];
        if events[i] != "" {
          researched := researched[events[i] := at];
        }
      }
      assert events[..|events|] == events;
      tickers := tickers[ticker := TickerState(researched, Some(Outcome(outcome, at)))];
    }
  }

  // ---- How often one ticker can be researched ------------------------------------------------------------------

  /** A visit asks whether to research; if allowed it does, and marks the events it was given, perhaps with
      others found on the way, at some later time and with some outcome. */
  datatype Visit = Visit(events: seq<string>, askedAt: int, table: map<string, int>, legacyHours: int,
                         extra: seq<string>, markedAt: int, outcome: string)

  /** The number of distinct fingerprints researched so far. */
  ghost function Known(s: TickerState): nat {
    |s.researched.Keys|
  }

  function Attend(s: TickerState, v: Visit): TickerState {
    match Eligible(s, v.events, v.askedAt, v.table, v.legacyHours)
    case None => s
    case Some(events) => Marked(s, events + v.extra, v.markedAt, v.outcome)
  }

  function Run(visits: seq<Visit>): TickerState {
    if visits == [] then NEVER else Attend(Run(visits[..|visits| - 1]), visits[|visits| - 1])
  }

  /** How many of the visits led to research. */
  function Marks(visits: seq<Visit>): nat {
    if visits == [] then 0
    else
      var front, v := visits[..|visits| - 1], visits[|visits| - 1];
      Marks(front) + if Eligible(Run(front), v.events, v.askedAt, v.table, v.legacyHours).Some? then 1 else 0
  }

  /** Normalized events carry fingerprints; time does not run backwards; every outcome recorded in the run has a
      cooldown of at least `least` minutes in every table asked. */
  ghost predicate OrderlyVisits(visits: seq<Visit>, least: nat, start: int) {
    && (forall v | v in visits :: "" !in v.events && start <= v.askedAt <= v.markedAt)
    && (forall i, j | 0 <= i < j < |visits| :: visits[i].markedAt <= visits[j].askedAt)
    && (forall v, w | v in visits && w in visits :: Minutes(v.table, w.outcome) >= least)
  }

  lemma {:induction false} WithResearchedKeys(researched: map<string, int>, events: seq<string>, at: int, f: string)
    ensures f in WithResearched(researched, events, at) <==> f in researched || (f in events && f != "")
  {
    if events != [] {
      WithResearchedKeys(researched, events[..|events| - 1], at, f);
      assert events == events[..|events| - 1] + [events[|events| - 1]];
    }
  }

  lemma {:induction false} NewEventsAreNew(researched: map<string, int>, events: seq<string>, f: string)
    ensures f in NewEvents(researched, events) <==> f in events && f != "" && f !in researched
  {
    if events != [] {
      NewEventsAreNew(researched, events[..|events| - 1], f);
      assert events == events[..|events| - 1] + [events[|events| - 1]];
    }
  }

  /** A mark either counts a fingerprint never researched before, or follows the last mark by its cooldown. */
  lemma {:induction false} MarkNeedsNewsOrTime(s: TickerState, v: Visit, least: nat)
    requires "" !in v.events
    requires s.last.None? ==> s.researched == map[]
    requires s.last.Some? ==> Minutes(v.table, s.last.value.name) >= least
    requires Eligible(s, v.events, v.askedAt, v.table, v.legacyHours).Some?
    ensures var t := Attend(s, v);
            && t.last == Some(Outcome(v.outcome, v.markedAt))
            && Known(s) <= Known(t)
            && (Known(s) < Known(t)
                || (s.last.Some? && v.askedAt >= s.last.value.triggeredAt + 60 * least))
  {
    var events := Eligible(s, v.events, v.askedAt, v.table, v.legacyHours).value;
    var t := Attend(s, v);
    assert t == Marked(s, events + v.extra, v.markedAt, v.outcome);
    forall f
      ensures f in t.researched <==> f in s.researched || (f in events + v.extra && f != "")
    {
      WithResearchedKeys(s.researched, events + v.extra, v.markedAt, f);
    }
    SubsetSize(s.researched.Keys, t.researched.Keys);
    var unseen := NewEvents(s.researched, v.events);
    NewEventsAreNew(s.researched, v.events, v.events[0]);
    if unseen != [] {
      var f := unseen[0];
      NewEventsAreNew(s.researched, v.events, f);
      assert f in t.researched.Keys && f !in s.researched.Keys;
    }
  }

  /** The seconds that `count` cooldowns take; negative for a negative count. */
  ghost function Cost(count: int, least: nat): int {
    count * (60 * least)
  }

  ghost predicate RecordedBy(visits: seq<Visit>, o: Outcome) {
    exists v | v in visits :: v.outcome == o.name && v.markedAt == o.triggeredAt
  }

  ghost predicate Accounted(visits: seq<Visit>, least: nat, start: int) {
    var s, marks := Run(visits), Marks(visits);
    match s.last
    case None => marks == 0 && s.researched == map[]
    case Some(o) =>
      && RecordedBy(visits, o)
      && Cost(marks - Known(s), least) <= o.triggeredAt - start
      && o.triggeredAt >= start
  }

  lemma {:induction false} OneMoreCooldown(spare: int, fewer: int, least: nat, elapsed: int, later: int)
    requires Cost(spare, least) <= elapsed && 0 <= elapsed <= later
    ensures fewer <= spare ==> Cost(fewer, least) <= later
    ensures fewer <= spare + 1 && elapsed + 60 * least <= later ==> Cost(fewer, least) <= later
  {
    var m := 60 * least;
    if fewer <= spare {
      assert (spare - fewer) * m >= 0;
    }
    if fewer <= spare + 1 {
      assert (spare + 1 - fewer) * m >= 0;
    }
  }

  lemma {:induction false} RunIsAccounted(visits: seq<Visit>, least: nat, start: int)
    requires OrderlyVisits(visits, least, start)
    ensures Accounted(visits, least, start)
  {
    if visits != [] {
      var front, v := visits[..|visits| - 1], visits[|visits| - 1];
      assert visits == front + [v];
      RunIsAccounted(front, least, start);
      if Eligible(Run(front), v.events, v.askedAt, v.table, v.legacyHours).Some? {
        LastIsAsked(front, v, least, start);
        MarkIsAccounted(front, v, least, start);
      } else {
        NoMarkIsAccounted(front, v, least, start);
      }
    }
  }

  lemma {:induction false} RunExtends(front: seq<Visit>, v: Visit)
    ensures var s := Run(front);
            && Run(front + [v]) == Attend(s, v)
            && Marks(front + [v])
               == Marks(front) + if Eligible(s, v.events, v.askedAt, v.table, v.legacyHours).Some? then 1 else 0
  {
    assert (front + [v])[..|front|] == front;
  }

  lemma {:induction false} NoMarkIsAccounted(front: seq<Visit>, v: Visit, least: nat, start: int)
    requires Accounted(front, least, start)
    requires Eligible(Run(front), v.events, v.askedAt, v.table, v.legacyHours).None?
    ensures Accounted(front + [v], least, start)
  {
    hide Eligible, Run, Marks, Cost, Known, RecordedBy;
    RunExtends(front, v);
    if Run(front).last.Some? {
      AppendRecords(front, v, Run(front).last.value);
    }
  }

  lemma {:induction false} MarkIsAccounted(front: seq<Visit>, v: Visit, least: nat, start: int)
    requires Accounted(front, least, start)
    requires "" !in v.events && start <= v.askedAt <= v.markedAt
    requires var s := Run(front);
             s.last.Some? ==> Minutes(v.table, s.last.value.name) >= least && s.last.value.triggeredAt <= v.askedAt
    requires Eligible(Run(front), v.events, v.askedAt, v.table, v.legacyHours).Some?
    ensures Accounted(front + [v], least, start)
  {
    hide Attend, Eligible, Minutes, Run, Marks, Cost, Known, RecordedBy;
    RunExtends(front, v);
    MarkNeedsNewsOrTime(Run(front), v, least);
    AppendRecords(front, v, Outcome(v.outcome, v.markedAt));
    if Run(front).last.None? {
      NoneKnown(Run(front));
    }
    var s, t := Run(front), Run(front + [v]);
    CostOfMark(Marks(front), Known(s), Known(t), least, s.last, v, start);
  }

  lemma {:induction false} CostOfMark(marks: nat, known: nat, after: nat, least: nat, last: Option<Outcome>,
      v: Visit, start: int)
    requires start <= v.askedAt <= v.markedAt && known <= after
    requires last.None? ==> marks == 0 && known < after
    requires last.Some? ==> Cost(marks - known, least) <= last.value.triggeredAt - start
                            && start <= last.value.triggeredAt <= v.askedAt
                            && (known < after || v.askedAt >= last.value.triggeredAt + 60 * least)
    ensures Cost(marks + 1 - after, least) <= v.markedAt - start
  {
    hide Cost;
    NothingSpared(least);
    match last
    case Some(o) => OneMoreCooldown(marks - known, marks + 1 - after, least, o.triggeredAt - start, v.markedAt - start);
    case None => OneMoreCooldown(0, marks + 1 - after, least, 0, v.markedAt - start);
  }

  lemma {:induction false} NothingSpared(least: nat)
    ensures Cost(0, least) == 0
  {
  }

  lemma {:induction false} LastIsAsked(front: seq<Visit>, v: Visit, least: nat, start: int)
    requires OrderlyVisits(front + [v], least, start) && Accounted(front, least, start)
    ensures var s := Run(front);
            s.last.Some? ==> Minutes(v.table, s.last.value.name) >= least && s.last.value.triggeredAt <= v.askedAt
  {
    var s := Run(front);
    if s.last.Some? {
      var w :| w in front && w.outcome == s.last.value.name && w.markedAt == s.last.value.triggeredAt;
      var i :| 0 <= i < |front| && front[i] == w;
      assert (front + [v])[i] == w && (front + [v])[|front|] == v;
    }
  }

  /** Amortised bound: over any run of visits, the times a ticker is researched beyond the number of distinct
      fingerprints cost a whole cooldown each, out of the time from `start` to the last mark. */
  lemma {:induction false} ResearchIsAmortised(visits: seq<Visit>, least: nat, start: int)
    requires OrderlyVisits(visits, least, start) && visits != []
    ensures Cost(Marks(visits) - Known(Run(visits)), least) <= visits[|visits| - 1].markedAt - start
  {
    hide Run, Marks, Cost, Minutes, OrderlyVisits, RecordedBy, Known;
    RunIsAccounted(visits, least, start);
    NothingSpared(least);
    if Run(visits).last.Some? {
      RecordedBeforeEnd(visits, Run(visits).last.value, least, start);
    } else {
      NoneKnown(Run(visits));
      FirstIsAfterStart(visits, least, start);
    }
  }

  lemma {:induction false} NoneKnown(s: TickerState)
    requires s.researched == map[]
    ensures Known(s) == 0
  {
  }

  lemma {:induction false} FirstIsAfterStart(visits: seq<Visit>, least: nat, start: int)
    requires OrderlyVisits(visits, least, start) && visits != []
    ensures start <= visits[|visits| - 1].markedAt
  {
  }

  lemma {:induction false} RecordedBeforeEnd(visits: seq<Visit>, o: Outcome, least: nat, start: int)
    requires OrderlyVisits(visits, least, start) && RecordedBy(visits, o)
    ensures visits != [] && o.triggeredAt <= visits[|visits| - 1].markedAt
  {
    var v :| v in visits && v.outcome == o.name && v.markedAt == o.triggeredAt;
    var i :| 0 <= i < |visits| && visits[i] == v;
    assert visits[|visits| - 1] in visits;
  }

  lemma {:induction false} AppendRecords(front: seq<Visit>, v: Visit, o: Outcome)
    ensures RecordedBy(front, o) ==> RecordedBy(front + [v], o)
    ensures o == Outcome(v.outcome, v.markedAt) ==> RecordedBy(front + [v], o)
  {
    assert v in front + [v];
    assert forall w | w in front :: w in front + [v];
  }

  // ---- Exactly when the gate is open ---------------------------------------------------------------------------

  /** The visit at k led to research. */
  ghost predicate Researches(visits: seq<Visit>, k: int) {
    && 0 <= k < |visits|
    && var v := visits[k];
       Eligible(Run(visits[..k]), v.events, v.askedAt, v.table, v.legacyHours).Some?
  }

  /** Some visit that led to research was about the event, or came upon it. */
  ghost predicate Covered(visits: seq<Visit>, f: string) {
    f != "" && exists k :: Researches(visits, k) && (f in visits[k].events || f in visits[k].extra)
  }

  ghost predicate LastResearch(visits: seq<Visit>, k: int) {
    Researches(visits, k) && forall j :: j > k ==> !Researches(visits, j)
  }

  lemma {:induction false} ResearchesInFront(front: seq<Visit>, v: Visit)
    ensures forall k :: Researches(front + [v], k)
              <==> || Researches(front, k)
                   || (k == |front|
                       && Eligible(Run(front), v.events, v.askedAt, v.table, v.legacyHours).Some?)
  {
    hide Eligible;
    var visits := front + [v];
    forall k
      ensures 0 <= k <= |front| ==> visits[..k] == front[..k]
    {
    }
    assert front[..|front|] == front;
  }

  ghost predicate CoveredAre(visits: seq<Visit>, s: TickerState) {
    forall f :: f in s.researched <==> Covered(visits, f)
  }

  ghost predicate LastIs(visits: seq<Visit>, last: Option<Outcome>) {
    match last
    case None => forall k :: !Researches(visits, k)
    case Some(o) => exists k :: LastResearch(visits, k) && o == Outcome(visits[k].outcome, visits[k].markedAt)
  }

  lemma {:induction false} EligibleCovers(s: TickerState, v: Visit, f: string)
    requires Eligible(s, v.events, v.askedAt, v.table, v.legacyHours).Some?
    ensures f in Attend(s, v).researched <==> f in s.researched || (f != "" && (f in v.events || f in v.extra))
  {
    var events := Eligible(s, v.events, v.askedAt, v.table, v.legacyHours).value;
    WithResearchedKeys(s.researched, events + v.extra, v.markedAt, f);
    NewEventsAreNew(s.researched, v.events, f);
  }

  lemma {:induction false} MoreIsCovered(front: seq<Visit>, v: Visit, f: string)
    ensures Covered(front + [v], f)
            <==> || Covered(front, f)
                 || (Researches(front + [v], |front|) && f != "" && (f in v.events || f in v.extra))
  {
    hide Eligible, Run;
    ResearchesInFront(front, v);
    var visits := front + [v];
    assert forall k :: 0 <= k < |front| ==> visits[k] == front[k];
    if Covered(front, f) {
      var k :| Researches(front, k) && (f in front[k].events || f in front[k].extra);
      assert Researches(visits, k);
    }
  }

  lemma {:induction false} LaterIsLast(front: seq<Visit>, v: Visit, last: Option<Outcome>)
    requires LastIs(front, last)
    ensures LastIs(front + [v],
                   if Researches(front + [v], |front|) then Some(Outcome(v.outcome, v.markedAt)) else last)
  {
    ResearchesInFront(front, v);
    var visits := front + [v];
    if Researches(visits, |front|) {
      assert LastResearch(visits, |front|);
    } else if last.Some? {
      var k :| LastResearch(front, k) && last.value == Outcome(front[k].outcome, front[k].markedAt);
      assert LastResearch(visits, k);
    }
  }

  /** What is stored is the history: the events covered by research, and the outcome and time of the last one. */
  lemma {:induction false} RunRemembers(visits: seq<Visit>)
    ensures CoveredAre(visits, Run(visits)) && LastIs(visits, Run(visits).last)
  {
    if visits != [] {
      hide Eligible, Covered, LastIs;
      var front, v := visits[..|visits| - 1], visits[|visits| - 1];
      assert visits == front + [v];
      RunRemembers(front);
      ResearchesInFront(front, v);
      LaterIsLast(front, v, Run(front).last);
      forall f
        ensures f in Run(visits).researched <==> Covered(visits, f)
      {
        MoreIsCovered(front, v, f);
        if Researches(visits, |front|) {
          EligibleCovers(Run(front), v, f);
        }
      }
    } else {
      NothingCovered();
    }
  }

  lemma {:induction false} NothingCovered()
    ensures CoveredAre([], NEVER) && LastIs([], None)
  {
  }

  lemma {:induction false} NewEventsAreUncovered(researched: map<string, int>, events: seq<string>)
    ensures NewEvents(researched, events) == Where(events, f => f != "" && f !in researched)
  {
    if events != [] {
      NewEventsAreUncovered(researched, events[..|events| - 1]);
    }
  }

  lemma {:induction false} WhereSame<T>(s: seq<T>, p: T -> bool, q: T -> bool)
    requires forall x | x in s :: p(x) <==> q(x)
    ensures Where(s, p) == Where(s, q)
  {
    if s != [] {
      WhereSame(s[..|s| - 1], p, q);
    }
  }

  lemma {:induction false} OneLastResearch(visits: seq<Visit>, k: int)
    requires LastResearch(visits, k)
    ensures forall j :: LastResearch(visits, j) ==> j == k
  {
    hide Researches;
    forall j | LastResearch(visits, j)
      ensures j == k
    {
      assert Researches(visits, j) && Researches(visits, k);
    }
  }

  lemma {:induction false} LatestIsLatest(researched: map<string, int>, events: seq<string>)
    ensures match LatestResearch(researched, events)
            case None => forall f | f in events :: f !in researched
            case Some(at) =>
              && (exists f | f in events :: f in researched && researched[f] == at)
              && (forall f | f in events && f in researched :: researched[f] <= at)
  {
    if events != [] {
      LatestIsLatest(researched, events[..|events| - 1]);
      assert events == events[..|events| - 1] + [events[|events| - 1]];
    }
  }

  /** State written before outcomes were recorded keeps the gate closed for the legacy hours after the latest research
      of any of the events. */
  lemma {:induction false} LegacyGateOpensIff(s: TickerState, events: seq<string>, now: int, table: map<string, int>,
                                              legacyHours: int)
    requires s.last.None? && events != [] && forall f | f in events :: f == "" || f in s.researched
    ensures Eligible(s, events, now, table, legacyHours)
            == if forall f | f in events && f in s.researched ::
                    now >= s.researched[f] && now >= s.researched[f] + 3600 * legacyHours
               then Some(events) else None
  {
    LatestIsLatest(s.researched, events);
    var unseen := NewEvents(s.researched, events);
    if unseen != [] {
      NewEventsAreNew(s.researched, events, unseen[0]);
    }
  }

  /** The cooldown of one visit's outcome is over when another asks. */
  predicate CooldownIsOver(w: Visit, v: Visit) {
    && w.markedAt <= v.askedAt
    && (w.outcome in v.table ==> w.markedAt + 60 * v.table[w.outcome] <= v.askedAt)
  }

  lemma {:induction false} CooldownEnds(s: TickerState, w: Visit, v: Visit)
    requires s.last == Some(Outcome(w.outcome, w.markedAt))
    ensures v.askedAt >= s.last.value.triggeredAt + 60 * Minutes(v.table, s.last.value.name) <==> CooldownIsOver(w, v)
  {
  }

  lemma {:induction false} NothingResearched(visits: seq<Visit>, s: TickerState, events: seq<string>)
    requires CoveredAre(visits, s) && forall k :: !Researches(visits, k)
    ensures LatestResearch(s.researched, events) == None
  {
    LatestIsLatest(s.researched, events);
    assert forall f :: !Covered(visits, f);
  }

  /** After any history of visits, the gate is open for evidence exactly when some of it has never been covered by
      research, or there was no research yet, or the cooldown of the last research is over; and it lets the uncovered
      events through, or all of them if there are none. */
  lemma {:induction false} GateOpensIff(visits: seq<Visit>, v: Visit)
    ensures var open := Eligible(Run(visits), v.events, v.askedAt, v.table, v.legacyHours);
            var uncovered := Where(v.events, f => f != "" && !Covered(visits, f));
            && (open.Some? <==> && v.events != []
                                && (|| uncovered != []
                                    || (forall k :: !Researches(visits, k))
                                    || (exists k :: LastResearch(visits, k) && CooldownIsOver(visits[k], v))))
            && (open.Some? ==> open.value == if uncovered != [] then uncovered else v.events)
  {
    hide Run, Covered, Minutes;
    var s := Run(visits);
    RunRemembers(visits);
    NewEventsAreUncovered(s.researched, v.events);
    WhereSame(v.events, f => f != "" && f !in s.researched, f => f != "" && !Covered(visits, f));
    if s.last.Some? {
      var k :| LastResearch(visits, k) && s.last.value == Outcome(visits[k].outcome, visits[k].markedAt);
      OneLastResearch(visits, k);
      CooldownEnds(s, visits[k], v);
    } else {
      NothingResearched(visits, s, v.events);
    }
  }
}

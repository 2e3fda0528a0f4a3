/** News evidence: events are normalized and deduplicated by URL, by fingerprint and by content, and a plan's
    refresh merges what is new in front of what it already holds. A digest stands for the text it is taken of. */
module EvidenceEvents {
  import opened Basics

  /** One entry of a news feed. The last three fields are what normalization writes; a raw entry may hold
      anything there. `ticker` is "" when the entry names none. */
  datatype Event = NotAnObject
                 | Event(ticker: string, headline: string, publishedAt: string, eventAt: string, url: string,
                         highlights: string, canonicalUrl: string, contentHash: string, fingerprint: string)

  predicate IsSpace(c: char) {
    c == ' ' || c == '\t' || c == '\n' || c == '\r'
  }

  function StripLeft(s: string): string {
    if s == "" || !IsSpace(s[0]) then s else StripLeft(s[1..])
  }

  function StripRight(s: string): string {
    if s == "" || !IsSpace(s[|s| - 1]) then s else StripRight(s[..|s| - 1])
  }

  function Strip(s: string): string {
    StripRight(StripLeft(s))
  }

  function LowerChar(c: char): char {
    if 'A' <= c <= 'Z' then (c as int + 32) as char else c
  }

  /** Lower case, with every run of other characters as one blank. */
  function Collapse(s: string, inGap: bool): string {
    if s == "" then ""
    else
      var c := LowerChar(s[0]);
      if 'a' <= c <= 'z' || '0' <= c <= '9' then [c] + Collapse(s[1..], false)
      else if inGap then Collapse(s[1..], true)
      else " " + Collapse(s[1..], true)
  }

  function NormalText(s: string): string {
    Strip(Collapse(s, false))
  }

  function Day(s: string): string {
    if |s| < 10 then s else s[..10]
  }

  predicate WellFormed(e: Event) {
    e.Event? && Strip(e.headline) != "" && e.publishedAt != ""
  }

  function Annotate(e: Event, ticker: string): Event
    requires e.Event?
  {
    var symbol := Upper(if e.ticker != "" then e.ticker else ticker);
    var url, headline := Strip(e.url), Strip(e.headline);
    e.(ticker := symbol,
       canonicalUrl := url,
       contentHash := url + "\n" + headline + "\n" + e.highlights,
       fingerprint := (if symbol == "" then "MARKET" else symbol) + "\n" + NormalText(headline) + "\n"
                      + Day(if e.eventAt != "" then e.eventAt else e.publishedAt))
  }

  type Kept = e: Event | e.Event? witness Event("", "", "", "", "", "", "", "", "")

  predicate SharesKey(a: Kept, b: Kept) {
    || (a.canonicalUrl != "" && a.canonicalUrl == b.canonicalUrl)
    || a.fingerprint == b.fingerprint
    || a.contentHash == b.contentHash
  }

  predicate Clashes(kept: seq<Kept>, e: Kept) {
    exists x | x in kept :: SharesKey(x, e)
  }

  /** What normalization keeps, in order. */
  function Normalized(events: seq<Event>, ticker: string): seq<Kept> {
    if events == [] then []
    else
      var kept, e := Normalized(events[..|events| - 1], ticker), events[|events| - 1];
      if WellFormed(e) && !Clashes(kept, Annotate(e, ticker)) then kept + [Annotate(e, ticker)] else kept
  }

  /** normalize_events: one pass with three sets of keys seen so far. */
  method NormalizeEvents(events: seq<Event>, ticker: string) returns (normalized: seq<Kept>)
    ensures normalized == Normalized(events, ticker)
  {
    hide Annotate, WellFormed;
    normalized := [];
    var seenUrls: set<string>, seenFingerprints: set<string>, seenContent: set<string> := {}, {}, {};
    for i := 0 to |events|
      invariant normalized == Normalized(events[..i], ticker)
      invariant seenUrls == set x | x in normalized && x.canonicalUrl != "" :: x.canonicalUrl
      invariant seenFingerprints == set x | x in normalized :: x.fingerprint
      invariant seenContent == set x | x in normalized :: x.contentHash
    {
      assert events[..i + 1][..i] == events[..i];
      if WellFormed(events[i]) {
        assert events[i].Event? by { Shape(events[i], ticker); }
        Shape(events[i], ticker);
        var event: Kept := Annotate(events[i], ticker);
        var seen := (event.canonicalUrl != "" && event.canonicalUrl in seenUrls)
                    || event.fingerprint in seenFingerprints || event.contentHash in seenContent;
        assert seen == Clashes(normalized, event);
        if !seen {
          if event.canonicalUrl != "" {
            seenUrls := seenUrls + {event.canonicalUrl};
          }
          seenFingerprints := seenFingerprints + {event.fingerprint};
          seenContent := seenContent + {event.contentHash};
          normalized := normalized + [event];
        }
      }
    }
    assert events[..|events|] == events;
  }

  lemma {:induction false} Shape(e: Event, ticker: string)
    requires WellFormed(e)
    ensures e.Event? && Annotate(e, ticker).Event?
  {
  }

  // ---- What is kept and what is dropped ------------------------------------------------------------------------

  ghost predicate NoSharedKeys(s: seq<Kept>) {
    forall i, j | 0 <= i < j < |s| :: !SharesKey(s[i], s[j])
  }

  /** The positions of the entries that are kept. */
  ghost function Picked(events: seq<Event>, ticker: string): seq<nat> {
    if events == [] then []
    else
      var front, last := events[..|events| - 1], |events| - 1;
      var picked := Picked(front, ticker);
      if WellFormed(events[last]) && !Clashes(Normalized(front, ticker), Annotate(events[last], ticker))
      then picked + [last] else picked
  }

  /** What is kept is a subsequence of the feed, annotated. */
  lemma {:induction false} KeptIsSubsequence(events: seq<Event>, ticker: string)
    ensures var kept, picked := Normalized(events, ticker), Picked(events, ticker);
            && |picked| == |kept|
            && (forall k, l | 0 <= k < l < |picked| :: picked[k] < picked[l])
            && (forall k | 0 <= k < |picked| :: picked[k] < |events|)
            && (forall k | 0 <= k < |picked| ::
                   WellFormed(events[picked[k]])
                   && kept[k] == Annotate(events[picked[k]], ticker))
  {
    hide Annotate, WellFormed, Clashes;
    if events != [] {
      var front := events[..|events| - 1];
      KeptIsSubsequence(front, ticker);
      assert forall k | 0 <= k < |Picked(front, ticker)| ::
          events[Picked(front, ticker)[k]] == front[Picked(front, ticker)[k]];
    }
  }

  /** No two entries that are kept share a key. */
  lemma {:induction false} KeptShareNoKeys(events: seq<Event>, ticker: string)
    ensures NoSharedKeys(Normalized(events, ticker))
  {
    if events != [] {
      hide Annotate, WellFormed, SharesKey;
      KeptShareNoKeys(events[..|events| - 1], ticker);
    }
  }

  /** Every well-formed entry that is dropped shares a key with an entry kept before it. */
  lemma {:induction false} DroppedShareAKey(events: seq<Event>, ticker: string, i: nat)
    requires i < |events| && WellFormed(events[i])
    ensures i in Picked(events, ticker) || Clashes(Normalized(events[..i], ticker), Annotate(events[i], ticker))
    ensures Normalized(events[..i], ticker) <= Normalized(events, ticker)
  {
    hide Annotate, WellFormed, Clashes;
    var front := events[..|events| - 1];
    if i < |front| {
      DroppedShareAKey(front, ticker, i);
      assert front[..i] == events[..i];
    }
  }

  /** Already normalized for this ticker. */
  ghost predicate IsNormal(e: Kept, ticker: string) {
    WellFormed(e) && Annotate(e, ticker) == e
  }

  lemma {:induction false} AnnotateIsNormal(e: Event, ticker: string)
    requires WellFormed(e)
    ensures IsNormal(Annotate(e, ticker), ticker)
  {
    hide Strip, NormalText, Day, Upper;
    var symbol := if e.ticker != "" then e.ticker else ticker;
    UpperIdempotent(symbol);
    if Upper(symbol) == "" {
      assert symbol == "" && ticker == "" by { UpperIsEmpty(symbol); UpperIsEmpty(e.ticker); }
    }
  }

  lemma {:induction false} UpperIsEmpty(s: string)
    ensures Upper(s) == "" <==> s == ""
  {
  }

  lemma {:induction false} KeptAreNormal(events: seq<Event>, ticker: string, e: Kept)
    requires e in Normalized(events, ticker)
    ensures IsNormal(e, ticker)
  {
    var last := events[|events| - 1];
    if WellFormed(last) && e == Annotate(last, ticker) {
      AnnotateIsNormal(last, ticker);
    } else {
      KeptAreNormal(events[..|events| - 1], ticker, e);
    }
  }

  /** Normal entries that share no keys all survive, unchanged and in order. */
  lemma {:induction false} NormalSurvives(s: seq<Kept>, ticker: string)
    requires NoSharedKeys(s) && forall e | e in s :: IsNormal(e, ticker)
    ensures Normalized(s, ticker) == s
  {
    if s != [] {
      var front, last := s[..|s| - 1], s[|s| - 1];
      hide Annotate, SharesKey, WellFormed;
      NormalSurvives(front, ticker);
      assert last in s;
    }
  }

  /** Normalizing twice is normalizing once. */
  lemma {:induction false} NormalizeIsIdempotent(events: seq<Event>, ticker: string)
    ensures Normalized(Normalized(events, ticker), ticker) == Normalized(events, ticker)
  {
    var kept := Normalized(events, ticker);
    KeptShareNoKeys(events, ticker);
    forall e | e in kept
      ensures IsNormal(e, ticker)
    {
      KeptAreNormal(events, ticker, e);
    }
    NormalSurvives(kept, ticker);
  }

  // ---- Refreshing a plan's evidence ----------------------------------------------------------------------------

  function NonEmpty(key: string): set<string> {
    if key == "" then {} else {key}
  }

  /** An entry's keys in one pool, without empty ones. */
  function KeysOf(e: Kept): set<string> {
    NonEmpty(e.canonicalUrl) + NonEmpty(e.fingerprint) + NonEmpty(e.contentHash)
  }

  function AllKeys(s: seq<Kept>): set<string> {
    set e, k | e in s && k in KeysOf(e) :: k
  }

  /** The entries holding none of the seen keys. */
  function Unseen(s: seq<Kept>, seen: set<string>): seq<Kept> {
    if s == [] then []
    else Unseen(s[..|s| - 1], seen) + if KeysOf(s[|s| - 1]) * seen == {} then [s[|s| - 1]] else []
  }

  lemma {:induction false} UnseenHolds(s: seq<Kept>, seen: set<string>, e: Kept)
    ensures e in Unseen(s, seen) <==> e in s && KeysOf(e) * seen == {}
  {
    if s != [] {
      hide KeysOf;
      UnseenHolds(s[..|s| - 1], seen, e);
      assert s == s[..|s| - 1] + [s[|s| - 1]];
    }
  }

  /** The texts that link, fingerprint and content of an entry are compared by, in one pool. */
  ghost function Texts(e: Kept): set<string> {
    {e.canonicalUrl, e.fingerprint, e.contentHash}
  }

  /** An entry is new exactly when it has no text but the empty one in common with any prior entry. */
  lemma {:induction false} NewIff(s: seq<Kept>, prior: seq<Kept>, e: Kept)
    ensures e in Unseen(s, AllKeys(prior)) <==> e in s && forall y | y in prior :: Texts(e) * Texts(y) <= {""}
  {
    UnseenHolds(s, AllKeys(prior), e);
    forall y | y in prior
      ensures Texts(e) * Texts(y) <= {""} <==> KeysOf(e) * KeysOf(y) == {}
    {
      KeysAreTexts(e);
      KeysAreTexts(y);
    }
    hide KeysOf, Texts;
    if k :| k in KeysOf(e) * AllKeys(prior) {
      var y :| y in prior && k in KeysOf(y);
      assert k in KeysOf(e) * KeysOf(y);
    }
    if y :| y in prior && KeysOf(e) * KeysOf(y) != {} {
      var k :| k in KeysOf(e) * KeysOf(y);
      assert k in AllKeys(prior);
      assert k in KeysOf(e) * AllKeys(prior);
    }
  }

  lemma {:induction false} KeysAreTexts(e: Kept)
    ensures KeysOf(e) == Texts(e) - {""}
  {
  }

  lemma {:induction false} UnseenShareNoKeys(s: seq<Kept>, seen: set<string>)
    requires NoSharedKeys(s)
    ensures NoSharedKeys(Unseen(s, seen))
  {
    if s != [] {
      hide KeysOf, SharesKey;
      var front, last := s[..|s| - 1], s[|s| - 1];
      UnseenShareNoKeys(front, seen);
      forall e | e in Unseen(front, seen)
        ensures !SharesKey(e, last)
      {
        UnseenHolds(front, seen, e);
      }
    }
  }

  /** Entries with nothing in common in their pools share no key: a normal entry has no empty digest. */
  lemma {:induction false} SharedKeysArePooled(a: Kept, b: Kept)
    requires KeysOf(a) * KeysOf(b) == {} && a.fingerprint != "" && a.contentHash != ""
    ensures !SharesKey(a, b)
  {
    assert a.fingerprint in KeysOf(a) && a.contentHash in KeysOf(a);
    assert a.canonicalUrl != "" ==> a.canonicalUrl in KeysOf(a);
    forall k | k in KeysOf(a)
      ensures k !in KeysOf(b)
    {
      assert k in KeysOf(b) ==> k in KeysOf(a) * KeysOf(b);
    }
    assert b.canonicalUrl != "" ==> b.canonicalUrl in KeysOf(b);
    assert b.fingerprint != "" ==> b.fingerprint in KeysOf(b);
    assert b.contentHash != "" ==> b.contentHash in KeysOf(b);
  }

  lemma {:induction false} PoolOfOne(x: Kept, y: Kept, s: seq<Kept>)
    requires y in s && KeysOf(x) * AllKeys(s) == {}
    ensures KeysOf(x) * KeysOf(y) == {}
  {
    forall k | k in KeysOf(x)
      ensures k !in KeysOf(y)
    {
      assert k in KeysOf(y) ==> k in AllKeys(s);
      assert k in AllKeys(s) ==> k in KeysOf(x) * AllKeys(s);
    }
  }

  lemma {:induction false} NormalHasDigests(e: Kept, ticker: string)
    requires IsNormal(e, ticker)
    ensures e.fingerprint != "" && e.contentHash != ""
  {
    hide Strip, NormalText, Day, Upper;
  }

  lemma {:induction false} ConcatSharesNoKeys(a: seq<Kept>, b: seq<Kept>)
    requires NoSharedKeys(a) && NoSharedKeys(b)
    requires forall x, y | x in a && y in b :: !SharesKey(x, y)
    ensures NoSharedKeys(a + b)
  {
    hide SharesKey;
  }

  /** The evidence part of _refresh_plan_evidence: nothing when no entry is new, else the new entries merged with
      the prior ones by normalizing both together. The merge drops nothing and reorders nothing: it is the new
      entries followed by the prior ones, and every entry found is in it or shares a key with a prior one. */
  method RefreshEvidence(found: seq<Event>, priorNews: seq<Event>, ticker: string) returns (merged: Option<seq<Kept>>)
    ensures var prior := Normalized(priorNews, ticker);
            var novel := Unseen(Normalized(found, ticker), AllKeys(prior));
            && (merged.None? <==> novel == [])
            && (merged.Some? ==> merged.value == novel + prior && NoSharedKeys(merged.value))
  {
    hide IsNormal, SharesKey, KeysOf;
    var normalized := NormalizeEvents(found, ticker);
    var prior := NormalizeEvents(priorNews, ticker);
    var seen := AllKeys(prior);
    var novel: seq<Kept> := [];
    for i := 0 to |normalized|
      invariant novel == Unseen(normalized[..i], seen)
    {
      assert normalized[..i + 1][..i] == normalized[..i];
      if KeysOf(normalized[i]) * seen == {} {
        novel := novel + [normalized[i]];
      }
    }
    assert normalized[..|normalized|] == normalized;
    if novel == [] {
      return None;
    }
    MergeKeepsAll(found, priorNews, ticker);
    var combined := NormalizeEvents(novel + prior, ticker);
    return Some(combined);
  }

  lemma {:induction false} MergeKeepsAll(found: seq<Event>, priorNews: seq<Event>, ticker: string)
    ensures var prior := Normalized(priorNews, ticker);
            var merged := Unseen(Normalized(found, ticker), AllKeys(prior)) + prior;
            NoSharedKeys(merged) && Normalized(merged, ticker) == merged
  {
    var normalized, prior := Normalized(found, ticker), Normalized(priorNews, ticker);
    var novel := Unseen(normalized, AllKeys(prior));
    KeptShareNoKeys(found, ticker);
    KeptShareNoKeys(priorNews, ticker);
    hide SharesKey, KeysOf, IsNormal, Normalized, WellFormed, Annotate;
    UnseenShareNoKeys(normalized, AllKeys(prior));
    forall x | x in novel
      ensures IsNormal(x, ticker) && x.fingerprint != "" && x.contentHash != "" && KeysOf(x) * AllKeys(prior) == {}
    {
      UnseenHolds(normalized, AllKeys(prior), x);
      KeptAreNormal(found, ticker, x);
      NormalHasDigests(x, ticker);
    }
    forall x, y | x in novel && y in prior
      ensures !SharesKey(x, y)
    {
      PoolOfOne(x, y, prior);
      SharedKeysArePooled(x, y);
    }
    ConcatSharesNoKeys(novel, prior);
    forall y | y in prior
      ensures IsNormal(y, ticker)
    {
      KeptAreNormal(priorNews, ticker, y);
    }
    NormalSurvives(novel + prior, ticker);
  }

  // ---- When two entries tell the same story ----------------------------------------------------------------------

  ghost predicate AllSpaces(s: string) {
    forall c | c in s :: c in " \t\n\r"
  }

  ghost predicate NoSpaceAtEnds(s: string) {
    s != "" ==> s[0] !in " \t\n\r" && s[|s| - 1] !in " \t\n\r"
  }

  lemma {:induction false} StripLeftIs(s: string) returns (left: string)
    ensures s == left + StripLeft(s) && AllSpaces(left)
    ensures StripLeft(s) != "" ==> !IsSpace(StripLeft(s)[0])
  {
    left := "";
    if s != "" && IsSpace(s[0]) {
      var more := StripLeftIs(s[1..]);
      left := [s[0]] + more;
      assert s == [s[0]] + s[1..];
    }
  }

  lemma {:induction false} StripRightIs(s: string) returns (right: string)
    ensures s == StripRight(s) + right && AllSpaces(right)
    ensures StripRight(s) != "" ==> StripRight(s)[0] == s[0] && !IsSpace(StripRight(s)[|StripRight(s)| - 1])
  {
    right := "";
    if s != "" && IsSpace(s[|s| - 1]) {
      var more := StripRightIs(s[..|s| - 1]);
      assert StripRight(s) == StripRight(s[..|s| - 1]);
      right := more + [s[|s| - 1]];
      assert s == s[..|s| - 1] + [s[|s| - 1]];
    }
  }

  /** Stripping takes white space off both ends and nothing else. */
  lemma {:induction false} StripIs(s: string) returns (left: string, right: string)
    ensures s == left + Strip(s) + right && AllSpaces(left) && AllSpaces(right) && NoSpaceAtEnds(Strip(s))
  {
    hide StripLeft, StripRight;
    left := StripLeftIs(s);
    right := StripRightIs(StripLeft(s));
  }

  /** An entry is considered when it has a time and its headline is not blank. */
  lemma {:induction false} WellFormedIff(e: Event)
    ensures WellFormed(e) <==> e.Event? && e.publishedAt != "" && !AllSpaces(e.headline)
  {
    if e.Event? {
      var left, right := StripIs(e.headline);
      var inner := Strip(e.headline);
      if inner != "" {
        assert inner[0] in e.headline;
      }
    }
  }

  /** A letter or a digit of a word, whatever its case. */
  ghost predicate InWord(c: char) {
    'a' <= c <= 'z' || 'A' <= c <= 'Z' || '0' <= c <= '9'
  }

  /** The lower-case character that `UpperChar` takes to the same capital. */
  lemma {:induction false} LowerCharIs(c: char)
    ensures UpperChar(LowerChar(c)) == UpperChar(c) && !('A' <= LowerChar(c) <= 'Z')
    ensures InWord(c) <==> 'a' <= LowerChar(c) <= 'z' || '0' <= LowerChar(c) <= '9'
  {
  }

  /** The words of a text in lower case: its runs of letters and digits. */
  ghost function Words(s: string): seq<string> {
    if s == "" then []
    else if !InWord(s[0]) then Words(s[1..])
    else if |s| > 1 && InWord(s[1]) && Words(s[1..]) != [] then
      [[LowerChar(s[0])] + Words(s[1..])[0]] + Words(s[1..])[1..]
    else [[LowerChar(s[0])]] + Words(s[1..])
  }

  ghost function Joined(words: seq<string>): string {
    if words == [] then ""
    else if |words| == 1 then words[0]
    else words[0] + " " + Joined(words[1..])
  }

  ghost predicate IsWord(w: string) {
    w != "" && forall c | c in w :: 'a' <= c <= 'z' || '0' <= c <= '9'
  }

  lemma {:induction false} WordsAreWords(s: string)
    ensures forall w | w in Words(s) :: IsWord(w)
    ensures s != "" && InWord(s[0]) ==> Words(s) != []
  {
    if s != "" {
      WordsAreWords(s[1..]);
      LowerCharIs(s[0]);
      if InWord(s[0]) {
        assert IsWord([LowerChar(s[0])]);
        if |s| > 1 && InWord(s[1]) {
          var rest := Words(s[1..]);
          assert rest[0] in rest && IsWord([LowerChar(s[0])] + rest[0]);
        }
      }
    }
  }

  lemma {:induction false} JoinedPrepend(first: string, words: seq<string>, rest: seq<string>)
    requires words != [] && rest == [first + words[0]] + words[1..]
    ensures Joined(rest) == first + Joined(words)
  {
    assert rest[1..] == words[1..];
    if |words| > 1 {
      assert first + words[0] + " " + Joined(words[1..]) == first + (words[0] + " " + Joined(words[1..]));
    }
  }

  ghost function Lead(s: string, inGap: bool): string {
    if s == "" || inGap || InWord(s[0]) then "" else " "
  }

  /** Collapsing leaves the words with single blanks between them, and at most one more at either end. */
  ghost predicate CollapsesTo(s: string, inGap: bool, trail: string) {
    && trail in {"", " "}
    && Collapse(s, inGap) == Lead(s, inGap) + if Words(s) == [] then "" else Joined(Words(s)) + trail
  }

  lemma {:induction false} WordBegins(c: char, rest: seq<string>, lead: string, trail: string, all: seq<string>,
      collapsed: string)
    requires rest != [] && collapsed == lead + (Joined(rest) + trail)
    requires (lead == "" && all == [[c] + rest[0]] + rest[1..]) || (lead == " " && all == [[c]] + rest)
    ensures [c] + collapsed == Joined(all) + trail
  {
    if lead == "" {
      JoinedPrepend([c], rest, all);
    } else {
      assert all[1..] == rest;
    }
    assert [c] + (lead + (Joined(rest) + trail)) == ([c] + lead + Joined(rest)) + trail;
  }

  lemma {:induction false} CollapseIsWords(s: string, inGap: bool) returns (trail: string)
    ensures CollapsesTo(s, inGap, trail)
  {
    hide Joined, LowerChar, InWord;
    trail := "";
    if s != "" {
      LowerCharIs(s[0]);
      WordsAreWords(s[1..]);
      if InWord(s[0]) {
        var c, rest := LowerChar(s[0]), Words(s[1..]);
        trail := CollapseIsWords(s[1..], false);
        if rest == [] {
          trail := Lead(s[1..], false);
          JoinedOfOne([c]);
          assert Words(s) == [[c]];
        } else {
          WordBegins(c, rest, Lead(s[1..], false), trail, Words(s), Collapse(s[1..], false));
        }
      } else {
        trail := CollapseIsWords(s[1..], true);
      }
    }
  }

  lemma {:induction false} JoinedOfOne(w: string)
    ensures Joined([w]) == w
  {
  }

  lemma {:induction false} JoinedEnds(words: seq<string>)
    requires words != [] && forall w | w in words :: IsWord(w)
    ensures Joined(words) != "" && NoSpaceAtEnds(Joined(words))
  {
    var first := words[0];
    assert first in words && first[0] in first && first[|first| - 1] in first;
    if |words| > 1 {
      assert forall w | w in words[1..] :: w in words;
      JoinedEnds(words[1..]);
    }
  }

  lemma {:induction false} StripOfPadded(lead: string, s: string, trail: string)
    requires AllSpaces(lead) && AllSpaces(trail) && s != "" && NoSpaceAtEnds(s)
    ensures Strip(lead + s + trail) == s
  {
    StripLeftOfPadded(lead, s + trail);
    assert lead + s + trail == lead + (s + trail);
    StripRightOfPadded(s, trail);
  }

  lemma {:induction false} StripLeftOfPadded(lead: string, s: string)
    requires AllSpaces(lead) && s != "" && !IsSpace(s[0])
    ensures StripLeft(lead + s) == s
  {
    if lead != "" {
      assert lead[0] in lead;
      assert (lead + s)[1..] == lead[1..] + s;
      StripLeftOfPadded(lead[1..], s);
    } else {
      assert lead + s == s;
    }
  }

  lemma {:induction false} StripRightOfPadded(s: string, trail: string)
    requires AllSpaces(trail) && s != "" && !IsSpace(s[|s| - 1])
    ensures StripRight(s + trail) == s
  {
    if trail != "" {
      assert trail[|trail| - 1] in trail;
      assert (s + trail)[..|s + trail| - 1] == s + trail[..|trail| - 1];
      StripRightOfPadded(s, trail[..|trail| - 1]);
    } else {
      assert s + trail == s;
    }
  }

  lemma {:induction false} BlankIsStripped(s: string)
    requires AllSpaces(s)
    ensures Strip(s) == ""
  {
    var left, right := StripIs(s);
    assert forall c | c in Strip(s) :: c in left + Strip(s) + right;
  }

  /** The normal text is the words in lower case with single blanks between them. */
  lemma {:induction false} NormalTextIsWords(s: string)
    ensures NormalText(s) == Joined(Words(s))
  {
    var trail := CollapseIsWords(s, false);
    WordsAreWords(s);
    if Words(s) != [] {
      JoinedEnds(Words(s));
      StripOfPadded(Lead(s, false), Joined(Words(s)), trail);
      assert Lead(s, false) + (Joined(Words(s)) + trail) == Lead(s, false) + Joined(Words(s)) + trail;
    } else {
      BlankIsStripped(Lead(s, false));
      assert Collapse(s, false) == Lead(s, false);
    }
  }

  lemma {:induction false} SplitAtFirst(a: string, b: string, x: string, y: string, mark: char)
    requires mark !in a && mark !in b && a + [mark] + x == b + [mark] + y
    ensures a == b && x == y
  {
    var s := a + [mark] + x;
    assert s[|a|] == mark && s[|b|] == mark;
    assert a == s[..|a|] && b == s[..|b|] && x == s[|a| + 1..] && y == s[|b| + 1..];
  }

  lemma {:induction false} OneWordHasNoBlank(w: string, words: seq<string>)
    requires IsWord(w) && |words| > 1
    ensures Joined(words) != w
  {
    var all := words[0] + " " + Joined(words[1..]);
    assert all[|words[0]|] == ' ';
    assert all == w ==> ' ' in w;
  }

  /** Different words make different texts. */
  lemma {:induction false} JoinedIsInjective(a: seq<string>, b: seq<string>)
    requires (forall w | w in a :: IsWord(w)) && (forall w | w in b :: IsWord(w)) && Joined(a) == Joined(b)
    ensures a == b
  {
    if a == [] || b == [] {
      if a != [] {
        JoinedEnds(a);
      }
      if b != [] {
        JoinedEnds(b);
      }
    } else {
      assert a[0] in a && b[0] in b;
      if |a| == 1 {
        if |b| > 1 {
          OneWordHasNoBlank(a[0], b);
        }
      } else if |b| == 1 {
        OneWordHasNoBlank(b[0], a);
      } else {
        SplitAtFirst(a[0], b[0], Joined(a[1..]), Joined(b[1..]), ' ');
        assert (forall w | w in a[1..] :: w in a) && (forall w | w in b[1..] :: w in b);
        JoinedIsInjective(a[1..], b[1..]);
        assert a == [a[0]] + a[1..] && b == [b[0]] + b[1..];
      }
    }
  }

  /** Whom an entry is about: its own ticker, else the one asked for, else the market. */
  ghost function About(e: Kept, ticker: string): string {
    if e.ticker != "" then Upper(e.ticker) else if ticker != "" then Upper(ticker) else "MARKET"
  }

  /** The date an entry is about: the first ten characters of its event time, else of its publication time. */
  ghost function DateOf(e: Kept): string {
    var time := if e.eventAt != "" then e.eventAt else e.publishedAt;
    time[..if |time| < 10 then |time| else 10]
  }

  lemma {:induction false} JoinedHasNoBreak(words: seq<string>)
    requires forall w | w in words :: IsWord(w)
    ensures '\n' !in Joined(words)
  {
    if words != [] {
      assert words[0] in words;
      assert forall w | w in words[1..] :: w in words;
      JoinedHasNoBreak(words[1..]);
    }
  }

  lemma {:induction false} DayIsDate(e: Kept)
    ensures Day(if e.eventAt != "" then e.eventAt else e.publishedAt) == DateOf(e)
  {
  }

  lemma {:induction false} FingerprintIs(e: Kept, ticker: string)
    ensures Annotate(e, ticker).Event?
    ensures Annotate(e, ticker).fingerprint
            == About(e, ticker) + "\n" + (Joined(Words(Strip(e.headline))) + "\n" + DateOf(e))
  {
    hide NormalText, Strip, UpperChar, Joined, Words;
    NormalTextIsWords(Strip(e.headline));
    DayIsDate(e);
  }

  /** Two entries share a fingerprint exactly when they are about the same ticker and the same date and their headlines
      have the same words, whatever their case, punctuation and spacing. */
  lemma {:induction false} FingerprintsMeetIff(a: Kept, b: Kept, ticker: string)
    requires '\n' !in About(a, ticker) && '\n' !in About(b, ticker)
    ensures Annotate(a, ticker).Event? && Annotate(b, ticker).Event?
    ensures Annotate(a, ticker).fingerprint == Annotate(b, ticker).fingerprint
            <==> && About(a, ticker) == About(b, ticker) && DateOf(a) == DateOf(b)
                 && Words(Strip(a.headline)) == Words(Strip(b.headline))
  {
    hide Annotate, About, DateOf, Strip, Words;
    FingerprintIs(a, ticker);
    FingerprintIs(b, ticker);
    var v, w := Words(Strip(a.headline)), Words(Strip(b.headline));
    WordsAreWords(Strip(a.headline));
    WordsAreWords(Strip(b.headline));
    JoinedHasNoBreak(v);
    JoinedHasNoBreak(w);
    if Annotate(a, ticker).fingerprint == Annotate(b, ticker).fingerprint {
      SplitAtFirst(About(a, ticker), About(b, ticker), Joined(v) + "\n" + DateOf(a),
                   Joined(w) + "\n" + DateOf(b), '\n');
      SplitAtFirst(Joined(v), Joined(w), DateOf(a), DateOf(b), '\n');
      JoinedIsInjective(v, w);
    }
  }

  /** Two entries share their content exactly when link, headline and highlights are the same up to white space around
      the first two, and their links exactly when those are. */
  lemma {:induction false} ContentsMeetIff(a: Kept, b: Kept, ticker: string)
    requires '\n' !in a.url + a.headline && '\n' !in b.url + b.headline
    ensures Annotate(a, ticker).Event? && Annotate(b, ticker).Event?
    ensures Annotate(a, ticker).contentHash == Annotate(b, ticker).contentHash
            <==> Strip(a.url) == Strip(b.url) && Strip(a.headline) == Strip(b.headline) && a.highlights == b.highlights
    ensures Annotate(a, ticker).canonicalUrl == Strip(a.url)
  {
    hide Strip, NormalText, Upper, Day;
    StripHasNoBreak(a.url);
    StripHasNoBreak(b.url);
    StripHasNoBreak(a.headline);
    StripHasNoBreak(b.headline);
    assert forall e: Kept ::
        Annotate(e, ticker).contentHash == Strip(e.url) + "\n" + (Strip(e.headline) + "\n" + e.highlights);
    if Annotate(a, ticker).contentHash == Annotate(b, ticker).contentHash {
      SplitAtFirst(Strip(a.url), Strip(b.url), Strip(a.headline) + "\n" + a.highlights,
                   Strip(b.headline) + "\n" + b.highlights, '\n');
      SplitAtFirst(Strip(a.headline), Strip(b.headline), a.highlights, b.highlights, '\n');
    }
  }

  lemma {:induction false} StripHasNoBreak(s: string)
    requires '\n' !in s
    ensures '\n' !in Strip(s)
  {
    var left, right := StripIs(s);
    assert forall c | c in Strip(s) :: c in left + Strip(s) + right;
  }
}

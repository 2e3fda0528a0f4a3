/** Reading the last records of an append-only JSON-lines log by walking backwards in chunks, against the simple
    definition: split the whole file into lines and take the last records. */
module LogTail {
  import opened Basics

  newtype Byte = x: int | 0 <= x < 256

  type Bytes = seq<Byte>

  const LF: Byte := 10
  const CR: Byte := 13

  const CHUNK := 64 * 1024

  // ---- Lines of a byte string ------------------------------------------------------------------------------

  predicate IsBreak(c: Byte) {
    c == LF || c == CR
  }

  /** The length of the first line, without what ends it. */
  function LineLength(b: Bytes): (n: nat)
    ensures n <= |b|
  {
    if b == [] || IsBreak(b[0]) then 0 else 1 + LineLength(b[1..])
  }

  /** Where the line after the first one starts: behind LF, CR or CR LF. */
  function LineEnd(b: Bytes): (e: nat)
    ensures e <= |b| && (b != [] ==> e > 0)
  {
    var n := LineLength(b);
    if n == |b| then n
    else if b[n] == CR && n + 1 < |b| && b[n + 1] == LF then n + 2
    else n + 1
  }

  /** `bytes.splitlines`. */
  function Lines(b: Bytes): seq<Bytes>
    decreases |b|
  {
    if b == [] then [] else [b[..LineLength(b)]] + Lines(b[LineEnd(b)..])
  }

  function Newlines(b: Bytes): nat {
    if b == [] then 0 else (if b[0] == LF then 1 else 0) + Newlines(b[1..])
  }

  /** A position behind a complete line break. */
  ghost predicate IsBoundary(b: Bytes, q: nat) {
    && q <= |b|
    && (q == 0 || b[q - 1] == LF || (b[q - 1] == CR && (q == |b| || b[q] != LF)))
  }

  ghost predicate IsLineLength(b: Bytes, n: nat) {
    && n <= |b|
    && (forall i | 0 <= i < n :: !IsBreak(b[i]))
    && (n < |b| ==> IsBreak(b[n]))
  }

  lemma {:induction false} LineLengthIs(b: Bytes, n: nat)
    ensures IsLineLength(b, n) <==> n == LineLength(b)
  {
    if b == [] || IsBreak(b[0]) {
    } else {
      assert forall i | 0 < i < |b| :: b[i] == b[1..][i - 1];
      if n > 0 {
        LineLengthIs(b[1..], n - 1);
      }
      LineLengthIs(b[1..], LineLength(b) - 1);
    }
  }

  lemma {:induction false} FirstLine(b: Bytes)
    requires b != []
    ensures Lines(b) == [b[..LineLength(b)]] + Lines(b[LineEnd(b)..])
  {
  }

  /** What comes next does not continue the last line of a. */
  ghost predicate Closed(a: Bytes, b: Bytes) {
    a == [] || a[|a| - 1] == LF || (a[|a| - 1] == CR && (b == [] || b[0] != LF))
  }

  lemma {:induction false} NoLinesInNothing()
    ensures Lines([]) == []
  {
  }

  lemma {:induction false} FirstLineOfConcat(a: Bytes, b: Bytes)
    requires a != [] && Closed(a, b)
    ensures LineLength(a + b) == LineLength(a) && LineEnd(a + b) == LineEnd(a)
    ensures Closed(a[LineEnd(a)..], b)
  {
    LineLengthIs(a, LineLength(a));
    LineLengthIs(a + b, LineLength(a));
  }

  lemma {:induction false} LinesConcat(a: Bytes, b: Bytes)
    requires Closed(a, b)
    ensures Lines(a + b) == Lines(a) + Lines(b)
    decreases |a|
  {
    hide LineLength, LineEnd, Closed, Lines;
    if a == [] {
      NoLinesInNothing();
      assert a + b == b;
    } else {
      FirstLineOfConcat(a, b);
      FirstLine(a);
      FirstLine(a + b);
      var n, e := LineLength(a), LineEnd(a);
      LinesConcat(a[e..], b);
      assert (a + b)[e..] == a[e..] + b;
      assert (a + b)[..n] == a[..n];
    }
  }

  /** Splitting at a boundary splits the lines. */
  lemma {:induction false} LinesSplit(b: Bytes, q: nat)
    requires IsBoundary(b, q)
    ensures Lines(b) == Lines(b[..q]) + Lines(b[q..])
  {
    hide Lines;
    assert b == b[..q] + b[q..];
    LinesConcat(b[..q], b[q..]);
  }

  /** Without its first line, a byte string still splits into a suffix of the lines of the file it ends. */
  lemma {:induction false} DropFirstLine(file: Bytes, p: nat)
    requires p < |file|
    ensures var b := file[p..]; p + LineEnd(b) == |file| || IsBoundary(file, p + LineEnd(b))
    ensures Lines(file[p..])[1..] == Lines(file[p + LineEnd(file[p..])..])
  {
    var b := file[p..];
    LineLengthIs(b, LineLength(b));
    assert b[LineEnd(b)..] == file[p + LineEnd(b)..];
  }

  lemma {:induction false} NewlinesConcat(a: Bytes, b: Bytes)
    ensures Newlines(a + b) == Newlines(a) + Newlines(b)
  {
    if a == [] {
      assert a + b == b;
    } else {
      assert (a + b)[1..] == a[1..] + b;
      NewlinesConcat(a[1..], b);
    }
  }

  lemma {:induction false} LineHoldsNoNewline(b: Bytes)
    ensures Newlines(b[..LineLength(b)]) == 0
  {
    if b != [] && !IsBreak(b[0]) {
      LineHoldsNoNewline(b[1..]);
      assert b[..LineLength(b)][1..] == b[1..][..LineLength(b[1..])];
    }
  }

  /** There are at least as many lines as newline bytes. */
  lemma {:induction false} NewlinesBoundLines(b: Bytes)
    ensures Newlines(b) <= |Lines(b)|
    decreases |b|
  {
    if b != [] {
      var n, e := LineLength(b), LineEnd(b);
      LineHoldsNoNewline(b);
      BreakHoldsOneNewline(b);
      FirstLine(b);
      hide LineLength, LineEnd, Lines, Newlines;
      NewlinesBoundLines(b[e..]);
      NewlinesConcat(b[..n] + b[n..e], b[e..]);
      NewlinesConcat(b[..n], b[n..e]);
      assert b == b[..n] + b[n..e] + b[e..];
    }
  }

  lemma {:induction false} BreakHoldsOneNewline(b: Bytes)
    ensures LineLength(b) <= LineEnd(b) && Newlines(b[LineLength(b)..LineEnd(b)]) <= 1
  {
    var n, e := LineLength(b), LineEnd(b);
    var end := b[n..e];
    if e == n {
      assert end == [];
    } else if e == n + 1 {
      assert end == [b[n]] && end[1..] == [];
    } else {
      assert end == [CR, LF] && end[1..] == [LF] && [LF][1..] == [];
      assert Newlines([LF]) == 1;
    }
  }

  // ---- What the backwards reader keeps -----------------------------------------------------------------------

  /** Where the backwards walk stops: at the start, or once enough newlines lie behind it. */
  function StopPosition(file: Bytes, position: nat, limit: nat): (p: nat)
    requires position <= |file|
    ensures p <= position
    ensures p > 0 ==> Newlines(file[p..]) > limit
  {
    if position > 0 && Newlines(file[position..]) < limit + 1
    then StopPosition(file, position - Least(CHUNK, position), limit)
    else position
  }

  /** The whole lines in what was read: the first one is dropped when the walk stopped inside it. */
  function Retained(file: Bytes, position: nat): seq<Bytes>
    requires position <= |file|
  {
    var lines := Lines(file[position..]);
    if position > 0 && file[position - 1] != LF && lines != [] then lines[1..] else lines
  }

  /** The records of the lines that hold one; blank and malformed lines and other JSON values hold none. */
  function Records<R>(lines: seq<Bytes>, parse: Bytes -> Option<R>): seq<R> {
    if lines == [] then []
    else
      (match parse(lines[0])
       case Some(r) => [r]
       case None => []) + Records(lines[1..], parse)
  }

  function Last<T>(s: seq<T>, n: nat): seq<T> {
    if |s| <= n then s else s[|s| - n..]
  }

  function Reversed<T>(s: seq<T>): (r: seq<T>) {
    if s == [] then [] else Reversed(s[1..]) + [s[0]]
  }

  lemma {:induction false} ReversedAppend<T>(s: seq<T>, x: T)
    ensures Reversed(s + [x]) == [x] + Reversed(s)
  {
    if s != [] {
      assert (s + [x])[1..] == s[1..] + [x];
      ReversedAppend(s[1..], x);
    }
  }

  /** Chunks were read back to front. */
  function Joined(chunks: seq<Bytes>): Bytes {
    if chunks == [] then [] else chunks[|chunks| - 1] + Joined(chunks[..|chunks| - 1])
  }

  function TailRecords<R>(file: Bytes, limit: nat, parse: Bytes -> Option<R>): seq<R> {
    Last(Records(Retained(file, StopPosition(file, |file|, limit)), parse), limit)
  }

  lemma {:induction false} RecordsConcat<R>(a: seq<Bytes>, b: seq<Bytes>, parse: Bytes -> Option<R>)
    ensures Records(a + b, parse) == Records(a, parse) + Records(b, parse)
  {
    if a == [] {
      assert a + b == b;
    } else {
      assert (a + b)[1..] == a[1..] + b;
      RecordsConcat(a[1..], b, parse);
    }
  }

  lemma {:induction false} Rejoin(file: Bytes, p: nat, q: nat)
    requires p <= q <= |file|
    ensures file[p..q] + file[q..] == file[p..]
  {
  }

  lemma {:induction false} NothingRead(file: Bytes)
    ensures Newlines(file[|file|..]) == 0 && Joined([]) == file[|file|..]
  {
  }

  lemma {:induction false} JoinedAppend(chunks: seq<Bytes>, chunk: Bytes)
    ensures Joined(chunks + [chunk]) == chunk + Joined(chunks)
  {
    assert (chunks + [chunk])[..|chunks|] == chunks;
  }

  /** The chunk loop: walk back until the start or until `limit + 1` newlines have been counted. */
  method ReadBack(file: Bytes, limit: nat) returns (text: Bytes, position: nat)
    ensures position == StopPosition(file, |file|, limit) <= |file|
    ensures text == file[position..]
  {
    hide Newlines, Joined;
    NothingRead(file);
    position := |file|;
    var chunks: seq<Bytes>, newlineCount := [], 0;
    while position > 0 && newlineCount < limit + 1
      invariant position <= |file|
      invariant StopPosition(file, position, limit) == StopPosition(file, |file|, limit)
      invariant Joined(chunks) == file[position..]
      invariant newlineCount == Newlines(file[position..])
    {
      var readSize := Least(CHUNK, position);
      position := position - readSize;
      var chunk := file[position..position + readSize];
      Rejoin(file, position, position + readSize);
      NewlinesConcat(chunk, file[position + readSize..]);
      JoinedAppend(chunks, chunk);
      chunks := chunks + [chunk];
      newlineCount := newlineCount + Newlines(chunk);
    }
    text := Joined(chunks);
  }

  /** The record loop: from the last line back, up to `limit` records, then reversed in place. */
  method LastRecords<R>(lines: seq<Bytes>, limit: nat, parse: Bytes -> Option<R>) returns (records: seq<R>)
    requires limit > 0
    ensures records == Last(Records(lines, parse), limit)
  {
    records := [];
    var i := |lines|;
    while i > 0
      invariant 0 <= i <= |lines|
      invariant |records| < limit
      invariant Reversed(records) == Records(lines[i..], parse) && |Reversed(records)| == |records|
    {
      i := i - 1;
      assert lines[i..][1..] == lines[i + 1..];
      match parse(lines[i]) {
        case None =>
        case Some(r) =>
          ReversedAppend(records, r);
          records := records + [r];
          if |records| == limit {
            assert lines == lines[..i] + lines[i..];
            RecordsConcat(lines[..i], lines[i..], parse);
            records := Reversed(records);
            return;
          }
      }
    }
    assert lines[0..] == lines;
    records := Reversed(records);
  }

  /** _read_jsonl; a file that cannot be opened reads as no records. */
  method ReadJsonl<R>(file: Option<Bytes>, limit: int, parse: Bytes -> Option<R>) returns (records: seq<R>)
    ensures records == if limit <= 0 || file.None? then [] else TailRecords(file.value, limit, parse)
    ensures limit > 0 && file.Some? ==> IsSuffix(records, Records(Lines(file.value), parse))
  {
    if limit <= 0 {
      return [];
    }
    match file {
      case None =>
        return [];
      case Some(bytes) =>
        var text, position := ReadBack(bytes, limit);
        var lines := Lines(text);
        if position > 0 && bytes[position - 1] != LF && lines != [] {
          lines := lines[1..];
        }
        records := LastRecords(lines, limit, parse);
        TailIsSuffix(bytes, limit, parse);
    }
  }

  // ---- The reader against the full scan ------------------------------------------------------------------------

  ghost predicate IsSuffix<T>(s: seq<T>, whole: seq<T>) {
    |s| <= |whole| && s == whole[|whole| - |s|..]
  }

  lemma {:induction false} SuffixOfConcat<T>(a: seq<T>, s: seq<T>, n: nat)
    ensures IsSuffix(s, a + s) && IsSuffix(Last(s, n), a + s)
  {
  }

  /** The start of the first line kept of what lies behind a position: the position itself behind a newline byte or
      at the start of the file, else the end of the line it falls in. */
  function KeptFrom(file: Bytes, position: nat): (q: nat)
    requires position <= |file|
    ensures position <= q <= |file|
  {
    if position == 0 || file[position - 1] == LF then position else position + LineEnd(file[position..])
  }

  lemma {:induction false} KeptFromIsBoundary(file: Bytes, position: nat)
    requires position <= |file|
    ensures KeptFrom(file, position) == |file| || IsBoundary(file, KeptFrom(file, position))
    ensures Retained(file, position) == Lines(file[KeptFrom(file, position)..])
  {
    if position < |file| && position > 0 && file[position - 1] != LF {
      DropFirstLine(file, position);
    }
  }

  /** The retained lines are the whole lines from there on, and the rest of the file splits off before them. */
  lemma {:induction false} RetainedAreWholeLines(file: Bytes, position: nat)
    requires position <= |file|
    ensures Retained(file, position) == Lines(file[KeptFrom(file, position)..])
    ensures Lines(file) == Lines(file[..KeptFrom(file, position)]) + Retained(file, position)
    ensures IsSuffix(Retained(file, position), Lines(file))
  {
    KeptFromIsBoundary(file, position);
    var q := KeptFrom(file, position);
    hide KeptFrom, Retained, LineLength, LineEnd;
    if q < |file| {
      LinesSplit(file, q);
    } else {
      NoLinesInNothing();
      assert file[..q] == file && file[q..] == [];
    }
    hide Lines;
    SuffixOfConcat(Lines(file[..q]), Retained(file, position), 0);
  }

  /** When the walk stopped before the start of the file, at least `limit` whole lines were kept; otherwise all. */
  lemma {:induction false} EnoughLinesAreKept(file: Bytes, limit: nat)
    ensures var p := StopPosition(file, |file|, limit);
            if p == 0 then Retained(file, p) == Lines(file) else |Retained(file, p)| >= limit
  {
    var p := StopPosition(file, |file|, limit);
    NewlinesBoundLines(file[p..]);
    assert file[0..] == file;
  }

  lemma {:induction false} RecordsOfBoth<R>(file: Bytes, position: nat, parse: Bytes -> Option<R>)
    requires position <= |file|
    ensures var q := KeptFrom(file, position);
            && Retained(file, position) == Lines(file[q..])
            && Records(Lines(file), parse) == Records(Lines(file[..q]), parse) + Records(Lines(file[q..]), parse)
  {
    RetainedAreWholeLines(file, position);
    RecordsConcat(Lines(file[..KeptFrom(file, position)]), Retained(file, position), parse);
  }

  /** Whatever the file holds, the reader returns the end of what a full scan would return. */
  lemma {:induction false} TailIsSuffix<R>(file: Bytes, limit: nat, parse: Bytes -> Option<R>)
    ensures IsSuffix(TailRecords(file, limit, parse), Records(Lines(file), parse))
    ensures |TailRecords(file, limit, parse)| <= limit
  {
    var p := StopPosition(file, |file|, limit);
    var q := KeptFrom(file, p);
    RecordsOfBoth(file, p, parse);
    SuffixOfConcat(Records(Lines(file[..q]), parse), Records(Lines(file[q..]), parse), limit);
  }

  // ---- Where the walk stops, said of the file alone ------------------------------------------------------------

  /** The position `k` chunks before the end. */
  function Behind(file: Bytes, k: nat): nat {
    if k * CHUNK >= |file| then 0 else |file| - k * CHUNK
  }

  /** `k` chunks reach the start of the file or hold more than `limit` newlines, and one chunk fewer does neither. */
  ghost predicate EnoughChunks(file: Bytes, limit: nat, k: nat) {
    && (Behind(file, k) == 0 || Newlines(file[Behind(file, k)..]) > limit)
    && (k > 0 ==> Behind(file, k - 1) > 0 && Newlines(file[Behind(file, k - 1)..]) <= limit)
  }

  lemma {:induction false} NewlinesGrow(file: Bytes, p: nat, q: nat)
    requires p <= q <= |file|
    ensures Newlines(file[q..]) <= Newlines(file[p..])
  {
    Rejoin(file, p, q);
    NewlinesConcat(file[p..q], file[q..]);
  }

  lemma {:induction false} OneChunkFurther(file: Bytes, j: nat)
    requires Behind(file, j) > 0
    ensures Behind(file, j) - Least(CHUNK, Behind(file, j)) == Behind(file, j + 1) < Behind(file, j)
  {
  }

  lemma {:induction false} BehindShrinks(file: Bytes, j: nat, k: nat)
    requires j <= k
    ensures Behind(file, k) <= Behind(file, j) <= |file|
  {
    assert j * CHUNK <= k * CHUNK;
  }

  lemma {:induction false} WalkStopsAt(file: Bytes, limit: nat, k: nat, j: nat)
    requires EnoughChunks(file, limit, k) && j <= k
    ensures Behind(file, j) <= |file| && StopPosition(file, Behind(file, j), limit) == Behind(file, k)
    decreases k - j
  {
    hide Newlines;
    BehindShrinks(file, 0, j);
    if j < k {
      BehindShrinks(file, j, k - 1);
      NewlinesGrow(file, Behind(file, k - 1), Behind(file, j));
      OneChunkFurther(file, j);
      WalkStopsAt(file, limit, k, j + 1);
    }
  }

  /** There is exactly one such number of chunks for every file, and the walk stops behind it. */
  lemma {:induction false} WalkReadsEnoughChunks(file: Bytes, limit: nat) returns (k: nat)
    ensures EnoughChunks(file, limit, k) && StopPosition(file, |file|, limit) == Behind(file, k)
    ensures forall other | EnoughChunks(file, limit, other) :: other == k
  {
    k := FirstEnough(file, limit, 0);
    WalkStopsAt(file, limit, k, 0);
    assert Behind(file, 0) == |file|;
    forall other | EnoughChunks(file, limit, other)
      ensures other == k
    {
      EnoughIsUnique(file, limit, k, other);
      EnoughIsUnique(file, limit, other, k);
    }
  }

  lemma {:induction false} EnoughIsUnique(file: Bytes, limit: nat, k: nat, other: nat)
    requires EnoughChunks(file, limit, k) && EnoughChunks(file, limit, other)
    ensures k >= other
  {
    hide Newlines;
    if k < other {
      BehindShrinks(file, k, other - 1);
      BehindShrinks(file, 0, k);
      NewlinesGrow(file, Behind(file, other - 1), Behind(file, k));
    }
  }

  lemma {:induction false} FirstEnough(file: Bytes, limit: nat, j: nat) returns (k: nat)
    requires j > 0 ==> Behind(file, j - 1) > 0 && Newlines(file[Behind(file, j - 1)..]) <= limit
    ensures EnoughChunks(file, limit, k)
    decreases Behind(file, j)
  {
    k := j;
    if Behind(file, j) > 0 && Newlines(file[Behind(file, j)..]) <= limit {
      OneChunkFurther(file, j);
      k := FirstEnough(file, limit, j + 1);
    }
  }

  /** The reader returns exactly the last `limit` records of the full scan if and only if the whole lines in the
      chunks it needs hold at least `limit` records, or the lines before them hold none. */
  lemma {:induction false} TailIsExactIff<R>(file: Bytes, limit: nat, k: nat, parse: Bytes -> Option<R>)
    requires EnoughChunks(file, limit, k)
    ensures var q := KeptFrom(file, Behind(file, k));
            TailRecords(file, limit, parse) == Last(Records(Lines(file), parse), limit)
            <==> |Records(Lines(file[q..]), parse)| >= limit || Records(Lines(file[..q]), parse) == []
  {
    hide EnoughChunks, Records, Lines, KeptFrom;
    var p := Behind(file, k);
    StopsBehind(file, limit, k);
    RecordsOfBoth(file, p, parse);
    var q := KeptFrom(file, p);
    LastOfConcat(Records(Lines(file[..q]), parse), Records(Lines(file[q..]), parse), limit);
  }

  lemma {:induction false} StopsBehind(file: Bytes, limit: nat, k: nat)
    requires EnoughChunks(file, limit, k)
    ensures StopPosition(file, |file|, limit) == Behind(file, k)
  {
    WalkStopsAt(file, limit, k, 0);
    assert Behind(file, 0) == |file|;
  }

  lemma {:induction false} LastOfConcat<T>(a: seq<T>, s: seq<T>, n: nat)
    ensures Last(s, n) == Last(a + s, n) <==> |Last(s, n)| == n || a == []
  {
    if a == [] {
      assert a + s == s;
    } else if |s| < n {
      assert |Last(a + s, n)| > |s|;
    } else {
      assert Last(s, n) == Last(a + s, n);
    }
  }

  lemma {:induction false} RecordsOfParsed<R>(lines: seq<Bytes>, parse: Bytes -> Option<R>)
    requires forall i | 0 <= i < |lines| :: parse(lines[i]).Some?
    ensures |Records(lines, parse)| == |lines|
  {
    if lines != [] {
      RecordsOfParsed(lines[1..], parse);
    }
  }

  lemma {:induction false} CleanEnd<R>(lines: seq<Bytes>, kept: seq<Bytes>, limit: nat, parse: Bytes -> Option<R>)
    requires IsSuffix(kept, lines) && |kept| >= limit
    requires forall i | 0 <= i < |Last(lines, limit)| :: parse(Last(lines, limit)[i]).Some?
    ensures |Last(Records(kept, parse), limit)| == limit
  {
    var last := Last(lines, limit);
    assert kept == kept[..|kept| - limit] + last;
    RecordsConcat(kept[..|kept| - limit], last, parse);
    RecordsOfParsed(last, parse);
  }

  /** In particular it is exact whenever the last `limit` lines of the file all hold records. */
  lemma {:induction false} TailIsExactOnCleanTail<R>(file: Bytes, limit: nat, parse: Bytes -> Option<R>)
    requires forall i | 0 <= i < |Last(Lines(file), limit)| :: parse(Last(Lines(file), limit)[i]).Some?
    ensures TailRecords(file, limit, parse) == Last(Records(Lines(file), parse), limit)
  {
    hide StopPosition, Retained, Lines, Records;
    var p := StopPosition(file, |file|, limit);
    EnoughLinesAreKept(file, limit);
    if p > 0 {
      RetainedAreWholeLines(file, p);
      RecordsOfBoth(file, p, parse);
      CleanEnd(Lines(file), Retained(file, p), limit, parse);
      var q := KeptFrom(file, p);
      LastOfConcat(Records(Lines(file[..q]), parse), Records(Lines(file[q..]), parse), limit);
    }
  }

  // ---- Empty lines can hide a record ---------------------------------------------------------------------------

  ghost function EmptyLines(n: nat): (b: Bytes)
    ensures |b| == n && forall i | 0 <= i < n :: b[i] == LF
  {
    if n == 0 then [] else [LF] + EmptyLines(n - 1)
  }

  lemma {:induction false} EmptyLinesHoldNothing<R>(n: nat, parse: Bytes -> Option<R>)
    requires parse([]) == None
    ensures Newlines(EmptyLines(n)) == n && Records(Lines(EmptyLines(n)), parse) == []
  {
    if n > 0 {
      EmptyLinesHoldNothing(n - 1, parse);
      var b := EmptyLines(n);
      assert b[1..] == EmptyLines(n - 1);
      assert Lines(b) == [[]] + Lines(EmptyLines(n - 1));
    }
  }

  /** A record followed by a chunk of empty lines is in the full scan but not in the tail. */
  lemma {:induction false} EmptyLinesHideARecord<R>(line: Bytes, n: nat, r: R, parse: Bytes -> Option<R>)
    requires line != [] && forall c | c in line :: !IsBreak(c)
    requires n == CHUNK && parse(line) == Some(r) && parse([]) == None
    ensures var file := line + [LF] + EmptyLines(n);
            TailRecords(file, 1, parse) == [] && Records(Lines(file), parse) == [r]
  {
    var rest, start := EmptyLines(n), |line| + 1;
    var file := line + [LF] + rest;
    EmptyLinesHoldNothing(n, parse);
    OneLine(line);
    assert file[start..] == rest && file[..start] == line + [LF];
    StopsBehindTheRecord(file, start);
    assert Retained(file, start) == Lines(rest);
    LinesSplit(file, start);
    hide Lines;
    RecordsConcat([line], Lines(rest), parse);
  }

  lemma {:induction false} OneLine(line: Bytes)
    requires forall c | c in line :: !IsBreak(c)
    ensures Lines(line + [LF]) == [line]
  {
    var b := line + [LF];
    LineLengthIs(b, |line|);
    assert b[..|line|] == line && b[|line| + 1..] == [];
    FirstLine(b);
    NoLinesInNothing();
  }

  lemma {:induction false} StopsBehindTheRecord(file: Bytes, start: nat)
    requires 0 < start <= |file| == start + CHUNK && Newlines(file[start..]) == CHUNK
    ensures StopPosition(file, |file|, 1) == start
  {
    hide Newlines;
    NothingRead(file);
    assert StopPosition(file, start, 1) == start;
  }
}

/** The shared credential envelope: concurrent workers that read, change and rewrite one file under an
    envelope lock, and a second lock that serialises token refreshes. Every interleaving is a sequence of
    actions; an action that is not enabled leaves the system unchanged. Access tokens stand for their
    fingerprints, and an empty string for an absent token. */
module CredentialEnvelope {
  import opened Basics

  const SKEW: int := 60

  datatype Token = Token(access: string, refresh: string, expiresIn: Option<int>)

  datatype Envelope = Envelope(
    tokens: Option<Token>,
    savedAt: Option<int>,
    expiresAt: Option<int>,
    blockedUntil: Option<int>,
    blockedAccess: Option<string>,
    clientInfo: Option<string>,
    metadata: Option<string>)

  /** The read-modify-write methods. `Migrate` is the one inside token reading; it carries the save time
      its own, earlier, unlocked read found (or the file's modification time). */
  datatype Op =
    | SetTokens(tokens: Token)
    | MarkExpired(expected: string)
    | SetCooldown(seconds: int, access: string)
    | SetClientInfo(info: string)
    | SetMetadata(info: string)
    | Migrate(savedAt: int)

  /** What an operation writes given the envelope it read, or nothing if it does not write. */
  function Update(op: Op, e: Envelope, now: int): Option<Envelope> {
    match op
    case SetTokens(t) =>
      var kept := if t.refresh == "" && e.tokens.Some? then t.(refresh := e.tokens.value.refresh) else t;
      Some(e.(tokens := Some(kept), savedAt := Some(now),
              expiresAt := if kept.expiresIn.Some? then Some(now + kept.expiresIn.value) else None))
    case MarkExpired(expected) =>
      if e.tokens.None? || e.tokens.value.access != expected || e.tokens.value.refresh == "" then None
      else Some(e.(expiresAt := Some(now)))
    case SetCooldown(seconds, access) =>
      Some(e.(blockedUntil := Some(now + if seconds > 1 then seconds else 1),
              blockedAccess := if access != "" then Some(access) else None))
    case SetClientInfo(info) => Some(e.(clientInfo := Some(info)))
    case SetMetadata(info) => Some(e.(metadata := Some(info)))
    case Migrate(savedAt) =>
      if e.tokens.None? || e.expiresAt.Some? then None
      else
        var saved := if e.savedAt.Some? then e.savedAt.value else savedAt;
        Some(e.(savedAt := Some(saved),
                expiresAt := Some(saved + if e.tokens.value.expiresIn.Some?
                    then e.tokens.value.expiresIn.value else 0)))
  }

  /** A committed write: which operation, and when. */
  datatype Commit = Commit(op: Op, at: int)

  /** The commits applied one after another, each to the envelope the previous one left. */
  function Replay(start: Envelope, log: seq<Commit>): Envelope {
    if log == [] then start
    else
      var e := Replay(start, log[..|log| - 1]);
      var c := log[|log| - 1];
      match Update(c.op, e, c.at)
      case Some(next) => next
      case None => e
  }

  // ---- Reading tokens -------------------------------------------------------------------------

  /** A token as its reader sees it: how many seconds of validity it still counts on. */
  datatype View = View(access: string, refresh: string, remaining: int)

  predicate NeedsMigration(e: Envelope) {
    e.tokens.Some? && e.tokens.value.expiresIn.Some? && e.expiresAt.None?
  }

  function ViewOf(e: Envelope, now: int): Option<View> {
    if e.tokens.None? then None
    else
      var t := e.tokens.value;
      Some(View(t.access, t.refresh,
                if t.expiresIn.None? || e.expiresAt.None? then 0
                else if e.expiresAt.value - now - SKEW > 0 then e.expiresAt.value - now - SKEW
                else 0))
  }

  predicate Valid(v: Option<View>) {
    v.Some? && v.value.remaining > 0
  }

  // ---- Workers --------------------------------------------------------------------------------

  /** Where a worker is inside one locked read-modify-write. */
  datatype Phase = Out | Wants(op: Op) | Holds(op: Op) | HasRead(op: Op, seen: Envelope) | Wrote(op: Op)

  /** An unlocked look at the file: not yet, or the envelope found and how many commits it reflects. */
  datatype Look = NotYet | Found(envelope: Envelope, version: nat)

  /** Why a worker may need the refresh lock: to start a session, or to expire a rejected token. */
  datatype Goal = Session | Force(rejected: string)

  /** Where a worker is in the refresh protocol; `since` is the number of commits when it took the lock. */
  datatype Task =
    | Free
    | Probing(goal: Goal, second: bool, look: Look)
    | WantsRefreshLock(goal: Goal)
    | Rechecking(goal: Goal, since: nat, look: Look)
    | Refreshing(since: nat, version: nat, at: int)
    | Forcing(since: nat, expected: string)
    | Stranded

  datatype Worker = Worker(task: Task, phase: Phase)

  datatype System = System(
    envelope: Envelope,
    envelopeLock: Option<nat>,
    refreshLock: Option<nat>,
    workers: map<nat, Worker>,
    now: int,
    log: seq<Commit>)

  datatype Action =
    | Tick(seconds: nat)
    | Request(w: nat, op: Op)        // a worker calls one of the store's methods
    | LockEnvelope(w: nat)
    | GiveUpEnvelope(w: nat)         // the lock times out
    | ReadLocked(w: nat)
    | WriteLocked(w: nat)
    | UnlockEnvelope(w: nat)
    | Begin(w: nat, goal: Goal)
    | ReadFile(w: nat)               // unlocked
    | Judge(w: nat, modifiedAt: int) // decide on what was read; the file's own time serves legacy tokens
    | TakeRefreshLock(w: nat)
    | GiveUpRefresh(w: nat)
    | Finish(w: nat)
    | Crash(w: nat)                  // the process dies; stale locks are broken

  function At(s: System, w: nat): Worker {
    if w in s.workers then s.workers[w] else Worker(Free, Out)
  }

  function Put(s: System, w: nat, worker: Worker): System {
    s.(workers := s.workers[w := worker])
  }

  predicate InEnvelope(p: Phase) {
    p.Holds? || p.HasRead? || p.Wrote?
  }

  predicate HoldsRefresh(t: Task) {
    t.Rechecking? || t.Refreshing? || t.Forcing? || t.Stranded?
  }

  /** The locked read-modify-write, step by step. */
  function EnvelopeStep(s: System, a: Action): System {
    match a
    case Request(w, op) =>
      if At(s, w).phase == Out && !op.Migrate?
          && !At(s, w).task.Rechecking? && !At(s, w).task.Stranded? then Put(s, w, At(s, w).(phase := Wants(op))) else s
    case LockEnvelope(w) =>
      if At(s, w).phase.Wants? && s.envelopeLock.None? then
        Put(s, w, At(s, w).(phase := Holds(At(s, w).phase.op))).(envelopeLock := Some(w))
      else s
    case GiveUpEnvelope(w) =>
      // the timeout propagates; a session that is looking again has no handler to release the refresh lock
      if !At(s, w).phase.Wants? then s
      else if At(s, w).task.Rechecking? && At(s, w).task.goal == Session then Put(s, w, Worker(Stranded, Out))
      else Put(s, w, Worker(Free, Out)).(refreshLock := if s.refreshLock == Some(w) then None else s.refreshLock)
    case ReadLocked(w) =>
      if At(s, w).phase.Holds? then Put(s, w, At(s, w).(phase := HasRead(At(s, w).phase.op, s.envelope))) else s
    case WriteLocked(w) =>
      var phase := At(s, w).phase;
      if !phase.HasRead? then s
      else
        var after := Put(s, w, At(s, w).(phase := Wrote(phase.op)));
        (match Update(phase.op, phase.seen, s.now)
         case Some(e) => after.(envelope := e, log := s.log + [Commit(phase.op, s.now)])
         case None => after)
    case UnlockEnvelope(w) =>
      var worker := At(s, w);
      if !worker.phase.Wrote? then s
      else
        // reading tokens continues with what the migration found under the lock
        var task := if worker.phase.op.Migrate? then Relook(worker.task, Found(s.envelope, |s.log|)) else worker.task;
        Put(s, w, Worker(task, Out)).(envelopeLock := None)
    case _ => s
  }

  function Relook(t: Task, look: Look): Task {
    match t
    case Probing(goal, second, _) => Probing(goal, second, look)
    case Rechecking(goal, since, _) => Rechecking(goal, since, look)
    case _ => t
  }

  /** Drops the refresh lock and returns to idle. */
  function Released(s: System, w: nat): System {
    Put(s, w, Worker(Free, Out)).(refreshLock := if s.refreshLock == Some(w) then None else s.refreshLock)
  }

  /** What a worker does with the tokens it has just read before taking the refresh lock. */
  function JudgeProbe(s: System, w: nat, goal: Goal, second: bool, v: Option<View>): System {
    match goal
    case Session =>
      if v.None? || v.value.refresh == "" || v.value.remaining > 0 then Put(s, w, Worker(Free, Out))
      else Put(s, w, Worker(WantsRefreshLock(goal), Out))
    case Force(rejected) =>
      if !second then
        if Valid(v) && v.value.access != rejected then Put(s, w, Worker(Free, Out))
        else Put(s, w, Worker(Probing(goal, true, NotYet), Out))
      else if v.None? || v.value.refresh == "" then Put(s, w, Worker(Free, Out))
      else Put(s, w, Worker(WantsRefreshLock(goal), Out))
  }

  /** The second look, now under the refresh lock. */
  function JudgeRecheck(s: System, w: nat, goal: Goal, since: nat, version: nat, v: Option<View>): System {
    match goal
    case Session =>
      if Valid(v) then Released(s, w) else Put(s, w, Worker(Refreshing(since, version, s.now), Out))
    case Force(rejected) =>
      if v.None? || v.value.refresh == "" then Released(s, w)
      else if rejected != "" && v.value.access != rejected && v.value.remaining > 0 then Released(s, w)
      else Put(s, w, Worker(Forcing(since, v.value.access), Wants(MarkExpired(v.value.access))))
  }

  function SavedAtOrElse(e: Envelope, modifiedAt: int): int {
    if e.savedAt.Some? then e.savedAt.value else modifiedAt
  }

  function RefreshStep(s: System, a: Action): System {
    match a
    case Begin(w, goal) =>
      if At(s, w) == Worker(Free, Out) then Put(s, w, Worker(Probing(goal, goal == Force(""), NotYet), Out)) else s
    case ReadFile(w) =>
      if At(s, w).phase != Out then s
      else Put(s, w, At(s, w).(task := Relook(At(s, w).task, Found(s.envelope, |s.log|))))
    case Judge(w, modifiedAt) =>
      var worker := At(s, w);
      if worker.phase != Out || !(worker.task.Probing? || worker.task.Rechecking?) || worker.task.look.NotYet? then s
      else
        var found := worker.task.look;
        if NeedsMigration(found.envelope) then
          Put(s, w, worker.(phase := Wants(Migrate(SavedAtOrElse(found.envelope, modifiedAt)))))
        else
          (match worker.task
           case Probing(goal, second, _) => JudgeProbe(s, w, goal, second, ViewOf(found.envelope, s.now))
           case Rechecking(goal, since, _) => JudgeRecheck(s, w, goal, since, found.version, ViewOf(found.envelope,
               s.now))
           case _ => s)
    case TakeRefreshLock(w) =>
      if At(s, w).task.WantsRefreshLock? && At(s, w).phase == Out && s.refreshLock.None? then
        Put(s, w, Worker(Rechecking(At(s, w).task.goal, |s.log|, NotYet), Out)).(refreshLock := Some(w))
      else s
    case GiveUpRefresh(w) =>
      if At(s, w).task.WantsRefreshLock? && At(s, w).phase == Out then Put(s, w, Worker(Free, Out)) else s
    case Finish(w) =>
      if (At(s, w).task.Refreshing? || At(s, w).task.Forcing?) && At(s, w).phase == Out then Released(s, w) else s
    case _ => s
  }

  function Do(s: System, a: Action): System {
    match a
    case Tick(seconds) => s.(now := s.now + seconds)
    case Crash(w) =>
      Put(s, w, Worker(Free, Out)).(
        envelopeLock := if s.envelopeLock == Some(w) then None else s.envelopeLock,
        refreshLock := if s.refreshLock == Some(w) then None else s.refreshLock)
    case Request(_, _) => EnvelopeStep(s, a)
    case LockEnvelope(_) => EnvelopeStep(s, a)
    case GiveUpEnvelope(_) => EnvelopeStep(s, a)
    case ReadLocked(_) => EnvelopeStep(s, a)
    case WriteLocked(_) => EnvelopeStep(s, a)
    case UnlockEnvelope(_) => EnvelopeStep(s, a)
    case _ => RefreshStep(s, a)
  }

  function Start(e: Envelope, now: int): System {
    System(e, None, None, map[], now, [])
  }

  function Run(s: System, actions: seq<Action>): System {
    if actions == [] then s
    else Do(Run(s, actions[..|actions| - 1]), actions[|actions| - 1])
  }

  // ---- The invariant --------------------------------------------------------------------------

  /** Each lock is held by exactly the worker whose state says so. */
  ghost predicate Exclusive(s: System) {
    && (forall w: nat :: InEnvelope(At(s, w).phase) <==> s.envelopeLock == Some(w))
    && (forall w: nat :: HoldsRefresh(At(s, w).task) <==> s.refreshLock == Some(w))
  }

  /** The file is the commits replayed; what was read under the lock is still what the file holds. */
  ghost predicate Serial(start: Envelope, s: System) {
    && s.envelope == Replay(start, s.log)
    && (forall w: nat :: At(s, w).phase.HasRead? ==> At(s, w).phase.seen == s.envelope)
  }

  ghost predicate LookIsFrom(start: Envelope, s: System, look: Look, since: nat) {
    look.Found? ==> since <= look.version <= |s.log| && look.envelope == Replay(start, s.log[..look.version])
  }

  /** A look taken under the refresh lock, and a decision based on it, is not older than the lock. */
  ghost predicate LooksAreCurrent(start: Envelope, s: System, w: nat) {
    match At(s, w).task
    case Probing(_, _, look) => LookIsFrom(start, s, look, 0)
    case Rechecking(_, since, look) => since <= |s.log| && LookIsFrom(start, s, look, since)
    case Refreshing(since, version, at) =>
      since <= version <= |s.log| && at <= s.now && !Valid(ViewOf(Replay(start, s.log[..version]), at))
    case _ => true
  }

  ghost predicate Inv(start: Envelope, s: System) {
    Exclusive(s) && Serial(start, s) && forall w: nat :: LooksAreCurrent(start, s, w)
  }

  lemma {:induction false} EnvelopeStepExclusive(s: System, a: Action)
    requires Exclusive(s)
    ensures Exclusive(EnvelopeStep(s, a))
  {
    hide Update;
    var t := EnvelopeStep(s, a);
    forall w: nat
      ensures InEnvelope(At(t, w).phase) <==> t.envelopeLock == Some(w)
      ensures HoldsRefresh(At(t, w).task) <==> t.refreshLock == Some(w)
    {
      assert InEnvelope(At(s, w).phase) <==> s.envelopeLock == Some(w);
      assert HoldsRefresh(At(s, w).task) <==> s.refreshLock == Some(w);
    }
  }

  lemma {:induction false} RefreshStepExclusive(s: System, a: Action)
    requires Exclusive(s)
    ensures Exclusive(RefreshStep(s, a))
  {
    hide ViewOf, NeedsMigration, SavedAtOrElse, Valid, Update;
    var t := RefreshStep(s, a);
    forall w: nat
      ensures InEnvelope(At(t, w).phase) <==> t.envelopeLock == Some(w)
      ensures HoldsRefresh(At(t, w).task) <==> t.refreshLock == Some(w)
    {
      assert InEnvelope(At(s, w).phase) <==> s.envelopeLock == Some(w);
      assert HoldsRefresh(At(s, w).task) <==> s.refreshLock == Some(w);
    }
  }

  lemma {:induction false} DoExclusive(s: System, a: Action)
    requires Exclusive(s)
    ensures Exclusive(Do(s, a))
  {
    EnvelopeStepExclusive(s, a);
    RefreshStepExclusive(s, a);
    hide EnvelopeStep;
    hide RefreshStep;
    var t := Do(s, a);
    if a.Tick? || a.Crash? {
      forall w: nat
        ensures InEnvelope(At(t, w).phase) <==> t.envelopeLock == Some(w)
        ensures HoldsRefresh(At(t, w).task) <==> t.refreshLock == Some(w)
      {
        assert InEnvelope(At(s, w).phase) <==> s.envelopeLock == Some(w);
        assert HoldsRefresh(At(s, w).task) <==> s.refreshLock == Some(w);
      }
    }
  }

  lemma {:induction false} ReplayAppend(start: Envelope, log: seq<Commit>, c: Commit)
    ensures Replay(start, log + [c])
         == (match Update(c.op, Replay(start, log), c.at)
             case Some(next) => next
             case None => Replay(start, log))
  {
    assert (log + [c])[..|log|] == log;
  }

  /** A write goes to exactly the envelope it was computed from, whatever happened in between. */
  lemma {:induction false} WriteIsCurrent(start: Envelope, s: System, w: nat)
    requires Exclusive(s) && Serial(start, s) && At(s, w).phase.HasRead?
    ensures Serial(start, Do(s, WriteLocked(w)))
    ensures var op := At(s, w).phase.op;
            Do(s, WriteLocked(w)).envelope
                == (match Update(op, s.envelope, s.now) case Some(e) => e case None => s.envelope)
  {
    hide Update;
    hide Replay;
    var t := Do(s, WriteLocked(w));
    assert InEnvelope(At(s, w).phase) <==> s.envelopeLock == Some(w);
    ReplayAppend(start, s.log, Commit(At(s, w).phase.op, s.now));
    forall x: nat
      ensures !At(t, x).phase.HasRead?
    {
      assert InEnvelope(At(s, x).phase) <==> s.envelopeLock == Some(x);
    }
  }

  lemma {:induction false} DoSerial(start: Envelope, s: System, a: Action)
    requires Exclusive(s) && Serial(start, s)
    ensures Serial(start, Do(s, a))
  {
    hide Update;
    hide Replay;
    hide ViewOf;
    hide Exclusive;
    if a.WriteLocked? && At(s, a.w).phase.HasRead? {
      WriteIsCurrent(start, s, a.w);
    } else {
      var t := Do(s, a);
      assert t.envelope == s.envelope && t.log == s.log;
      forall w: nat | At(t, w).phase.HasRead?
        ensures At(t, w).phase.seen == t.envelope
      {
        assert At(s, w).phase.HasRead? ==> At(s, w).phase.seen == s.envelope;
      }
    }
  }

  lemma {:induction false} EnvelopeStepLooks(start: Envelope, s: System, a: Action)
    requires s.envelope == Replay(start, s.log) && forall w: nat :: LooksAreCurrent(start, s, w)
    ensures forall w: nat :: LooksAreCurrent(start, EnvelopeStep(s, a), w)
  {
    hide Update;
    hide Replay;
    hide ViewOf;
    var t := EnvelopeStep(s, a);
    assert s.log == s.log[..|s.log|];
    assert forall v: nat :: v <= |s.log| ==> t.log[..v] == s.log[..v];
    forall w: nat
      ensures LooksAreCurrent(start, t, w)
    {
      assert LooksAreCurrent(start, s, w);
    }
  }

  lemma {:induction false} RefreshStepLooks(start: Envelope, s: System, a: Action)
    requires s.envelope == Replay(start, s.log) && forall w: nat :: LooksAreCurrent(start, s, w)
    ensures forall w: nat :: LooksAreCurrent(start, RefreshStep(s, a), w)
  {
    hide Update;
    hide Replay;
    hide ViewOf;
    var t := RefreshStep(s, a);
    assert s.log == s.log[..|s.log|];
    assert forall v: nat :: v <= |s.log| ==> t.log[..v] == s.log[..v];
    forall w: nat
      ensures LooksAreCurrent(start, t, w)
    {
      assert LooksAreCurrent(start, s, w);
    }
  }

  lemma {:induction false} DoKeepsInv(start: Envelope, s: System, a: Action)
    requires Inv(start, s)
    ensures Inv(start, Do(s, a))
  {
    DoExclusive(s, a);
    DoSerial(start, s, a);
    EnvelopeStepLooks(start, s, a);
    RefreshStepLooks(start, s, a);
    hide EnvelopeStep;
    hide RefreshStep;
    hide Exclusive;
    hide Serial;
    var t := Do(s, a);
    forall w: nat
      ensures LooksAreCurrent(start, t, w)
    {
      assert LooksAreCurrent(start, s, w);
    }
  }

  lemma {:induction false} RunKeepsInv(start: Envelope, now: int, actions: seq<Action>)
    ensures Inv(start, Run(Start(start, now), actions))
  {
    if actions != [] {
      RunKeepsInv(start, now, actions[..|actions| - 1]);
      DoKeepsInv(start, Run(Start(start, now), actions[..|actions| - 1]), actions[|actions| - 1]);
    }
  }

  // ---- What the protocol guarantees -----------------------------------------------------------

  /** In every interleaving the file holds the committed updates applied one after another, so none is
      lost; and the next write, whenever its worker read, applies its operation to the current file. */
  lemma {:induction false} NoUpdateIsLost(start: Envelope, now: int, actions: seq<Action>, w: nat)
    ensures var s := Run(Start(start, now), actions);
            && s.envelope == Replay(start, s.log)
            && (At(s, w).phase.HasRead? ==>
                  var op := At(s, w).phase.op;
                  Do(s, WriteLocked(w)).envelope
                  == (match Update(op, s.envelope, s.now) case Some(e) => e case None => s.envelope))
  {
    RunKeepsInv(start, now, actions);
    if At(Run(Start(start, now), actions), w).phase.HasRead? {
      WriteIsCurrent(start, Run(Start(start, now), actions), w);
    }
  }

  /** At most one worker is inside the refresh lock, and one that goes on to refresh looked at the file
      after taking the lock and found no usable token in it. */
  lemma {:induction false} RefresherSawExpiredToken(start: Envelope, now: int, actions: seq<Action>, v: nat, w: nat)
    ensures var s := Run(Start(start, now), actions);
            && (HoldsRefresh(At(s, v).task) && HoldsRefresh(At(s, w).task) ==> v == w)
            && (At(s, w).task.Refreshing? ==>
                  var task := At(s, w).task;
                  && task.since <= task.version <= |s.log|
                  && !Valid(ViewOf(Replay(start, s.log[..task.version]), task.at)))
  {
    RunKeepsInv(start, now, actions);
    var s := Run(Start(start, now), actions);
    assert LooksAreCurrent(start, s, w);
    assert HoldsRefresh(At(s, v).task) <==> s.refreshLock == Some(v);
    assert HoldsRefresh(At(s, w).task) <==> s.refreshLock == Some(w);
  }

  predicate HasRefreshToken(e: Envelope) {
    e.tokens.Some? && e.tokens.value.refresh != ""
  }

  /** Once a refresh token is stored, later commits may rotate it but never remove it
      (section 6 of RFC 6749: the client keeps the old one when no new one is issued). */
  lemma {:induction false} RefreshTokenSurvives(start: Envelope, log: seq<Commit>, k: nat)
    requires k <= |log| && HasRefreshToken(Replay(start, log[..k]))
    ensures HasRefreshToken(Replay(start, log))
  {
    if k == |log| {
      assert log[..k] == log;
    } else {
      var front := log[..|log| - 1];
      assert front[..k] == log[..k];
      RefreshTokenSurvives(start, front, k);
    }
  }

  lemma {:induction false} LogGrows(s: System, actions: seq<Action>, k: nat)
    requires k <= |actions|
    ensures Run(s, actions[..k]).log <= Run(s, actions).log
  {
    if k == |actions| {
      assert actions[..k] == actions;
    } else {
      var front := actions[..|actions| - 1];
      assert front[..k] == actions[..k];
      LogGrows(s, front, k);
    }
  }

  /** ... so in every run, from the moment the file holds a refresh token it always does. */
  lemma {:induction false} RunKeepsRefreshToken(start: Envelope, now: int, actions: seq<Action>, k: nat)
    requires k <= |actions| && HasRefreshToken(Run(Start(start, now), actions[..k]).envelope)
    ensures HasRefreshToken(Run(Start(start, now), actions).envelope)
  {
    var early, late := Run(Start(start, now), actions[..k]), Run(Start(start, now), actions);
    RunKeepsInv(start, now, actions[..k]);
    RunKeepsInv(start, now, actions);
    LogGrows(Start(start, now), actions, k);
    assert late.log[..|early.log|] == early.log;
    RefreshTokenSurvives(start, late.log, |early.log|);
  }

  /** The commit at `k` was a real write at its place in the order: a migration found no expiry to
      overwrite, and an expiry by comparison found exactly the token it names and changed nothing else. */
  ghost predicate Justified(start: Envelope, log: seq<Commit>, k: nat)
    requires k < |log|
  {
    var before := Replay(start, log[..k]);
    && (log[k].op.Migrate? ==> before.tokens.Some? && before.expiresAt.None?)
    && (log[k].op.MarkExpired? ==>
          && before.tokens.Some? && before.tokens.value.access == log[k].op.expected
          && Replay(start, log[..k + 1]) == before.(expiresAt := Some(log[k].at)))
  }

  ghost predicate AllJustified(start: Envelope, log: seq<Commit>) {
    forall k :: 0 <= k < |log| ==> Justified(start, log, k)
  }

  lemma {:induction false} DoJustifies(start: Envelope, s: System, a: Action)
    requires Serial(start, s) && AllJustified(start, s.log)
    ensures AllJustified(start, Do(s, a).log)
  {
    hide Replay, AllJustified, ViewOf, NeedsMigration;
    if a.WriteLocked? && At(s, a.w).phase.HasRead? && Update(At(s, a.w).phase.op, s.envelope, s.now).Some? {
      var c := Commit(At(s, a.w).phase.op, s.now);
      assert Do(s, a).log == s.log + [c];
      CommitJustifies(start, s.log, c);
    } else {
      hide Update;
      assert Do(s, a).log == s.log;
    }
  }

  lemma {:induction false} CommitJustifies(start: Envelope, log: seq<Commit>, c: Commit)
    requires AllJustified(start, log) && Update(c.op, Replay(start, log), c.at).Some?
    ensures AllJustified(start, log + [c])
  {
    ReplayAppend(start, log, c);
    hide Replay;
    var more := log + [c];
    forall k | 0 <= k < |more|
      ensures Justified(start, more, k)
    {
      if k < |log| {
        assert more[..k] == log[..k] && more[..k + 1] == log[..k + 1] && more[k] == log[k];
        assert Justified(start, log, k);
      } else {
        assert more[..k] == log && more[..k + 1] == more;
      }
    }
  }

  lemma {:induction false} MigrationAndExpiryAreGuarded(start: Envelope, now: int, actions: seq<Action>)
    ensures AllJustified(start, Run(Start(start, now), actions).log)
  {
    if actions != [] {
      var front := actions[..|actions| - 1];
      MigrationAndExpiryAreGuarded(start, now, front);
      RunKeepsInv(start, now, front);
      DoJustifies(start, Run(Start(start, now), front), actions[|actions| - 1]);
    }
  }

  /** The parts of the envelope, and the operations that write each. */
  datatype Part = TokenPart | CooldownPart | ClientPart | MetadataPart

  predicate Writes(op: Op, part: Part) {
    match part
    case TokenPart => op.SetTokens? || op.MarkExpired? || op.Migrate?
    case CooldownPart => op.SetCooldown?
    case ClientPart => op.SetClientInfo?
    case MetadataPart => op.SetMetadata?
  }

  predicate SamePart(a: Envelope, b: Envelope, part: Part) {
    match part
    case TokenPart => a.tokens == b.tokens && a.savedAt == b.savedAt && a.expiresAt == b.expiresAt
    case CooldownPart => a.blockedUntil == b.blockedUntil && a.blockedAccess == b.blockedAccess
    case ClientPart => a.clientInfo == b.clientInfo
    case MetadataPart => a.metadata == b.metadata
  }

  /** A committed value stays until the next commit of an operation that writes the same part. */
  lemma {:induction false} PartsStayUntilRewritten(start: Envelope, log: seq<Commit>, k: nat, part: Part)
    requires k <= |log| && forall i :: k <= i < |log| ==> !Writes(log[i].op, part)
    ensures SamePart(Replay(start, log[..k]), Replay(start, log), part)
  {
    if k == |log| {
      assert log[..k] == log;
    } else {
      var front := log[..|log| - 1];
      assert front[..k] == log[..k] && forall i :: k <= i < |front| ==> front[i] == log[i];
      PartsStayUntilRewritten(start, front, k, part);
    }
  }

  // ---- What a commit leaves -------------------------------------------------------------------

  /** Whoever reads the envelope, at any time, sees this token, valid until the skew before `until`. */
  ghost predicate ReadsAs(e: Envelope, access: string, refresh: string, until: Option<int>) {
    forall now ::
      && ViewOf(e, now).Some? && ViewOf(e, now).value.access == access && ViewOf(e, now).value.refresh == refresh
      && ViewOf(e, now).value.remaining >= 0
      && (Valid(ViewOf(e, now)) <==> until.Some? && now + SKEW < until.value)
      && (Valid(ViewOf(e, now)) ==> ViewOf(e, now).value.remaining == until.value - SKEW - now)
  }

  /** The refresh token in the file; empty if there is none. */
  function RefreshToken(e: Envelope): string {
    match e.tokens
    case Some(t) => t.refresh
    case None => ""
  }

  function Later(at: int, seconds: Option<int>): Option<int> {
    match seconds
    case Some(n) => Some(at + n)
    case None => None
  }

  /** What the commit makes of the part it writes, for whoever reads the file afterwards. */
  ghost predicate Leaves(before: Envelope, c: Commit, after: Envelope) {
    match c.op
    case SetTokens(t) =>
      // a rotated refresh token is stored; the held one stays only when none was issued
      && ReadsAs(after, t.access, if t.refresh != "" then t.refresh else RefreshToken(before), Later(c.at, t.expiresIn))
      && after.savedAt == Some(c.at)
    case MarkExpired(expected) =>
      if before.tokens.Some? && before.tokens.value.access == expected && before.tokens.value.refresh != "" then
        && after.tokens == before.tokens && after.savedAt == before.savedAt
        && forall now | now >= c.at :: !Valid(ViewOf(after, now))
      else SamePart(before, after, TokenPart)
    case SetCooldown(seconds, access) =>
      && after.blockedUntil.Some? && after.blockedUntil.value - c.at in {1, seconds}
      && after.blockedUntil.value - c.at >= 1 && after.blockedUntil.value - c.at >= seconds
      && (access == "" ==> after.blockedAccess == None)
      && (access != "" ==> after.blockedAccess == Some(access))
    case SetClientInfo(info) => after.clientInfo == Some(info)
    case SetMetadata(info) => after.metadata == Some(info)
    case Migrate(savedAt) =>
      if before.tokens.Some? && before.expiresAt.None? then
        var t, saved := before.tokens.value, if before.savedAt.Some? then before.savedAt.value else savedAt;
        && ReadsAs(after, t.access, t.refresh, Later(saved, t.expiresIn))
        && after.savedAt == Some(saved) && after.expiresAt.Some?
        && (t.expiresIn.None? ==> after.expiresAt == Some(saved))
      else SamePart(before, after, TokenPart)
  }

  lemma {:induction false} CommitLeaves(e: Envelope, c: Commit)
    ensures Leaves(e, c, match Update(c.op, e, c.at) case Some(next) => next case None => e)
  {
  }

  /** Commit k is the last one that writes the part. */
  ghost predicate LastToWrite(log: seq<Commit>, k: nat, part: Part) {
    k < |log| && Writes(log[k].op, part) && forall i :: k < i < |log| ==> !Writes(log[i].op, part)
  }

  lemma {:induction false} SamePartLeaves(before: Envelope, c: Commit, after: Envelope, later: Envelope, part: Part)
    requires Writes(c.op, part) && SamePart(after, later, part) && Leaves(before, c, after)
    ensures Leaves(before, c, later)
  {
    if part == TokenPart {
      assert forall now :: ViewOf(later, now) == ViewOf(after, now);
    }
  }

  /** In every run, whoever reads a part of the file reads what the last commit that writes it has left. */
  lemma {:induction false} ReadersSeeLastCommit(start: Envelope, now: int, actions: seq<Action>, k: nat, part: Part)
    requires LastToWrite(Run(Start(start, now), actions).log, k, part)
    ensures var s := Run(Start(start, now), actions);
            Leaves(Replay(start, s.log[..k]), s.log[k], s.envelope)
  {
    hide Update, Leaves, Writes, SamePart;
    RunKeepsInv(start, now, actions);
    var log := Run(Start(start, now), actions).log;
    var before := Replay(start, log[..k]);
    assert log[..k + 1] == log[..k] + [log[k]];
    ReplayAppend(start, log[..k], log[k]);
    CommitLeaves(before, log[k]);
    PartsStayUntilRewritten(start, log, k + 1, part);
    SamePartLeaves(before, log[k], Replay(start, log[..k + 1]), Replay(start, log), part);
  }

  /** A write commits unless it has nothing to do: an expiry that does not find the token it names, or no refresh token
      to replace it with, and a migration that has been done or has no token to serve. */
  lemma {:induction false} WriteCommitsIff(start: Envelope, now: int, actions: seq<Action>, w: nat)
    requires At(Run(Start(start, now), actions), w).phase.HasRead?
    ensures var s := Run(Start(start, now), actions);
            var op := At(s, w).phase.op;
            Do(s, WriteLocked(w)).log
            == if && (op.MarkExpired? ==>
                        RefreshToken(s.envelope) != "" && s.envelope.tokens.value.access == op.expected)
                  && (op.Migrate? ==> s.envelope.tokens.Some? && s.envelope.expiresAt.None?)
               then s.log + [Commit(op, s.now)] else s.log
  {
    RunKeepsInv(start, now, actions);
  }

  // ---- No timeout strands the refresh lock ----------------------------------------------------

  /** A look under the refresh lock finds nothing to migrate, so it never waits for the envelope lock. */
  ghost predicate LooksAgainFreely(s: System, w: nat) {
    match At(s, w).task
    case WantsRefreshLock(_) => !NeedsMigration(s.envelope)
    case Rechecking(_, _, look) =>
      !NeedsMigration(s.envelope) && At(s, w).phase == Out && (look.Found? ==> !NeedsMigration(look.envelope))
    case Stranded => false
    case _ => true
  }

  ghost predicate AllLookAgainFreely(s: System) {
    forall w: nat :: LooksAgainFreely(s, w)
  }

  /** No operation brings a legacy envelope back: what it writes carries the expiry its token calls for. */
  lemma {:induction false} UpdateNeedsNoMigration(op: Op, e: Envelope, now: int)
    requires !NeedsMigration(e) && Update(op, e, now).Some?
    ensures !NeedsMigration(Update(op, e, now).value)
  {
  }

  lemma {:induction false} MigrationStaysDone(start: Envelope, log: seq<Commit>, k: nat)
    requires k <= |log| && !NeedsMigration(Replay(start, log[..k]))
    ensures !NeedsMigration(Replay(start, log))
  {
    if k == |log| {
      assert log[..k] == log;
    } else {
      var front, c := log[..|log| - 1], log[|log| - 1];
      assert front[..k] == log[..k];
      MigrationStaysDone(start, front, k);
      if Update(c.op, Replay(start, front), c.at).Some? {
        UpdateNeedsNoMigration(c.op, Replay(start, front), c.at);
      }
    }
  }

  lemma {:induction false} EnvelopeStepLooksFreely(start: Envelope, s: System, a: Action)
    requires Inv(start, s) && AllLookAgainFreely(s)
    ensures AllLookAgainFreely(EnvelopeStep(s, a))
  {
    hide Update, NeedsMigration, Replay, ViewOf;
    var t := EnvelopeStep(s, a);
    if a.WriteLocked? && At(s, a.w).phase.HasRead? && Update(At(s, a.w).phase.op, s.envelope, s.now).Some? {
      if !NeedsMigration(s.envelope) {
        UpdateNeedsNoMigration(At(s, a.w).phase.op, s.envelope, s.now);
      }
      assert At(s, a.w).phase.seen == s.envelope;
    }
    hide Inv;
    forall w: nat
      ensures LooksAgainFreely(t, w)
    {
      assert LooksAgainFreely(s, w);
    }
  }

  lemma {:induction false} RefreshStepLooksFreely(start: Envelope, s: System, a: Action)
    requires Inv(start, s) && AllLookAgainFreely(s)
    ensures AllLookAgainFreely(RefreshStep(s, a))
  {
    hide Update, NeedsMigration, Replay, ViewOf, Valid, SavedAtOrElse;
    var t := RefreshStep(s, a);
    if a.Judge? && At(s, a.w).task.Probing? && At(s, a.w).task.look.Found? {
      var look := At(s, a.w).task.look;
      assert LooksAreCurrent(start, s, a.w);
      if !NeedsMigration(look.envelope) {
        MigrationStaysDone(start, s.log, look.version);
      }
    }
    hide Inv;
    forall w: nat
      ensures LooksAgainFreely(t, w)
    {
      assert LooksAgainFreely(s, w);
    }
  }

  /** In every run a worker that waits for the refresh lock or looks again under it finds an envelope that needs no
      migration: its first look has migrated it, and no operation undoes that. So it never waits for the envelope
      lock there, and no timeout leaves the refresh lock behind with a worker that no longer uses it. */
  lemma {:induction false} NoTimeoutStrandsTheRefreshLock(start: Envelope, now: int, actions: seq<Action>)
    ensures var s := Run(Start(start, now), actions);
            && AllLookAgainFreely(s)
            && forall w: nat :: At(s, w).task != Stranded
  {
    if actions != [] {
      var front := actions[..|actions| - 1];
      NoTimeoutStrandsTheRefreshLock(start, now, front);
      RunKeepsInv(start, now, front);
      DoLooksFreely(start, Run(Start(start, now), front), actions[|actions| - 1]);
    }
    var s := Run(Start(start, now), actions);
    assert forall w: nat :: LooksAgainFreely(s, w) ==> At(s, w).task != Stranded;
  }

  lemma {:induction false} DoLooksFreely(start: Envelope, s: System, a: Action)
    requires Inv(start, s) && AllLookAgainFreely(s)
    ensures AllLookAgainFreely(Do(s, a))
  {
    EnvelopeStepLooksFreely(start, s, a);
    RefreshStepLooksFreely(start, s, a);
    hide EnvelopeStep, RefreshStep, Inv, NeedsMigration;
    if a.Tick? || a.Crash? {
      forall w: nat
        ensures LooksAgainFreely(Do(s, a), w)
      {
        assert LooksAgainFreely(s, w);
      }
    }
  }

  // ---- A refresh is neither skipped nor repeated ----------------------------------------------

  /** What the worker wants is in the file: a usable token for a session; for a rejected token a usable replacement, or
      no refresh token to get one with. */
  predicate Served(goal: Goal, e: Envelope, now: int) {
    match goal
    case Session => Valid(ViewOf(e, now))
    case Force(rejected) =>
      || RefreshToken(e) == ""
      || (rejected != "" && e.tokens.value.access != rejected && Valid(ViewOf(e, now)))
  }

  /** In every run a worker that has looked under the refresh lock keeps the lock exactly when it has not been served,
      and then goes on to refresh, or to expire the very token it found. */
  lemma {:induction false} LockIsKeptUntilServed(start: Envelope, now: int, actions: seq<Action>, w: nat,
      modifiedAt: int)
    requires At(Run(Start(start, now), actions), w).task.Rechecking?
    requires At(Run(Start(start, now), actions), w).task.look.Found?
    ensures var s := Run(Start(start, now), actions);
            var task, t := At(s, w).task, Do(s, Judge(w, modifiedAt));
            && (t.refreshLock == Some(w) <==> !Served(task.goal, task.look.envelope, s.now))
            && (t.refreshLock == Some(w) && task.goal.Session? ==> At(t, w).task.Refreshing?)
            && (t.refreshLock == Some(w) && task.goal.Force? ==>
                  At(t, w).phase == Wants(MarkExpired(task.look.envelope.tokens.value.access)))
  {
    RunKeepsInv(start, now, actions);
    NoTimeoutStrandsTheRefreshLock(start, now, actions);
    hide Run, Inv;
    var s := Run(Start(start, now), actions);
    assert LooksAgainFreely(s, w);
    assert HoldsRefresh(At(s, w).task) ==> s.refreshLock == Some(w) by {
      assert Inv(start, s);
      InvHoldsLock(start, s, w);
    }
  }

  lemma {:induction false} InvHoldsLock(start: Envelope, s: System, w: nat)
    requires Inv(start, s)
    ensures HoldsRefresh(At(s, w).task) <==> s.refreshLock == Some(w)
  {
  }

  /** Before that, a worker asks for the refresh lock unless its goal is served or there is no refresh token; one with
      a rejected token looks twice, first for a usable replacement, then for a refresh token. */
  lemma {:induction false} DropsOutOnlyIfServed(s: System, w: nat, modifiedAt: int)
    requires At(s, w).task.Probing? && At(s, w).task.look.Found? && At(s, w).phase == Out
    requires !NeedsMigration(At(s, w).task.look.envelope)
    ensures var task, after := At(s, w).task, At(Do(s, Judge(w, modifiedAt)), w).task;
            var e := task.look.envelope;
            match task.goal
            case Session =>
              after == if Served(Session, e, s.now) || RefreshToken(e) == "" then Free else WantsRefreshLock(Session)
            case Force(rejected) =>
              if task.second then after == if RefreshToken(e) == "" then Free else WantsRefreshLock(task.goal)
              else after == if Served(Session, e, s.now) && e.tokens.value.access != rejected then Free
                            else Probing(task.goal, true, NotYet)
  {
  }

  // ---- A forced refresh has made the rejected token unusable -----------------------------------

  /** Nobody who reads the envelope from then on counts on this access token. */
  ghost predicate Unusable(e: Envelope, access: string, from: int) {
    e.tokens.None? || e.tokens.value.access != access || forall now | now >= from :: !Valid(ViewOf(e, now))
  }

  ghost predicate WasUnusable(start: Envelope, log: seq<Commit>, since: nat, access: string, now: int) {
    exists v: nat :: since <= v <= |log| && Unusable(Replay(start, log[..v]), access, now)
  }

  /** The worker is on its way to expire the token. */
  predicate Marking(p: Phase, access: string) {
    (p.Wants? || p.Holds? || p.HasRead?) && p.op == MarkExpired(access)
  }

  ghost predicate ForcesOut(start: Envelope, s: System, w: nat) {
    match At(s, w).task
    case Forcing(since, expected) =>
      && since <= |s.log| && HasRefreshToken(s.envelope)
      && (Marking(At(s, w).phase, expected) || WasUnusable(start, s.log, since, expected, s.now))
    case _ => true
  }

  ghost predicate AllForceOut(start: Envelope, s: System) {
    forall w: nat :: ForcesOut(start, s, w)
  }

  lemma {:induction false} UnusableStays(start: Envelope, log: seq<Commit>, more: seq<Commit>, since: nat,
      access: string, now: int, later: int)
    requires log <= more && now <= later && WasUnusable(start, log, since, access, now)
    ensures WasUnusable(start, more, since, access, later)
  {
    hide Replay, ViewOf;
    var v: nat :| since <= v <= |log| && Unusable(Replay(start, log[..v]), access, now);
    assert more[..v] == log[..v];
    assert Unusable(Replay(start, more[..v]), access, later);
  }

  /** Writing the expiry, or finding another token there, settles it. */
  lemma {:induction false} MarkingSettles(start: Envelope, log: seq<Commit>, since: nat, access: string, now: int)
    requires since <= |log| && HasRefreshToken(Replay(start, log))
    ensures var op := MarkExpired(access);
            var after := if Update(op, Replay(start, log), now).Some? then log + [Commit(op, now)] else log;
            WasUnusable(start, after, since, access, now)
  {
    var op := MarkExpired(access);
    var after := if Update(op, Replay(start, log), now).Some? then log + [Commit(op, now)] else log;
    ReplayAppend(start, log, Commit(op, now));
    assert after[..|after|] == after;
    assert Unusable(Replay(start, after[..|after|]), access, now);
  }

  lemma {:induction false} UpdateKeepsRefreshToken(op: Op, e: Envelope, now: int)
    requires HasRefreshToken(e) && Update(op, e, now).Some?
    ensures HasRefreshToken(Update(op, e, now).value)
  {
  }

  lemma {:induction false} WriteForcesOut(start: Envelope, s: System, w: nat)
    requires Inv(start, s) && ForcesOut(start, s, w) && At(s, w).phase.HasRead?
    ensures ForcesOut(start, Do(s, WriteLocked(w)), w)
  {
    hide Replay, ViewOf, WasUnusable, LooksAreCurrent, Exclusive, NeedsMigration, Update, HasRefreshToken;
    var op, t := At(s, w).phase.op, Do(s, WriteLocked(w));
    if At(s, w).task.Forcing? {
      var since, expected := At(s, w).task.since, At(s, w).task.expected;
      if Update(op, s.envelope, s.now).Some? {
        UpdateKeepsRefreshToken(op, s.envelope, s.now);
      }
      if Marking(At(s, w).phase, expected) {
        MarkingSettles(start, s.log, since, expected, s.now);
      } else {
        UnusableStays(start, s.log, t.log, since, expected, s.now, t.now);
      }
    }
  }

  /** A step that leaves the worker where it is, or takes it out of the way of an expiry that is settled. */
  lemma {:induction false} OthersForceOut(start: Envelope, s: System, t: System, w: nat)
    requires ForcesOut(start, s, w) && s.log <= t.log && s.now <= t.now
    requires HasRefreshToken(s.envelope) ==> HasRefreshToken(t.envelope)
    requires At(t, w).task.Forcing? ==> At(t, w).task == At(s, w).task
    requires At(t, w).task.Forcing? ==> forall x :: Marking(At(s, w).phase, x) ==> Marking(At(t, w).phase, x)
    ensures ForcesOut(start, t, w)
  {
    hide Replay, ViewOf, WasUnusable, HasRefreshToken;
    if At(t, w).task.Forcing? && !Marking(At(t, w).phase, At(t, w).task.expected) {
      UnusableStays(start, s.log, t.log, At(s, w).task.since, At(s, w).task.expected, s.now, t.now);
    }
  }

  lemma {:induction false} EnvelopeStepForcesOut(start: Envelope, s: System, a: Action, w: nat)
    requires Inv(start, s) && ForcesOut(start, s, w)
    ensures ForcesOut(start, EnvelopeStep(s, a), w)
  {
    hide Replay, ViewOf, WasUnusable, LooksAreCurrent, Exclusive, NeedsMigration, Update, HasRefreshToken;
    var t := EnvelopeStep(s, a);
    if a.WriteLocked? && At(s, a.w).phase.HasRead? {
      var op := At(s, a.w).phase.op;
      if HasRefreshToken(s.envelope) && Update(op, s.envelope, s.now).Some? {
        UpdateKeepsRefreshToken(op, s.envelope, s.now);
      }
      if a.w == w {
        WriteForcesOut(start, s, w);
      } else {
        OthersForceOut(start, s, t, w);
      }
    } else {
      OthersForceOut(start, s, t, w);
    }
  }

  lemma {:induction false} RefreshStepForcesOut(start: Envelope, s: System, a: Action, w: nat)
    requires Inv(start, s) && ForcesOut(start, s, w) && LooksAreCurrent(start, s, w)
    ensures ForcesOut(start, RefreshStep(s, a), w)
  {
    hide Replay, WasUnusable, Exclusive, NeedsMigration, Update, HasRefreshToken, Valid;
    var t := RefreshStep(s, a);
    if a.Judge? && a.w == w && At(t, w).task.Forcing? && At(s, w).task.Rechecking? {
      var look := At(s, w).task.look;
      TokenSeenIsHeld(start, s.log, look);
    } else {
      OthersForceOut(start, s, t, w);
    }
  }

  lemma {:induction false} TokenSeenIsHeld(start: Envelope, log: seq<Commit>, look: Look)
    requires look.Found? && look.version <= |log| && look.envelope == Replay(start, log[..look.version])
    requires look.envelope.tokens.Some? && look.envelope.tokens.value.refresh != ""
    ensures HasRefreshToken(Replay(start, log))
  {
    RefreshTokenSurvives(start, log, look.version);
  }

  /** In every run: a worker that has finished forcing a refresh of a token has, since it took the refresh lock, left
      or found an envelope in which that token is no longer usable; it never gives up on a token that still is. */
  lemma {:induction false} ForcedTokenWasUnusable(start: Envelope, now: int, actions: seq<Action>)
    ensures AllForceOut(start, Run(Start(start, now), actions))
  {
    if actions != [] {
      var front, a := actions[..|actions| - 1], actions[|actions| - 1];
      var s := Run(Start(start, now), front);
      ForcedTokenWasUnusable(start, now, front);
      RunKeepsInv(start, now, front);
      forall w: nat
        ensures ForcesOut(start, Do(s, a), w)
      {
        DoForcesOut(start, s, a, w);
      }
    }
  }

  lemma {:induction false} DoForcesOut(start: Envelope, s: System, a: Action, w: nat)
    requires Inv(start, s) && AllForceOut(start, s)
    ensures ForcesOut(start, Do(s, a), w)
  {
    assert ForcesOut(start, s, w) && LooksAreCurrent(start, s, w);
    EnvelopeStepForcesOut(start, s, a, w);
    RefreshStepForcesOut(start, s, a, w);
    if a.Tick? || a.Crash? {
      OthersForceOut(start, s, Do(s, a), w);
    }
  }

  // ---- A worker whose locks are free finishes --------------------------------------------------

  predicate Migrating(p: Phase) {
    p != Out && p.op.Migrate?
  }

  function PhaseSteps(p: Phase): nat {
    match p
    case Out => 0
    case Wrote(_) => 1
    case HasRead(_, _) => 2
    case Holds(_) => 3
    case Wants(_) => 4
  }

  /** The steps that deciding on a look may take: a legacy envelope is migrated first. */
  function LookSteps(look: Look, p: Phase): nat {
    match look
    case NotYet => 6
    case Found(e, _) => if NeedsMigration(e) && !Migrating(p) then 5 else 0
  }

  /** A bound on the steps a worker still takes on its own, once it gets its locks. */
  function StepsLeft(w: Worker): nat {
    PhaseSteps(w.phase)
    + match w.task
      case Free => 0
      case Stranded => 0
      case Refreshing(_, _, _) => 1
      case Forcing(_, _) => 1
      case Rechecking(_, _, look) => 6 + LookSteps(look, w.phase)
      case WantsRefreshLock(_) => 13
      case Probing(_, second, look) => (if second then 14 else 21) + LookSteps(look, w.phase)
  }

  /** The action a worker takes next if nothing goes wrong. */
  function NextAction(w: nat, worker: Worker, modifiedAt: int): Action {
    match worker.phase
    case Wants(_) => LockEnvelope(w)
    case Holds(_) => ReadLocked(w)
    case HasRead(_, _) => WriteLocked(w)
    case Wrote(_) => UnlockEnvelope(w)
    case Out =>
      match worker.task
      case Probing(_, _, look) => if look.NotYet? then ReadFile(w) else Judge(w, modifiedAt)
      case Rechecking(_, _, look) => if look.NotYet? then ReadFile(w) else Judge(w, modifiedAt)
      case WantsRefreshLock(_) => TakeRefreshLock(w)
      case _ => Finish(w)
  }

  /** A migration is asked for after a look, and once it is written there is nothing left to migrate. */
  ghost predicate MigratesOnce(s: System, w: nat) {
    var worker := At(s, w);
    && (Migrating(worker.phase) ==> worker.task.Probing? && worker.task.look.Found?)
    && (Migrating(worker.phase) && worker.phase.Wrote? ==> !NeedsMigration(s.envelope))
  }

  lemma {:induction false} EnvelopeStepMigratesOnce(start: Envelope, s: System, a: Action, w: nat)
    requires Inv(start, s) && MigratesOnce(s, w)
    ensures MigratesOnce(EnvelopeStep(s, a), w)
  {
    hide Replay, ViewOf, LooksAreCurrent;
    if a.WriteLocked? && At(s, a.w).phase.HasRead? {
      assert At(s, a.w).phase.seen == s.envelope;
      assert InEnvelope(At(s, a.w).phase) <==> s.envelopeLock == Some(a.w);
      assert InEnvelope(At(s, w).phase) <==> s.envelopeLock == Some(w);
    } else {
      hide Update;
      assert EnvelopeStep(s, a).envelope == s.envelope;
    }
  }

  lemma {:induction false} RefreshStepMigratesOnce(start: Envelope, s: System, a: Action, w: nat)
    requires Inv(start, s) && MigratesOnce(s, w) && LooksAgainFreely(s, w)
    ensures MigratesOnce(RefreshStep(s, a), w)
  {
    hide Replay, ViewOf, LooksAreCurrent, Update, NeedsMigration, Valid, SavedAtOrElse;
  }

  lemma {:induction false} RunMigratesOnce(start: Envelope, now: int, actions: seq<Action>, w: nat)
    ensures MigratesOnce(Run(Start(start, now), actions), w)
  {
    if actions != [] {
      var front, a := actions[..|actions| - 1], actions[|actions| - 1];
      var s := Run(Start(start, now), front);
      RunMigratesOnce(start, now, front, w);
      RunKeepsInv(start, now, front);
      NoTimeoutStrandsTheRefreshLock(start, now, front);
      DoMigratesOnce(start, s, a, w);
    }
  }

  lemma {:induction false} DoMigratesOnce(start: Envelope, s: System, a: Action, w: nat)
    requires Inv(start, s) && MigratesOnce(s, w) && LooksAgainFreely(s, w)
    ensures MigratesOnce(Do(s, a), w)
  {
    hide EnvelopeStep, RefreshStep, Inv;
    EnvelopeStepMigratesOnce(start, s, a, w);
    RefreshStepMigratesOnce(start, s, a, w);
  }

  /** The lock the worker needs next, if it needs one, is free. */
  predicate LockIsFree(s: System, w: nat) {
    && (At(s, w).phase.Wants? ==> s.envelopeLock.None?)
    && (At(s, w).phase == Out && At(s, w).task.WantsRefreshLock? ==> s.refreshLock.None?)
  }

  lemma {:induction false} NextEnvelopeStepCounts(s: System, w: nat, modifiedAt: int)
    requires MigratesOnce(s, w) && LockIsFree(s, w) && At(s, w).phase != Out
    ensures StepsLeft(At(Do(s, NextAction(w, At(s, w), modifiedAt)), w)) < StepsLeft(At(s, w))
  {
    hide ViewOf, Update, Valid, SavedAtOrElse, NeedsMigration, RefreshStep;
  }

  lemma {:induction false} NextStepCounts(s: System, w: nat, modifiedAt: int)
    requires MigratesOnce(s, w) && LooksAgainFreely(s, w) && LockIsFree(s, w) && At(s, w) != Worker(Free, Out)
    ensures StepsLeft(At(Do(s, NextAction(w, At(s, w), modifiedAt)), w)) < StepsLeft(At(s, w))
  {
    hide ViewOf, Update, Valid, SavedAtOrElse, NeedsMigration, EnvelopeStep;
    if At(s, w).phase != Out {
      NextEnvelopeStepCounts(s, w, modifiedAt);
    }
  }

  /** A timeout ends the wait, and no lock stays behind. */
  lemma {:induction false} TimeoutsEnd(s: System, w: nat)
    requires !At(s, w).task.Rechecking?
    ensures At(s, w).phase.Wants? ==>
              At(Do(s, GiveUpEnvelope(w)), w) == Worker(Free, Out) && Do(s, GiveUpEnvelope(w)).refreshLock != Some(w)
    ensures At(s, w).phase == Out && At(s, w).task.WantsRefreshLock? ==>
              At(Do(s, GiveUpRefresh(w)), w) == Worker(Free, Out)
  {
  }

  /** Time passes, and an idle worker starts what it is called for; one without a rejected token to compare with goes
      straight to its second look. */
  lemma {:induction false} CallsStart(s: System, w: nat, goal: Goal, op: Op, seconds: nat)
    ensures Do(s, Tick(seconds)) == s.(now := s.now + seconds)
    ensures At(s, w) == Worker(Free, Out) ==>
              && At(Do(s, Begin(w, goal)), w) == Worker(Probing(goal, goal == Force(""), NotYet), Out)
              && (!op.Migrate? ==> At(Do(s, Request(w, op)), w) == Worker(Free, Wants(op)))
  {
  }

  /** In every run, whatever a worker is in the middle of, its own next step brings it closer to the end as soon as the
      lock it needs is free; so it never waits for anything but a lock, and looks, migrates and refreshes only so
      often. */
  lemma {:induction false} WorkersFinish(start: Envelope, now: int, actions: seq<Action>, w: nat, modifiedAt: int)
    requires var s := Run(Start(start, now), actions); LockIsFree(s, w) && At(s, w) != Worker(Free, Out)
    ensures var s := Run(Start(start, now), actions);
            StepsLeft(At(Do(s, NextAction(w, At(s, w), modifiedAt)), w)) < StepsLeft(At(s, w)) <= 31
  {
    RunMigratesOnce(start, now, actions, w);
    NoTimeoutStrandsTheRefreshLock(start, now, actions);
    NextStepCounts(Run(Start(start, now), actions), w, modifiedAt);
  }
}

/** The lock file behind every lock between processes: created exclusively, then filled with the owner's process
    number; a contender that reads the number of a dead process removes the file. Reading, the check for life and the
    removal are separate steps, and a removal takes whatever file is there. */
module ProcessLock {
  import opened Basics

  /** The file at the lock's path, and who created it. */
  datatype File = Absent | Empty(owner: nat) | Names(owner: nat)

  /** Where a process is. `Seen` has read a process number, `Breaking` has found that process dead. */
  datatype Phase = Idle | Created | Holding | Seen(pid: nat) | Breaking(pid: nat) | Dead

  /** `stale` are the contenders since whose reading somebody else has removed the file. */
  datatype System = System(file: File, phases: map<nat, Phase>, stale: set<nat>)

  datatype Action =
    | Create(w: nat)
    | Record(w: nat)    // write the process number into the file just created
    | Read(w: nat)
    | Check(w: nat)
    | GiveUp(w: nat)    // life could not be established
    | Unlink(w: nat)
    | Release(w: nat)
    | Crash(w: nat)

  function At(s: System, w: nat): Phase {
    if w in s.phases then s.phases[w] else Idle
  }

  function Put(s: System, w: nat, phase: Phase): System {
    s.(phases := s.phases[w := phase])
  }

  /** The file is removed by w: what other contenders have read is out of date. */
  function Removed(s: System, w: nat): System {
    Put(s, w, Idle).(file := Absent,
                     stale := s.stale + (set v | v in s.phases && (s.phases[v].Seen? || s.phases[v].Breaking?)) - {w})
  }

  function Step(s: System, a: Action): System {
    match a
    case Create(w) => if At(s, w) == Idle && s.file == Absent then Put(s, w, Created).(file := Empty(w)) else s
    case Record(w) =>
      if At(s, w) == Created then Put(s, w, Holding).(file := if s.file == Empty(w) then Names(w) else s.file) else s
    case Read(w) =>
      // a file without a number may be in the making: it is never removed
      if At(s, w) == Idle && s.file.Names? then Put(s, w, Seen(s.file.owner)).(stale := s.stale - {w}) else s
    case Check(w) =>
      if !At(s, w).Seen? then s
      else Put(s, w, if At(s, At(s, w).pid) == Dead then Breaking(At(s, w).pid) else Idle)
    case GiveUp(w) => if At(s, w).Seen? then Put(s, w, Idle) else s
    case Unlink(w) => if At(s, w).Breaking? then Removed(s, w) else s
    case Release(w) => if At(s, w) == Holding then Removed(s, w) else s
    case Crash(w) => Put(s, w, Dead)
  }

  const START := System(Absent, map[], {})

  function Run(actions: seq<Action>): System {
    if actions == [] then START
    else Step(Run(actions[..|actions| - 1]), actions[|actions| - 1])
  }

  predicate Inside(p: Phase) {
    p == Created || p == Holding
  }

  ghost predicate Exclusive(s: System) {
    forall v: nat, w: nat | Inside(At(s, v)) && Inside(At(s, w)) :: v == w
  }

  /** The file at the path is the one of the process that is inside. */
  ghost predicate OwnsFile(s: System) {
    forall w: nat :: (At(s, w) == Created ==> s.file == Empty(w)) && (At(s, w) == Holding ==> s.file == Names(w))
  }

  /** A contender is about to remove whatever file is there. */
  predicate Breaks(s: System, a: Action) {
    a.Unlink? && At(s, a.w).Breaking?
  }

  /** A contender is about to remove the file of a process that is inside. */
  predicate Steals(s: System, a: Action) {
    Breaks(s, a) && s.file != Absent && Inside(At(s, s.file.owner))
  }

  // ---- Exactly which runs stay exclusive ----------------------------------------------------------------------

  lemma {:induction false} OwnersAreExclusive(s: System)
    requires OwnsFile(s)
    ensures Exclusive(s)
  {
    forall v: nat, w: nat | Inside(At(s, v)) && Inside(At(s, w))
      ensures v == w
    {
      assert (At(s, v) == Created ==> s.file == Empty(v)) && (At(s, w) == Created ==> s.file == Empty(w));
    }
  }

  /** Theft is the only step that takes the file from its owner. */
  lemma {:induction false} OnlyTheftTakesTheFile(s: System, a: Action)
    requires OwnsFile(s)
    ensures OwnsFile(Step(s, a)) <==> !Steals(s, a)
  {
    var t := Step(s, a);
    if Steals(s, a) {
      assert Inside(At(t, s.file.owner)) && t.file == Absent;
    } else {
      forall w: nat
        ensures (At(t, w) == Created ==> t.file == Empty(w)) && (At(t, w) == Holding ==> t.file == Names(w))
      {
        assert (At(s, w) == Created ==> s.file == Empty(w)) && (At(s, w) == Holding ==> s.file == Names(w));
        assert (At(s, a.w) == Created ==> s.file == Empty(a.w)) && (At(s, a.w) == Holding ==> s.file == Names(a.w));
      }
    }
  }

  /** After a theft the thief acquires the lock beside its owner. */
  lemma {:induction false} TheftMakesTwoHolders(s: System, a: Action)
    requires OwnsFile(s) && Steals(s, a)
    ensures !Exclusive(Step(Step(s, a), Create(a.w)))
  {
    var t := Step(Step(s, a), Create(a.w));
    assert Inside(At(t, a.w)) && Inside(At(t, s.file.owner)) && a.w != s.file.owner;
  }

  ghost predicate StealsAt(actions: seq<Action>, k: nat) {
    k < |actions| && Steals(Run(actions[..k]), actions[k])
  }

  /** Nobody ever gets in beside the owner, not even if any process tries to acquire the lock at any moment. */
  ghost predicate StaysExclusive(actions: seq<Action>) {
    forall k: nat, w: nat | k <= |actions| :: Exclusive(Step(Run(actions[..k]), Create(w)))
  }

  lemma {:induction false} OwnersUnlessTheft(actions: seq<Action>, k: nat)
    requires k <= |actions| && forall j | 0 <= j < k :: !StealsAt(actions, j)
    ensures OwnsFile(Run(actions[..k]))
  {
    if k > 0 {
      OwnersUnlessTheft(actions, k - 1);
      assert !StealsAt(actions, k - 1);
      assert actions[..k][..k - 1] == actions[..k - 1];
      OnlyTheftTakesTheFile(Run(actions[..k - 1]), actions[k - 1]);
    }
  }

  lemma {:induction false} FirstTheft(actions: seq<Action>, k: nat) returns (first: nat)
    requires StealsAt(actions, k)
    ensures first <= k && StealsAt(actions, first) && forall j | 0 <= j < first :: !StealsAt(actions, j)
  {
    if j :| 0 <= j < k && StealsAt(actions, j) {
      first := FirstTheft(actions, j);
    } else {
      first := k;
    }
  }

  /** A run of any processes stays exclusive if and only if no contender in it removes the file of a process that is
      inside. */
  lemma {:induction false} ExclusiveIffNoTheft(actions: seq<Action>)
    ensures StaysExclusive(actions) <==> forall k :: !StealsAt(actions, k)
  {
    hide Step, Steals, OwnsFile, Exclusive;
    if forall k :: !StealsAt(actions, k) {
      forall k: nat, w: nat | k <= |actions|
        ensures Exclusive(Step(Run(actions[..k]), Create(w)))
      {
        OwnersUnlessTheft(actions, k);
        NoTheftByCreating(Run(actions[..k]), w);
        OnlyTheftTakesTheFile(Run(actions[..k]), Create(w));
        OwnersAreExclusive(Step(Run(actions[..k]), Create(w)));
      }
    } else {
      var k :| StealsAt(actions, k);
      var first := FirstTheft(actions, k);
      OwnersUnlessTheft(actions, first);
      TheftMakesTwoHolders(Run(actions[..first]), actions[first]);
      assert actions[..first + 1][..first] == actions[..first];
      assert !Exclusive(Step(Run(actions[..first + 1]), Create(actions[first].w)));
    }
  }

  lemma {:induction false} NoTheftByCreating(s: System, w: nat)
    ensures !Steals(s, Create(w))
  {
  }

  // ---- What a theft needs -------------------------------------------------------------------------------------

  /** A contender that is not stale still faces the file it read, and a breaker's process is dead. */
  ghost predicate LooksHold(s: System) {
    forall w: nat ::
      && (At(s, w).Seen? && w !in s.stale ==> s.file == Names(At(s, w).pid))
      && (At(s, w).Breaking? && w !in s.stale ==> s.file == Names(At(s, w).pid))
      && (At(s, w).Breaking? ==> At(s, At(s, w).pid) == Dead)
  }

  lemma {:induction false} StepKeepsLooks(s: System, a: Action)
    requires LooksHold(s)
    ensures LooksHold(Step(s, a))
  {
    var t := Step(s, a);
    forall w: nat
      ensures && (At(t, w).Seen? && w !in t.stale ==> t.file == Names(At(t, w).pid))
              && (At(t, w).Breaking? && w !in t.stale ==> t.file == Names(At(t, w).pid))
              && (At(t, w).Breaking? ==> At(t, At(t, w).pid) == Dead)
    {
      assert At(s, w).Breaking? ==> At(s, At(s, w).pid) == Dead;
      assert At(s, w).Seen? && w !in s.stale ==> s.file == Names(At(s, w).pid);
    }
  }

  lemma {:induction false} RunKeepsLooks(actions: seq<Action>)
    ensures LooksHold(Run(actions))
  {
    if actions != [] {
      RunKeepsLooks(actions[..|actions| - 1]);
      StepKeepsLooks(Run(actions[..|actions| - 1]), actions[|actions| - 1]);
    }
  }

  /** A contender becomes stale only when somebody else removes a file, and reading again makes it current. */
  lemma {:induction false} OnlyRemovalsMakeStale(s: System, a: Action, w: nat)
    ensures w !in s.stale && w in Step(s, a).stale ==>
              a.w != w && (Breaks(s, a) || (a.Release? && At(s, a.w) == Holding)) && Step(s, a).file == Absent
    ensures a == Read(w) && At(Step(s, a), w).Seen? && !At(s, w).Seen? ==> w !in Step(s, a).stale
  {
  }

  /** Only a stale contender steals: between its reading and its removal somebody else, a second breaker or an owner
      that released, has removed the file it read. */
  lemma {:induction false} OnlyStaleContendersSteal(actions: seq<Action>, k: nat)
    requires StealsAt(actions, k)
    ensures actions[k].w in Run(actions[..k]).stale
  {
    RunKeepsLooks(actions[..k]);
  }

  /** Where every breaker removes the file before anybody else has removed it since it read it, the lock stays
      exclusive; a breaker that reads, checks and removes in one step is such a breaker. */
  lemma {:induction false} UndisturbedBreakersKeepExclusive(actions: seq<Action>)
    requires forall k :: 0 <= k < |actions| && Breaks(Run(actions[..k]), actions[k]) ==>
               actions[k].w !in Run(actions[..k]).stale
    ensures StaysExclusive(actions)
  {
    forall k | StealsAt(actions, k)
      ensures false
    {
      OnlyStaleContendersSteal(actions, k);
    }
    ExclusiveIffNoTheft(actions);
  }

  lemma {:induction false} RunExtends(actions: seq<Action>, a: Action)
    ensures Run(actions + [a]) == Step(Run(actions), a)
  {
    assert (actions + [a])[..|actions|] == actions;
  }

  lemma {:induction false} StealsLast(actions: seq<Action>, a: Action)
    requires Steals(Run(actions), a)
    ensures StealsAt(actions + [a], |actions|)
  {
    assert (actions + [a])[..|actions|] == actions;
  }

  lemma {:induction false} EmptyRun()
    ensures Run([]) == START
  {
  }

  lemma {:induction false} HoldersFileIsStolen(s: System, thief: nat, owner: nat)
    requires At(s, thief).Breaking? && s.file == Names(owner) && At(s, owner) == Holding
    ensures Steals(s, Unlink(thief))
  {
  }

  /** Process 1 dies inside, and both 2 and 3 find it dead. */
  lemma {:induction false} TwoBreakersMeet() returns (actions: seq<Action>)
    ensures var s := Run(actions); s.file == Names(1) && At(s, 2) == Breaking(1) && At(s, 3) == Breaking(1)
  {
    hide Run;
    EmptyRun();
    actions := Prepared([], Create(1), Record(1), Crash(1), Read(2));
    var s := Run(actions);
    assert s.file == Names(1) && At(s, 1) == Dead && At(s, 2) == Seen(1) && At(s, 3) == Idle;
    actions := Prepared(actions, Check(2), Read(3), Check(3), GiveUp(3));
  }

  /** Then 2 removes the file and acquires the lock, and 3 removes the file of 2. */
  lemma {:induction false} TwoBreakersSteal() returns (actions: seq<Action>)
    ensures exists k :: StealsAt(actions, k)
  {
    hide Run, Steals;
    actions := TwoBreakersMeet();
    actions := Prepared(actions, Unlink(2), Create(2), Record(2), GiveUp(2));
    HoldersFileIsStolen(Run(actions), 3, 2);
    StealsLast(actions, Unlink(3));
    actions := actions + [Unlink(3)];
  }

  /** One breaker is enough: 2 reads 1's number; 1 releases and exits; 3 acquires the lock; 2 finds 1 dead and removes
      the file of 3. */
  lemma {:induction false} OneBreakerSteals() returns (actions: seq<Action>)
    ensures exists k :: StealsAt(actions, k)
  {
    hide Run, Steals;
    EmptyRun();
    actions := Prepared([], Create(1), Record(1), Read(2), Release(1));
    var s := Run(actions);
    assert s.file == Absent && At(s, 2) == Seen(1) && At(s, 3) == Idle;
    actions := Prepared(actions, Create(3), Record(3), Crash(1), Check(2));
    HoldersFileIsStolen(Run(actions), 2, 3);
    StealsLast(actions, Unlink(2));
    actions := actions + [Unlink(2)];
  }

  lemma {:induction false} Prepared(before: seq<Action>, a: Action, b: Action, c: Action, d: Action)
    returns (actions: seq<Action>)
    ensures Run(actions) == Step(Step(Step(Step(Run(before), a), b), c), d)
    ensures actions == before + [a] + [b] + [c] + [d]
  {
    RunExtends(before, a);
    RunExtends(before + [a], b);
    RunExtends(before + [a] + [b], c);
    RunExtends(before + [a] + [b] + [c], d);
    actions := before + [a] + [b] + [c] + [d];
  }
}

/** What holds over whole runs of the publication protocol, and what undisturbed calls achieve. */
module PublicationRuns {
  import opened Options
  import opened Publication

  lemma {:induction false} RunKeeps(s: State, events: seq<Event>)
    requires Inv(s)
    ensures Inv(Run(s, events))
    decreases |events|
  {
    if events != [] {
      StepKeeps(s, events[0].process, events[0].action);
      RunKeeps(Step(s, events[0].process, events[0].action), events[1..]);
    }
  }

  /** Commits are only ever added, so whatever was committed stays in the log. */
  lemma {:induction false} LogGrows(s: State, events: seq<Event>)
    ensures s.log <= Run(s, events).log
    decreases |events|
  {
    if events != [] {
      LogGrows(Step(s, events[0].process, events[0].action), events[1..]);
    }
  }

  /**
    * For every interleaving of any processes, with failed renames and crashes between any two steps:
    * the last committed directory is at the destination or, the destination being absent, in `.previous`;
    * it is in no staging area, neither live nor deleted nor orphaned; nothing was ever overwritten;
    * what has been discarded had been superseded or was never committed.
    */
  lemma CommittedSurvives(s: State, events: seq<Event>)
    requires Initial(s)
    ensures
      var t := Run(s, events);
      && s.log <= t.log
      && CommittedPresent(t)
      && t.overwritten == {}
      && Slot(Committed(t)) !! (Staged(t) + t.deleted + t.orphaned)
      && (forall d :: d in t.log && d in Staged(t) + t.deleted + t.orphaned ==> d in Superseded(t))
      && Conserved(t)
  {
    InitialInv(s);
    RunKeeps(s, events);
    LogGrows(s, events);
    CommittedSafe(Run(s, events));
  }

  /** In one state: the committed directory is not among those discarded, and these had been superseded. */
  lemma CommittedSafe(t: State)
    requires Inv(t)
    ensures Slot(Committed(t)) !! (Staged(t) + t.deleted + t.orphaned)
    ensures forall d :: d in t.log && d in Staged(t) + t.deleted + t.orphaned ==> d in Superseded(t)
  {
    if Committed(t).Some? {
      assert Places(t, Committed(t).value) <= 1;
    }
    forall d | d in t.log && d in Staged(t) + t.deleted + t.orphaned ensures d in Superseded(t) {
      var i :| 0 <= i < |t.log| && t.log[i] == d;
    }
  }

  /** While a process owns a publication, nobody else changes the slots, the log or its position. */
  lemma LockExcludes(s: State, p: Process, o: Process, a: Action)
    requires Inv(s) && s.lock == Some(p) && o != p
    ensures
      var t := Step(s, o, a);
      && t.destination == s.destination && t.previous == s.previous && t.log == s.log
      && t.lock == s.lock && At(t, p) == At(s, p)
  {
    assert Unlocked(At(s, o));
  }

  /** In every reachable state a begun publication has the committed directory in place and `.previous` empty. */
  lemma ReadyIsClean(s: State, events: seq<Event>, p: Process)
    requires Initial(s) && At(Run(s, events), p).pc in {Ready, PublishRetire}
    ensures
      var t := Run(s, events);
      t.lock == Some(p) && t.destination == Committed(t) && t.previous == None && At(t, p).contents.Some?
  {
    InitialInv(s);
    RunKeeps(s, events);
    var t := Run(s, events);
    assert t.lock == Some(p) || Unlocked(At(t, p));
  }

  /** In every reachable state, a `recover` that answers success has the committed directory at the destination. */
  lemma RecoveredIsCommitted(s: State, events: seq<Event>, p: Process)
    requires Initial(s) && At(Run(s, events), p).pc == Releasing(Recovered)
    ensures Run(s, events).destination == Committed(Run(s, events))
  {
    InitialInv(s);
    RunKeeps(s, events);
    var t := Run(s, events);
    assert t.lock == Some(p) || Unlocked(At(t, p));
  }

  // ------------------------------------------------------------------ what publish answers

  ghost predicate InPublication(q: Proc) {
    match q.pc
    case BeginStaged => true
    case BeginRetire => true
    case Ready => true
    case PublishRetire => true
    case PublishInstall(_) => true
    case PublishRollback => true
    case PublishCleanup => true
    case Closing(_) => true
    case Releasing(o) => o !in {Recovered, RecoverFailed, BeginFailed}
    case _ => false
  }

  ghost predicate SamePublication(s: State, p: Process, mine: Directory, base: nat) {
    && mine < s.next
    && (InPublication(At(s, p)) && At(s, p).mine == mine ==> At(s, p).base == base)
  }

  lemma PublicationStep(s: State, p: Process, mine: Directory, base: nat, o: Process, a: Action)
    requires SamePublication(s, p, mine, base)
    ensures SamePublication(Step(s, o, a), p, mine, base)
  {
    if o != p {
      OthersStep(s, p, o, a);
    } else if a.Proceed? {
      OwnOperation(s, p, mine, base, a.ok);
    } else {
      OwnCall(s, p, mine, base, a);
    }
  }

  lemma OthersStep(s: State, p: Process, o: Process, a: Action)
    requires o != p
    ensures At(Step(s, o, a), p) == At(s, p) && s.next <= Step(s, o, a).next
  {
  }

  lemma OwnCall(s: State, p: Process, mine: Directory, base: nat, a: Action)
    requires SamePublication(s, p, mine, base) && !a.Proceed?
    ensures SamePublication(Step(s, p, a), p, mine, base)
  {
  }

  /** Only staging begins another publication, and that is a new directory. */
  lemma OwnOperation(s: State, p: Process, mine: Directory, base: nat, ok: bool)
    requires SamePublication(s, p, mine, base)
    ensures SamePublication(Operate(s, p, ok), p, mine, base)
  {
    var t := Operate(s, p, ok);
    assert s.next <= t.next;
    if At(s, p).pc == BeginStage {
      assert At(t, p).pc == BeginStaged ==> At(t, p).mine == s.next;
    } else {
      assert At(t, p) == IDLE || (At(t, p).mine == At(s, p).mine && At(t, p).base == At(s, p).base);
    }
  }

  lemma {:induction false} PublicationRun(s: State, p: Process, mine: Directory, base: nat, events: seq<Event>)
    requires SamePublication(s, p, mine, base)
    ensures SamePublication(Run(s, events), p, mine, base)
    decreases |events|
  {
    if events != [] {
      PublicationStep(s, p, mine, base, events[0].process, events[0].action);
      PublicationRun(Step(s, events[0].process, events[0].action), p, mine, base, events[1..]);
    }
  }

  lemma AnswerFacts(s: State, p: Process, events: seq<Event>, outcome: Outcome)
    requires Inv(s) && At(s, p).pc == Ready
    requires At(Run(s, events), p).pc == Releasing(outcome) && At(Run(s, events), p).mine == At(s, p).mine
    ensures
      var t := Run(s, events);
      && s.log <= t.log && OutcomeOk(t, At(t, p), outcome)
      && (outcome !in {Recovered, RecoverFailed, BeginFailed} ==> At(t, p).base == |s.log|)
  {
    var t, mine := Run(s, events), At(s, p).mine;
    assert s.lock == Some(p) || Unlocked(At(s, p));
    RunKeeps(s, events);
    LogGrows(s, events);
    assert Places(s, mine) == 1;
    PublicationRun(s, p, mine, |s.log|, events);
    assert t.lock == Some(p) || Unlocked(At(t, p));
  }

  /**
    * From the moment a caller holds a publication until `publish` answers, whatever else happens:
    * an error leaves the log of commits as it was, with the old directory at the destination, or in
    * `.previous` when even the rollback failed; success and a failed final cleanup commit exactly the
    * staged directory.
    */
  lemma PublishAnswers(s: State, p: Process, events: seq<Event>, outcome: Outcome)
    requires Inv(s) && At(s, p).pc == Ready
    requires At(Run(s, events), p).pc == Releasing(outcome) && At(Run(s, events), p).mine == At(s, p).mine
    ensures
      var t, mine := Run(s, events), At(s, p).mine;
      && Answer(outcome, mine, Committed(s), t.destination, t.previous)
      && (outcome in {Published, CleanupFailed} ==> t.log == s.log + [mine])
      && (outcome in {RetireFailed, InstallFailed, RollbackFailed} ==> t.log == s.log)
  {
    AnswerFacts(s, p, events, outcome);
  }

  // ------------------------------------------------------------------ recovery

  /** The state after `steps` steps of one process in which every operation succeeds. */
  function Solo(s: State, p: Process, steps: nat): State
    decreases steps
  {
    if steps == 0 then s else Solo(Step(s, p, Proceed(true)), p, steps - 1)
  }

  lemma {:induction false} SoloComposes(s: State, p: Process, m: nat, n: nat)
    ensures Solo(s, p, m + n) == Solo(Solo(s, p, m), p, n)
    decreases m
  {
    if m > 0 {
      SoloComposes(Step(s, p, Proceed(true)), p, m - 1, n);
    }
  }

  /** Looking for an interrupted replacement, and undoing it, settles the slots. */
  lemma SettlesInterrupted(s: State, p: Process) returns (steps: nat)
    requires Inv(s) && s.lock == Some(p) && At(s, p).pc in {RecoverLocked, BeginLocked}
    ensures
      var t := Solo(s, p, steps);
      && At(t, p).pc == (if At(s, p).pc == RecoverLocked then Releasing(Recovered) else BeginStage)
      && t.destination == Committed(s) && t.log == s.log && t.lock == s.lock
      && (t.previous.Some? ==> t.destination.Some?)
  {
    var s1 := Step(s, p, Proceed(true));
    assert Solo(s, p, 1) == Solo(s1, p, 0) == s1;
    if s.destination == None && s.previous.Some? {
      var s2 := Step(s1, p, Proceed(true));
      assert Solo(s1, p, 1) == Solo(s2, p, 0) == s2;
      SoloComposes(s, p, 1, 1);
      steps := 2;
    } else {
      steps := 1;
    }
  }

  /** A `recover` that sees `.previous` takes the free lock. */
  lemma RecoverLocks(s: State, p: Process) returns (locked: State)
    requires Inv(s) && s.lock == None && At(s, p).pc == Idle && s.previous.Some?
    ensures locked == Solo(Step(s, p, StartRecover), p, 1) && Inv(locked)
    ensures locked.lock == Some(p) && At(locked, p).pc == RecoverLocked && locked.log == s.log
  {
    var s0 := Step(s, p, StartRecover);
    locked := Step(s0, p, Proceed(true));
    assert Solo(s0, p, 1) == Solo(locked, p, 0) == locked;
    StepKeeps(s, p, StartRecover);
    StepKeeps(s0, p, Proceed(true));
  }

  /** Under the lock `recover` settles the slots and gives the lock up. */
  lemma RecoverFinishes(s: State, p: Process) returns (steps: nat)
    requires Inv(s) && s.lock == Some(p) && At(s, p).pc == RecoverLocked
    ensures
      var t := Solo(s, p, steps);
      t.destination == Committed(s) && t.log == s.log && t.lock == None && At(t, p).pc == Idle
  {
    var n := SettlesInterrupted(s, p);
    var t := Solo(s, p, n);
    assert Solo(t, p, 1) == Solo(Step(t, p, Proceed(true)), p, 0) == Step(t, p, Proceed(true));
    SoloComposes(s, p, n, 1);
    steps := n + 1;
  }

  /** An undisturbed `recover` puts exactly the last committed directory back. */
  lemma RecoverRestores(s: State, p: Process) returns (steps: nat)
    requires Inv(s) && s.lock == None && At(s, p).pc == Idle
    ensures
      var t := Solo(Step(s, p, StartRecover), p, steps);
      t.destination == Committed(s) && t.log == s.log && t.lock == None && At(t, p).pc == Idle
  {
    if s.previous == None {
      steps := 0;
    } else {
      var locked := RecoverLocks(s, p);
      var n := RecoverFinishes(locked, p);
      SoloComposes(Step(s, p, StartRecover), p, 1, n);
      steps := 1 + n;
    }
  }

  /** Staging and clearing a leftover `.previous`. */
  lemma StagesAndClears(s: State, p: Process) returns (steps: nat)
    requires At(s, p).pc == BeginStage
    ensures
      var t := Solo(s, p, steps);
      At(t, p).pc == Ready && t.destination == s.destination && t.previous == None && t.log == s.log && t.lock == s.lock
  {
    var s1 := Step(s, p, Proceed(true));
    var s2 := Step(s1, p, Proceed(true));
    assert Solo(s, p, 1) == Solo(s1, p, 0) == s1;
    assert Solo(s1, p, 1) == Solo(s2, p, 0) == s2;
    SoloComposes(s, p, 1, 1);
    if s.previous.Some? {
      var s3 := Step(s2, p, Proceed(true));
      assert Solo(s2, p, 1) == Solo(s3, p, 0) == s3;
      SoloComposes(s, p, 2, 1);
      steps := 3;
    } else {
      steps := 2;
    }
  }

  /** An undisturbed `begin` also clears `.previous` and stages fresh contents. */
  lemma BeginRestores(s: State, p: Process) returns (steps: nat)
    requires Inv(s) && s.lock == None && At(s, p).pc == Idle
    ensures
      var t := Solo(Step(s, p, StartBegin), p, steps);
      At(t, p).pc == Ready && t.destination == Committed(s) && t.previous == None && t.log == s.log && t.lock == Some(p)
  {
    var s0 := Step(s, p, StartBegin);
    StepKeeps(s, p, StartBegin);
    var m := SettlesInterrupted(s0, p);
    var n := StagesAndClears(Solo(s0, p, m), p);
    SoloComposes(s0, p, m, n);
    steps := m + n;
  }

  /** Retiring the old directory, if there is one, and installing the staged one. */
  lemma InstallsStaged(s: State, p: Process) returns (steps: nat)
    requires At(s, p).pc == Ready && At(s, p).contents.Some? && s.previous == None
    ensures
      var t := Solo(Step(s, p, Publish), p, steps);
      && At(t, p).pc == (if s.destination.Some? then PublishCleanup else Closing(Published))
      && t.destination == At(s, p).contents && t.previous == s.destination && t.log == s.log + [At(s, p).mine]
  {
    var s0 := Step(s, p, Publish);
    var s1 := Step(s0, p, Proceed(true));
    assert Solo(s0, p, 1) == Solo(s1, p, 0) == s1;
    if s.destination.Some? {
      var s2 := Step(s1, p, Proceed(true));
      assert Solo(s1, p, 1) == Solo(s2, p, 0) == s2;
      SoloComposes(s0, p, 1, 1);
      steps := 2;
    } else {
      steps := 1;
    }
  }

  /** Clearing `.previous`, deleting the staging area and releasing the lock. */
  lemma Finishes(s: State, p: Process) returns (steps: nat)
    requires At(s, p).pc == (if s.previous.Some? then PublishCleanup else Closing(Published))
    ensures
      var t := Solo(s, p, steps);
      && At(t, p) == IDLE && t.lock == None && t.destination == s.destination && t.previous == None && t.log == s.log
      && Held(At(s, p)) + Slot(s.previous) <= t.deleted
  {
    var s1 := Step(s, p, Proceed(true));
    var s2 := Step(s1, p, Proceed(true));
    assert Solo(s, p, 1) == Solo(s1, p, 0) == s1;
    assert Solo(s1, p, 1) == Solo(s2, p, 0) == s2;
    SoloComposes(s, p, 1, 1);
    if s.previous.Some? {
      var s3 := Step(s2, p, Proceed(true));
      assert Solo(s2, p, 1) == Solo(s3, p, 0) == s3;
      SoloComposes(s, p, 2, 1);
      steps := 3;
    } else {
      steps := 2;
    }
  }

  /** The slots and the commits after a publication of `mine` over `replaced`. */
  ghost predicate PublishedOver(t: State, p: Process, log: seq<Directory>, mine: Directory,
                                replaced: Option<Directory>)
  {
    && t.destination == Some(mine) && t.previous == None && t.log == log + [mine]
    && t.lock == None && At(t, p) == IDLE && Slot(replaced) <= t.deleted
  }

  lemma PublishFinishes(s: State, p: Process) returns (steps: nat)
    requires At(s, p).pc == Ready && At(s, p).contents == Some(At(s, p).mine) && s.previous == None
    ensures PublishedOver(Solo(Step(s, p, Publish), p, steps), p, s.log, At(s, p).mine, s.destination)
  {
    var s0 := Step(s, p, Publish);
    var m := InstallsStaged(s, p);
    var n := Finishes(Solo(s0, p, m), p);
    SoloComposes(s0, p, m, n);
    steps := m + n;
  }

  /** An undisturbed `publish` commits exactly the staged directory, deletes the replaced one and frees the lock. */
  lemma PublishCommits(s: State, p: Process) returns (steps: nat)
    requires Inv(s) && s.lock == Some(p) && At(s, p).pc == Ready
    ensures PublishedOver(Solo(Step(s, p, Publish), p, steps), p, s.log, At(s, p).mine, s.destination)
  {
    steps := PublishFinishes(s, p);
  }
}

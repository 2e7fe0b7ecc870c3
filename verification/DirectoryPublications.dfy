/**
  * The calls of `DirectoryPublication` (xtask/src/bundle.rs) as one process performs them when it is not
  * cut short: imperative updates of the slots, with the file system's answers as an argument of every call.
  * Every file-system operation is one step of the protocol in `Publication`: `model` is the protocol state
  * that the disk shows, and `history` lists the actions of this process that led to it from `origin`,
  * through `states`.
  */
module DirectoryPublications {
  import opened Options
  import opened Publication

  /** What a process filled is never among the directories it is about to delete. */
  lemma StagingApart(s: State, p: Process)
    requires Inv(s)
    ensures Slot(At(s, p).contents) !! At(s, p).retired
  {
    var q := At(s, p);
    assert s.lock == Some(p) || Unlocked(q);
    assert forall d :: d in Superseded(s) ==> d in s.log;
  }

  /** Every directory is in one place only. */
  lemma SlotsApart(s: State, p: Process)
    requires Inv(s)
    ensures Slot(s.destination) !! Slot(s.previous) !! Held(At(s, p)) !! s.deleted !! s.orphaned
    ensures Slot(Committed(s)) !! Held(At(s, p)) && Slot(Committed(s)) !! (s.deleted + s.orphaned)
  {
    assert s.lock == Some(p) || Unlocked(At(s, p));
    assert Held(At(s, p)) <= Staged(s);
    forall d: Directory
      ensures d in Held(At(s, p)) ==> d !in Slot(s.destination) && d !in Slot(s.previous)
      ensures d in Held(At(s, p)) ==> d !in s.deleted && d !in s.orphaned
      ensures d in s.deleted + s.orphaned ==> d !in Slot(s.destination) && d !in Slot(s.previous)
      ensures d in s.deleted ==> d !in s.orphaned
      ensures d in Slot(s.destination) ==> d !in Slot(s.previous)
    {
      assert Places(s, d) <= 1;
    }
    if Committed(s).Some? {
      assert Places(s, Committed(s).value) <= 1;
    }
  }

  /** Action `i` of process `p` leads from state `i` of a trace to the next. */
  ghost predicate Linked(p: Process, states: seq<State>, history: seq<Action>, i: nat)
    requires i < |history| < |states|
  {
    states[i + 1] == Step(states[i], p, history[i])
  }

  /** State `i` of a trace keeps the protocol invariant. */
  ghost predicate Kept(states: seq<State>, i: nat)
    requires i < |states|
  {
    Inv(states[i])
  }

  ghost predicate Traced(p: Process, origin: State, states: seq<State>, history: seq<Action>, model: State) {
    && |states| == |history| + 1 && states[0] == origin && states[|history|] == model
    && (forall i :: 0 <= i < |history| ==> Linked(p, states, history, i))
    && (forall i :: 0 <= i < |states| ==> Kept(states, i))
  }

  lemma TraceStart(p: Process, origin: State)
    requires Inv(origin)
    ensures Traced(p, origin, [origin], [], origin)
  {
    assert Kept([origin], 0);
  }

  lemma TraceMore(p: Process, origin: State, states: seq<State>, history: seq<Action>, model: State, a: Action)
    requires Traced(p, origin, states, history, model)
    ensures Traced(p, origin, states + [Step(model, p, a)], history + [a], Step(model, p, a))
  {
    var longer, actions := states + [Step(model, p, a)], history + [a];
    assert Kept(states, |history|);
    StepKeeps(model, p, a);
    forall i | 0 <= i < |actions| ensures Linked(p, longer, actions, i) {
      assert i < |history| ==> Linked(p, states, history, i);
    }
    forall i | 0 <= i < |longer| ensures Kept(longer, i) {
      assert i < |states| ==> Kept(states, i);
    }
  }

  /** The events of one process that takes these actions. */
  ghost function EventsOf(p: Process, actions: seq<Action>): seq<Event> {
    seq(|actions|, i requires 0 <= i < |actions| => Event(p, actions[i]))
  }

  /** A trace is a run of its process, from any of its states on. */
  lemma {:induction false} TraceRuns(p: Process, origin: State, states: seq<State>, history: seq<Action>, model: State,
                                     i: nat)
    requires Traced(p, origin, states, history, model) && i <= |history|
    ensures Run(states[i], EventsOf(p, history[i..])) == model
    decreases |history| - i
  {
    if i < |history| {
      assert Linked(p, states, history, i);
      TraceRuns(p, origin, states, history, model, i + 1);
      assert EventsOf(p, history[i..])[1..] == EventsOf(p, history[i + 1..]);
    }
  }

  /** The states of a trace are determined by its actions. */
  lemma {:induction false} TracesAgree(p: Process, origin: State, passed: seq<State>, earlier: seq<Action>,
                                       before: State, states: seq<State>, history: seq<Action>, model: State, i: nat)
    requires Traced(p, origin, passed, earlier, before) && Traced(p, origin, states, history, model)
    requires earlier <= history && i <= |earlier|
    ensures states[i] == passed[i]
  {
    if i > 0 {
      TracesAgree(p, origin, passed, earlier, before, states, history, model, i - 1);
      assert Linked(p, passed, earlier, i - 1) && Linked(p, states, history, i - 1);
    }
  }

  /** The commits after a publication of `mine` that ended with `outcome`. */
  function LogAfter(log: seq<Directory>, mine: Directory, outcome: Outcome): seq<Directory> {
    if outcome in {Published, CleanupFailed} then log + [mine] else log
  }

  /** The last commit. */
  function Latest(log: seq<Directory>): Option<Directory> {
    if log == [] then None else Some(log[|log| - 1])
  }

  /** What an answer of `publish` says follows from what the protocol knows when it is given. */
  lemma AnswerFollows(s: State, q: Proc, outcome: Outcome, log: seq<Directory>)
    requires OutcomeOk(s, q, outcome) && q.base == |log|
    requires s.log == LogAfter(log, q.mine, outcome)
    ensures Answer(outcome, q.mine, Latest(log), s.destination, s.previous)
  {
  }

  /** What the file system answers in one call: no operation occurs twice in a call. */
  datatype Answers = Answers(
    open: bool,    // the parent directory and the lock file are at hand
    restore: bool, // the rename of `.previous` to the destination
    stage: bool,   // creating the staging area
    retire: bool,  // the rename of `.previous` into the staging area
    vacate: bool,  // the rename of the destination to `.previous`
    install: bool, // the rename of the contents to the destination
    clear: bool)   // deleting the staging area

  class Disk {
    const process: Process
    var destination: Option<Directory>
    var previous: Option<Directory>
    var lock: Option<Process>
    var contents: Option<Directory> // staging area: what the caller fills
    var retired: set<Directory>     // staging area: directories moved there to be deleted
    var deleted: set<Directory>
    var orphaned: set<Directory>    // left behind by a staging area that could not be deleted
    var next: Directory
    ghost const origin: State
    ghost var model: State
    ghost var history: seq<Action>
    ghost var states: seq<State>

    /** The slots and this process's staging area are those of the protocol state. */
    ghost predicate Shows()
      reads this
    {
      && destination == model.destination && previous == model.previous && lock == model.lock
      && deleted == model.deleted && orphaned == model.orphaned && next == model.next
      && contents == At(model, process).contents && retired == At(model, process).retired
    }

    ghost predicate Valid()
      reads this
    {
      Shows() && Traced(process, origin, states, history, model)
    }

    /** The trace has grown from `earlier`. */
    ghost predicate Since(earlier: seq<Action>)
      reads this
    {
      earlier <= history
    }

    /** Whatever was done since then is a run of this process's steps in the protocol. */
    lemma SinceIsRun(earlier: seq<Action>, passed: seq<State>, before: State)
      requires Valid() && Since(earlier) && Traced(process, origin, passed, earlier, before)
      ensures model == Run(before, EventsOf(process, history[|earlier|..]))
    {
      TracesAgree(process, origin, passed, earlier, before, states, history, model, |earlier|);
      TraceRuns(process, origin, states, history, model, |earlier|);
    }

    ghost function Position(): Pc
      reads this
    {
      At(model, process).pc
    }

    /** This process is in no call and holds no staging area. */
    ghost predicate AtRest()
      reads this
    {
      Valid() && Position() == Idle && contents == None && retired == {}
    }

    /** The caller owns a publication. */
    ghost predicate Begun()
      reads this
    {
      && Valid() && Position() == Ready && lock == Some(process)
      && contents.Some? && destination == Committed(model) && previous == None
    }

    /** No directory is in two slots, and the committed one is where recovery finds it. */
    ghost predicate Consistent()
      reads this
    {
      && Slot(destination) !! Slot(previous) !! Slot(contents) !! retired !! deleted !! orphaned
      && CommittedPresent(model) && (previous.Some? ==> Committed(model).Some?)
      && Slot(Committed(model)) !! (Slot(contents) + retired + deleted + orphaned)
    }

    /** Every valid disk is consistent. */
    lemma ValidConsistent()
      requires Valid()
      ensures Consistent()
    {
      assert Kept(states, |history|);
      StagingApart(model, process);
      SlotsApart(model, process);
    }

    /** A process that shows up in a protocol state without being in a call. */
    constructor (process: Process, ghost origin: State, destination: Option<Directory>, previous: Option<Directory>,
                 lock: Option<Process>, deleted: set<Directory>, orphaned: set<Directory>, next: Directory)
      requires Inv(origin) && At(origin, process).pc == Idle
      requires destination == origin.destination && previous == origin.previous && lock == origin.lock
      requires deleted == origin.deleted && orphaned == origin.orphaned && next == origin.next
      ensures AtRest() && this.process == process && history == [] && model == origin
    {
      this.process, this.origin := process, origin;
      this.destination, this.previous, this.lock := destination, previous, lock;
      this.deleted, this.orphaned, this.next := deleted, orphaned, next;
      contents, retired, model, history, states := None, {}, origin, [], [origin];
      new;
      TraceStart(process, origin);
      assert origin.lock == Some(process) || Unlocked(At(origin, process));
    }

    // ---------------------------------------------------------------- single operations

    /** One step of this process in the protocol. */
    ghost method Take(a: Action)
      requires Traced(process, origin, states, history, model)
      modifies this`model, this`history, this`states
      ensures model == Step(old(model), process, a) && Traced(process, origin, states, history, model)
      ensures history == old(history) + [a]
    {
      TraceMore(process, origin, states, history, model, a);
      model, history := Step(model, process, a), history + [a];
      states := states + [model];
    }

    /** `PublicationLock::acquire` in `begin`. */
    method LockForBegin() returns (ok: bool)
      requires Valid() && Position() == Idle
      modifies this`lock, this`model, this`history, this`states
      ensures Valid() && Since(old(history)) && model.log == old(model.log)
      ensures ok == (old(lock) == None) && lock == (if ok then Some(process) else old(lock))
      ensures Position() == if ok then BeginLocked else Idle
    {
      ok := lock == None;
      Take(StartBegin);
      if ok {
        lock := Some(process);
      }
    }

    /** `PublicationLock::acquire` in `recover`, which has seen `.previous`. */
    method LockForRecover(open: bool) returns (ok: bool)
      requires Valid() && Position() == Idle && previous.Some?
      modifies this`lock, this`model, this`history, this`states
      ensures Valid() && Since(old(history)) && model.log == old(model.log)
      ensures ok == (open && old(lock) == None) && lock == (if ok then Some(process) else old(lock))
      ensures Position() == if ok then RecoverLocked else Idle
    {
      Take(StartRecover);
      Take(Proceed(open));
      ok := open && lock == None;
      if ok {
        lock := Some(process);
      }
    }

    /** The test for an interrupted replacement. */
    method Look(begin: bool) returns (interrupted: bool)
      requires Valid() && Position() == if begin then BeginLocked else RecoverLocked
      modifies this`model, this`history, this`states
      ensures Valid() && Since(old(history)) && model.log == old(model.log)
      ensures interrupted == (destination == None && previous.Some?)
      ensures Position() == if interrupted then (if begin then BeginRename else RecoverRename)
                            else (if begin then BeginStage else Releasing(Recovered))
    {
      interrupted := destination == None && previous.Some?;
      Take(Proceed(true));
    }

    /** The rename of `.previous` to the destination. */
    method MovePreviousBack(ok: bool)
      requires Valid() && Position() in {RecoverRename, BeginRename, PublishRollback}
      modifies this`destination, this`previous, this`model, this`history, this`states
      ensures Valid() && Since(old(history)) && model.log == old(model.log)
      ensures At(model, process) == old(At(model, process)).(pc := Position())
      ensures Position() == match old(Position())
                            case RecoverRename => Releasing(if ok then Recovered else RecoverFailed)
                            case BeginRename => if ok then BeginStage else Releasing(BeginFailed)
                            case _ => Closing(if ok then InstallFailed else RollbackFailed)
      ensures !ok ==> destination == old(destination) && previous == old(previous)
      ensures ok ==> destination == old(previous) && previous == None
    {
      SourcePresent();
      Take(Proceed(ok));
      if ok {
        destination, previous := previous, None;
      }
    }

    /** Creating the staging area with empty contents. */
    method CreateStaging(ok: bool)
      requires Valid() && Position() == BeginStage
      modifies this`contents, this`retired, this`next, this`model, this`history, this`states
      ensures Valid() && Since(old(history)) && model.log == old(model.log)
      ensures Position() == if ok then BeginStaged else Releasing(BeginFailed)
      ensures ok ==> contents == Some(old(next)) && retired == {} && next == old(next) + 1
      ensures !ok ==> next == old(next)
    {
      Take(Proceed(ok));
      if ok {
        contents, retired, next := Some(next), {}, next + 1;
      }
    }

    /** The test for a leftover `.previous` in `begin`. */
    method LookLeftover() returns (leftover: bool)
      requires Valid() && Position() == BeginStaged
      modifies this`model, this`history, this`states
      ensures Valid() && Since(old(history)) && model.log == old(model.log)
      ensures leftover == previous.Some? && Position() == if leftover then BeginRetire else Ready
    {
      leftover := previous.Some?;
      Take(Proceed(true));
    }

    /** The rename of `.previous` into the staging area. */
    method MovePreviousAway(ok: bool)
      requires Valid() && Position() in {BeginRetire, PublishCleanup}
      modifies this`previous, this`retired, this`model, this`history, this`states
      ensures Valid() && Since(old(history)) && model.log == old(model.log)
      ensures Position() == if old(Position()) == BeginRetire then (if ok then Ready else Closing(BeginFailed))
                            else Closing(if ok then Published else CleanupFailed)
      ensures At(model, process).mine == old(At(model, process).mine)
      ensures At(model, process).base == old(At(model, process).base)
      ensures previous == if ok then None else old(previous)
      ensures retired == if ok then old(retired + Slot(previous)) else old(retired)
    {
      SourcePresent();
      Take(Proceed(ok));
      if ok {
        retired, previous := retired + Slot(previous), None;
      }
    }

    /** The call of `publish`: whether there is a destination to replace. */
    method StartPublish() returns (replacing: bool)
      requires Valid() && Position() == Ready
      modifies this`model, this`history, this`states
      ensures Valid() && Since(old(history)) && model.log == old(model.log)
      ensures At(model, process) == old(At(model, process)).(pc := Position())
      ensures replacing == destination.Some? && Position() == if replacing then PublishRetire else PublishInstall(false)
    {
      replacing := destination.Some?;
      Take(Action.Publish);
    }

    /** The rename of the destination to `.previous`. */
    method MoveDestinationAway(ok: bool)
      requires Valid() && Position() == PublishRetire
      modifies this`destination, this`previous, this`model, this`history, this`states
      ensures Valid() && Since(old(history)) && model.log == old(model.log)
      ensures At(model, process) == old(At(model, process)).(pc := Position())
      ensures Position() == if ok then PublishInstall(true) else Closing(RetireFailed)
      ensures ok ==> previous == old(destination)
    {
      SourcePresent();
      Take(Proceed(ok));
      if ok {
        destination, previous := None, destination;
      }
    }

    /** The commit: the rename of the contents to the destination. */
    method MoveContentsIn(replacing: bool, ok: bool)
      requires Valid() && Position() == PublishInstall(replacing)
      modifies this`destination, this`contents, this`model, this`history, this`states
      ensures Valid() && Since(old(history))
      ensures Position() == if ok then (if replacing then PublishCleanup else Closing(Published))
                            else (if replacing then PublishRollback else Closing(InstallFailed))
      ensures model.log == if ok then old(model.log) + [At(model, process).mine] else old(model.log)
      ensures At(model, process).mine == old(At(model, process).mine)
      ensures At(model, process).base == old(At(model, process).base)
      ensures contents == if ok then None else old(contents)
    {
      SourcePresent();
      Take(Proceed(ok));
      if ok {
        destination, contents := contents, None;
      }
    }

    /** Deleting the staging area; a failure is ignored and leaves its directories behind. */
    method DeleteStaging(outcome: Outcome, ok: bool)
      requires Valid() && Position() == Closing(outcome)
      modifies this`contents, this`retired, this`deleted, this`orphaned, this`model, this`history, this`states
      ensures Valid() && Since(old(history))
      ensures Position() == Releasing(outcome) && model.log == old(model.log)
      ensures contents == None && retired == {}
      ensures deleted == old(deleted) + if ok then old(Slot(contents) + retired) else {}
      ensures orphaned == old(orphaned) + if ok then {} else old(Slot(contents) + retired)
      ensures At(model, process).mine == old(At(model, process).mine)
      ensures At(model, process).base == old(At(model, process).base)
    {
      Take(Proceed(ok));
      if ok {
        deleted := deleted + (Slot(contents) + retired);
      } else {
        orphaned := orphaned + (Slot(contents) + retired);
      }
      contents, retired := None, {};
    }

    method Release(outcome: Outcome)
      requires Valid() && Position() == Releasing(outcome)
      modifies this`lock, this`model, this`history, this`states
      ensures AtRest() && Since(old(history)) && lock == None && model.log == old(model.log)
    {
      NothingStaged(outcome);
      Take(Proceed(true));
      lock := None;
    }

    /** Dropping a publication deletes its staging area, if that succeeds, and releases the lock. */
    method Drop(outcome: Outcome, ok: bool)
      requires Valid() && Position() == Closing(outcome)
      modifies this`contents, this`retired, this`deleted, this`orphaned, this`lock, this`model, this`history,
               this`states
      ensures AtRest() && Since(old(history)) && lock == None && model.log == old(model.log)
      ensures deleted == old(deleted) + if ok then old(Slot(contents) + retired) else {}
      ensures orphaned == old(orphaned) + if ok then {} else old(Slot(contents) + retired)
    {
      DeleteStaging(outcome, ok);
      Release(outcome);
    }

    // ---------------------------------------------------------------- what the protocol says about this disk

    /** What is about to be renamed is there. */
    lemma SourcePresent()
      requires Valid()
      ensures Position() in {RecoverRename, BeginRename, PublishRollback} ==> previous.Some?
      ensures Position() in {BeginRetire, PublishCleanup} ==> previous.Some?
      ensures Position() == PublishRetire ==> destination.Some?
      ensures Position().PublishInstall? ==> contents.Some?
    {
      assert Kept(states, |history|);
      assert model.lock == Some(process) || Unlocked(At(model, process));
    }

    /** Whoever has the publication finds the committed directory in place and `.previous` empty. */
    lemma ReadyBegun()
      requires Valid() && Position() == Ready
      ensures Begun() && contents == Some(At(model, process).mine) && At(model, process).base == |model.log|
    {
      assert Kept(states, |history|);
      assert model.lock == Some(process) || Unlocked(At(model, process));
    }

    lemma IdleRests()
      requires Valid() && Position() == Idle
      ensures AtRest() && (previous == None ==> destination == Committed(model))
    {
      assert Kept(states, |history|);
      assert model.lock == Some(process) || Unlocked(At(model, process));
    }

    lemma SlotsSettled()
      requires Valid() && Position() in {BeginStage, Releasing(Recovered)}
      ensures destination == Committed(model)
    {
      assert Kept(states, |history|);
      assert model.lock == Some(process) || Unlocked(At(model, process));
    }

    lemma NothingStaged(outcome: Outcome)
      requires Valid() && Position() == Releasing(outcome)
      ensures contents == None && retired == {}
    {
      assert Kept(states, |history|);
      assert model.lock == Some(process) || Unlocked(At(model, process));
    }

    lemma OutcomeHolds(outcome: Outcome)
      requires Valid() && Position() == Releasing(outcome)
      ensures OutcomeOk(model, At(model, process), outcome)
    {
      assert Kept(states, |history|);
      assert model.lock == Some(process) || Unlocked(At(model, process));
    }

    // ---------------------------------------------------------------- the calls

    /** A replacement was cut short between its two renames. */
    predicate IsInterrupted()
      reads this
    {
      destination == None && previous.Some?
    }

    /** Under the lock: `begin` and `recover` undo an interrupted replacement. */
    method RecoverPrevious(begin: bool, restore: bool) returns (ok: bool)
      requires Valid() && Position() == if begin then BeginLocked else RecoverLocked
      modifies this`destination, this`previous, this`model, this`history, this`states
      ensures Valid() && Since(old(history)) && model.log == old(model.log)
      ensures Position() == if ok then (if begin then BeginStage else Releasing(Recovered))
                            else Releasing(if begin then BeginFailed else RecoverFailed)
      ensures ok <==> (old(IsInterrupted()) ==> restore)
      ensures ok ==> destination == Committed(model)
      ensures previous == if ok && old(IsInterrupted()) then None else old(previous)
      ensures destination == if ok && old(IsInterrupted()) then old(previous) else old(destination)
    {
      ok := true;
      var interrupted := Look(begin);
      if interrupted {
        ok := restore;
        MovePreviousBack(restore);
      }
      if ok {
        SlotsSettled();
      }
    }

    /**
      * `recover` succeeds if and only if there is nothing to look at, or the lock can be taken and an interrupted
      * replacement undone; the committed directory is then in place, and otherwise nothing has changed.
      */
    method Recover(a: Answers) returns (ok: bool)
      requires AtRest()
      modifies this`destination, this`previous, this`lock, this`model, this`history, this`states
      ensures AtRest() && Since(old(history)) && lock == old(lock) && model.log == old(model.log)
      ensures ok <==> old(previous) == None || (a.open && old(lock) == None && (old(IsInterrupted()) ==> a.restore))
      ensures ok ==> destination == Committed(model)
      ensures previous == if ok && old(IsInterrupted()) then None else old(previous)
      ensures destination == if ok && old(IsInterrupted()) then old(previous) else old(destination)
    {
      if previous == None {
        IdleRests();
        return true;
      }
      ok := LockForRecover(a.open);
      if ok {
        ok := RecoverPrevious(false, a.restore);
        Release(if ok then Recovered else RecoverFailed);
      } else {
        IdleRests();
      }
    }

    /** The lock can be taken and an interrupted replacement undone. */
    predicate CanRestore(a: Answers)
      reads this
    {
      a.open && lock == None && IsInterrupted() && a.restore
    }

    /** Every operation of `begin` that is reached succeeds. */
    predicate CanBegin(a: Answers)
      reads this
    {
      && a.open && lock == None && a.stage
      && (previous.Some? ==> if destination == None then a.restore else a.retire)
    }

    /**
      * `begin` succeeds if and only if every operation it reaches does. The committed directory is then in place,
      * `.previous` is empty, the contents are fresh and a leftover `.previous` waits in the staging area.
      */
    method Begin(a: Answers) returns (ok: bool)
      requires AtRest()
      modifies this`destination, this`previous, this`lock, this`contents, this`retired, this`deleted, this`orphaned,
               this`next, this`model, this`history, this`states
      ensures ok <==> old(CanBegin(a))
      ensures if ok then Begun() && contents == Some(old(next)) else AtRest() && lock == old(lock)
      ensures ok ==> retired == old(if destination.Some? then Slot(previous) else {})
      ensures destination == old(if CanRestore(a) then previous else destination)
      ensures previous == if ok || old(CanRestore(a)) then None else old(previous)
      ensures Since(old(history)) && model.log == old(model.log)
    {
      if !a.open {
        return false;
      }
      ok := LockForBegin();
      if ok {
        ok := Prepare(a);
      } else {
        IdleRests();
      }
    }

    /** `begin` under the lock. */
    method Prepare(a: Answers) returns (ok: bool)
      requires Valid() && Position() == BeginLocked
      modifies this`destination, this`previous, this`lock, this`contents, this`retired, this`deleted, this`orphaned,
               this`next, this`model, this`history, this`states
      ensures ok <==> a.stage && (old(previous).Some? ==> if old(destination) == None then a.restore else a.retire)
      ensures if ok then Begun() && contents == Some(old(next)) else AtRest() && lock == None
      ensures ok ==> retired == old(if destination.Some? then Slot(previous) else {})
      ensures destination == old(if IsInterrupted() && a.restore then previous else destination)
      ensures previous == if ok || old(IsInterrupted() && a.restore) then None else old(previous)
      ensures Since(old(history)) && model.log == old(model.log)
    {
      ok := RecoverPrevious(true, a.restore);
      if ok {
        ok := StageContents(a);
      } else {
        Release(BeginFailed);
      }
    }

    /** The second half of `begin`. */
    method StageContents(a: Answers) returns (ok: bool)
      requires Valid() && Position() == BeginStage
      modifies this`previous, this`lock, this`contents, this`retired, this`deleted, this`orphaned, this`next,
               this`model, this`history, this`states
      ensures ok <==> a.stage && (old(previous).Some? ==> a.retire)
      ensures if ok then Begun() && contents == Some(old(next)) else AtRest() && lock == None
      ensures ok ==> retired == old(Slot(previous))
      ensures previous == if ok then None else old(previous)
      ensures Since(old(history)) && model.log == old(model.log)
    {
      ok := a.stage;
      CreateStaging(ok);
      if !ok {
        Release(BeginFailed);
        return;
      }
      ok := ClearLeftover(a);
    }

    method ClearLeftover(a: Answers) returns (ok: bool)
      requires Valid() && Position() == BeginStaged
      modifies this`previous, this`lock, this`contents, this`retired, this`deleted, this`orphaned, this`model,
               this`history, this`states
      ensures ok <==> (old(previous).Some? ==> a.retire)
      ensures if ok then Begun() && contents == old(contents) else AtRest() && lock == None
      ensures ok ==> retired == old(retired + Slot(previous))
      ensures previous == if ok then None else old(previous)
      ensures Since(old(history)) && model.log == old(model.log)
    {
      ok := true;
      var leftover := LookLeftover();
      if leftover {
        ok := a.retire;
        RetireLeftover(a);
      } else {
        ReadyBegun();
      }
    }

    method RetireLeftover(a: Answers)
      requires Valid() && Position() == BeginRetire
      modifies this`previous, this`lock, this`contents, this`retired, this`deleted, this`orphaned, this`model,
               this`history, this`states
      ensures if a.retire then Begun() && contents == old(contents) else AtRest() && lock == None
      ensures a.retire ==> retired == old(retired + Slot(previous))
      ensures previous == if a.retire then None else old(previous)
      ensures Since(old(history)) && model.log == old(model.log)
    {
      MovePreviousAway(a.retire);
      if a.retire {
        ReadyBegun();
      } else {
        Drop(BeginFailed, a.clear);
      }
    }

    /** A publication that is dropped instead of published leaves the slots as they are. */
    method Abandon(clear: bool)
      requires Begun()
      modifies this`lock, this`contents, this`retired, this`deleted, this`orphaned, this`model, this`history,
               this`states
      ensures AtRest() && Since(old(history)) && lock == None && model.log == old(model.log)
      ensures destination == Committed(model) && previous == None
      ensures deleted == old(deleted) + if clear then old(Slot(contents) + retired) else {}
      ensures orphaned == old(orphaned) + if clear then {} else old(Slot(contents) + retired)
    {
      Take(Action.Abandon);
      Drop(Abandoned, clear);
    }

    /** What the answers make of `publish`, by whether there is a destination to replace. */
    static ghost predicate Follows(outcome: Outcome, replacing: bool, a: Answers) {
      && (outcome == Published <==> a.install && (replacing ==> a.vacate && a.retire))
      && (outcome == RetireFailed <==> replacing && !a.vacate)
      && (outcome == InstallFailed <==> !a.install && (replacing ==> a.vacate && a.restore))
      && (outcome == RollbackFailed <==> replacing && a.vacate && !a.install && !a.restore)
      && (outcome == CleanupFailed <==> replacing && a.vacate && a.install && !a.retire)
    }

    /** What is in the staging area at the end of `publish`. */
    static ghost function Remains(outcome: Outcome, contents: Option<Directory>, retired: set<Directory>,
                                  destination: Option<Directory>): set<Directory>
    {
      retired + match outcome
                case Published => Slot(destination)
                case CleanupFailed => {}
                case _ => Slot(contents)
    }

    /**
      * `publish`: the commit is the rename of the contents to the destination. The answers decide the outcome, and
      * the outcome what is in the slots and what is deleted or left behind with the staging area.
      */
    method Publish(a: Answers) returns (outcome: Outcome)
      requires Begun()
      modifies this`destination, this`previous, this`lock, this`contents, this`retired, this`deleted, this`orphaned,
               this`model, this`history, this`states
      ensures AtRest() && Since(old(history)) && lock == None && next == old(next)
      ensures Follows(outcome, old(destination).Some?, a)
      ensures Answer(outcome, old(contents).value, old(Committed(model)), destination, previous)
      ensures model.log == LogAfter(old(model.log), old(contents).value, outcome)
      ensures deleted == old(deleted)
                         + if a.clear then Remains(outcome, old(contents), old(retired), old(destination)) else {}
      ensures orphaned == old(orphaned)
                          + if a.clear then {} else Remains(outcome, old(contents), old(retired), old(destination))
    {
      ReadyBegun();
      ghost var log := model.log;
      outcome := Replace(a);
      Conclude(outcome, a.clear, log);
    }

    /** The end of `publish`: what was found at its start is `log`. */
    method Conclude(outcome: Outcome, clear: bool, ghost log: seq<Directory>)
      requires Valid() && Position() == Closing(outcome) && At(model, process).base == |log|
      requires model.log == LogAfter(log, At(model, process).mine, outcome)
      modifies this`lock, this`contents, this`retired, this`deleted, this`orphaned, this`model, this`history,
               this`states
      ensures AtRest() && Since(old(history)) && lock == None && model.log == old(model.log)
      ensures Answer(outcome, old(At(model, process).mine), Latest(log), destination, previous)
      ensures deleted == old(deleted) + if clear then old(Slot(contents) + retired) else {}
      ensures orphaned == old(orphaned) + if clear then {} else old(Slot(contents) + retired)
    {
      DeleteStaging(outcome, clear);
      OutcomeHolds(outcome);
      AnswerFollows(model, At(model, process), outcome, log);
      Release(outcome);
    }

    /** The renames of `publish`. */
    method Replace(a: Answers) returns (outcome: Outcome)
      requires Valid() && Position() == Ready
      modifies this`destination, this`previous, this`contents, this`retired, this`model, this`history, this`states
      ensures Valid() && Since(old(history)) && Position() == Closing(outcome)
      ensures Follows(outcome, old(destination).Some?, a)
      ensures At(model, process).mine == old(At(model, process).mine)
      ensures At(model, process).base == old(At(model, process).base)
      ensures model.log == LogAfter(old(model.log), At(model, process).mine, outcome)
      ensures Slot(contents) + retired == Remains(outcome, old(contents), old(retired), old(destination))
    {
      var replacing, free := MakeRoom(a.vacate);
      if free {
        outcome := Exchange(replacing, a);
      } else {
        outcome := RetireFailed;
      }
    }

    /** The destination, if there is one, makes room for the contents. */
    method MakeRoom(vacate: bool) returns (replacing: bool, ok: bool)
      requires Valid() && Position() == Ready
      modifies this`destination, this`previous, this`model, this`history, this`states
      ensures Valid() && Since(old(history)) && model.log == old(model.log)
      ensures At(model, process) == old(At(model, process)).(pc := Position())
      ensures replacing == old(destination).Some? && (ok <==> (replacing ==> vacate))
      ensures Position() == if ok then PublishInstall(replacing) else Closing(RetireFailed)
      ensures ok && replacing ==> previous == old(destination)
    {
      ok := true;
      replacing := StartPublish();
      if replacing {
        ok := vacate;
        MoveDestinationAway(vacate);
      }
    }

    /** How the call ends once the destination is vacant. */
    static function Committing(replacing: bool, a: Answers): Outcome {
      if a.install then (if replacing && !a.retire then CleanupFailed else Published)
      else if replacing && !a.restore then RollbackFailed
      else InstallFailed
    }

    /** The commit, and what follows its success or failure. */
    method Exchange(replacing: bool, a: Answers) returns (outcome: Outcome)
      requires Valid() && Position() == PublishInstall(replacing)
      modifies this`destination, this`previous, this`contents, this`retired, this`model, this`history, this`states
      ensures Valid() && Since(old(history)) && Position() == Closing(outcome)
      ensures outcome == Committing(replacing, a)
      ensures At(model, process).mine == old(At(model, process).mine)
      ensures At(model, process).base == old(At(model, process).base)
      ensures model.log == LogAfter(old(model.log), At(model, process).mine, outcome)
      ensures contents == if a.install then None else old(contents)
      ensures retired == if replacing && outcome == Published then old(retired + Slot(previous)) else old(retired)
    {
      MoveContentsIn(replacing, a.install);
      outcome := if a.install then Published else InstallFailed;
      if replacing {
        outcome := Settle(a);
      }
    }

    /** After the commit of a replacement, or its failure: `.previous` is cleaned up or comes back. */
    method Settle(a: Answers) returns (outcome: Outcome)
      requires Valid() && Position() == if a.install then PublishCleanup else PublishRollback
      modifies this`destination, this`previous, this`retired, this`model, this`history, this`states
      ensures Valid() && Since(old(history)) && Position() == Closing(outcome) && model.log == old(model.log)
      ensures outcome == Committing(true, a)
      ensures At(model, process).mine == old(At(model, process).mine)
      ensures At(model, process).base == old(At(model, process).base)
      ensures retired == if outcome == Published then old(retired + Slot(previous)) else old(retired)
    {
      if a.install {
        MovePreviousAway(a.retire);
        outcome := if a.retire then Published else CleanupFailed;
      } else {
        MovePreviousBack(a.restore);
        outcome := if a.restore then InstallFailed else RollbackFailed;
      }
    }
  }
}

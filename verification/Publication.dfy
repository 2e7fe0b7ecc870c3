/**
  * Crash-safe publication of a directory (xtask/src/bundle.rs), as a protocol over the destination,
  * the `.previous` slot, per-process staging areas and the publication lock.
  *
  * A `Directory` is the identity of one directory tree; renames move identities between slots. Each
  * step is one file-system operation of one process. `Proceed(ok)` performs the operation the process
  * is about to do, with the file system answering success or failure; `Crash` may strike between any
  * two steps and releases the lock, leaving the staging area behind.
  */
module Publication {

  import opened Options

  type Directory = nat
  type Process = nat

  datatype Outcome =
    | Recovered | RecoverFailed | BeginFailed | Abandoned
    | Published | RetireFailed | InstallFailed | RollbackFailed | CleanupFailed

  datatype Pc =
    | Idle
    | RecoverSeen            // `.previous` existed; the lock is not yet taken
    | RecoverLocked          // about to look for an interrupted replacement
    | RecoverRename          // about to rename `.previous` back
    | BeginLocked            // about to look for an interrupted replacement
    | BeginRename            // about to rename `.previous` back
    | BeginStage             // about to create the staging area
    | BeginStaged            // about to look for a leftover `.previous`
    | BeginRetire            // about to move the leftover into the staging area
    | Ready                  // the caller owns a publication and fills its contents
    | PublishRetire          // about to rename the destination to `.previous`
    | PublishInstall(replacing: bool) // about to rename the contents to the destination
    | PublishRollback        // about to rename `.previous` back after a failed install
    | PublishCleanup         // about to move `.previous` into the staging area
    | Closing(outcome: Outcome)   // about to delete the staging area
    | Releasing(outcome: Outcome) // about to release the lock

  /** A process: where it is, what its staging area holds, and what it staged and found published. */
  datatype Proc = Proc(pc: Pc, contents: Option<Directory>, retired: set<Directory>, mine: Directory, base: nat)

  const IDLE := Proc(Idle, None, {}, 0, 0)

  datatype State = State(
    destination: Option<Directory>,
    previous: Option<Directory>,
    lock: Option<Process>,
    procs: map<Process, Proc>,
    orphaned: set<Directory>,    // left in staging areas of crashed processes
    deleted: set<Directory>,     // deleted with a staging area
    overwritten: set<Directory>, // replaced by a rename onto an occupied slot
    log: seq<Directory>,         // directories that became the destination by a commit, oldest first
    next: Directory)             // identity of the next directory to be created

  datatype Action = StartRecover | StartBegin | Publish | Abandon | Proceed(ok: bool) | Crash

  function At(s: State, p: Process): Proc {
    if p in s.procs then s.procs[p] else IDLE
  }

  function Go(s: State, p: Process, pc: Pc): State {
    s.(procs := s.procs[p := At(s, p).(pc := pc)])
  }

  function Slot(o: Option<Directory>): set<Directory> {
    if o.Some? then {o.value} else {}
  }

  function Held(q: Proc): set<Directory> {
    Slot(q.contents) + q.retired
  }

  // ------------------------------------------------------------------ renames

  function RetireDestination(s: State): State {
    s.(destination := None, previous := s.destination, overwritten := s.overwritten + Slot(s.previous))
  }

  function RestorePrevious(s: State): State {
    s.(destination := s.previous, previous := None, overwritten := s.overwritten + Slot(s.destination))
  }

  function RetirePrevious(s: State, p: Process): State {
    var q := At(s, p);
    s.(previous := None, procs := s.procs[p := q.(retired := q.retired + Slot(s.previous))])
  }

  /** The commit point: the staged contents become the destination. */
  function Install(s: State, p: Process): State {
    var q := At(s, p);
    s.(destination := q.contents, overwritten := s.overwritten + Slot(s.destination),
       log := s.log + [q.mine], procs := s.procs[p := q.(contents := None)])
  }

  // ------------------------------------------------------------------ steps

  function Acquire(s: State, p: Process, pc: Pc): State {
    if s.lock == None then Go(s.(lock := Some(p)), p, pc) else Go(s, p, Idle)
  }

  function Stage(s: State, p: Process): State {
    s.(next := s.next + 1, procs := s.procs[p := Proc(BeginStaged, Some(s.next), {}, s.next, |s.log|)])
  }

  function Operate(s: State, p: Process, ok: bool): State {
    match At(s, p).pc
    case Idle => s
    case RecoverSeen => if ok then Acquire(s, p, RecoverLocked) else Go(s, p, Idle)
    case RecoverLocked =>
      Go(s, p, if s.destination == None && s.previous.Some? then RecoverRename else Releasing(Recovered))
    case RecoverRename =>
      if ok && s.previous.Some? then Go(RestorePrevious(s), p, Releasing(Recovered))
      else Go(s, p, Releasing(RecoverFailed))
    case BeginLocked => Go(s, p, if s.destination == None && s.previous.Some? then BeginRename else BeginStage)
    case BeginRename =>
      if ok && s.previous.Some? then Go(RestorePrevious(s), p, BeginStage) else Go(s, p, Releasing(BeginFailed))
    case BeginStage => if ok then Stage(s, p) else Go(s, p, Releasing(BeginFailed))
    case BeginStaged => Go(s, p, if s.previous.Some? then BeginRetire else Ready)
    case BeginRetire =>
      if ok && s.previous.Some? then Go(RetirePrevious(s, p), p, Ready) else Go(s, p, Closing(BeginFailed))
    case Ready => s
    case PublishRetire =>
      if ok && s.destination.Some? then Go(RetireDestination(s), p, PublishInstall(true))
      else Go(s, p, Closing(RetireFailed))
    case PublishInstall(replacing) =>
      if ok && At(s, p).contents.Some? then
        Go(Install(s, p), p, if replacing then PublishCleanup else Closing(Published))
      else
        Go(s, p, if replacing then PublishRollback else Closing(InstallFailed))
    case PublishRollback =>
      if ok && s.previous.Some? then Go(RestorePrevious(s), p, Closing(InstallFailed))
      else Go(s, p, Closing(RollbackFailed))
    case PublishCleanup =>
      if ok && s.previous.Some? then Go(RetirePrevious(s, p), p, Closing(Published))
      else Go(s, p, Closing(CleanupFailed))
    case Closing(outcome) =>
      var q := At(s, p);
      var emptied := s.(procs := s.procs[p := q.(pc := Releasing(outcome), contents := None, retired := {})]);
      if ok then emptied.(deleted := s.deleted + Held(q)) else emptied.(orphaned := s.orphaned + Held(q))
    case Releasing(_) => s.(lock := None, procs := s.procs[p := IDLE])
  }

  /** One step of process `p`; an action that its position does not offer leaves the state alone. */
  function Step(s: State, p: Process, a: Action): State {
    var pc := At(s, p).pc;
    match a
    case StartRecover => if pc == Idle && s.previous.Some? then Go(s, p, RecoverSeen) else s
    case StartBegin => if pc == Idle then Acquire(s, p, BeginLocked) else s
    case Publish =>
      if pc == Ready then Go(s, p, if s.destination.Some? then PublishRetire else PublishInstall(false)) else s
    case Abandon => if pc == Ready then Go(s, p, Closing(Abandoned)) else s
    case Proceed(ok) => Operate(s, p, ok)
    case Crash =>
      s.(lock := if s.lock == Some(p) then None else s.lock,
         orphaned := s.orphaned + Held(At(s, p)), procs := s.procs[p := IDLE])
  }

  datatype Event = Event(process: Process, action: Action)

  /** The state after a whole interleaving of steps. */
  function Run(s: State, events: seq<Event>): State
    decreases |events|
  {
    if events == [] then s else Run(Step(s, events[0].process, events[0].action), events[1..])
  }

  /** No process is active; the slots may already hold directories from before. */
  ghost predicate Initial(s: State) {
    && s.lock == None && s.procs == map[]
    && s.orphaned == {} && s.deleted == {} && s.overwritten == {}
    && match (s.destination, s.previous) {
         case (None, None) => s.log == [] && s.next == 0
         case (Some(d), None) => d == 0 && s.log == [0] && s.next == 1
         case (None, Some(d)) => d == 0 && s.log == [0] && s.next == 1
         case (Some(d), Some(e)) => e == 0 && d == 1 && s.log == [0, 1] && s.next == 2
       }
  }

  // ------------------------------------------------------------------ what every run keeps

  /** The last committed directory, if any. */
  function Committed(s: State): Option<Directory> {
    if s.log == [] then None else Some(s.log[|s.log| - 1])
  }

  /** The committed directory is at the destination, or the destination is absent and `.previous` holds it. */
  ghost predicate CommittedPresent(s: State) {
    || s.destination == Committed(s)
    || (s.destination == None && s.previous == Committed(s))
  }

  /** Directories that were committed and have been replaced since. */
  ghost function Superseded(s: State): set<Directory> {
    set i | 0 <= i < |s.log| - 1 :: s.log[i]
  }

  function Staged(s: State): set<Directory> {
    if s.lock.Some? then Held(At(s, s.lock.value)) else {}
  }

  function Places(s: State, d: Directory): nat {
    (if d in Slot(s.destination) then 1 else 0) + (if d in Slot(s.previous) then 1 else 0)
    + (if d in Staged(s) then 1 else 0) + (if d in s.orphaned then 1 else 0)
    + (if d in s.deleted then 1 else 0) + (if d in s.overwritten then 1 else 0)
  }

  /** Every directory ever created is in exactly one place. */
  ghost predicate Conserved(s: State) {
    forall d: Directory :: Places(s, d) == if d < s.next then 1 else 0
  }

  ghost predicate LogOk(s: State) {
    && (forall i, j :: 0 <= i < j < |s.log| ==> s.log[i] != s.log[j])
    && (forall d :: d in s.log ==> d < s.next)
    && (s.previous.Some? ==> s.previous.value in s.log)
  }

  ghost predicate Unlocked(q: Proc) {
    q.pc in {Idle, RecoverSeen} && q.contents == None && q.retired == {}
  }

  /** The staging area of a process between `begin` and the commit. */
  ghost predicate Prepared(s: State, q: Proc) {
    q.contents == Some(q.mine) && q.mine !in s.log && q.base == |s.log| && q.retired <= Superseded(s)
  }

  ghost predicate Installed(s: State, q: Proc) {
    && q.contents == None && |s.log| == q.base + 1 && s.log[q.base] == q.mine
    && s.destination == Some(q.mine) && q.retired <= Superseded(s)
  }

  ghost predicate NoStaging(q: Proc) {
    q.contents == None && q.retired == {}
  }

  ghost predicate Interrupted(s: State) {
    s.destination == None && s.previous.Some? && s.previous == Committed(s)
  }

  /** Destination and `.previous` agree with a publication that is not under way. */
  ghost predicate Settled(s: State) {
    s.destination == Committed(s)
  }

  ghost predicate PreviousJustReplaced(s: State) {
    |s.log| >= 2 && s.previous == Some(s.log[|s.log| - 2])
  }

  /** What is known about the lock holder at each position. */
  ghost predicate HolderOk(s: State, q: Proc) {
    match q.pc
    case Idle => false
    case RecoverSeen => false
    case RecoverLocked => NoStaging(q)
    case RecoverRename => NoStaging(q) && Interrupted(s)
    case BeginLocked => NoStaging(q)
    case BeginRename => NoStaging(q) && Interrupted(s)
    case BeginStage => NoStaging(q) && Settled(s)
    case BeginStaged => Prepared(s, q) && Settled(s)
    case BeginRetire => Prepared(s, q) && Settled(s) && s.previous.Some?
    case Ready => Prepared(s, q) && Settled(s) && s.previous == None
    case PublishRetire => Prepared(s, q) && Settled(s) && s.previous == None && s.destination.Some?
    case PublishInstall(replacing) =>
      && Prepared(s, q) && s.destination == None
      && (if replacing then Interrupted(s) else s.previous == None && Settled(s))
    case PublishRollback => Prepared(s, q) && Interrupted(s)
    case PublishCleanup => Installed(s, q) && PreviousJustReplaced(s)
    case Closing(outcome) => OutcomeOk(s, q, outcome) && StagingOk(s, q, outcome)
    case Releasing(outcome) => NoStaging(q) && OutcomeOk(s, q, outcome)
  }

  ghost predicate StagingOk(s: State, q: Proc, outcome: Outcome) {
    if outcome in {Published, CleanupFailed} then Installed(s, q) else Prepared(s, q)
  }

  /** What each answer given to the caller says about the slots at that moment. */
  ghost predicate OutcomeOk(s: State, q: Proc, outcome: Outcome) {
    match outcome
    case Recovered => Settled(s)
    case RecoverFailed => Interrupted(s)
    case BeginFailed => Settled(s) || Interrupted(s)
    case Abandoned => Settled(s) && s.previous == None
    case Published => Settled(s) && s.previous == None && |s.log| == q.base + 1 && s.log[q.base] == q.mine
    case RetireFailed => Settled(s) && s.previous == None && |s.log| == q.base
    case InstallFailed => Settled(s) && s.previous == None && |s.log| == q.base
    case RollbackFailed => Interrupted(s) && |s.log| == q.base
    case CleanupFailed => Settled(s) && PreviousJustReplaced(s) && |s.log| == q.base + 1 && s.log[q.base] == q.mine
  }

  /** What each answer of `publish` says about the slots, given what was staged and what was committed before. */
  ghost predicate Answer(outcome: Outcome, mine: Directory, committed: Option<Directory>,
                         destination: Option<Directory>, previous: Option<Directory>) {
    match outcome
    case Published => destination == Some(mine) && previous == None
    case CleanupFailed => destination == Some(mine) && previous == committed
    case RetireFailed => destination == committed && previous == None
    case InstallFailed => destination == committed && previous == None
    case RollbackFailed => destination == None && previous == committed
    case _ => true
  }

  ghost predicate LockOk(s: State) {
    && (forall p: Process :: s.lock != Some(p) ==> Unlocked(At(s, p)))
    && (s.lock.Some? ==> HolderOk(s, At(s, s.lock.value)))
  }

  ghost predicate SlotsOk(s: State) {
    CommittedPresent(s) && LogOk(s) && Conserved(s) && s.overwritten == {}
  }

  ghost predicate Inv(s: State) {
    SlotsOk(s) && LockOk(s)
  }

  lemma InitialInv(s: State)
    requires Initial(s)
    ensures Inv(s)
  {
  }

  /** Moving one process to another position touches no directory. */
  lemma GoKeeps(s: State, p: Process, pc: Pc)
    requires SlotsOk(s)
    ensures SlotsOk(Go(s, p, pc))
  {
    forall d: Directory ensures Places(Go(s, p, pc), d) == Places(s, d) {
    }
  }

  lemma RestoreKeeps(s: State)
    requires SlotsOk(s) && Interrupted(s)
    ensures SlotsOk(RestorePrevious(s)) && Settled(RestorePrevious(s))
  {
    forall d: Directory ensures Places(RestorePrevious(s), d) == Places(s, d) {
    }
  }

  lemma RetireDestinationKeeps(s: State)
    requires SlotsOk(s) && Settled(s) && s.previous == None && s.destination.Some?
    ensures SlotsOk(RetireDestination(s)) && Interrupted(RetireDestination(s))
  {
    forall d: Directory ensures Places(RetireDestination(s), d) == Places(s, d) {
    }
  }

  /** Only a superseded directory is moved out of `.previous` into a staging area. */
  lemma RetirePreviousKeeps(s: State, p: Process)
    requires SlotsOk(s) && s.lock == Some(p) && Settled(s) && s.previous.Some?
    ensures SlotsOk(RetirePrevious(s, p)) && s.previous.value in Superseded(s)
  {
    var d := s.previous.value;
    assert Places(s, d) == 1;
    var i :| 0 <= i < |s.log| && s.log[i] == d;
    forall d: Directory ensures Places(RetirePrevious(s, p), d) == Places(s, d) {
      assert Places(s, d) <= 1;
    }
  }

  lemma InstallKeeps(s: State, p: Process)
    requires SlotsOk(s) && s.lock == Some(p) && s.destination == None && Prepared(s, At(s, p))
    ensures
      var t := Install(s, p);
      SlotsOk(t) && Installed(t, At(t, p))
  {
    var t := Install(s, p);
    assert s.log == t.log[..|s.log|];
    assert Places(s, At(s, p).mine) == 1;
    forall d: Directory ensures Places(t, d) == Places(s, d) {
      assert Places(s, d) <= 1;
    }
    forall d | d in At(t, p).retired ensures d in Superseded(t) {
      var i :| 0 <= i < |s.log| - 1 && s.log[i] == d;
      assert t.log[i] == d;
    }
  }

  lemma StageKeeps(s: State, p: Process)
    requires SlotsOk(s) && s.lock == Some(p) && NoStaging(At(s, p))
    ensures SlotsOk(Stage(s, p)) && Prepared(Stage(s, p), At(Stage(s, p), p))
  {
    var t := Stage(s, p);
    forall d: Directory ensures Places(t, d) == if d < t.next then 1 else 0 {
      assert Places(s, d) == if d < s.next then 1 else 0;
    }
  }

  /** Whether a staging area is deleted, left behind by a failed deletion, or orphaned by a crash. */
  lemma CloseKeeps(s: State, p: Process, ok: bool, lock: Option<Process>, q: Proc)
    requires SlotsOk(s) && (lock == s.lock || (s.lock == Some(p) && lock == None)) && NoStaging(q)
    requires s.lock != Some(p) ==> Held(At(s, p)) == {}
    ensures
      var emptied := s.(procs := s.procs[p := q], lock := lock);
      SlotsOk(if ok then emptied.(deleted := s.deleted + Held(At(s, p)))
              else emptied.(orphaned := s.orphaned + Held(At(s, p))))
  {
    var emptied := s.(procs := s.procs[p := q], lock := lock);
    var t := if ok then emptied.(deleted := s.deleted + Held(At(s, p)))
             else emptied.(orphaned := s.orphaned + Held(At(s, p)));
    forall d: Directory ensures Places(t, d) == Places(s, d) {
      assert Places(s, d) <= 1;
    }
  }

  /** What is known about the holder depends on the slots and the log only. */
  lemma HolderSame(s: State, t: State, q: Proc)
    requires t.destination == s.destination && t.previous == s.previous && t.log == s.log
    requires HolderOk(s, q)
    ensures HolderOk(t, q)
  {
    assert Superseded(t) == Superseded(s);
  }

  /** A process without the lock changes: what is known about the lock stays. */
  lemma BystanderKeeps(s: State, t: State, p: Process)
    requires LockOk(s) && s.lock != Some(p) && t.lock == s.lock && Unlocked(At(t, p))
    requires forall o: Process :: o != p ==> At(t, o) == At(s, o)
    requires t.destination == s.destination && t.previous == s.previous && t.log == s.log
    ensures LockOk(t)
  {
    if s.lock.Some? {
      HolderSame(s, t, At(s, s.lock.value));
    }
  }

  /** The holder gives the lock up with nothing staged. */
  lemma GivenUpKeeps(s: State, t: State, p: Process)
    requires LockOk(s) && s.lock == Some(p) && t.lock == None && At(t, p) == IDLE
    requires forall o: Process :: o != p ==> At(t, o) == At(s, o)
    ensures LockOk(t)
  {
  }

  lemma Land(s: State, t: State, p: Process)
    requires LockOk(s) && s.lock == Some(p) && t.lock == Some(p)
    requires forall o: Process :: o != p ==> At(t, o) == At(s, o)
    requires SlotsOk(t) && HolderOk(t, At(t, p))
    ensures Inv(t)
  {
  }

  /** A position change alone, when the new position's facts already hold. */
  lemma GoLands(s: State, p: Process, pc: Pc)
    requires Inv(s) && s.lock == Some(p) && HolderOk(Go(s, p, pc), At(s, p).(pc := pc))
    ensures Inv(Go(s, p, pc))
  {
    GoKeeps(s, p, pc);
    Land(s, Go(s, p, pc), p);
  }

  /** A file-system operation of the lock holder followed by a position change. */
  lemma OperationLands(s: State, u: State, p: Process, pc: Pc)
    requires LockOk(s) && s.lock == Some(p) && u.lock == Some(p)
    requires forall o: Process :: o != p ==> At(u, o) == At(s, o)
    requires SlotsOk(u) && HolderOk(Go(u, p, pc), At(u, p).(pc := pc))
    ensures Inv(Go(u, p, pc))
  {
    GoKeeps(u, p, pc);
    Land(s, Go(u, p, pc), p);
  }

  lemma RestoreLands(s: State, p: Process, ok: bool)
    requires Inv(s) && s.lock == Some(p) && At(s, p).pc in {RecoverRename, BeginRename, PublishRollback}
    ensures Inv(Operate(s, p, ok))
  {
    var pc := At(Operate(s, p, ok), p).pc;
    if ok {
      RestoreKeeps(s);
      OperationLands(s, RestorePrevious(s), p, pc);
    } else {
      GoLands(s, p, pc);
    }
  }

  lemma RetirePreviousLands(s: State, p: Process, ok: bool)
    requires Inv(s) && s.lock == Some(p) && At(s, p).pc in {BeginRetire, PublishCleanup}
    ensures Inv(Operate(s, p, ok))
  {
    var pc := At(Operate(s, p, ok), p).pc;
    if ok {
      RetirePreviousKeeps(s, p);
      OperationLands(s, RetirePrevious(s, p), p, pc);
    } else {
      GoLands(s, p, pc);
    }
  }

  lemma BeginLands(s: State, p: Process, ok: bool)
    requires Inv(s) && s.lock == Some(p) && At(s, p).pc in {RecoverLocked, BeginLocked, BeginStage, BeginStaged}
    ensures Inv(Operate(s, p, ok))
  {
    if ok && At(s, p).pc == BeginStage {
      StageKeeps(s, p);
      Land(s, Stage(s, p), p);
    } else {
      GoLands(s, p, At(Operate(s, p, ok), p).pc);
    }
  }

  lemma RetireDestinationLands(s: State, p: Process, ok: bool)
    requires Inv(s) && s.lock == Some(p) && At(s, p).pc == PublishRetire
    ensures Inv(Operate(s, p, ok))
  {
    if ok {
      RetireDestinationKeeps(s);
      OperationLands(s, RetireDestination(s), p, PublishInstall(true));
    } else {
      GoLands(s, p, Closing(RetireFailed));
    }
  }

  lemma InstallLands(s: State, p: Process, ok: bool)
    requires Inv(s) && s.lock == Some(p) && At(s, p).pc.PublishInstall?
    ensures Inv(Operate(s, p, ok))
  {
    var pc := At(Operate(s, p, ok), p).pc;
    if ok {
      InstallKeeps(s, p);
      OperationLands(s, Install(s, p), p, pc);
    } else {
      GoLands(s, p, pc);
    }
  }

  lemma CloseLands(s: State, p: Process, ok: bool)
    requires Inv(s) && s.lock == Some(p) && At(s, p).pc.Closing?
    ensures Inv(Operate(s, p, ok))
  {
    var q := At(s, p);
    CloseKeeps(s, p, ok, s.lock, q.(pc := Releasing(q.pc.outcome), contents := None, retired := {}));
    Land(s, Operate(s, p, ok), p);
  }

  lemma ReleaseLands(s: State, p: Process, ok: bool)
    requires Inv(s) && s.lock == Some(p) && At(s, p).pc.Releasing?
    ensures Inv(Operate(s, p, ok))
  {
    var t := Operate(s, p, ok);
    CloseKeeps(s, p, false, None, IDLE);
    assert s.orphaned + Held(At(s, p)) == s.orphaned;
    GivenUpKeeps(s, t, p);
  }

  /** A process may stop anywhere: the lock is free again and the slots are as it left them. */
  lemma CrashKeeps(s: State, p: Process)
    requires Inv(s)
    ensures Inv(Step(s, p, Crash))
  {
    assert s.lock == Some(p) || Unlocked(At(s, p));
    var t := Step(s, p, Crash);
    CloseKeeps(s, p, false, t.lock, IDLE);
    if s.lock == Some(p) {
      GivenUpKeeps(s, t, p);
    } else {
      BystanderKeeps(s, t, p);
    }
  }

  lemma GoUnlocked(s: State, p: Process, pc: Pc)
    requires Inv(s) && s.lock != Some(p) && pc in {Idle, RecoverSeen}
    ensures Inv(Go(s, p, pc))
  {
    GoKeeps(s, p, pc);
    assert Unlocked(At(s, p));
    BystanderKeeps(s, Go(s, p, pc), p);
  }

  /** Taking the lock, or finding it taken. */
  lemma AcquireKeeps(s: State, p: Process, pc: Pc)
    requires Inv(s) && s.lock != Some(p) && pc in {RecoverLocked, BeginLocked}
    ensures Inv(Acquire(s, p, pc))
  {
    if s.lock == None {
      var t := s.(lock := Some(p));
      assert Unlocked(At(s, p));
      assert Staged(t) == {};
      forall d: Directory ensures Places(t, d) == Places(s, d) {
      }
      GoKeeps(t, p, pc);
      assert forall o: Process :: o != p ==> At(Go(t, p, pc), o) == At(s, o);
    } else {
      GoUnlocked(s, p, Idle);
    }
  }

  /** A process without the lock: it may look, take the lock, or find it taken. */
  lemma UnlockedKeeps(s: State, p: Process, a: Action)
    requires Inv(s) && s.lock != Some(p) && !a.Crash?
    ensures Inv(Step(s, p, a))
  {
    var pc := At(s, p).pc;
    assert Unlocked(At(s, p));
    if a == StartRecover {
      GoUnlocked(s, p, RecoverSeen);
    } else if a == StartBegin && pc == Idle {
      AcquireKeeps(s, p, BeginLocked);
    } else if a.Proceed? && pc == RecoverSeen {
      AcquireKeeps(s, p, RecoverLocked);
      GoUnlocked(s, p, Idle);
    }
  }

  lemma OperateKeeps(s: State, p: Process, ok: bool)
    requires Inv(s) && s.lock == Some(p)
    ensures Inv(Operate(s, p, ok))
  {
    match At(s, p).pc
    case RecoverRename => RestoreLands(s, p, ok);
    case BeginRename => RestoreLands(s, p, ok);
    case PublishRollback => RestoreLands(s, p, ok);
    case BeginRetire => RetirePreviousLands(s, p, ok);
    case PublishCleanup => RetirePreviousLands(s, p, ok);
    case PublishRetire => RetireDestinationLands(s, p, ok);
    case PublishInstall(_) => InstallLands(s, p, ok);
    case Closing(_) => CloseLands(s, p, ok);
    case Releasing(_) => ReleaseLands(s, p, ok);
    case Ready =>
    case _ => BeginLands(s, p, ok);
  }

  lemma StepKeeps(s: State, p: Process, a: Action)
    requires Inv(s)
    ensures Inv(Step(s, p, a))
  {
    var t := Step(s, p, a);
    if a == Crash {
      CrashKeeps(s, p);
    } else if s.lock != Some(p) {
      UnlockedKeeps(s, p, a);
    } else if a.Proceed? {
      OperateKeeps(s, p, a.ok);
    } else if At(s, p).pc == Ready && a in {Publish, Abandon} {
      GoLands(s, p, At(t, p).pc);
    }
  }
}

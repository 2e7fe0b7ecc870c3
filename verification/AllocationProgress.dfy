/** No call of the allocation probe is stuck behind the spin lock, whatever callbacks are nested. */
module AllocationProgress {
  import opened AllocationRuns
  import opened AllocationSteps
  import opened Options

  const LONGEST := 5 // the most steps that a critical section takes

  /** How many of its own steps a call at `f` takes to give the lock up. */
  function Left(f: Frame): nat {
    match f
    case Linking(_, stage) =>
      (match stage
       case Acquired => 5
       case Pushed => 4
       case CountedLive => 3
       case CountedAllocated => 2
       case CountedRetained => 1)
    case Searching(_) => 4
    case Unlinking(_, found, stage) =>
      if found == None then 1
      else (match stage case Cut => 3 case UncountedLive => 2 case UncountedRetained => 1)
    case _ => 0
  }

  /** Thread `t` holds the lock and gives it up within `n` of its own steps. */
  ghost predicate Holds(s: State, t: Thread, n: nat) {
    s.shared.lock == Some(t) && Last(Stack(s, t)).Some? && 0 < Left(Last(Stack(s, t)).value) <= n
  }

  /** In a reachable state every holder is within the longest critical section. */
  lemma HolderBounded(s: State, t: Thread)
    requires LockOk(s) && s.shared.lock == Some(t)
    ensures Holds(s, t, LONGEST)
  {
    assert TopHolds(Stack(s, t));
  }

  /** A step of the holder brings it closer or gives the lock up. */
  lemma HolderAdvances(s: State, t: Thread, answer: Option<nat>, n: nat)
    requires Holds(s, t, n)
    ensures
      var s' := Step(s, t, Proceed(answer));
      s'.shared.lock == None || (n > 1 && Holds(s', t, n - 1))
  {
    var f, stack := Last(Stack(s, t)).value, Stack(s, t);
    var (x, edit) := Effect(s.shared, t, f, answer);
    if edit.Become? {
      assert Last(Edited(stack, edit)) == Some(edit.f);
    }
  }

  /** Nothing else takes the lock from it: no other thread, and no call made meanwhile. */
  lemma HolderUndisturbed(s: State, t: Thread, o: Thread, a: Action, n: nat)
    requires LockOk(s) && Holds(s, t, n) && (o != t || !a.Proceed?)
    ensures Holds(Step(s, o, a), t, n)
  {
    assert s.shared.lock == Some(o) <==> TopHolds(Stack(s, o));
    if o != t {
      OthersKeepLock(s, t, o, a);
    } else {
      assert TopHolds(Stack(s, t));
    }
  }

  lemma OthersKeepLock(s: State, t: Thread, o: Thread, a: Action)
    requires s.shared.lock == Some(t) && o != t && !TopHolds(Stack(s, o))
    ensures Step(s, o, a).shared.lock == Some(t) && Stack(Step(s, o, a), t) == Stack(s, t)
  {
  }

  /** The steps that thread `t` takes in a run. */
  function OwnSteps(events: seq<Event>, t: Thread): nat {
    if events == [] then 0
    else (if events[0].thread == t && events[0].action.Proceed? then 1 else 0) + OwnSteps(events[1..], t)
  }

  /** Once the holder has taken that many steps, in any interleaving, the lock has been free in between. */
  lemma {:induction false} LockComesFree(s: State, t: Thread, events: seq<Event>, n: nat) returns (i: nat)
    requires LockOk(s) && Holds(s, t, n) && OwnSteps(events, t) >= n
    ensures i <= |events| && Run(s, events[..i]).shared.lock == None
    decreases |events|
  {
    var e := events[0];
    var s' := Step(s, e.thread, e.action);
    LockKept(s, e.thread, e.action);
    var m := n;
    if e.thread == t && e.action.Proceed? {
      HolderAdvances(s, t, e.action.answer, n);
      if s'.shared.lock == None {
        RunOne(s, events);
        return 1;
      }
      m := n - 1;
    } else {
      HolderUndisturbed(s, t, e.thread, e.action, n);
    }
    var j := LockComesFree(s', t, events[1..], m);
    RunFirst(s, events, j);
    i := j + 1;
  }

  lemma RunOne(s: State, events: seq<Event>)
    requires events != []
    ensures Run(s, events[..1]) == Step(s, events[0].thread, events[0].action)
  {
    assert events[..1] == [events[0]] && [events[0]][1..] == [];
  }

  lemma RunFirst(s: State, events: seq<Event>, j: nat)
    requires events != [] && j <= |events[1..]|
    ensures Run(s, events[..j + 1]) == Run(Step(s, events[0].thread, events[0].action), events[1..][..j])
  {
    assert events[..j + 1][0] == events[0] && events[..j + 1][1..] == events[1..][..j];
  }

  /**
    * In every reachable state with the lock held, five steps of its holder free it, whatever the other
    * threads and the callbacks under way do meanwhile.
    */
  lemma HolderReleases(start: State, before: seq<Event>, t: Thread, after: seq<Event>) returns (i: nat)
    requires start == INITIAL && Run(start, before).shared.lock == Some(t) && OwnSteps(after, t) >= LONGEST
    ensures i <= |after| && Run(Run(start, before), after[..i]).shared.lock == None
  {
    InitialInv();
    RunKeeps(start, before);
    HolderBounded(Run(start, before), t);
    i := LockComesFree(Run(start, before), t, after, LONGEST);
  }

  /** A call that waits for the lock takes it as soon as it is free, however deeply it is nested in callbacks. */
  lemma WaiterEnters(s: State, t: Thread, answer: Option<nat>)
    requires LockOk(s) && s.shared.lock == None && Last(Stack(s, t)).Some?
    requires
      var f := Last(Stack(s, t)).value;
      f.AwaitLink? || (f.Releasing? && f.memory != 0)
    ensures Step(s, t, Proceed(answer)).shared.lock == Some(t) && Holds(Step(s, t, Proceed(answer)), t, LONGEST)
  {
    LockKept(s, t, Proceed(answer));
    HolderBounded(Step(s, t, Proceed(answer)), t);
  }

  /** A thread that is in a call and cannot take a step forward waits for a lock that another thread holds. */
  lemma OnlyWaitersWait(s: State, t: Thread, answer: Option<nat>)
    requires LockOk(s) && Last(Stack(s, t)).Some? && Step(s, t, Proceed(answer)) == s
    requires Last(Stack(s, t)).value.AllocateCallback? ==> answer == None
    ensures exists o: Thread :: o != t && s.shared.lock == Some(o)
  {
    var f, stack := Last(Stack(s, t)).value, Stack(s, t);
    var (x, edit) := Effect(s.shared, t, f, answer);
    assert s.shared.lock == Some(t) <==> TopHolds(stack);
    assert Stack(Step(s, t, Proceed(answer)), t) == Edited(stack, edit);
    if edit.Become? {
      assert Last(Edited(stack, edit)) == Some(edit.f);
    }
    assert s.shared.lock.Some?;
    var o := s.shared.lock.value;
    assert o != t;
  }
}

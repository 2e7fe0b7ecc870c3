/**
  * The rejecting probe: what an allocation does between `probe_begin` and `probe_end`, and after it, told
  * by blocks, attempts and the list alone.
  */
module AllocationRejection {
  import opened AllocationSteps
  import opened AllocationRuns
  import opened AllocationCalls
  import opened Options

  /** The step is the first one of an allocation call. */
  predicate IsAttempt(s: State, e: Event) {
    e.action.Proceed? && Last(Stack(s, e.thread)).Some? && Last(Stack(s, e.thread)).value.Attempting?
  }

  /** How many allocation calls make their first step in the run. */
  function AttemptsIn(s: State, events: seq<Event>): nat
    decreases |events|
  {
    if events == [] then 0
    else (if IsAttempt(s, events[0]) then 1 else 0)
         + AttemptsIn(Step(s, events[0].thread, events[0].action), events[1..])
  }

  /** Every attempt is counted exactly once, whatever happens to it afterwards. */
  lemma {:induction false} AttemptsAddUp(s: State, events: seq<Event>)
    ensures Run(s, events).shared.totalAttempts == s.shared.totalAttempts + AttemptsIn(s, events)
    decreases |events|
  {
    if events != [] {
      AttemptsAddUp(Step(s, events[0].thread, events[0].action), events[1..]);
    }
  }

  /** No thread ends the probe. */
  ghost predicate NeverEnded(events: seq<Event>) {
    forall k :: 0 <= k < |events| ==> events[k].action != Reject(false)
  }

  lemma {:induction false} NoBlockWhileRejecting(s: State, events: seq<Event>)
    requires s.shared.rejecting && NeverEnded(events)
    ensures Run(s, events).shared.blocks == s.shared.blocks
    decreases |events|
  {
    if events != [] {
      var e := events[0];
      assert e.action != Reject(false);
      NoBlockWhileRejecting(Step(s, e.thread, e.action), events[1..]);
    }
  }

  /** Until the probe ends no call of any thread obtains a block, and every attempt is counted. */
  lemma ProbedRun(s: State, t: Thread, events: seq<Event>)
    requires NeverEnded(events)
    ensures
      var begun := Step(s, t, Reject(true));
      && Run(begun, events).shared.blocks == s.shared.blocks
      && Run(begun, events).shared.totalAttempts == s.shared.totalAttempts + AttemptsIn(begun, events)
  {
    var begun := Step(s, t, Reject(true));
    NoBlockWhileRejecting(begun, events);
    AttemptsAddUp(begun, events);
  }

  /** The attempt is counted and nothing else happens. */
  function Attempted(x: Shared): Shared {
    x.(attempts := (x.attempts + 1) % UINT, totalAttempts := x.totalAttempts + 1)
  }

  lemma RefusalCompletes(s: State, t: Thread, answer: Option<nat>, n: nat, x: Shared, base: seq<Frame>, bytes: nat)
    returns (m: nat)
    requires Arrives(s, t, answer, n, x, base + [Attempting(bytes)]) && x.rejecting
    ensures Arrives(s, t, answer, m, Attempted(x), base)
  {
    m := Moves(s, t, answer, n, x, base, Attempting(bytes));
    m := Moves(s, t, answer, m, Attempted(x), base, AllocateCallback(bytes));
  }

  /** A probed allocation of any thread returns after counting its attempt, with nothing else changed. */
  lemma ProbedAllocation(s: State, t: Thread, caller: Thread, bytes: nat, answer: Option<nat>) returns (steps: nat)
    requires MayCall(Stack(s, caller))
    ensures
      var begun := Step(s, t, Reject(true));
      Arrives(Step(begun, caller, Allocate(bytes)), caller, answer, steps, Attempted(begun.shared), Stack(s, caller))
  {
    var begun := Step(s, t, Reject(true));
    assert Stack(begun, caller) == Stack(s, caller);
    steps := Enters(begun, caller, Allocate(bytes), Attempting(bytes), answer);
    steps := RefusalCompletes(Step(begun, caller, Allocate(bytes)), caller, answer, steps, begun.shared,
                              Stack(s, caller), bytes);
  }

  /** Once the probe has ended an allocation that the heap answers has its block at the head of the list. */
  lemma AllocationAfterProbe(s: State, t: Thread, caller: Thread, bytes: nat, memory: nat) returns (steps: nat)
    requires MayCall(Stack(s, caller)) && s.shared.lock == None && Unused(s.shared, memory)
    ensures
      var ended := Step(s, t, Reject(false));
      var after := Solo(Step(ended, caller, Allocate(bytes)), caller, Some(memory), steps);
      && after.shared.list == [|s.shared.blocks|] + s.shared.list
      && after.shared.blocks == s.shared.blocks + [Block(memory, bytes)]
      && after.shared.lock == None && Stack(after, caller) == Stack(s, caller)
  {
    var ended := Step(s, t, Reject(false));
    assert Stack(ended, caller) == Stack(s, caller);
    steps := AllocateCompletes(ended, caller, bytes, memory);
  }

  /**
    * What `probe_end` returns for the value `probe_begin` loaded is the number of attempts made in between, up
    * to the wrap of its type; the events in between include both stores of the rejection flag.
    */
  lemma ProbeCountsAttempts(s: State, between: seq<Event>)
    requires AttemptsCounted(s.shared)
    ensures (Run(s, between).shared.attempts - s.shared.attempts) % 0x1_0000_0000
            == AttemptsIn(s, between) % 0x1_0000_0000
  {
    AttemptsRun(s, between);
    AttemptsAddUp(s, between);
    WrapDifference(Run(s, between).shared.totalAttempts, s.shared.totalAttempts);
  }
}

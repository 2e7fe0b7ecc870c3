/** Whole calls of the allocation probe, run without disturbance from any reachable state. */
module AllocationCalls {
  import opened AllocationSteps
  import opened Options

  /** `steps` steps of one thread; `answer` is what the heap returns when it is asked. */
  function Solo(s: State, t: Thread, answer: Option<nat>, steps: nat): State
    decreases steps
  {
    if steps == 0 then s else Solo(Step(s, t, Proceed(answer)), t, answer, steps - 1)
  }

  lemma {:induction false} SoloComposes(s: State, t: Thread, answer: Option<nat>, m: nat, n: nat)
    ensures Solo(s, t, answer, m + n) == Solo(Solo(s, t, answer, m), t, answer, n)
    decreases m
  {
    if m > 0 {
      SoloComposes(Step(s, t, Proceed(answer)), t, answer, m - 1, n);
    }
  }

  /** After `steps` steps of thread `t` alone the shared state is `x` and the stack of `t` is `stack`. */
  ghost predicate Arrives(s: State, t: Thread, answer: Option<nat>, steps: nat, x: Shared, stack: seq<Frame>) {
    Solo(s, t, answer, steps).shared == x && Stack(Solo(s, t, answer, steps), t) == stack
  }

  /** One more step moves the innermost call on. */
  lemma Moves(s: State, t: Thread, answer: Option<nat>, n: nat, x: Shared, base: seq<Frame>, f: Frame) returns (m: nat)
    requires Arrives(s, t, answer, n, x, base + [f])
    ensures
      var (x', e) := Effect(x, t, f, answer);
      e.Become? || e.Pop? ==> Arrives(s, t, answer, m, x', if e.Become? then base + [e.f] else base)
  {
    var s1 := Solo(s, t, answer, n);
    var s2 := Step(s1, t, Proceed(answer));
    assert Solo(s1, t, answer, 1) == Solo(s2, t, answer, 0) == s2;
    SoloComposes(s, t, answer, n, 1);
    assert (base + [f])[..|base|] == base;
    m := n + 1;
  }

  /** A thread may make a call when it runs no other, or from a callback. */
  predicate MayCall(stack: seq<Frame>) {
    Last(stack) == None || InCallback(Last(stack).value)
  }

  lemma Enters(s: State, t: Thread, call: Action, f: Frame, answer: Option<nat>) returns (n: nat)
    requires StepEffect(s.shared, t, Stack(s, t), call) == (s.shared, Push(f))
    ensures Arrives(Step(s, t, call), t, answer, n, s.shared, Stack(s, t) + [f])
  {
    n := 0;
  }

  // ------------------------------------------------------------------ allocating

  function Linked(x: Shared, id: BlockId): Shared {
    x.(list := [id] + x.list, live := (x.live + 1) % UINT, allocatedBytes := (x.allocatedBytes + Bytes(x, id)) % SIZE,
       retained := (x.retained + Bytes(x, id)) % SIZE)
  }

  /** The critical section of an allocation, from waiting for the lock to releasing it. */
  lemma LinkCompletes(s: State, t: Thread, answer: Option<nat>, n: nat, x: Shared, base: seq<Frame>, id: BlockId)
    returns (m: nat)
    requires Arrives(s, t, answer, n, x, base + [AwaitLink(id)]) && x.lock == None
    ensures Arrives(s, t, answer, m, Linked(x, id), base)
  {
    m := Moves(s, t, answer, n, x, base, AwaitLink(id));
    var x1 := x.(lock := Some(t));
    m := Moves(s, t, answer, m, x1, base, Linking(id, Acquired));
    var x2 := x1.(list := [id] + x.list);
    m := Moves(s, t, answer, m, x2, base, Linking(id, Pushed));
    m := CountCompletes(s, t, answer, m, x2.(live := (x.live + 1) % UINT), base, id);
  }

  lemma CountCompletes(s: State, t: Thread, answer: Option<nat>, n: nat, x: Shared, base: seq<Frame>, id: BlockId)
    returns (m: nat)
    requires Arrives(s, t, answer, n, x, base + [Linking(id, CountedLive)])
    ensures Arrives(s, t, answer, m, x.(allocatedBytes := (x.allocatedBytes + Bytes(x, id)) % SIZE,
                                        retained := (x.retained + Bytes(x, id)) % SIZE, lock := None), base)
  {
    m := Moves(s, t, answer, n, x, base, Linking(id, CountedLive));
    var x1 := x.(allocatedBytes := (x.allocatedBytes + Bytes(x, id)) % SIZE);
    m := Moves(s, t, answer, m, x1, base, Linking(id, CountedAllocated));
    var x2 := x1.(retained := (x.retained + Bytes(x, id)) % SIZE);
    m := Moves(s, t, answer, m, x2, base, Linking(id, CountedRetained));
  }

  /** The attempt is counted and the new block recorded. */
  function Obtained(x: Shared, bytes: nat, memory: nat): Shared {
    x.(attempts := (x.attempts + 1) % UINT, totalAttempts := x.totalAttempts + 1,
       blocks := x.blocks + [Block(memory, bytes)])
  }

  lemma ObtainCompletes(s: State, t: Thread, n: nat, x: Shared, base: seq<Frame>, bytes: nat, memory: nat)
    returns (m: nat)
    requires Arrives(s, t, Some(memory), n, x, base + [Attempting(bytes)]) && !x.rejecting && Unused(x, memory)
    ensures Arrives(s, t, Some(memory), m, Obtained(x, bytes, memory), base + [AwaitLink(|x.blocks|)])
  {
    m := Moves(s, t, Some(memory), n, x, base, Attempting(bytes));
    var x1 := x.(attempts := (x.attempts + 1) % UINT, totalAttempts := x.totalAttempts + 1);
    m := Moves(s, t, Some(memory), m, x1, base, AllocateCallback(bytes));
  }

  /** An allocation that the heap answers ends with exactly its block at the head of the list, counted once. */
  lemma AllocateCompletes(s: State, t: Thread, bytes: nat, memory: nat) returns (steps: nat)
    requires MayCall(Stack(s, t)) && s.shared.lock == None && !s.shared.rejecting && Unused(s.shared, memory)
    ensures Arrives(Step(s, t, Allocate(bytes)), t, Some(memory), steps,
                    Linked(Obtained(s.shared, bytes, memory), |s.shared.blocks|), Stack(s, t))
  {
    var base, x, s0 := Stack(s, t), s.shared, Step(s, t, Allocate(bytes));
    steps := Enters(s, t, Allocate(bytes), Attempting(bytes), Some(memory));
    steps := ObtainCompletes(s0, t, steps, x, base, bytes, memory);
    steps := LinkCompletes(s0, t, Some(memory), steps, Obtained(x, bytes, memory), base, |x.blocks|);
  }

  // ------------------------------------------------------------------ releasing

  function Unlinked(x: Shared, k: nat): Shared
    requires k < |x.list|
  {
    x.(list := Without(x.list, k), unlinked := x.unlinked + [x.list[k]],
       live := (x.live - 1) % UINT, retained := (x.retained - Bytes(x, x.list[k])) % SIZE)
  }

  /** From the cut to the end of the call. */
  lemma UncountCompletes(s: State, t: Thread, answer: Option<nat>, n: nat, x: Shared, base: seq<Frame>, memory: nat,
                         id: BlockId)
    returns (m: nat)
    requires Arrives(s, t, answer, n, x, base + [Unlinking(memory, Some(id), Cut)])
    ensures Arrives(s, t, answer, m, x.(live := (x.live - 1) % UINT, retained := (x.retained - Bytes(x, id)) % SIZE,
                                        lock := None, freed := x.freed + [id]), base)
  {
    m := Moves(s, t, answer, n, x, base, Unlinking(memory, Some(id), Cut));
    var x1 := x.(live := (x.live - 1) % UINT);
    m := Moves(s, t, answer, m, x1, base, Unlinking(memory, Some(id), UncountedLive));
    var x2 := x1.(retained := (x.retained - Bytes(x, id)) % SIZE);
    m := Moves(s, t, answer, m, x2, base, Unlinking(memory, Some(id), UncountedRetained));
    m := Moves(s, t, answer, m, x2.(lock := None), base, ReleaseCallback(id));
  }

  /** `k` is the position of the first listed block at `memory`. */
  ghost predicate FoundAt(x: Shared, memory: nat, k: nat) {
    k < |x.list| && Find(x.blocks, x.list, memory) == k
  }

  /** Taking the lock and cutting the block out of the list. */
  lemma CutCompletes(s: State, t: Thread, answer: Option<nat>, n: nat, x: Shared, base: seq<Frame>, memory: nat, k: nat)
    returns (m: nat)
    requires Arrives(s, t, answer, n, x, base + [Releasing(memory)])
    requires x.lock == None && memory != 0 && FoundAt(x, memory, k)
    ensures Arrives(s, t, answer, m,
                    x.(lock := Some(t), list := Without(x.list, k), unlinked := x.unlinked + [x.list[k]]),
                    base + [Unlinking(memory, Some(x.list[k]), Cut)])
  {
    m := Moves(s, t, answer, n, x, base, Releasing(memory));
    m := Moves(s, t, answer, m, x.(lock := Some(t)), base, Searching(memory));
  }

  lemma UnlinkCompletes(s: State, t: Thread, answer: Option<nat>, n: nat, x: Shared, base: seq<Frame>, memory: nat,
                        k: nat)
    returns (m: nat)
    requires Arrives(s, t, answer, n, x, base + [Releasing(memory)])
    requires x.lock == None && memory != 0 && FoundAt(x, memory, k)
    ensures Arrives(s, t, answer, m, Unlinked(x, k).(freed := x.freed + [x.list[k]]), base)
  {
    m := CutCompletes(s, t, answer, n, x, base, memory, k);
    var x1 := x.(lock := Some(t), list := Without(x.list, k), unlinked := x.unlinked + [x.list[k]]);
    m := UncountCompletes(s, t, answer, m, x1, base, memory, x.list[k]);
    assert Bytes(x1, x.list[k]) == Bytes(x, x.list[k]);
  }

  /** Releasing the address of a listed block removes exactly that block, gives it back and uncounts it once. */
  lemma ReleaseCompletes(s: State, t: Thread, memory: nat, k: nat, answer: Option<nat>) returns (steps: nat)
    requires MayCall(Stack(s, t)) && s.shared.lock == None && memory != 0 && FoundAt(s.shared, memory, k)
    ensures Arrives(Step(s, t, Release(memory)), t, answer, steps,
                    Unlinked(s.shared, k).(freed := s.shared.freed + [s.shared.list[k]]), Stack(s, t))
  {
    steps := Enters(s, t, Release(memory), Releasing(memory), answer);
    steps := UnlinkCompletes(Step(s, t, Release(memory)), t, answer, steps, s.shared, Stack(s, t), memory, k);
  }

  /** No listed block is at `memory`. */
  ghost predicate Untracked(x: Shared, memory: nat) {
    forall id :: id in x.list ==> Memory(x.blocks, id) != Some(memory)
  }

  lemma SearchFails(x: Shared, t: Thread, memory: nat, answer: Option<nat>)
    requires Untracked(x, memory)
    ensures Effect(x, t, Searching(memory), answer) == (x, Become(Unlinking(memory, None, UncountedRetained)))
  {
    assert forall k :: 0 <= k < |x.list| ==> x.list[k] in x.list;
  }

  lemma PassCompletes(s: State, t: Thread, answer: Option<nat>, n: nat, x: Shared, base: seq<Frame>, memory: nat)
    returns (m: nat)
    requires Arrives(s, t, answer, n, x, base + [Releasing(memory)])
    requires x.lock == None && Untracked(x, memory) && memory != 0
    ensures Arrives(s, t, answer, m, x, base)
  {
    m := Moves(s, t, answer, n, x, base, Releasing(memory));
    var x1 := x.(lock := Some(t));
    SearchFails(x1, t, memory, answer);
    m := Moves(s, t, answer, m, x1, base, Searching(memory));
    m := Moves(s, t, answer, m, x1, base, Unlinking(memory, None, UncountedRetained));
    assert x1.(lock := None) == x;
    m := Moves(s, t, answer, m, x, base, RawFree(memory));
  }

  /** Releasing a null or untracked pointer ends with the shared state exactly as it was and the lock free. */
  lemma UntrackedCompletes(s: State, t: Thread, memory: nat, answer: Option<nat>) returns (steps: nat)
    requires MayCall(Stack(s, t)) && s.shared.lock == None && (memory == 0 || Untracked(s.shared, memory))
    ensures Arrives(Step(s, t, Release(memory)), t, answer, steps, s.shared, Stack(s, t))
  {
    var s0 := Step(s, t, Release(memory));
    steps := Enters(s, t, Release(memory), Releasing(memory), answer);
    if memory == 0 {
      steps := Moves(s0, t, answer, steps, s.shared, Stack(s, t), Releasing(memory));
    } else {
      steps := PassCompletes(s0, t, answer, steps, s.shared, Stack(s, t), memory);
    }
  }

  // ------------------------------------------------------------------ there and back

  /** Linking a new block and unlinking it again changes no counter that tracks the list. */
  lemma LinkedUnlinked(x: Shared, bytes: nat, memory: nat)
    requires x.live < UINT && x.retained < SIZE
    ensures
      var y := Linked(Obtained(x, bytes, memory), |x.blocks|);
      var z := Unlinked(y, 0);
      && FoundAt(y, memory, 0) && y.list == [|x.blocks|] + x.list
      && z.list == x.list && z.live == x.live && z.retained == x.retained && z.unlinked == x.unlinked + [|x.blocks|]
  {
    var y := Linked(Obtained(x, bytes, memory), |x.blocks|);
    assert Memory(y.blocks, y.list[0]) == Some(memory);
    assert Without(y.list, 0) == x.list;
    assert Bytes(y, |x.blocks|) == bytes;
    WrapLive(x.live + 1, -1);
    WrapBytes(x.retained + bytes, 0 - bytes);
  }

  /** Allocating and releasing again leaves list, live count and retained bytes as they were; the block is freed. */
  lemma AllocateReleaseRoundTrip(s: State, t: Thread, bytes: nat, memory: nat, answer: Option<nat>)
    returns (m: nat, n: nat)
    requires MayCall(Stack(s, t)) && s.shared.lock == None
    requires !s.shared.rejecting && Unused(s.shared, memory) && memory != 0
    requires s.shared.live < UINT && s.shared.retained < SIZE
    ensures
      var id, x := |s.shared.blocks|, s.shared;
      var a := Solo(Step(s, t, Allocate(bytes)), t, Some(memory), m);
      var r := Solo(Step(a, t, Release(memory)), t, answer, n);
      && a.shared.list == [id] + x.list
      && r.shared.list == x.list && r.shared.live == x.live && r.shared.retained == x.retained
      && r.shared.freed == x.freed + [id] && r.shared.lock == None && Stack(r, t) == Stack(s, t)
  {
    m := AllocateCompletes(s, t, bytes, memory);
    LinkedUnlinked(s.shared, bytes, memory);
    var a := Solo(Step(s, t, Allocate(bytes)), t, Some(memory), m);
    n := ReleaseCompletes(a, t, memory, 0, answer);
  }
}

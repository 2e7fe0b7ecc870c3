/**
  * The allocation probe under arbitrary interleaving (xtask/fixtures/runtime-allocation-probe.c): any
  * number of threads allocate and release, and callbacks run by one call may allocate and release again,
  * so every thread has a stack of calls. Each step is one access to shared state; the C atomics are
  * taken as sequentially consistent.
  */
module AllocationSteps {
  import opened Options
  import opened Sequences

  type Thread = nat
  type BlockId = nat

  const UINT: nat := 0x1_0000_0000            // atomic_uint wraps here
  const SIZE: nat := 0x1_0000_0000_0000_0000  // atomic_size_t wraps here

  datatype Block = Block(memory: nat, bytes: nat)

  datatype LinkStage = Acquired | Pushed | CountedLive | CountedAllocated | CountedRetained
  datatype UnlinkStage = Cut | UncountedLive | UncountedRetained

  datatype Frame =
    | Attempting(bytes: nat)       // about to count the attempt
    | AllocateCallback(bytes: nat) // counted; the allocation callback may run, then memory is requested
    | AwaitLink(id: BlockId)       // holds a new block and waits for the lock
    | Linking(id: BlockId, link: LinkStage)
    | Releasing(memory: nat)       // waits for the lock
    | Searching(memory: nat)       // holds the lock and looks the pointer up
    | Unlinking(memory: nat, found: Option<BlockId>, unlink: UnlinkStage)
    | ReleaseCallback(id: BlockId) // unlinked; the release callback may run, then the block is freed
    | RawFree(memory: nat)         // an untracked pointer on its way to the heap

  /** The state all threads share. */
  datatype Shared = Shared(
    lock: Option<Thread>,
    blocks: seq<Block>,     // every block ever obtained, by identity
    list: seq<BlockId>,     // report_allocations
    unlinked: seq<BlockId>, // identities removed from the list, in order
    freed: seq<BlockId>,    // identities given back to the heap, in order
    rejecting: bool,
    attempts: nat,
    live: nat,
    allocatedBytes: nat,
    retained: nat,
    totalAttempts: nat)     // attempts ever made, without wrap-around

  /** With the calls of each thread, innermost last. */
  datatype State = State(shared: Shared, stacks: map<Thread, seq<Frame>>)

  datatype Action = Allocate(bytes: nat) | Release(memory: nat) | Proceed(answer: Option<nat>) | Reject(on: bool)

  /** What a step does to the stack of its thread. */
  datatype Edit = Stay | Push(f: Frame) | Pop | Become(f: Frame)

  predicate InCallback(f: Frame) {
    f.AllocateCallback? || f.ReleaseCallback?
  }

  predicate Holding(f: Frame) {
    f.Linking? || f.Searching? || f.Unlinking?
  }

  // ------------------------------------------------------------------ steps

  /** The heap never hands out the address of a block that has not been freed. */
  predicate Unused(x: Shared, memory: nat) {
    forall id :: 0 <= id < |x.blocks| && id !in x.freed ==> x.blocks[id].memory != memory
  }

  function Memory(blocks: seq<Block>, id: BlockId): Option<nat> {
    if id < |blocks| then Some(blocks[id].memory) else None
  }

  /** The position of the first listed block at `memory`, or the length of the list. */
  function Find(blocks: seq<Block>, list: seq<BlockId>, memory: nat): (k: nat)
    ensures k <= |list| && (k < |list| ==> Memory(blocks, list[k]) == Some(memory))
    ensures forall i :: 0 <= i < k ==> Memory(blocks, list[i]) != Some(memory)
  {
    if list == [] || Memory(blocks, list[0]) == Some(memory) then 0 else 1 + Find(blocks, list[1..], memory)
  }

  function Bytes(x: Shared, id: BlockId): nat {
    if id < |x.blocks| then x.blocks[id].bytes else 0
  }

  function Without(list: seq<BlockId>, k: nat): seq<BlockId>
    requires k < |list|
  {
    list[..k] + list[k + 1..]
  }

  function Acquire(x: Shared, t: Thread, f: Frame): (Shared, Edit) {
    if x.lock == None then (x.(lock := Some(t)), Become(f)) else (x, Stay)
  }

  function LinkEffect(x: Shared, id: BlockId, stage: LinkStage): (Shared, Edit) {
    match stage
    case Acquired => (x.(list := [id] + x.list), Become(Linking(id, Pushed)))
    case Pushed => (x.(live := (x.live + 1) % UINT), Become(Linking(id, CountedLive)))
    case CountedLive =>
      (x.(allocatedBytes := (x.allocatedBytes + Bytes(x, id)) % SIZE), Become(Linking(id, CountedAllocated)))
    case CountedAllocated => (x.(retained := (x.retained + Bytes(x, id)) % SIZE), Become(Linking(id, CountedRetained)))
    case CountedRetained => (x.(lock := None), Pop)
  }

  function SearchEffect(x: Shared, memory: nat): (Shared, Edit) {
    var k := Find(x.blocks, x.list, memory);
    if k == |x.list| then (x, Become(Unlinking(memory, None, UncountedRetained)))
    else (x.(list := Without(x.list, k), unlinked := x.unlinked + [x.list[k]]),
          Become(Unlinking(memory, Some(x.list[k]), Cut)))
  }

  function UnlinkEffect(x: Shared, memory: nat, found: Option<BlockId>, stage: UnlinkStage): (Shared, Edit) {
    if found == None then (x.(lock := None), Become(RawFree(memory)))
    else
      match stage
      case Cut => (x.(live := (x.live - 1) % UINT), Become(Unlinking(memory, found, UncountedLive)))
      case UncountedLive => (x.(retained := (x.retained - Bytes(x, found.value)) % SIZE),
                            Become(Unlinking(memory, found, UncountedRetained)))
      case UncountedRetained => (x.(lock := None), Become(ReleaseCallback(found.value)))
  }

  /** One step of thread `t` whose innermost call is at `f`. */
  function Effect(x: Shared, t: Thread, f: Frame, answer: Option<nat>): (Shared, Edit) {
    match f
    case Attempting(bytes) =>
      (x.(attempts := (x.attempts + 1) % UINT, totalAttempts := x.totalAttempts + 1), Become(AllocateCallback(bytes)))
    case AllocateCallback(bytes) =>
      if x.rejecting || answer == None then (x, Pop)
      else if !Unused(x, answer.value) then (x, Stay)
      else (x.(blocks := x.blocks + [Block(answer.value, bytes)]), Become(AwaitLink(|x.blocks|)))
    case AwaitLink(id) => Acquire(x, t, Linking(id, Acquired))
    case Linking(id, stage) => LinkEffect(x, id, stage)
    case Releasing(memory) => if memory == 0 then (x, Pop) else Acquire(x, t, Searching(memory))
    case Searching(memory) => SearchEffect(x, memory)
    case Unlinking(memory, found, stage) => UnlinkEffect(x, memory, found, stage)
    case ReleaseCallback(id) => (x.(freed := x.freed + [id]), Pop)
    case RawFree(_) => (x, Pop)
  }

  function Stack(s: State, t: Thread): seq<Frame> {
    if t in s.stacks then s.stacks[t] else []
  }

  function Last(stack: seq<Frame>): Option<Frame> {
    if stack == [] then None else Some(stack[|stack| - 1])
  }

  function Edited(stack: seq<Frame>, edit: Edit): seq<Frame> {
    match edit
    case Stay => stack
    case Push(f) => stack + [f]
    case Pop => if stack == [] then [] else stack[..|stack| - 1]
    case Become(f) => if stack == [] then [] else stack[..|stack| - 1] + [f]
  }

  /** A thread makes a call from outside or from within a callback, or advances its innermost call. */
  function StepEffect(x: Shared, t: Thread, stack: seq<Frame>, a: Action): (Shared, Edit) {
    var top := Last(stack);
    match a
    case Allocate(bytes) => (x, if top == None || InCallback(top.value) then Push(Attempting(bytes)) else Stay)
    case Release(memory) => (x, if top == None || InCallback(top.value) then Push(Releasing(memory)) else Stay)
    case Proceed(answer) => if top == None then (x, Stay) else Effect(x, t, top.value, answer)
    case Reject(on) => (x.(rejecting := on), Stay)
  }

  function Step(s: State, t: Thread, a: Action): State {
    var (x, edit) := StepEffect(s.shared, t, Stack(s, t), a);
    State(x, s.stacks[t := Edited(Stack(s, t), edit)])
  }

  datatype Event = Event(thread: Thread, action: Action)

  function Run(s: State, events: seq<Event>): State
    decreases |events|
  {
    if events == [] then s else Run(Step(s, events[0].thread, events[0].action), events[1..])
  }

  const INITIAL := State(Shared(None, [], [], [], [], false, 0, 0, 0, 0, 0), map[])

  // ------------------------------------------------------------------ stacks and the lock

  /** Only the innermost call of a thread is anywhere but in a callback. */
  ghost predicate StackOk(stack: seq<Frame>) {
    forall k :: 0 <= k < |stack| - 1 ==> InCallback(stack[k])
  }

  predicate TopHolds(stack: seq<Frame>) {
    Last(stack).Some? && Holding(Last(stack).value)
  }

  /** Holding the lock and being inside a critical section are the same; no callback runs under the lock. */
  ghost predicate LockOk(s: State) {
    && (forall t: Thread :: StackOk(Stack(s, t)))
    && (forall t: Thread :: s.shared.lock == Some(t) <==> TopHolds(Stack(s, t)))
  }

  lemma EditKeepsStack(x: Shared, t: Thread, stack: seq<Frame>, a: Action)
    requires StackOk(stack) && (x.lock == Some(t) <==> TopHolds(stack))
    ensures
      var (x', edit) := StepEffect(x, t, stack, a);
      && StackOk(Edited(stack, edit))
      && (x'.lock == Some(t) <==> TopHolds(Edited(stack, edit)))
      && (forall o: Thread :: o != t ==> (x'.lock == Some(o) <==> x.lock == Some(o)))
  {
    var (x', edit) := StepEffect(x, t, stack, a);
    if edit.Pop? && |stack| > 1 {
      assert InCallback(stack[|stack| - 2]);
    }
  }

  lemma LockKept(s: State, t: Thread, a: Action)
    requires LockOk(s)
    ensures LockOk(Step(s, t, a))
  {
    var s' := Step(s, t, a);
    assert StackOk(Stack(s, t)) && (s.shared.lock == Some(t) <==> TopHolds(Stack(s, t)));
    EditKeepsStack(s.shared, t, Stack(s, t), a);
    assert forall o: Thread :: o != t ==> Stack(s', o) == Stack(s, o);
  }

  // ------------------------------------------------------------------ who owns which block

  /** A block outside the list that a call is responsible for; `fromList` once it has been unlinked. */
  datatype Carried = Carried(id: BlockId, fromList: bool)

  function Carries(f: Frame): Option<Carried> {
    match f
    case AwaitLink(id) => Some(Carried(id, false))
    case Linking(id, stage) => if stage == Acquired then Some(Carried(id, false)) else None
    case Unlinking(_, found, _) => if found == None then None else Some(Carried(found.value, true))
    case ReleaseCallback(id) => Some(Carried(id, true))
    case _ => None
  }

  /** What each call of each thread carries. */
  type Carriers = (Thread, nat) -> Option<Carried>

  function CarriersOf(s: State): Carriers {
    (t: Thread, k: nat) => if k < |Stack(s, t)| then Carries(Stack(s, t)[k]) else None
  }

  ghost predicate BooksOk(x: Shared) {
    && NoDuplicates(x.list) && NoDuplicates(x.unlinked) && NoDuplicates(x.freed)
    && Elements(x.list) !! Elements(x.unlinked)
    && Elements(x.freed) <= Elements(x.unlinked)
    && Elements(x.list) <= Below(|x.blocks|) && Elements(x.unlinked) <= Below(|x.blocks|)
  }

  /** Blocks that have not been freed are at different addresses. */
  ghost predicate AddressesOk(x: Shared) {
    forall i, j :: 0 <= i < j < |x.blocks| && i !in x.freed && j !in x.freed ==>
      x.blocks[i].memory != x.blocks[j].memory
  }

  ghost predicate CarriedOk(x: Shared, c: Carried) {
    c.id < |x.blocks| && c.id !in x.list && c.id !in x.freed && (c.fromList <==> c.id in x.unlinked)
  }

  ghost predicate OwnersOk(x: Shared, c: Carriers) {
    && (forall t: Thread, k: nat :: c(t, k).Some? ==> CarriedOk(x, c(t, k).value))
    && (forall t: Thread, k: nat, t': Thread, k': nat :: c(t, k).Some? && c(t', k').Some? ==>
          (c(t, k).value.id == c(t', k').value.id ==> t == t' && k == k'))
  }

  /** `c'` differs from `c` at one call only. */
  ghost predicate ChangedAt(c: Carriers, c': Carriers, t: Thread, k: nat, now: Option<Carried>) {
    c'(t, k) == now && forall o: Thread, j: nat :: o != t || j != k ==> c'(o, j) == c(o, j)
  }

  lemma OwnersNewBlock(x: Shared, c: Carriers, c': Carriers, t: Thread, k: nat, b: Block)
    requires BooksOk(x) && OwnersOk(x, c) && ChangedAt(c, c', t, k, Some(Carried(|x.blocks|, false)))
    ensures OwnersOk(x.(blocks := x.blocks + [b]), c')
  {
    assert |x.blocks| !in Elements(x.freed) && |x.blocks| !in Elements(x.unlinked) && |x.blocks| !in Elements(x.list);
    forall o: Thread, j: nat | (o != t || j != k) && c'(o, j).Some? ensures c'(o, j).value.id < |x.blocks| {
      assert c(o, j) == c'(o, j);
    }
  }

  lemma OwnersLink(x: Shared, c: Carriers, c': Carriers, t: Thread, k: nat, id: BlockId)
    requires OwnersOk(x, c) && c(t, k) == Some(Carried(id, false)) && ChangedAt(c, c', t, k, None)
    ensures OwnersOk(x.(list := [id] + x.list), c')
  {
  }

  lemma OwnersUnlink(x: Shared, c: Carriers, c': Carriers, t: Thread, k: nat, i: nat)
    requires BooksOk(x) && OwnersOk(x, c) && c(t, k) == None && i < |x.list|
    requires ChangedAt(c, c', t, k, Some(Carried(x.list[i], true)))
    ensures OwnersOk(x.(list := Without(x.list, i), unlinked := x.unlinked + [x.list[i]]), c')
  {
    var id := x.list[i];
    assert id in Elements(x.list) && id !in Elements(x.unlinked) && id !in Elements(x.freed);
    assert forall d :: d in Without(x.list, i) ==> d in x.list;
    forall o: Thread, j: nat | (o != t || j != k) && c'(o, j).Some? ensures c'(o, j).value.id != id {
      assert c(o, j) == c'(o, j);
    }
  }

  lemma OwnersFree(x: Shared, c: Carriers, c': Carriers, t: Thread, k: nat, id: BlockId)
    requires OwnersOk(x, c) && c(t, k) == Some(Carried(id, true)) && ChangedAt(c, c', t, k, None)
    ensures OwnersOk(x.(freed := x.freed + [id]), c')
  {
  }

  lemma BooksLink(x: Shared, id: BlockId)
    requires BooksOk(x) && CarriedOk(x, Carried(id, false))
    ensures BooksOk(x.(list := [id] + x.list))
  {
    ElementsAppend([id], x.list);
  }

  lemma BooksUnlink(x: Shared, k: nat)
    requires BooksOk(x) && k < |x.list|
    ensures BooksOk(x.(list := Without(x.list, k), unlinked := x.unlinked + [x.list[k]]))
  {
    var id := x.list[k];
    assert id in Elements(x.list) && id !in Elements(x.unlinked);
    ElementsAppend(x.unlinked, [id]);
    assert Elements(Without(x.list, k)) <= Elements(x.list);
    assert id !in Without(x.list, k);
  }

  lemma BooksFree(x: Shared, id: BlockId)
    requires BooksOk(x) && CarriedOk(x, Carried(id, true))
    ensures BooksOk(x.(freed := x.freed + [id]))
  {
    ElementsAppend(x.freed, [id]);
    assert id in Elements(x.unlinked);
  }

  lemma AddressesNew(x: Shared, b: Block)
    requires AddressesOk(x) && Unused(x, b.memory)
    ensures AddressesOk(x.(blocks := x.blocks + [b]))
  {
  }

  lemma AddressesFree(x: Shared, id: BlockId)
    requires AddressesOk(x)
    ensures AddressesOk(x.(freed := x.freed + [id]))
  {
  }

  ghost predicate OwnOk(s: State) {
    BooksOk(s.shared) && AddressesOk(s.shared) && OwnersOk(s.shared, CarriersOf(s))
  }

  lemma CarriersSame(s: State, s': State, t: Thread, edit: Edit)
    requires s'.stacks == s.stacks[t := Edited(Stack(s, t), edit)]
    requires Stack(s, t) == [] || edit.Stay? || edit.Push?
    requires edit.Push? ==> Carries(edit.f) == None
    ensures forall o: Thread, k: nat :: CarriersOf(s')(o, k) == CarriersOf(s)(o, k)
  {
    forall o: Thread, k: nat ensures CarriersOf(s')(o, k) == CarriersOf(s)(o, k) {
      if o != t {
        assert Stack(s', o) == Stack(s, o);
      } else if k < |Stack(s, t)| {
        assert Stack(s', t)[k] == Stack(s, t)[k];
      }
    }
  }

  /** Replacing or dropping the innermost call changes what is carried there only. */
  lemma CarriersEdited(s: State, s': State, t: Thread, edit: Edit)
    requires s'.stacks == s.stacks[t := Edited(Stack(s, t), edit)]
    requires Stack(s, t) != [] && (edit.Pop? || edit.Become?)
    ensures ChangedAt(CarriersOf(s), CarriersOf(s'), t, |Stack(s, t)| - 1, if edit.Pop? then None else Carries(edit.f))
  {
    var top := |Stack(s, t)| - 1;
    forall o: Thread, k: nat | o != t || k != top ensures CarriersOf(s')(o, k) == CarriersOf(s)(o, k) {
      if o != t {
        assert Stack(s', o) == Stack(s, o);
      } else if k < top {
        assert Stack(s', t)[k] == Stack(s, t)[k];
      }
    }
  }

  /** A step that moves no block. */
  lemma OwnUnmoved(s: State, s': State, t: Thread, edit: Edit)
    requires OwnOk(s) && s'.stacks == s.stacks[t := Edited(Stack(s, t), edit)]
    requires s'.shared.blocks == s.shared.blocks && s'.shared.list == s.shared.list
    requires s'.shared.unlinked == s.shared.unlinked && s'.shared.freed == s.shared.freed
    requires edit.Push? ==> Carries(edit.f) == None
    requires Stack(s, t) != [] && edit.Pop? ==> Carries(Last(Stack(s, t)).value) == None
    requires Stack(s, t) != [] && edit.Become? ==> Carries(Last(Stack(s, t)).value) == Carries(edit.f)
    ensures OwnOk(s')
  {
    if Stack(s, t) == [] || edit.Stay? || edit.Push? {
      CarriersSame(s, s', t, edit);
    } else {
      CarriersEdited(s, s', t, edit);
      var top := |Stack(s, t)| - 1;
      assert CarriersOf(s)(t, top) == Carries(Stack(s, t)[top]);
    }
  }

  lemma OwnNew(s: State, t: Thread, bytes: nat, answer: nat)
    requires OwnOk(s) && Last(Stack(s, t)) == Some(AllocateCallback(bytes))
    requires !s.shared.rejecting && Unused(s.shared, answer)
    ensures OwnOk(Step(s, t, Proceed(Some(answer))))
  {
    var top, x := |Stack(s, t)| - 1, s.shared;
    var s' := Step(s, t, Proceed(Some(answer)));
    CarriersEdited(s, s', t, Become(AwaitLink(|x.blocks|)));
    OwnersNewBlock(x, CarriersOf(s), CarriersOf(s'), t, top, Block(answer, bytes));
    AddressesNew(x, Block(answer, bytes));
  }

  lemma OwnLinked(s: State, t: Thread, id: BlockId, answer: Option<nat>)
    requires OwnOk(s) && Last(Stack(s, t)) == Some(Linking(id, Acquired))
    ensures OwnOk(Step(s, t, Proceed(answer)))
  {
    var top, x := |Stack(s, t)| - 1, s.shared;
    var s' := Step(s, t, Proceed(answer));
    CarriersEdited(s, s', t, Become(Linking(id, Pushed)));
    assert CarriersOf(s)(t, top) == Some(Carried(id, false));
    BooksLink(x, id);
    OwnersLink(x, CarriersOf(s), CarriersOf(s'), t, top, id);
  }

  lemma OwnUnlinked(s: State, t: Thread, memory: nat, answer: Option<nat>)
    requires OwnOk(s) && Last(Stack(s, t)) == Some(Searching(memory))
    requires Find(s.shared.blocks, s.shared.list, memory) < |s.shared.list|
    ensures OwnOk(Step(s, t, Proceed(answer)))
  {
    var top, x := |Stack(s, t)| - 1, s.shared;
    var k := Find(x.blocks, x.list, memory);
    var s' := Step(s, t, Proceed(answer));
    CarriersEdited(s, s', t, Become(Unlinking(memory, Some(x.list[k]), Cut)));
    assert CarriersOf(s)(t, top) == None;
    BooksUnlink(x, k);
    OwnersUnlink(x, CarriersOf(s), CarriersOf(s'), t, top, k);
  }

  lemma OwnFreed(s: State, t: Thread, id: BlockId, answer: Option<nat>)
    requires OwnOk(s) && Last(Stack(s, t)) == Some(ReleaseCallback(id))
    ensures OwnOk(Step(s, t, Proceed(answer)))
  {
    var top, x := |Stack(s, t)| - 1, s.shared;
    var s' := Step(s, t, Proceed(answer));
    CarriersEdited(s, s', t, Pop);
    assert CarriersOf(s)(t, top) == Some(Carried(id, true));
    BooksFree(x, id);
    OwnersFree(x, CarriersOf(s), CarriersOf(s'), t, top, id);
    AddressesFree(x, id);
  }

  /** Every step keeps the ownership of blocks; four kinds of step move one. */
  lemma OwnKept(s: State, t: Thread, a: Action)
    requires OwnOk(s)
    ensures OwnOk(Step(s, t, a))
  {
    var (x, edit) := StepEffect(s.shared, t, Stack(s, t), a);
    if a.Proceed? && Stack(s, t) != [] {
      var f := Last(Stack(s, t)).value;
      if f.AllocateCallback? && edit.Become? {
        OwnNew(s, t, f.bytes, a.answer.value);
      } else if f.Linking? && f.link == Acquired {
        OwnLinked(s, t, f.id, a.answer);
      } else if f.Searching? && Find(s.shared.blocks, s.shared.list, f.memory) < |s.shared.list| {
        OwnUnlinked(s, t, f.memory, a.answer);
      } else if f.ReleaseCallback? {
        OwnFreed(s, t, f.id, a.answer);
      } else {
        OwnUnmoved(s, Step(s, t, a), t, edit);
      }
    } else {
      OwnUnmoved(s, Step(s, t, a), t, edit);
    }
  }

  // ------------------------------------------------------------------ the counters

  function TotalBytes(x: Shared, list: seq<BlockId>): nat {
    if list == [] then 0 else Bytes(x, list[0]) + TotalBytes(x, list[1..])
  }

  /** The critical section that is under way, if any. */
  function Holder(s: State): Option<Frame> {
    if s.shared.lock == None then None else Last(Stack(s, s.shared.lock.value))
  }

  /** How far the live count is ahead of the list while the holder is between two of its updates. */
  function LiveAhead(f: Option<Frame>): int {
    if f == None then 0
    else match f.value
      case Linking(_, stage) => if stage == Pushed then -1 else 0
      case Unlinking(_, found, stage) => if found.Some? && stage == Cut then 1 else 0
      case _ => 0
  }

  function RetainedAhead(x: Shared, f: Option<Frame>): int {
    if f == None then 0
    else match f.value
      case Linking(id, stage) => if stage in {Pushed, CountedLive, CountedAllocated} then 0 - Bytes(x, id) else 0
      case Unlinking(_, found, stage) =>
        if found.Some? && stage in {Cut, UncountedLive} then Bytes(x, found.value) else 0
      case _ => 0
  }

  function AllocatedAhead(x: Shared, f: Option<Frame>): int {
    if f.Some? && f.value.Linking? && f.value.link in {Pushed, CountedLive} then 0 - Bytes(x, f.value.id) else 0
  }

  /** The bytes of every block that was ever listed. */
  function EverListed(x: Shared): nat {
    TotalBytes(x, x.list) + TotalBytes(x, x.unlinked)
  }

  ghost predicate EverCounted(x: Shared, holder: Option<Frame>) {
    x.allocatedBytes == (EverListed(x) + AllocatedAhead(x, holder)) % SIZE
  }

  ghost predicate Counted(x: Shared, holder: Option<Frame>) {
    && x.live == (|x.list| + LiveAhead(holder)) % UINT
    && x.retained == (TotalBytes(x, x.list) + RetainedAhead(x, holder)) % SIZE
    && x.attempts == x.totalAttempts % UINT
  }

  /** The identity a critical section works on exists. */
  ghost predicate KnownId(x: Shared, holder: Option<Frame>) {
    if holder == None then true
    else match holder.value
      case Linking(id, _) => id < |x.blocks|
      case Unlinking(_, found, _) => found.Some? ==> found.value < |x.blocks|
      case _ => true
  }

  lemma {:induction false} TotalWithout(x: Shared, list: seq<BlockId>, k: nat)
    requires k < |list|
    ensures TotalBytes(x, list) == TotalBytes(x, Without(list, k)) + Bytes(x, list[k])
    decreases k
  {
    if k == 0 {
      assert Without(list, 0) == list[1..];
    } else {
      TotalWithout(x, list[1..], k - 1);
      assert Without(list, k)[1..] == Without(list[1..], k - 1);
    }
  }

  /** The sum depends on the blocks of the listed identities only. */
  lemma {:induction false} TotalSame(x: Shared, x': Shared, list: seq<BlockId>)
    requires x.blocks <= x'.blocks && Elements(list) <= Below(|x.blocks|)
    ensures TotalBytes(x', list) == TotalBytes(x, list)
    decreases |list|
  {
    if list != [] {
      assert list[0] in Elements(list) && Elements(list[1..]) <= Elements(list);
      TotalSame(x, x', list[1..]);
    }
  }

  /** Steps that touch neither the list nor its counters, by the holder of the lock or by anyone else. */
  lemma CountUntouched(x: Shared, x': Shared, holder: Option<Frame>, holder': Option<Frame>)
    requires BooksOk(x) && Counted(x, holder) && KnownId(x, holder)
    requires x.blocks <= x'.blocks && x'.list == x.list && x'.live == x.live && x'.retained == x.retained
    requires x'.attempts == x'.totalAttempts % UINT
    requires LiveAhead(holder') == LiveAhead(holder)
    requires RetainedAhead(x, holder') == RetainedAhead(x, holder) && KnownId(x, holder')
    ensures Counted(x', holder') && KnownId(x', holder')
  {
    TotalSame(x, x', x.list);
  }

  /** Wrapping at each update is wrapping once. */
  lemma WrapLive(n: int, d: int)
    ensures (n % UINT + d) % UINT == (n + d) % UINT
  {
  }

  lemma WrapBytes(n: int, d: int)
    ensures (n % SIZE + d) % SIZE == (n + d) % SIZE
  {
  }

  lemma CountLink(x: Shared, id: BlockId, stage: LinkStage)
    requires Counted(x, Some(Linking(id, stage))) && id < |x.blocks|
    ensures
      var (x', edit) := LinkEffect(x, id, stage);
      Counted(x', if edit.Pop? then None else Some(edit.f))
  {
    var (x', edit) := LinkEffect(x, id, stage);
    TotalBlocks(x, x', x.list);
    match stage
    case Acquired => assert ([id] + x.list)[1..] == x.list;
    case Pushed => WrapLive(|x.list| - 1, 1);
    case CountedAllocated => WrapBytes(TotalBytes(x, x.list) - Bytes(x, id), Bytes(x, id));
    case _ =>
  }

  lemma {:induction false} TotalBlocks(x: Shared, x': Shared, list: seq<BlockId>)
    requires x.blocks == x'.blocks
    ensures TotalBytes(x', list) == TotalBytes(x, list)
    decreases |list|
  {
    if list != [] {
      TotalBlocks(x, x', list[1..]);
    }
  }

  lemma {:induction false} TotalAppend(x: Shared, list: seq<BlockId>, id: BlockId)
    ensures TotalBytes(x, list + [id]) == TotalBytes(x, list) + Bytes(x, id)
    decreases |list|
  {
    if list == [] {
      assert [] + [id] == [id] && [id][1..] == [];
    } else {
      assert (list + [id])[1..] == list[1..] + [id];
      TotalAppend(x, list[1..], id);
    }
  }

  lemma CountSearch(x: Shared, memory: nat)
    requires BooksOk(x) && Counted(x, Some(Searching(memory)))
    ensures
      var (x', edit) := SearchEffect(x, memory);
      Counted(x', Some(edit.f)) && KnownId(x', Some(edit.f))
  {
    var k := Find(x.blocks, x.list, memory);
    var (x', edit) := SearchEffect(x, memory);
    TotalBlocks(x, x', x'.list);
    if k < |x.list| {
      TotalWithout(x, x.list, k);
      assert x.list[k] in Elements(x.list);
    }
  }

  lemma CountUnlink(x: Shared, memory: nat, found: Option<BlockId>, stage: UnlinkStage)
    requires Counted(x, Some(Unlinking(memory, found, stage))) && (found == None ==> stage == UncountedRetained)
    ensures
      var (x', edit) := UnlinkEffect(x, memory, found, stage);
      Counted(x', if edit.f.Unlinking? then Some(edit.f) else None)
  {
    var (x', edit) := UnlinkEffect(x, memory, found, stage);
    TotalBlocks(x, x', x.list);
    if found.Some? && stage == Cut {
      WrapLive(|x.list| + 1, -1);
    } else if found.Some? && stage == UncountedLive {
      WrapBytes(TotalBytes(x, x.list) + Bytes(x, found.value), 0 - Bytes(x, found.value));
    }
  }

  lemma EverUntouched(x: Shared, x': Shared, holder: Option<Frame>, holder': Option<Frame>)
    requires BooksOk(x) && EverCounted(x, holder) && KnownId(x, holder)
    requires x.blocks <= x'.blocks && x'.list == x.list
    requires x'.unlinked == x.unlinked && x'.allocatedBytes == x.allocatedBytes
    requires AllocatedAhead(x, holder') == AllocatedAhead(x, holder) && KnownId(x, holder')
    ensures EverCounted(x', holder')
  {
    TotalSame(x, x', x.list);
    TotalSame(x, x', x.unlinked);
  }

  lemma EverLink(x: Shared, id: BlockId, stage: LinkStage)
    requires EverCounted(x, Some(Linking(id, stage)))
    ensures
      var (x', edit) := LinkEffect(x, id, stage);
      EverCounted(x', if edit.Pop? then None else Some(edit.f))
  {
    var (x', edit) := LinkEffect(x, id, stage);
    TotalBlocks(x, x', x.list);
    TotalBlocks(x, x', x.unlinked);
    if stage == Acquired {
      assert ([id] + x.list)[1..] == x.list;
    } else if stage == CountedLive {
      WrapBytes(EverListed(x) - Bytes(x, id), Bytes(x, id));
    }
  }

  lemma EverSearch(x: Shared, memory: nat)
    requires EverCounted(x, Some(Searching(memory)))
    ensures
      var (x', edit) := SearchEffect(x, memory);
      EverCounted(x', Some(edit.f))
  {
    var k := Find(x.blocks, x.list, memory);
    var (x', edit) := SearchEffect(x, memory);
    TotalBlocks(x, x', x'.list);
    TotalBlocks(x, x', x'.unlinked);
    if k < |x.list| {
      TotalWithout(x, x.list, k);
      TotalAppend(x, x.unlinked, x.list[k]);
    }
  }

  lemma EverUnlink(x: Shared, memory: nat, found: Option<BlockId>, stage: UnlinkStage)
    requires EverCounted(x, Some(Unlinking(memory, found, stage)))
    ensures
      var (x', edit) := UnlinkEffect(x, memory, found, stage);
      EverCounted(x', if edit.f.Unlinking? then Some(edit.f) else None)
  {
    var (x', edit) := UnlinkEffect(x, memory, found, stage);
    TotalBlocks(x, x', x.list);
    TotalBlocks(x, x', x.unlinked);
  }

  ghost predicate FoundStage(f: Option<Frame>) {
    f.Some? && f.value.Unlinking? && f.value.found == None ==> f.value.unlink == UncountedRetained
  }

  ghost predicate CountOk(s: State) {
    && Counted(s.shared, Holder(s)) && EverCounted(s.shared, Holder(s))
    && KnownId(s.shared, Holder(s)) && FoundStage(Holder(s))
  }

  ghost predicate Inv(s: State) {
    LockOk(s) && OwnOk(s) && CountOk(s)
  }

  /** The call that waits for the lock enters the critical section of an allocation. */
  predicate StartsLinking(stack: seq<Frame>, f: Frame) {
    f.Linking? && f.link == Acquired && Last(stack) == Some(AwaitLink(f.id))
  }

  /** Outside the critical sections a step leaves the list and its counters alone. */
  lemma OutsideEffect(x: Shared, t: Thread, stack: seq<Frame>, a: Action)
    requires !TopHolds(stack) && x.attempts == x.totalAttempts % UINT
    ensures
      var (x', edit) := StepEffect(x, t, stack, a);
      && x.blocks <= x'.blocks && x'.list == x.list && x'.live == x.live && x'.retained == x.retained
      && x'.unlinked == x.unlinked && x'.allocatedBytes == x.allocatedBytes
      && x'.attempts == x'.totalAttempts % UINT
      && (x.lock.Some? ==> x'.lock == x.lock)
      && (x.lock == None && x'.lock.Some? ==>
          && x' == x.(lock := Some(t)) && stack != [] && edit.Become?
          && (edit.f.Searching? || StartsLinking(stack, edit.f)))
  {
  }

  /** A step by a thread that does not hold the lock. */
  lemma CountOther(s: State, t: Thread, a: Action)
    requires BooksOk(s.shared) && CountOk(s) && !TopHolds(Stack(s, t)) && s.shared.lock != Some(t)
    requires forall id: BlockId :: Last(Stack(s, t)) == Some(AwaitLink(id)) ==> id < |s.shared.blocks|
    ensures CountOk(Step(s, t, a))
  {
    var s' := Step(s, t, a);
    OutsideEffect(s.shared, t, Stack(s, t), a);
    if s.shared.lock.Some? {
      assert Stack(s', s.shared.lock.value) == Stack(s, s.shared.lock.value);
    } else if s'.shared.lock.Some? {
      var (x, edit) := StepEffect(s.shared, t, Stack(s, t), a);
      assert Holder(s') == Some(edit.f);
    }
    CountUntouched(s.shared, s'.shared, Holder(s), Holder(s'));
    EverUntouched(s.shared, s'.shared, Holder(s), Holder(s'));
  }

  lemma AwaitedIdKnown(s: State, t: Thread)
    requires OwnOk(s)
    ensures forall id: BlockId :: Last(Stack(s, t)) == Some(AwaitLink(id)) ==> id < |s.shared.blocks|
  {
    if Stack(s, t) != [] {
      var top := |Stack(s, t)| - 1;
      assert CarriersOf(s)(t, top) == Carries(Stack(s, t)[top]);
    }
  }

  /** A step inside the critical section. */
  lemma CountHolder(s: State, t: Thread, a: Action)
    requires BooksOk(s.shared) && CountOk(s) && TopHolds(Stack(s, t)) && s.shared.lock == Some(t)
    ensures CountOk(Step(s, t, a))
  {
    var s', x := Step(s, t, a), s.shared;
    var f := Last(Stack(s, t)).value;
    if !a.Proceed? {
      assert Stack(s', t) == Stack(s, t);
      CountUntouched(x, s'.shared, Holder(s), Holder(s'));
      EverUntouched(x, s'.shared, Holder(s), Holder(s'));
    } else if f.Linking? {
      LinkingStep(s, t, a.answer, f.id, f.link);
    } else if f.Searching? {
      SearchingStep(s, t, a.answer, f.memory);
    } else {
      UnlinkingStep(s, t, a.answer, f.memory, f.found, f.unlink);
    }
  }

  lemma LinkingStep(s: State, t: Thread, answer: Option<nat>, id: BlockId, stage: LinkStage)
    requires CountOk(s) && s.shared.lock == Some(t) && Last(Stack(s, t)) == Some(Linking(id, stage))
    ensures CountOk(Step(s, t, Proceed(answer)))
  {
    CountLink(s.shared, id, stage);
    EverLink(s.shared, id, stage);
    var (x, edit) := LinkEffect(s.shared, id, stage);
    assert Holder(Step(s, t, Proceed(answer))) == if edit.Pop? then None else Some(edit.f);
  }

  lemma SearchingStep(s: State, t: Thread, answer: Option<nat>, memory: nat)
    requires BooksOk(s.shared) && CountOk(s) && s.shared.lock == Some(t) && Last(Stack(s, t)) == Some(Searching(memory))
    ensures CountOk(Step(s, t, Proceed(answer)))
  {
    CountSearch(s.shared, memory);
    EverSearch(s.shared, memory);
    var (x, edit) := SearchEffect(s.shared, memory);
    assert Holder(Step(s, t, Proceed(answer))) == Some(edit.f);
  }

  lemma UnlinkingStep(s: State, t: Thread, answer: Option<nat>, memory: nat, found: Option<BlockId>, stage: UnlinkStage)
    requires CountOk(s) && s.shared.lock == Some(t) && Last(Stack(s, t)) == Some(Unlinking(memory, found, stage))
    ensures CountOk(Step(s, t, Proceed(answer)))
  {
    CountUnlink(s.shared, memory, found, stage);
    EverUnlink(s.shared, memory, found, stage);
    var (x, edit) := UnlinkEffect(s.shared, memory, found, stage);
    assert Holder(Step(s, t, Proceed(answer))) == if edit.f.Unlinking? then Some(edit.f) else None;
  }

  lemma StepKeeps(s: State, t: Thread, a: Action)
    requires Inv(s)
    ensures Inv(Step(s, t, a))
  {
    LockKept(s, t, a);
    OwnKept(s, t, a);
    assert s.shared.lock == Some(t) <==> TopHolds(Stack(s, t));
    if s.shared.lock == Some(t) {
      CountHolder(s, t, a);
    } else {
      AwaitedIdKnown(s, t);
      CountOther(s, t, a);
    }
  }
}

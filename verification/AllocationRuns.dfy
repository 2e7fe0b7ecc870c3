/** What holds in every interleaving of the allocation probe's calls. */
module AllocationRuns {
  import opened AllocationSteps
  import opened Options
  import opened Sequences

  lemma {:induction false} RunKeeps(s: State, events: seq<Event>)
    requires Inv(s)
    ensures Inv(Run(s, events))
    decreases |events|
  {
    if events != [] {
      StepKeeps(s, events[0].thread, events[0].action);
      RunKeeps(Step(s, events[0].thread, events[0].action), events[1..]);
    }
  }

  /**
    * Whenever the lock is free the counters agree with the list, and allocated bytes with all blocks ever
    * listed; every allocation is unlinked at most
    * once and freed at most once, only after it was unlinked; and no two blocks that are still listed
    * share an address.
    */
  ghost predicate Agreed(x: Shared) {
    && (x.lock == None ==>
          && x.live == |x.list| % 0x1_0000_0000 && x.retained == TotalBytes(x, x.list) % 0x1_0000_0000_0000_0000
          && x.allocatedBytes == EverListed(x) % 0x1_0000_0000_0000_0000)
    && NoDuplicates(x.list) && NoDuplicates(x.unlinked) && NoDuplicates(x.freed)
    && Elements(x.list) !! Elements(x.unlinked) && Elements(x.freed) <= Elements(x.unlinked)
    && (forall i, j :: 0 <= i < j < |x.list| ==> Memory(x.blocks, x.list[i]) != Memory(x.blocks, x.list[j]))
    && x.attempts == x.totalAttempts % UINT
  }

  lemma InvAgreed(s: State)
    requires Inv(s)
    ensures Agreed(s.shared)
  {
    ListedAddressesDiffer(s.shared);
  }

  lemma ListedAddressesDiffer(x: Shared)
    requires BooksOk(x) && AddressesOk(x)
    ensures forall i, j :: 0 <= i < j < |x.list| ==> Memory(x.blocks, x.list[i]) != Memory(x.blocks, x.list[j])
  {
    forall i, j | 0 <= i < j < |x.list| ensures Memory(x.blocks, x.list[i]) != Memory(x.blocks, x.list[j]) {
      assert x.list[i] in Elements(x.list) && x.list[j] in Elements(x.list);
      assert x.list[i] !in Elements(x.freed) && x.list[j] !in Elements(x.freed);
    }
  }

  /** This holds in every interleaving of any length. */
  lemma CountersAgree(start: State, events: seq<Event>)
    requires start == INITIAL
    ensures Agreed(Run(start, events).shared)
  {
    InitialInv();
    RunKeeps(start, events);
    InvAgreed(Run(start, events));
  }

  lemma InitialInv()
    ensures Inv(INITIAL)
  {
    InitialLock();
    InitialOwn();
    InitialCount();
  }

  lemma InitialLock()
    ensures LockOk(INITIAL)
  {
  }

  lemma InitialOwn()
    ensures OwnOk(INITIAL)
  {
  }

  lemma InitialCount()
    ensures CountOk(INITIAL)
  {
    NothingCounted(INITIAL);
  }

  /** Zero counters agree with empty lists. */
  lemma NothingCounted(s: State)
    requires s.shared.lock == None && s.shared.list == [] && s.shared.unlinked == []
    requires s.shared.live == s.shared.retained == s.shared.allocatedBytes == 0
    requires s.shared.attempts == s.shared.totalAttempts == 0
    ensures CountOk(s)
  {
    ZeroWraps();
    assert Holder(s) == None && TotalBytes(s.shared, []) == 0;
  }

  lemma ZeroWraps()
    ensures 0 % UINT == 0 && 0 % SIZE == 0
  {
  }

  /** Releasing a listed address unlinks exactly the block that was obtained there. */
  lemma ReleaseFindsOwner(s: State, id: BlockId)
    requires Inv(s) && id in s.shared.list
    ensures
      var x := s.shared;
      id < |x.blocks| &&
      var k := Find(x.blocks, x.list, x.blocks[id].memory);
      k < |x.list| && x.list[k] == id
  {
    var x := s.shared;
    assert id in Elements(x.list);
    var memory := x.blocks[id].memory;
    var k := Find(x.blocks, x.list, memory);
    var i :| 0 <= i < |x.list| && x.list[i] == id;
    assert x.list[k] in Elements(x.list);
    assert id !in Elements(x.freed) && x.list[k] !in Elements(x.freed);
  }

  /** A call that releases an untracked pointer changes nothing but the lock, at any of its steps. */
  lemma UntrackedRelease(x: Shared, t: Thread, f: Frame, answer: Option<nat>)
    requires
      || f.Releasing? || f.RawFree? || (f.Unlinking? && f.found == None)
      || (f.Searching? && forall id :: id in x.list ==> Memory(x.blocks, id) != Some(f.memory))
    ensures
      var (x', edit) := Effect(x, t, f, answer);
      x'.(lock := x.lock) == x && (edit.Become? && edit.f.Unlinking? ==> edit.f.found == None)
  {
    if f.Searching? {
      assert forall k :: 0 <= k < |x.list| ==> x.list[k] in x.list;
    }
  }

  /** The attempt counter is the number of attempts, wrapped. */
  ghost predicate AttemptsCounted(x: Shared) {
    x.attempts == x.totalAttempts % UINT
  }

  lemma AttemptsStep(s: State, t: Thread, a: Action)
    requires AttemptsCounted(s.shared)
    ensures AttemptsCounted(Step(s, t, a).shared)
  {
    WrapLive(s.shared.totalAttempts, 1);
  }

  lemma {:induction false} AttemptsRun(s: State, events: seq<Event>)
    requires AttemptsCounted(s.shared)
    ensures AttemptsCounted(Run(s, events).shared)
    decreases |events|
  {
    if events != [] {
      AttemptsStep(s, events[0].thread, events[0].action);
      AttemptsRun(Step(s, events[0].thread, events[0].action), events[1..]);
    }
  }

  lemma WrapDifference(m: nat, n: nat)
    ensures (m % UINT - n % UINT) % UINT == (m - n) % UINT
  {
  }
}

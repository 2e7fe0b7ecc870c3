/**
  * Block layout of the allocation probe (xtask/fixtures/runtime-allocation-probe.c): the overflow guard
  * and the placement of an aligned payload behind its header. `size_t` arithmetic wraps at 2^64.
  */
module AllocationLayout {
  import opened Bits

  const SIZE_MAX: nat := 0xFFFF_FFFF_FFFF_FFFF
  const HEADER: nat := 24 // sizeof(ReportAllocation): two pointers and a size

  type Size = x: nat | x <= 0xFFFF_FFFF_FFFF_FFFF

  function Wrap(x: int): Size {
    x % (SIZE_MAX + 1)
  }

  datatype Request = Abort | Refused | Block(size: Size)

  /** What is asked of `malloc`, or why nothing is. */
  function BlockRequest(bytes: Size, alignment: Size): Request {
    if alignment == 0 || BitAnd(alignment, alignment - 1) != 0 then Abort
    else if alignment - 1 > SIZE_MAX - HEADER || bytes > SIZE_MAX - HEADER - (alignment - 1) then Refused
    else Block(Wrap(Wrap(Wrap(HEADER + alignment) - 1) + bytes))
  }

  /** The payload address inside a block at `base`. */
  function Payload(base: Size, alignment: Size): nat {
    BitAnd(LastByte(base, alignment), AlignmentMask(alignment))
  }

  /** The last address to which the payload may be moved up. */
  function LastByte(base: Size, alignment: Size): Size {
    var start := Wrap(base + HEADER);
    Wrap(Wrap(start + alignment) - 1)
  }

  /** `~(uintptr_t)(alignment - 1)` */
  function AlignmentMask(alignment: Size): Size {
    SIZE_MAX - Wrap(alignment - 1)
  }

  /** The guard refuses exactly the requests whose size would not fit; no accepted size wraps. */
  lemma GuardExact(bytes: Size, alignment: Size)
    ensures BlockRequest(bytes, alignment) ==
            if !IsPower(alignment) then Abort
            else if 24 + (alignment - 1) + bytes > SIZE_MAX then Refused
            else Block(24 + (alignment - 1) + bytes)
  {
    if alignment == 0 {
      assert forall k: nat :: Pow2(k) > 0;
    } else {
      PowerTest(alignment);
      if IsPower(alignment) {
        AlignmentBelowWord(alignment);
        if HEADER + (alignment - 1) + bytes <= SIZE_MAX {
          SizeExact(bytes, alignment);
        }
      }
    }
  }

  lemma SizeExact(bytes: Size, alignment: Size)
    requires alignment > 0 && HEADER + (alignment - 1) + bytes <= SIZE_MAX
    ensures Wrap(Wrap(Wrap(HEADER + alignment) - 1) + bytes) == HEADER + (alignment - 1) + bytes
  {
    WrapBack(HEADER + alignment);
    WrapSmall(HEADER + (alignment - 1) + bytes);
  }

  /** A power of two that fits a word leaves room for the header in it. */
  lemma AlignmentBelowWord(alignment: Size)
    requires IsPower(alignment)
    ensures alignment + HEADER <= SIZE_MAX
  {
    var k: nat :| alignment == Pow2(k);
    var w := WordWidth();
    if w <= k {
      if w < k { PowerGrows(w, k); }
      assert false;
    }
    if k < w - 1 { PowerGrows(k, w - 1); }
    assert Pow2(w) == 2 * Pow2(w - 1);
  }

  lemma WordWidth() returns (w: nat)
    ensures w == 64 && Pow2(w) == SIZE_MAX + 1
  {
    assert Pow2(8) == 256;
    assert Pow2(16) == 256 * Pow2(8);
    assert Pow2(24) == 256 * Pow2(16);
    assert Pow2(32) == 256 * Pow2(24);
    assert Pow2(40) == 256 * Pow2(32);
    assert Pow2(48) == 256 * Pow2(40);
    assert Pow2(56) == 256 * Pow2(48);
    assert Pow2(64) == 256 * Pow2(56);
    w := 64;
  }

  /** Rounding up by adding and masking, without the wrap. */
  lemma RoundedUp(x: nat, mask: nat, alignment: Size, w: nat) returns (q: nat)
    requires IsPower(alignment) && Pow2(w) == SIZE_MAX + 1 && x <= SIZE_MAX && mask == SIZE_MAX - (alignment - 1)
    ensures BitAnd(x, mask) == q * alignment
    ensures q * alignment <= x < q * alignment + alignment
  {
    var k: nat :| alignment == Pow2(k);
    if w < k { PowerGrows(w, k); }
    q := ClearLowBits(x, k, w);
  }

  /** Header and payload lie in the block without overlap, and the payload is aligned. */
  lemma PayloadPlaced(base: Size, bytes: Size, alignment: Size, size: Size) returns (q: nat)
    requires BlockRequest(bytes, alignment) == Block(size) && base + size <= SIZE_MAX
    ensures Payload(base, alignment) == q * alignment
    ensures base + HEADER <= Payload(base, alignment) && Payload(base, alignment) + bytes <= base + size
  {
    GuardExact(bytes, alignment);
    LastByteExact(base, alignment);
    MaskExact(alignment);
    var w := WordWidth();
    q := RoundedUp(LastByte(base, alignment), AlignmentMask(alignment), alignment, w);
  }

  /** Disjoint blocks never share a payload address, not even for payloads of no bytes. */
  lemma PayloadsDiffer(base: Size, bytes: Size, alignment: Size, size: Size, base': Size, bytes': Size,
                       alignment': Size, size': Size)
    requires BlockRequest(bytes, alignment) == Block(size) && base + size <= SIZE_MAX
    requires BlockRequest(bytes', alignment') == Block(size') && base' + size' <= SIZE_MAX
    requires base + size <= base' || base' + size' <= base
    ensures Payload(base, alignment) != Payload(base', alignment')
  {
    var q := PayloadPlaced(base, bytes, alignment, size);
    var q' := PayloadPlaced(base', bytes', alignment', size');
  }

  lemma MaskExact(alignment: Size)
    requires alignment > 0
    ensures AlignmentMask(alignment) == SIZE_MAX - (alignment - 1)
  {
    WrapSmall(alignment - 1);
  }

  lemma LastByteExact(base: Size, alignment: Size)
    requires alignment > 0 && base + HEADER + alignment - 1 <= SIZE_MAX
    ensures LastByte(base, alignment) == base + HEADER + alignment - 1
  {
    WrapSmall(base + HEADER);
    WrapBack(base + HEADER + alignment);
  }

  lemma WrapSmall(x: nat)
    requires x <= SIZE_MAX
    ensures Wrap(x) == x
  {
  }

  /** A sum may wrap when its predecessor does not. */
  lemma WrapBack(x: nat)
    requires 0 < x <= SIZE_MAX + 1
    ensures Wrap(Wrap(x) - 1) == x - 1
  {
    if x <= SIZE_MAX { WrapSmall(x); }
  }
}

/** The lock-protected intrusive list of live allocations and its counters. */
module AllocationList {
  import opened Sequences
  import L = AllocationLayout

  const UINT_LIMIT: nat := 0x1_0000_0000

  class ReportAllocation {
    var next: ReportAllocation?
    const memory: nat
    const bytes: L.Size

    constructor (memory: nat, bytes: L.Size)
      ensures this.memory == memory && this.bytes == bytes && next == null
    {
      this.memory, this.bytes, this.next := memory, bytes, null;
    }
  }

  function TotalBytes(nodes: seq<ReportAllocation>): nat {
    if nodes == [] then 0 else nodes[0].bytes + TotalBytes(nodes[1..])
  }

  /** The list without its element `k`. */
  function Without(nodes: seq<ReportAllocation>, k: nat): (rest: seq<ReportAllocation>)
    requires k < |nodes|
    ensures |rest| == |nodes| - 1
  {
    nodes[..k] + nodes[k + 1..]
  }

  lemma WithoutKeeps(nodes: seq<ReportAllocation>, k: nat)
    requires k < |nodes| && NoDuplicates(nodes)
    ensures NoDuplicates(Without(nodes, k)) && Elements(Without(nodes, k)) <= Elements(nodes)
    ensures forall i :: 0 <= i < |nodes| - 1 ==> Without(nodes, k)[i] == if i < k then nodes[i] else nodes[i + 1]
  {
  }

  lemma {:induction false} TotalWithout(nodes: seq<ReportAllocation>, k: nat)
    requires k < |nodes|
    ensures TotalBytes(nodes) == TotalBytes(Without(nodes, k)) + nodes[k].bytes
  {
    if k == 0 {
      assert nodes[..0] + nodes[1..] == nodes[1..];
    } else {
      TotalWithout(nodes[1..], k - 1);
      assert (nodes[..k] + nodes[k + 1..])[1..] == nodes[1..][..k - 1] + nodes[1..][k..];
    }
  }

  /** What the counters are to agree with once element `k` is gone. */
  lemma Remaining(nodes: seq<ReportAllocation>, k: nat) returns (number: nat, total: nat)
    requires k < |nodes|
    ensures |nodes| == number + 1 && TotalBytes(nodes) == total + nodes[k].bytes
    ensures forall rest :: rest == Without(nodes, k) ==> |rest| == number && TotalBytes(rest) == total
  {
    TotalWithout(nodes, k);
    number, total := |nodes| - 1, TotalBytes(Without(nodes, k));
  }

  /** The element of a list at a position, or null past its end. */
  function At(nodes: seq<ReportAllocation>, i: nat): ReportAllocation? {
    if i < |nodes| then nodes[i] else null
  }

  /** `k` is the position of the first allocation at `memory`, or the length if there is none. */
  ghost predicate FirstAt(nodes: seq<ReportAllocation>, k: nat, memory: nat) {
    && k <= |nodes| && (k < |nodes| ==> nodes[k].memory == memory)
    && forall i :: 0 <= i < k ==> nodes[i].memory != memory
  }

  /** Wrapping at each update is wrapping once. */
  lemma UpOne(number: nat, total: nat, bytes: nat)
    ensures (number % UINT_LIMIT + 1) % UINT_LIMIT == (number + 1) % UINT_LIMIT
    ensures L.Wrap(total % (L.SIZE_MAX + 1) + bytes) == (total + bytes) % (L.SIZE_MAX + 1)
  {
  }

  lemma DownOne(number: nat, total: nat, bytes: nat)
    ensures ((number + 1) % UINT_LIMIT - 1) % UINT_LIMIT == number % UINT_LIMIT
    ensures L.Wrap((total + bytes) % (L.SIZE_MAX + 1) - bytes) == total % (L.SIZE_MAX + 1)
  {
  }

  class Probe {
    var head: ReportAllocation?
    var live: nat          // atomic_uint
    var allocatedBytes: nat     // atomic_size_t, bytes ever allocated
    var retained: nat      // atomic_size_t, bytes still tracked
    ghost var nodes: seq<ReportAllocation> // the list, first to last

    ghost predicate Chain()
      reads this`head, this`nodes, nodes
    {
      && NoDuplicates(nodes)
      && head == At(nodes, 0)
      && forall i :: 0 <= i < |nodes| ==> nodes[i].next == At(nodes, i + 1)
    }

    ghost predicate Counted(number: nat, bytes: nat)
      reads this`live, this`retained
    {
      live == number % UINT_LIMIT && retained == bytes % (L.SIZE_MAX + 1)
    }

    ghost predicate Valid()
      reads this, nodes
    {
      Chain() && Counted(|nodes|, TotalBytes(nodes))
    }

    constructor ()
      ensures Valid() && nodes == [] && live == 0 && retained == 0 && allocatedBytes == 0
    {
      head, live, allocatedBytes, retained, nodes := null, 0, 0, 0, [];
    }

    method Count(bytes: L.Size, ghost number: nat, ghost total: nat)
      requires Counted(number, total)
      modifies this`live, this`allocatedBytes, this`retained
      ensures Counted(number + 1, total + bytes) && allocatedBytes == L.Wrap(old(allocatedBytes) + bytes)
    {
      UpOne(number, total, bytes);
      live := (live + 1) % UINT_LIMIT;
      allocatedBytes := L.Wrap(allocatedBytes + bytes);
      retained := L.Wrap(retained + bytes);
    }

    method Uncount(bytes: L.Size, ghost number: nat, ghost total: nat)
      requires Counted(number + 1, total + bytes)
      modifies this`live, this`retained
      ensures Counted(number, total)
    {
      DownOne(number, total, bytes);
      live := (live - 1) % UINT_LIMIT;
      retained := L.Wrap(retained - bytes);
    }

    /** The critical section of an allocation. */
    method Link(allocation: ReportAllocation)
      requires Valid() && allocation !in nodes
      modifies this, allocation
      ensures Valid() && nodes == [allocation] + old(nodes)
      ensures allocatedBytes == L.Wrap(old(allocatedBytes) + allocation.bytes)
    {
      ghost var was := nodes;
      Prepend(allocation);
      assert nodes[1..] == was;
      Count(allocation.bytes, |was|, TotalBytes(was));
    }

    /** The new head leads to the old one. */
    method Prepend(allocation: ReportAllocation)
      requires Chain() && allocation !in nodes
      modifies this`head, this`nodes, allocation
      ensures Chain() && nodes == [allocation] + old(nodes)
    {
      ghost var was := nodes;
      allocation.next := head;
      head := allocation;
      nodes := [allocation] + nodes;
      assert forall i :: 0 <= i < |was| ==> nodes[i + 1] == was[i];
    }

    /** The walk along the list to the first allocation at `memory`. */
    method Find(memory: nat) returns (before: ReportAllocation?, allocation: ReportAllocation?, ghost k: nat)
      requires Chain()
      ensures FirstAt(nodes, k, memory) && allocation == At(nodes, k)
      ensures before == (if k == 0 then null else nodes[k - 1])
      ensures allocation == null <==> forall i :: 0 <= i < |nodes| ==> nodes[i].memory != memory
    {
      before, allocation, k := null, head, 0;
      while allocation != null && allocation.memory != memory
        invariant k <= |nodes| && allocation == At(nodes, k) && before == (if k == 0 then null else nodes[k - 1])
        invariant forall i :: 0 <= i < k ==> nodes[i].memory != memory
        decreases |nodes| - k
      {
        before := allocation;
        allocation := allocation.next;
        k := k + 1;
      }
    }

    /** Unlinking through the cursor: the link that led to the allocation now leads past it. */
    method Bypass(before: ReportAllocation?, allocation: ReportAllocation, ghost k: nat)
      requires Chain() && k < |nodes| && allocation == nodes[k] && before == (if k == 0 then null else nodes[k - 1])
      modifies this`head, this`nodes, nodes
      ensures Chain() && nodes == Without(old(nodes), k)
    {
      ghost var was := nodes;
      assert allocation.next == At(was, k + 1);
      if before == null {
        head := allocation.next;
      } else {
        before.next := allocation.next;
      }
      nodes := Without(was, k);
      WithoutKeeps(was, k);
      forall i | 0 <= i < |nodes| ensures nodes[i].next == At(nodes, i + 1) {
        if i < k {
          assert nodes[i] == was[i] && (was[i] == before <==> i == k - 1);
        } else {
          assert nodes[i] == was[i + 1] && was[i + 1] != before;
        }
      }
    }

    /** The critical section of a release: unlinks the first allocation at `memory`, if any. */
    method Unlink(memory: nat) returns (allocation: ReportAllocation?, ghost k: nat)
      requires Valid()
      modifies this, nodes
      ensures Valid() && allocatedBytes == old(allocatedBytes)
      ensures FirstAt(old(nodes), k, memory) && allocation == At(old(nodes), k)
      ensures allocation != null ==> nodes == Without(old(nodes), k)
      ensures allocation == null ==> nodes == old(nodes) && live == old(live) && retained == old(retained)
    {
      var before, found, i := Find(memory);
      allocation, k := found, i;
      if allocation != null {
        Remove(before, allocation, k);
      }
    }

    method Remove(before: ReportAllocation?, allocation: ReportAllocation, ghost k: nat)
      requires Valid() && k < |nodes| && allocation == nodes[k] && before == (if k == 0 then null else nodes[k - 1])
      modifies this`head, this`nodes, this`live, this`retained, nodes
      ensures Valid() && nodes == Without(old(nodes), k)
    {
      ghost var number, total := Remaining(nodes, k);
      CutOut(before, allocation, k, number, total);
    }

    /** The allocation leaves the list, then the counters. */
    method CutOut(before: ReportAllocation?, allocation: ReportAllocation, ghost k: nat,
                  ghost number: nat, ghost total: nat)
      requires Chain() && k < |nodes| && allocation == nodes[k] && before == (if k == 0 then null else nodes[k - 1])
      requires Counted(number + 1, total + allocation.bytes)
      modifies this`head, this`nodes, this`live, this`retained, nodes
      ensures Chain() && nodes == Without(old(nodes), k) && Counted(number, total)
    {
      Bypass(before, allocation, k);
      Uncount(allocation.bytes, number, total);
    }
  }
}

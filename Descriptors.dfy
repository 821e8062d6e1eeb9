// Descriptor handles, the shader-visible descriptor heap and the unbounded
// CPU descriptor allocator (Core/DescriptorHeap.h, Core/DescriptorHeap.cpp).
// Pointers are 64-bit (size_t, UINT64) and wrap modulo 2^64; descriptor
// counts and sizes are uint32_t and wrap modulo 2^32.  What the device
// supplies (heap start addresses, the descriptor increment size) arrives
// as parameters.
module Descriptors {
  import opened AlignMath

  /** D3D12_GPU_VIRTUAL_ADDRESS_UNKNOWN: the all-ones pointer marking an unset handle. */
  const UNKNOWN: Word := WORD - 1

  /** sm_NumDescriptorsPerHeap: the size of every heap the allocator requests. */
  const DESCRIPTORS_PER_HEAP: nat := 256

  /** A uint32_t result: reduction modulo 2^32. */
  function Wrap32(x: int): (r: nat)
    ensures r < WORD32
    ensures 0 <= x < WORD32 ==> r == x
  {
    x % WORD32
  }

  /** The conversion of a uint32_t to INT: values from 2^31 on turn negative. */
  function AsInt32(x: nat): (r: int)
    requires x < WORD32
    ensures -0x8000_0000 <= r < 0x8000_0000
    ensures x < 0x8000_0000 ==> r == x
    ensures Wrap32(r) == x
  {
    if x < 0x8000_0000 then x else x - WORD32
  }

  /** Count * m_DescriptorSize as the INT offset operator+= takes. */
  function ScaledOffset(count: nat, size: nat): (r: int)
    ensures count * size < 0x8000_0000 ==> r == count * size
  {
    AsInt32(Wrap32(count * size))
  }

  /** A CPU and a GPU descriptor pointer; UNKNOWN marks an absent one. */
  datatype DescriptorHandle = DescriptorHandle(cpu: Word, gpu: Word)
  {
    /** IsNull: no CPU descriptor. */
    predicate IsNull()
    {
      cpu == UNKNOWN
    }

    /** IsShaderVisible: there is a GPU descriptor. */
    predicate IsShaderVisible()
    {
      gpu != UNKNOWN
    }

    /**
     * operator+= (and operator+, which applies it to a copy): each pointer
     * that is set moves by the offset, wrapping modulo 2^64; an UNKNOWN
     * pointer stays UNKNOWN.
     */
    function Advanced(offset: int): (h: DescriptorHandle)
      ensures IsNull() ==> h.IsNull()
      ensures !IsShaderVisible() ==> !h.IsShaderVisible()
      ensures !IsNull() && 0 <= cpu + offset < UNKNOWN ==> h.cpu == cpu + offset
      ensures IsShaderVisible() && 0 <= gpu + offset < UNKNOWN ==> h.gpu == gpu + offset
    {
      DescriptorHandle(
        if cpu != UNKNOWN then Wrap(cpu + offset) else cpu,
        if gpu != UNKNOWN then Wrap(gpu + offset) else gpu)
    }
  }

  /** The default-constructed handle: both pointers UNKNOWN. */
  const NULL_HANDLE := DescriptorHandle(UNKNOWN, UNKNOWN)

  /** A default handle is null and not shader-visible, whatever it is advanced by. */
  lemma DefaultHandleIsNull(offset: int)
    ensures NULL_HANDLE.IsNull() && !NULL_HANDLE.IsShaderVisible()
    ensures NULL_HANDLE.Advanced(offset) == NULL_HANDLE
  {
  }

  /** Two advances add up, as long as neither pointer lands on UNKNOWN in between. */
  lemma AdvancedTwice(h: DescriptorHandle, a: int, b: int)
    requires !h.IsNull() ==> Wrap(h.cpu + a) != UNKNOWN
    requires h.IsShaderVisible() ==> Wrap(h.gpu + a) != UNKNOWN
    ensures h.Advanced(a).Advanced(b) == h.Advanced(a + b)
  {
    WrapAdd(h.cpu, a, b);
    WrapAdd(h.gpu, a, b);
  }

  lemma WrapAdd(x: int, a: int, b: int)
    ensures Wrap(Wrap(x + a) + b) == Wrap(x + a + b)
  {
    var q := (x + a) / WORD;
    DivModIdentity(x + a, WORD);
    var w := Wrap(x + a);
    assert x + a + b == (w + b) + q * WORD;
    ModShift(w + b, q);
  }

  lemma ModShift(y: int, q: int)
    ensures (y + q * WORD) % WORD == y % WORD
  {
    DivModIdentity(y, WORD);
    DivModUnique(y + q * WORD, WORD, y / WORD + q, y % WORD);
  }

  /** Moving a handle within a range that neither wraps nor reaches UNKNOWN is plain addition. */
  lemma InRange(first: DescriptorHandle, n: nat, size: nat, k: nat)
    requires k <= n && n * size < 0x8000_0000
    requires first.cpu + n * size < UNKNOWN && first.gpu + n * size < UNKNOWN
    ensures k * size <= n * size
    ensures ScaledOffset(k, size) == k * size
    ensures first.Advanced(k * size) == DescriptorHandle(first.cpu + k * size, first.gpu + k * size)
  {
    MulMono(k, n, size);
  }

  lemma OffsetDivides(k: nat, size: nat)
    requires 0 < size && k * size < 0x8000_0000
    ensures Wrap32(Wrap(k * size)) / size == k
  {
    MultipleMod(k, size);
  }

  lemma MulStrict(a: nat, b: nat, d: nat)
    requires a < b && d > 0
    ensures a * d < b * d
  {
    MulMono(a + 1, b, d);
  }

  lemma SumProduct(a: nat, b: nat, d: nat)
    ensures a * d + b * d == (a + b) * d
  {
  }

  /**
   * A shader-visible descriptor heap of numDescriptors descriptors handed
   * out front to back.
   */
  class DescriptorHeap {
    /** m_Heap is set. */
    var created: bool
    /** m_HeapDesc.NumDescriptors. */
    var numDescriptors: nat
    var descriptorSize: nat
    var numFreeDescriptors: nat
    var firstHandle: DescriptorHandle
    var nextFreeHandle: DescriptorHandle

    /**
     * Once created: the handed-out descriptors are the first
     * numDescriptors - numFreeDescriptors, and the heap's address ranges
     * neither wrap nor reach UNKNOWN (what the device guarantees of a heap).
     */
    ghost predicate Valid()
      reads this
    {
      created ==>
        0 < descriptorSize < WORD32 && numDescriptors < WORD32 &&
        numFreeDescriptors <= numDescriptors &&
        numDescriptors * descriptorSize < 0x8000_0000 &&
        firstHandle.cpu + numDescriptors * descriptorSize < UNKNOWN &&
        firstHandle.gpu + numDescriptors * descriptorSize < UNKNOWN &&
        nextFreeHandle.cpu == firstHandle.cpu + (numDescriptors - numFreeDescriptors) * descriptorSize &&
        nextFreeHandle.gpu == firstHandle.gpu + (numDescriptors - numFreeDescriptors) * descriptorSize
    }

    constructor ()
      ensures Valid() && !created
    {
      created := false;
      numDescriptors, descriptorSize, numFreeDescriptors := 0, 0, 0;
      firstHandle, nextFreeHandle := NULL_HANDLE, NULL_HANDLE;
    }

    /**
     * Create: the heap holds maxCount descriptors, all free, and the next
     * free handle is the first.  cpuStart, gpuStart and size are what the
     * device reports for the new heap.
     */
    method Create(maxCount: nat, cpuStart: Word, gpuStart: Word, size: nat)
      requires maxCount < WORD32 && 0 < size < WORD32 && maxCount * size < 0x8000_0000
      requires cpuStart + maxCount * size < UNKNOWN && gpuStart + maxCount * size < UNKNOWN
      modifies this
      ensures Valid() && created
      ensures numDescriptors == maxCount && descriptorSize == size && numFreeDescriptors == maxCount
      ensures firstHandle == DescriptorHandle(cpuStart, gpuStart) && nextFreeHandle == firstHandle
    {
      created := true;
      numDescriptors := maxCount;
      descriptorSize := size;
      numFreeDescriptors := maxCount;
      firstHandle := DescriptorHandle(cpuStart, gpuStart);
      nextFreeHandle := firstHandle;
    }

    /** HasAvailableSpace: count descriptors are still free. */
    function HasAvailableSpace(count: nat): (b: bool)
      reads this
      ensures b <==> count <= numFreeDescriptors
    {
      count <= numFreeDescriptors
    }

    /**
     * Alloc: asserts there is space, returns the next free handle and moves
     * it past count descriptors.
     */
    method Alloc(count: nat) returns (ret: DescriptorHandle)
      requires Valid() && created && count < WORD32
      requires HasAvailableSpace(count)
      modifies this`nextFreeHandle, this`numFreeDescriptors
      ensures Valid()
      ensures ret == old(nextFreeHandle)
      ensures nextFreeHandle == old(nextFreeHandle).Advanced(ScaledOffset(count, descriptorSize))
      ensures numFreeDescriptors == old(numFreeDescriptors) - count
      ensures ret.cpu == firstHandle.cpu + (numDescriptors - old(numFreeDescriptors)) * descriptorSize
      ensures nextFreeHandle.cpu == ret.cpu + count * descriptorSize
    {
      ghost var used := numDescriptors - numFreeDescriptors;
      SumProduct(used, numFreeDescriptors, descriptorSize);
      SumProduct(used, count, descriptorSize);
      MulMono(numFreeDescriptors, numDescriptors, descriptorSize);
      InRange(nextFreeHandle, numFreeDescriptors, descriptorSize, count);
      ret := nextFreeHandle;
      nextFreeHandle := nextFreeHandle.Advanced(ScaledOffset(count, descriptorSize));
      numFreeDescriptors := numFreeDescriptors - count;
    }

    /** operator[]: the handle of descriptor k. */
    function At(k: nat): (h: DescriptorHandle)
      reads this
      requires Valid() && created && k < numDescriptors
      ensures h.cpu == firstHandle.cpu + k * descriptorSize
      ensures h.gpu == firstHandle.gpu + k * descriptorSize
    {
      InRange(firstHandle, numDescriptors, descriptorSize, k);
      firstHandle.Advanced(ScaledOffset(k, descriptorSize))
    }

    /** GetOffsetOfHandle: the descriptor index of a handle, by its CPU pointer. */
    function GetOffsetOfHandle(h: DescriptorHandle): (k: nat)
      reads this
      requires Valid() && created
      ensures k < WORD32
    {
      Wrap32(Wrap(h.cpu - firstHandle.cpu)) / descriptorSize
    }

    /** ValidateHandle: the CPU pointer lies in the heap and the GPU pointer sits at the same offset. */
    function ValidateHandle(h: DescriptorHandle): (b: bool)
      reads this
      requires Valid() && created
      ensures b <==>
        firstHandle.cpu <= h.cpu < firstHandle.cpu + numDescriptors * descriptorSize &&
        h.gpu == firstHandle.gpu + (h.cpu - firstHandle.cpu)
    {
      var end := Wrap(firstHandle.cpu + Wrap32(numDescriptors * descriptorSize));
      if h.cpu < firstHandle.cpu || h.cpu >= end then false
      else Wrap(h.gpu - firstHandle.gpu) == Wrap(h.cpu - firstHandle.cpu)
    }

    /** GetOffsetOfHandle inverts operator[]. */
    lemma OffsetOfAt(k: nat)
      requires Valid() && created && k < numDescriptors
      ensures GetOffsetOfHandle(At(k)) == k
    {
      InRange(firstHandle, numDescriptors, descriptorSize, k);
      assert At(k).cpu - firstHandle.cpu == k * descriptorSize;
      OffsetDivides(k, descriptorSize);
    }

    /** Every descriptor of the heap has a valid handle. */
    lemma AtIsValid(k: nat)
      requires Valid() && created && k < numDescriptors
      ensures ValidateHandle(At(k))
    {
      var h := At(k);
      MulStrict(k, numDescriptors, descriptorSize);
      assert h.cpu - firstHandle.cpu == h.gpu - firstHandle.gpu == k * descriptorSize;
    }
  }

  // ---------------------------------------------------------------------
  // DescriptorAllocator: CPU descriptors carved out of 256-descriptor heaps.
  // A heap is identified by its start address; the start of each new heap
  // and the device's descriptor increment size are parameters.

  /** The fields of a DescriptorAllocator (m_CurrentHeap is hasHeap/heapStart). */
  datatype AllocatorState = AllocatorState(
    hasHeap: bool, heapStart: Word, current: Word, descriptorSize: nat, remaining: nat)

  /** A freshly constructed allocator: no heap, size 0, the handle UNKNOWN. */
  const FRESH_ALLOCATOR := AllocatorState(false, 0, UNKNOWN, 0, 0)

  /**
   * Allocate as the source writes it: a new heap is requested when there is
   * none or fewer than count handles remain; the current handle is returned
   * and moved past count descriptors; the uint32_t remaining count is
   * decremented with wrap-around.
   */
  function AllocateAsWritten(s: AllocatorState, count: nat, newHeapStart: Word, deviceSize: nat)
    : (r: (AllocatorState, Word))
    ensures var newHeap := !s.hasHeap || s.remaining < count;
      r.1 == (if newHeap then newHeapStart else s.current) &&
      r.0.heapStart == (if newHeap then newHeapStart else s.heapStart) && r.0.hasHeap
  {
    Take(WithHeap(s, count, newHeapStart, deviceSize), count)
  }

  /** The first half of Allocate: a new heap when there is none or too little is left. */
  function WithHeap(s: AllocatorState, count: nat, newHeapStart: Word, deviceSize: nat): AllocatorState
  {
    if !s.hasHeap || s.remaining < count then
      s.(hasHeap := true, heapStart := newHeapStart, current := newHeapStart,
         remaining := DESCRIPTORS_PER_HEAP,
         descriptorSize := if s.descriptorSize == 0 then deviceSize else s.descriptorSize)
    else s
  }

  /** The second half of Allocate: hand out the current handle and move past count descriptors. */
  function Take(s: AllocatorState, count: nat): (AllocatorState, Word)
  {
    (s.(current := Wrap(s.current + Wrap32(count * s.descriptorSize)),
        remaining := Wrap32(s.remaining - count)), s.current)
  }

  /**
   * The allocator's handle lies inside its current heap: remaining handles
   * are left between it and the heap's end, and the heap's range does not
   * wrap.
   */
  ghost predicate InHeap(s: AllocatorState, deviceSize: nat)
  {
    s.hasHeap ==>
      s.descriptorSize == deviceSize && s.remaining <= DESCRIPTORS_PER_HEAP &&
      s.heapStart + DESCRIPTORS_PER_HEAP * deviceSize < WORD &&
      s.current == s.heapStart + (DESCRIPTORS_PER_HEAP - s.remaining) * deviceSize
  }

  /** The descriptor sizes the device reports keep a whole heap's offsets within uint32_t. */
  ghost predicate DeviceSize(deviceSize: nat)
  {
    0 < deviceSize && DESCRIPTORS_PER_HEAP * deviceSize < WORD32
  }

  /**
   * A request of more than 256 descriptors escapes the heap: the first call
   * takes a fresh 256-descriptor heap, wraps the remaining count to nearly
   * 2^32, and the next call hands out a descriptor past the heap's end
   * without requesting a new heap.
   */
  lemma OversizedAllocationOverruns()
    ensures var (s1, r1) := AllocateAsWritten(FRESH_ALLOCATOR, 300, 0x1000, 32);
      var (s2, r2) := AllocateAsWritten(s1, 1, 0x10_0000, 32);
      r1 == 0x1000 && s2.heapStart == 0x1000 &&
      r2 == 0x1000 + 300 * 32 && r2 >= 0x1000 + DESCRIPTORS_PER_HEAP * 32
  {
  }

  /**
   * With at most 256 descriptors per request, each allocation keeps the
   * allocator inside its heap and hands out a range that lies wholly in the
   * heap, right where the previous one ended when no new heap was needed.
   */
  lemma AllocateStaysInHeap(s: AllocatorState, count: nat, newHeapStart: Word, deviceSize: nat)
    requires InHeap(s, deviceSize) && DeviceSize(deviceSize)
    requires s.hasHeap || s.descriptorSize == 0
    requires newHeapStart + DESCRIPTORS_PER_HEAP * deviceSize < WORD
    requires count <= DESCRIPTORS_PER_HEAP
    ensures var (s', ret) := AllocateAsWritten(s, count, newHeapStart, deviceSize);
      InHeap(s', deviceSize) &&
      s'.heapStart <= ret && ret + count * deviceSize <= s'.heapStart + DESCRIPTORS_PER_HEAP * deviceSize &&
      s'.current == ret + count * deviceSize &&
      (s.hasHeap && count <= s.remaining ==> ret == s.current && s'.heapStart == s.heapStart)
  {
    var s1 := WithHeap(s, count, newHeapStart, deviceSize);
    assert InHeap(s1, deviceSize) && s1.hasHeap && count <= s1.remaining;
    TakeInHeap(s1, count, deviceSize);
  }

  /** Taking at most the remaining descriptors stays inside the heap. */
  lemma TakeInHeap(s: AllocatorState, count: nat, deviceSize: nat)
    requires InHeap(s, deviceSize) && DeviceSize(deviceSize)
    requires s.hasHeap && count <= s.remaining
    ensures var (s', ret) := Take(s, count);
      InHeap(s', deviceSize) && ret == s.current && s'.heapStart == s.heapStart &&
      s.heapStart <= ret && ret + count * deviceSize <= s.heapStart + DESCRIPTORS_PER_HEAP * deviceSize &&
      s'.current == ret + count * deviceSize
  {
    HeapArithmetic(s.heapStart, DESCRIPTORS_PER_HEAP - s.remaining, count, s.remaining, deviceSize);
    var off := count * deviceSize;
    assert Wrap32(count * s.descriptorSize) == off;
    assert Wrap(s.current + off) == s.current + off;
  }

  /** The offsets arithmetic behind AllocateStaysInHeap. */
  lemma HeapArithmetic(start: nat, used: nat, count: nat, remaining: nat, size: nat)
    requires used + remaining == DESCRIPTORS_PER_HEAP && count <= remaining
    requires DESCRIPTORS_PER_HEAP * size < WORD32
    requires start + DESCRIPTORS_PER_HEAP * size < WORD
    ensures count * size < WORD32
    ensures start + used * size + count * size == start + (DESCRIPTORS_PER_HEAP - (remaining - count)) * size
    ensures start + used * size + count * size <= start + DESCRIPTORS_PER_HEAP * size
  {
    SumProduct(used, count, size);
    SumProduct(used + count, remaining - count, size);
    MulMono(count, DESCRIPTORS_PER_HEAP, size);
  }

  /** The static heap pool every allocator appends its heaps to. */
  class DescriptorHeapPool {
    var heaps: seq<Word>

    constructor ()
      ensures heaps == []
    {
      heaps := [];
    }

    /** RequestNewHeap: the new heap joins the pool. */
    method RequestNewHeap(heapStart: Word) returns (h: Word)
      modifies this
      ensures heaps == old(heaps) + [heapStart] && h == heapStart
    {
      heaps := heaps + [heapStart];
      h := heapStart;
    }

    /** DestroyAll: the pool is emptied. */
    method DestroyAll()
      modifies this
      ensures heaps == []
    {
      heaps := [];
    }
  }

  class DescriptorAllocator {
    /** What the device reports as the increment size of this allocator's heap type. */
    const deviceSize: nat
    const pool: DescriptorHeapPool
    var hasHeap: bool
    var heapStart: Word
    var currentHandle: Word
    var descriptorSize: nat
    var remainingFreeHandles: nat

    function State(): AllocatorState
      reads this
    {
      AllocatorState(hasHeap, heapStart, currentHandle, descriptorSize, remainingFreeHandles)
    }

    ghost predicate Valid()
      reads this
    {
      DeviceSize(deviceSize) && InHeap(State(), deviceSize) && (hasHeap || descriptorSize == 0)
    }

    constructor (pool: DescriptorHeapPool, deviceSize: nat)
      requires DeviceSize(deviceSize)
      ensures Valid() && State() == FRESH_ALLOCATOR
      ensures this.pool == pool && this.deviceSize == deviceSize
    {
      this.pool := pool;
      this.deviceSize := deviceSize;
      hasHeap, heapStart, currentHandle := false, 0, UNKNOWN;
      descriptorSize, remainingFreeHandles := 0, 0;
    }

    /**
     * Allocate, for requests of at most one heap: the step AllocateAsWritten
     * describes, with the pool growing by the heap it requests.
     */
    method Allocate(count: nat, newHeapStart: Word) returns (ret: Word)
      requires Valid() && count <= DESCRIPTORS_PER_HEAP
      requires newHeapStart + DESCRIPTORS_PER_HEAP * deviceSize < WORD
      modifies this, pool
      ensures Valid()
      ensures (State(), ret) == AllocateAsWritten(old(State()), count, newHeapStart, deviceSize)
      ensures heapStart <= ret && ret + count * deviceSize <= heapStart + DESCRIPTORS_PER_HEAP * deviceSize
      ensures pool.heaps == old(pool.heaps) + (if old(hasHeap) && count <= old(remainingFreeHandles) then [] else [newHeapStart])
    {
      AllocateStaysInHeap(State(), count, newHeapStart, deviceSize);
      if !hasHeap || remainingFreeHandles < count {
        var h := pool.RequestNewHeap(newHeapStart);
        hasHeap := true;
        heapStart := h;
        currentHandle := h;
        remainingFreeHandles := DESCRIPTORS_PER_HEAP;
        if descriptorSize == 0 {
          descriptorSize := deviceSize;
        }
      }
      ret := currentHandle;
      currentHandle := Wrap(currentHandle + Wrap32(count * descriptorSize));
      remainingFreeHandles := Wrap32(remainingFreeHandles - count);
    }
  }
}

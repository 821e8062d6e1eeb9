// The shader-visible descriptor heap a command context fills as it draws
// (DynamicDescriptorHeap in Core/DynamicDescriptorHeap.h and .cpp): the
// shared pool of heaps of one type, and the per-context heap that hands
// out descriptor ranges, retires full heaps and commits the staged tables
// of its graphics and compute handle caches.  Heaps are numbered as pages
// are in LinearAlloc; whether a fence has completed is decided by the last
// completed fence value, and the start of a heap is what the device
// reports for it, both passed in as parameters.
module DynamicHeap {
  import opened Wrappers
  import AlignMath
  import opened DynamicDescriptors
  import D = Descriptors
  import L = LinearAlloc

  /**
   * The device's guarantee for a heap of kNumDescriptorsPerHeap descriptors:
   * its byte range fits an INT offset and neither pointer reaches UNKNOWN.
   */
  predicate HandleRoom(start: D.DescriptorHandle, descriptorSize: nat)
  {
    NUM_DESCRIPTORS_PER_HEAP * descriptorSize < 0x8000_0000 &&
    start.cpu + NUM_DESCRIPTORS_PER_HEAP * descriptorSize < D.UNKNOWN &&
    start.gpu + NUM_DESCRIPTORS_PER_HEAP * descriptorSize < D.UNKNOWN
  }

  /**
   * sm_DescriptorHeapPool, sm_RetiredDescriptorHeaps and
   * sm_AvailableDescriptorHeaps for one heap type.
   */
  class HeapPool {
    /** Every heap created, kept alive by the pool. */
    var heapPool: seq<nat>
    /** Heaps waiting for their fence, in retirement order. */
    var retiredHeaps: seq<L.Retired>
    /** Heaps whose fence has completed, ready for reuse. */
    var availableHeaps: seq<nat>
    /** The number the next created heap gets. */
    var nextHeap: nat

    /** The queues in the shape LinearAlloc.Requested describes. */
    function Queues(): L.PageQueues
      reads this
    {
      L.PageQueues(heapPool, retiredHeaps, availableHeaps, nextHeap)
    }

    constructor ()
      ensures heapPool == [] && retiredHeaps == [] && availableHeaps == [] && nextHeap == 0
    {
      heapPool, retiredHeaps, availableHeaps, nextHeap := [], [], [], 0;
    }

    /**
     * RequestDescriptorHeap: retired heaps whose fence has completed become
     * available; the front available heap is reused, and only when there
     * is none is a new heap created.  This is the discipline of
     * LinearAlloc.Requested, whose first-in-first-out properties
     * LinearAlloc.RequestedFifo states.
     */
    method RequestDescriptorHeap(lastCompleted: nat) returns (heap: nat)
      modifies this
      ensures (Queues(), heap) == L.Requested(old(Queues()), lastCompleted)
    {
      ghost var q0 := retiredHeaps;
      ghost var a0 := availableHeaps;
      ghost var j := 0;
      while |retiredHeaps| > 0 && L.IsFenceComplete(retiredHeaps[0].0, lastCompleted)
        invariant j <= |q0| && retiredHeaps == q0[j..]
        invariant availableHeaps == a0 + L.PagesOf(q0[..j])
        invariant L.ReadyCount(q0, lastCompleted) == j + L.ReadyCount(retiredHeaps, lastCompleted)
        invariant heapPool == old(heapPool) && nextHeap == old(nextHeap)
        decreases |retiredHeaps|
      {
        assert L.PagesOf(q0[..j + 1]) == L.PagesOf(q0[..j]) + [retiredHeaps[0].1];
        availableHeaps := availableHeaps + [retiredHeaps[0].1];
        retiredHeaps := retiredHeaps[1..];
        j := j + 1;
      }
      if |availableHeaps| > 0 {
        heap := availableHeaps[0];
        availableHeaps := availableHeaps[1..];
      } else {
        heap := nextHeap;
        nextHeap := nextHeap + 1;
        heapPool := heapPool + [heap];
      }
    }

    /** DiscardDescriptorHeaps: the used heaps wait, in order, behind the fence. */
    method DiscardDescriptorHeaps(fenceValue: nat, usedHeaps: seq<nat>)
      modifies this`retiredHeaps
      ensures retiredHeaps == old(retiredHeaps) + L.Tagged(fenceValue, usedHeaps)
    {
      for i := 0 to |usedHeaps|
        invariant retiredHeaps == old(retiredHeaps) + L.Tagged(fenceValue, usedHeaps[..i])
      {
        assert L.Tagged(fenceValue, usedHeaps[..i + 1]) == L.Tagged(fenceValue, usedHeaps[..i]) + [(fenceValue, usedHeaps[i])];
        retiredHeaps := retiredHeaps + [(fenceValue, usedHeaps[i])];
      }
    }
  }

  /** The tables with an assigned handle: what UnbindAllValid marks stale. */
  ghost predicate AssignedStale(cache: DescriptorHandleCache)
    reads cache, cache.rootDescriptorTable
    requires cache.Valid()
  {
    forall t :: t in cache.staleRootParams <==>
      t in cache.rootDescriptorTables && cache.rootDescriptorTable[t].assignedBits != {}
  }

  class DynamicDescriptorHeap {
    /** m_DescriptorType is D3D12_DESCRIPTOR_HEAP_TYPE_SAMPLER. */
    const isSampler: bool
    /** m_DescriptorSize: the device's descriptor increment for the type. */
    const descriptorSize: nat
    /** The shared pool of heaps of this type. */
    const pool: HeapPool
    const graphicsHandleCache: DescriptorHandleCache
    const computeHandleCache: DescriptorHandleCache
    /** m_CurrentHeapPtr, None for nullptr. */
    var currentHeap: Option<nat>
    /** m_CurrentOffset: descriptors handed out from the current heap. */
    var currentOffset: nat
    /** m_FirstDescriptor: the start of the current heap. */
    var firstDescriptor: D.DescriptorHandle
    /** m_RetiredHeaps: heaps this context filled, not yet given back to the pool. */
    var retiredHeaps: seq<nat>

    /**
     * There is a current heap exactly when part of one is in use (the two
     * ASSERTs of RetireCurrentHeap and the one of GetHeapPointer), the
     * offset stays inside the heap, and the current heap's handles have
     * room for all of it.
     */
    ghost predicate HeapValid()
      reads this
    {
      (currentHeap.Some? <==> currentOffset > 0) && currentOffset <= NUM_DESCRIPTORS_PER_HEAP &&
      (currentHeap.Some? ==> HandleRoom(firstDescriptor, descriptorSize))
    }

    /** Both handle caches are consistent, distinct, and every stale root has a handle. */
    ghost predicate CachesValid()
      reads graphicsHandleCache, computeHandleCache
      reads graphicsHandleCache.rootDescriptorTable, computeHandleCache.rootDescriptorTable
    {
      graphicsHandleCache != computeHandleCache &&
      graphicsHandleCache.rootDescriptorTable != computeHandleCache.rootDescriptorTable &&
      graphicsHandleCache.handleCache != computeHandleCache.handleCache &&
      graphicsHandleCache.Valid() && graphicsHandleCache.StaleAssigned() &&
      computeHandleCache.Valid() && computeHandleCache.StaleAssigned()
    }

    ghost predicate Valid()
      reads this, graphicsHandleCache, computeHandleCache
      reads graphicsHandleCache.rootDescriptorTable, computeHandleCache.rootDescriptorTable
    {
      HeapValid() && CachesValid()
    }

    /** The cache of the graphics or of the compute pipeline. */
    function Cache(graphics: bool): DescriptorHandleCache
    {
      if graphics then graphicsHandleCache else computeHandleCache
    }

    constructor (isSampler: bool, descriptorSize: nat, pool: HeapPool)
      ensures Valid() && fresh(graphicsHandleCache) && fresh(computeHandleCache)
      ensures this.isSampler == isSampler && this.descriptorSize == descriptorSize && this.pool == pool
      ensures currentHeap == None && currentOffset == 0 && retiredHeaps == []
    {
      this.isSampler := isSampler;
      this.descriptorSize := descriptorSize;
      this.pool := pool;
      graphicsHandleCache := new DescriptorHandleCache();
      computeHandleCache := new DescriptorHandleCache();
      currentHeap := None;
      currentOffset := 0;
      firstDescriptor := D.NULL_HANDLE;
      retiredHeaps := [];
    }

    /**
     * HasSpace: there is a current heap and count more descriptors fit in
     * it (the sum is a uint32_t; below 2^32 it is the plain sum).
     */
    function HasSpace(count: nat): (b: bool)
      reads this
      ensures currentOffset + count < AlignMath.WORD32 ==>
        (b <==> currentHeap.Some? && currentOffset + count <= NUM_DESCRIPTORS_PER_HEAP)
    {
      currentHeap.Some? && D.Wrap32(currentOffset + count) <= NUM_DESCRIPTORS_PER_HEAP
    }

    /** RetireCurrentHeap: an unused heap stays; a used one joins the retired list and the context has none. */
    method RetireCurrentHeap()
      requires HeapValid()
      modifies this`currentHeap, this`currentOffset, this`retiredHeaps
      ensures HeapValid() && currentHeap == None && currentOffset == 0
      ensures retiredHeaps == old(retiredHeaps) + (if old(currentOffset) == 0 then [] else [old(currentHeap).value])
    {
      if currentOffset == 0 {
        return;
      }
      retiredHeaps := retiredHeaps + [currentHeap.value];
      currentHeap := None;
      currentOffset := 0;
    }

    /** RetireUsedHeaps: the retired heaps go back to the pool behind the fence. */
    method RetireUsedHeaps(fenceValue: nat)
      modifies this`retiredHeaps, pool`retiredHeaps
      ensures pool.retiredHeaps == old(pool.retiredHeaps) + L.Tagged(fenceValue, old(retiredHeaps))
      ensures retiredHeaps == []
    {
      pool.DiscardDescriptorHeaps(fenceValue, retiredHeaps);
      retiredHeaps := [];
    }

    /**
     * CleanupUsedHeaps: the current heap, if used, and every retired heap go
     * back to the pool behind the fence, and both caches are cleared.
     */
    method CleanupUsedHeaps(fenceValue: nat)
      requires Valid()
      modifies this`currentHeap, this`currentOffset, this`retiredHeaps, pool`retiredHeaps
      modifies graphicsHandleCache, computeHandleCache
      ensures Valid() && currentHeap == None && currentOffset == 0 && retiredHeaps == []
      ensures pool.retiredHeaps == old(pool.retiredHeaps) +
        L.Tagged(fenceValue, old(retiredHeaps) + if old(currentOffset) == 0 then [] else [old(currentHeap).value])
      ensures graphicsHandleCache.rootDescriptorTables == {} && graphicsHandleCache.staleRootParams == {}
      ensures computeHandleCache.rootDescriptorTables == {} && computeHandleCache.staleRootParams == {}
    {
      RetireCurrentHeap();
      RetireUsedHeaps(fenceValue);
      graphicsHandleCache.ClearCache();
      computeHandleCache.ClearCache();
    }

    /**
     * GetHeapPointer: without a current heap, one is requested from the
     * pool and its start, as the device reports it, becomes the first
     * descriptor; a current heap is kept.
     */
    method GetHeapPointer(lastCompleted: nat, heapStart: D.DescriptorHandle) returns (heap: nat)
      requires HeapValid() && HandleRoom(heapStart, descriptorSize)
      modifies this`currentHeap, this`firstDescriptor, pool
      ensures currentHeap == Some(heap) && currentOffset == old(currentOffset)
      ensures currentOffset <= NUM_DESCRIPTORS_PER_HEAP && HandleRoom(firstDescriptor, descriptorSize)
      ensures old(currentHeap).Some? ==>
        heap == old(currentHeap).value && firstDescriptor == old(firstDescriptor) && pool.Queues() == old(pool.Queues())
      ensures old(currentHeap).None? ==>
        firstDescriptor == heapStart && (pool.Queues(), heap) == L.Requested(old(pool.Queues()), lastCompleted)
    {
      if currentHeap.None? {
        heap := pool.RequestDescriptorHeap(lastCompleted);
        currentHeap := Some(heap);
        firstDescriptor := heapStart;
      } else {
        heap := currentHeap.value;
      }
    }

    /**
     * Allocate: the handle count descriptors start at, the current offset
     * scaled by the descriptor size; the offset moves past them.  Callers
     * have checked HasSpace (or retired the heap) first.
     */
    method Allocate(count: nat) returns (ret: D.DescriptorHandle)
      requires currentHeap.Some? && HandleRoom(firstDescriptor, descriptorSize)
      requires currentOffset + count <= NUM_DESCRIPTORS_PER_HEAP
      modifies this`currentOffset
      ensures currentOffset == old(currentOffset) + count
      ensures ret.cpu == firstDescriptor.cpu + old(currentOffset) * descriptorSize
      ensures ret.gpu == firstDescriptor.gpu + old(currentOffset) * descriptorSize
    {
      D.InRange(firstDescriptor, NUM_DESCRIPTORS_PER_HEAP, descriptorSize, currentOffset);
      ret := firstDescriptor.Advanced(D.ScaledOffset(currentOffset, descriptorSize));
      currentOffset := D.Wrap32(currentOffset + count);
    }

    /** UnbindAllValid: in both caches, every table with an assigned handle becomes stale. */
    method UnbindAllValid()
      requires CachesValid()
      modifies graphicsHandleCache`staleRootParams, computeHandleCache`staleRootParams
      ensures CachesValid() && AssignedStale(graphicsHandleCache) && AssignedStale(computeHandleCache)
    {
      graphicsHandleCache.UnbindAllValid();
      computeHandleCache.UnbindAllValid();
    }

    /**
     * UploadDirect: one descriptor is placed at the current offset of a
     * heap with room for it; without room the heap is retired and every
     * cached table re-staged first.  Returns the GPU handle of the slot.
     */
    method UploadDirect(lastCompleted: nat, heapStart: D.DescriptorHandle) returns (gpu: nat)
      requires Valid() && HandleRoom(heapStart, descriptorSize)
      modifies this`currentHeap, this`currentOffset, this`retiredHeaps, this`firstDescriptor, pool
      modifies graphicsHandleCache`staleRootParams, computeHandleCache`staleRootParams
      ensures Valid()
      ensures var at := if old(HasSpace(1)) then old(currentOffset) else 0;
        currentOffset == at + 1 && gpu == firstDescriptor.gpu + at * descriptorSize
      ensures old(HasSpace(1)) ==>
        currentHeap == old(currentHeap) && retiredHeaps == old(retiredHeaps) &&
        graphicsHandleCache.staleRootParams == old(graphicsHandleCache.staleRootParams) &&
        computeHandleCache.staleRootParams == old(computeHandleCache.staleRootParams)
      ensures !old(HasSpace(1)) ==>
        retiredHeaps == old(retiredHeaps) + (if old(currentOffset) == 0 then [] else [old(currentHeap).value]) &&
        AssignedStale(graphicsHandleCache) && AssignedStale(computeHandleCache)
    {
      if !HasSpace(1) {
        RetireCurrentHeap();
        UnbindAllValid();
      }
      var heap := GetHeapPointer(lastCompleted, heapStart);
      var destHandle := Allocate(1);
      gpu := destHandle.gpu;
    }

    /**
     * The first half of CopyAndBindStagedTables: the staged size of one
     * cache, after retiring the heap and re-staging every table with a
     * handle when the current heap has no room for it.  The size is not
     * zero and fits what is left of the heap.
     */
    method MakeRoom(graphics: bool) returns (neededSize: nat)
      requires Valid() && Cache(graphics).staleRootParams != {}
      modifies this`currentHeap, this`currentOffset, this`retiredHeaps
      modifies graphicsHandleCache`staleRootParams, computeHandleCache`staleRootParams
      ensures Valid() && old(Cache(graphics).staleRootParams) <= Cache(graphics).staleRootParams
      ensures neededSize == StagedSize(Cache(graphics).staleRootParams, Cache(graphics).rootDescriptorTable[..])
      ensures 0 < neededSize && currentOffset + neededSize <= NUM_DESCRIPTORS_PER_HEAP
      ensures old(HasSpace(StagedSize(Cache(graphics).staleRootParams, Cache(graphics).rootDescriptorTable[..]))) ==>
        Cache(graphics).staleRootParams == old(Cache(graphics).staleRootParams) &&
        Cache(!graphics).staleRootParams == old(Cache(!graphics).staleRootParams) &&
        currentHeap == old(currentHeap) && currentOffset == old(currentOffset) && retiredHeaps == old(retiredHeaps)
      ensures !old(HasSpace(StagedSize(Cache(graphics).staleRootParams, Cache(graphics).rootDescriptorTable[..]))) ==>
        currentHeap == None && currentOffset == 0 &&
        retiredHeaps == old(retiredHeaps) + (if old(currentOffset) == 0 then [] else [old(currentHeap).value]) &&
        AssignedStale(Cache(graphics)) && AssignedStale(Cache(!graphics))
    {
      var cache := Cache(graphics);
      ghost var stale0 := cache.staleRootParams;
      neededSize := cache.ComputeStagedSize();
      if !HasSpace(neededSize) {
        RetireCurrentHeap();
        UnbindAllValid();
        assert stale0 <= cache.staleRootParams;
        neededSize := cache.ComputeStagedSize();
      }
    }

    /**
     * CopyAndBindStagedTables: the stale tables of one cache are bound in a
     * block of the current heap starting at start, each at the extents of
     * the tables before it, and nothing stays stale.  When the block does
     * not fit, the heap is retired and every table with a handle is bound,
     * from the start of a new heap.  The block ends inside the heap.
     */
    method CopyAndBindStagedTables(graphics: bool, lastCompleted: nat, heapStart: D.DescriptorHandle)
      returns (start: nat, binds: seq<(nat, nat)>, copies: seq<Copy>, ghost bound: set<nat>)
      requires Valid() && HandleRoom(heapStart, descriptorSize)
      requires Cache(graphics).staleRootParams != {}
      modifies this`currentHeap, this`currentOffset, this`retiredHeaps, this`firstDescriptor, pool
      modifies graphicsHandleCache`staleRootParams, computeHandleCache`staleRootParams
      ensures Valid() && Cache(graphics).staleRootParams == {} && currentHeap.Some?
      ensures old(Cache(graphics).staleRootParams) <= bound && Within(bound, MAX_TABLES)
      ensures binds == Bindings(Extents(Cache(graphics).rootDescriptorTable[..]), Ascending(bound, MAX_TABLES), start)
      ensures copies == BoundCopies(Cache(graphics).rootDescriptorTable[..], binds, Cache(graphics).handleCache[..])
      ensures currentOffset == start + StagedSize(bound, Cache(graphics).rootDescriptorTable[..])
      ensures old(HasSpace(StagedSize(Cache(graphics).staleRootParams, Cache(graphics).rootDescriptorTable[..]))) ==>
        bound == old(Cache(graphics).staleRootParams) && start == old(currentOffset) &&
        currentHeap == old(currentHeap) && retiredHeaps == old(retiredHeaps) &&
        Cache(!graphics).staleRootParams == old(Cache(!graphics).staleRootParams)
      ensures !old(HasSpace(StagedSize(Cache(graphics).staleRootParams, Cache(graphics).rootDescriptorTable[..]))) ==>
        start == 0 && AssignedStale(Cache(!graphics)) &&
        retiredHeaps == old(retiredHeaps) + (if old(currentOffset) == 0 then [] else [old(currentHeap).value]) &&
        forall t :: t in bound <==>
          t in Cache(graphics).rootDescriptorTables && Cache(graphics).rootDescriptorTable[t].assignedBits != {}
    {
      var neededSize := MakeRoom(graphics);
      bound := Cache(graphics).staleRootParams;
      start, binds, copies := BindBlock(graphics, neededSize, lastCompleted, heapStart);
    }

    /**
     * CommitGraphicsRootDescriptorTables / CommitComputeRootDescriptorTables:
     * with stale roots the staged tables are copied and bound; with none,
     * nothing happens and nothing is bound.
     */
    method CommitRootDescriptorTables(graphics: bool, lastCompleted: nat, heapStart: D.DescriptorHandle)
      returns (start: nat, binds: seq<(nat, nat)>, copies: seq<Copy>, ghost bound: set<nat>)
      requires Valid() && HandleRoom(heapStart, descriptorSize)
      modifies this`currentHeap, this`currentOffset, this`retiredHeaps, this`firstDescriptor, pool
      modifies graphicsHandleCache`staleRootParams, computeHandleCache`staleRootParams
      ensures Valid() && Cache(graphics).staleRootParams == {}
      ensures old(Cache(graphics).staleRootParams) <= bound && Within(bound, MAX_TABLES)
      ensures binds == Bindings(Extents(Cache(graphics).rootDescriptorTable[..]), Ascending(bound, MAX_TABLES), start)
      ensures copies == BoundCopies(Cache(graphics).rootDescriptorTable[..], binds, Cache(graphics).handleCache[..])
      ensures currentOffset == start + StagedSize(bound, Cache(graphics).rootDescriptorTable[..])
      ensures old(Cache(graphics).staleRootParams) == {} ==>
        binds == [] && copies == [] && start == currentOffset == old(currentOffset) &&
        currentHeap == old(currentHeap) && retiredHeaps == old(retiredHeaps) &&
        Cache(!graphics).staleRootParams == old(Cache(!graphics).staleRootParams)
      ensures (old(Cache(graphics).staleRootParams) != {} &&
        old(HasSpace(StagedSize(Cache(graphics).staleRootParams, Cache(graphics).rootDescriptorTable[..])))) ==>
        start == old(currentOffset) && currentHeap == old(currentHeap) && retiredHeaps == old(retiredHeaps) &&
        Cache(!graphics).staleRootParams == old(Cache(!graphics).staleRootParams)
      ensures (old(Cache(graphics).staleRootParams) != {} &&
        !old(HasSpace(StagedSize(Cache(graphics).staleRootParams, Cache(graphics).rootDescriptorTable[..])))) ==>
        start == 0 && AssignedStale(Cache(!graphics)) &&
        retiredHeaps == old(retiredHeaps) + (if old(currentOffset) == 0 then [] else [old(currentHeap).value])
    {
      if Cache(graphics).staleRootParams != {} {
        start, binds, copies, bound := CopyAndBindStagedTables(graphics, lastCompleted, heapStart);
      } else {
        start, binds, copies, bound := currentOffset, [], [], {};
        AscendingOfEmpty(MAX_TABLES);
        StagedOfEmpty(Cache(graphics).rootDescriptorTable[..], MAX_TABLES);
      }
    }

    /**
     * SetGraphicsDescriptorHandles / SetComputeDescriptorHandles: the
     * handles are staged in one cache.  Staging no handles into a table with
     * nothing assigned would leave a stale root with no handle, which
     * ComputeStagedSize asserts never happens, so it is excluded here.
     */
    method SetDescriptorHandles(graphics: bool, rootIndex: nat, offset: nat, numHandles: nat, handles: seq<AlignMath.Word>)
      requires Valid()
      requires rootIndex in Cache(graphics).rootDescriptorTables
      requires offset + numHandles <= Cache(graphics).rootDescriptorTable[rootIndex].size
      requires offset + numHandles <= BITS && |handles| >= numHandles
      requires numHandles > 0 || Cache(graphics).rootDescriptorTable[rootIndex].assignedBits != {}
      modifies Cache(graphics)`staleRootParams, Cache(graphics).rootDescriptorTable, Cache(graphics).handleCache
      ensures Valid()
      ensures Cache(graphics).staleRootParams == old(Cache(graphics).staleRootParams) + {rootIndex}
      ensures Cache(graphics).rootDescriptorTable[rootIndex].assignedBits ==
        old(Cache(graphics).rootDescriptorTable[rootIndex].assignedBits) + Range(offset, offset + numHandles)
      ensures var at := Cache(graphics).rootDescriptorTable[rootIndex].start + offset;
        at + numHandles <= Cache(graphics).maxCachedDescriptors &&
        forall k :: 0 <= k < numHandles ==> Cache(graphics).handleCache[at + k] == handles[k]
    {
      var cache := Cache(graphics);
      cache.StageDescriptorHandles(rootIndex, offset, numHandles, handles);
      assert cache.rootDescriptorTable[rootIndex].assignedBits != {} by {
        if numHandles > 0 {
          assert offset in Range(offset, offset + numHandles);
        }
      }
    }

    /** ParseGraphicsRootSignature / ParseComputeRootSignature: one cache takes the layout of the signature. */
    method ParseRootSignature(graphics: bool, sig: RootSignature)
      requires Valid()
      requires Finalized(sig) && sig.numParameters <= MAX_TABLES
      requires forall t :: t in TablesFor(isSampler, sig) ==> sig.descriptorTableSize[t] > 0
      requires Sum(sig.descriptorTableSize, Ascending(TablesFor(isSampler, sig), MAX_TABLES)) <= MAX_DESCRIPTORS
      modifies Cache(graphics)`rootDescriptorTables, Cache(graphics)`staleRootParams
      modifies Cache(graphics)`maxCachedDescriptors, Cache(graphics).rootDescriptorTable
      ensures Valid()
      ensures Cache(graphics).rootDescriptorTables == TablesFor(isSampler, sig) && Cache(graphics).staleRootParams == {}
      ensures Cache(graphics).maxCachedDescriptors ==
        Sum(sig.descriptorTableSize, Ascending(Cache(graphics).rootDescriptorTables, MAX_TABLES))
    {
      Cache(graphics).ParseRootSignature(isSampler, sig);
    }

    /**
     * The second half of CopyAndBindStagedTables: a block of neededSize
     * descriptors is allocated in the current heap (requested from the pool
     * when there is none) and the stale tables of one cache are bound in it.
     */
    method BindBlock(graphics: bool, neededSize: nat, lastCompleted: nat, heapStart: D.DescriptorHandle)
      returns (start: nat, binds: seq<(nat, nat)>, copies: seq<Copy>)
      requires Valid() && HandleRoom(heapStart, descriptorSize)
      requires neededSize == StagedSize(Cache(graphics).staleRootParams, Cache(graphics).rootDescriptorTable[..])
      requires 0 < neededSize && currentOffset + neededSize <= NUM_DESCRIPTORS_PER_HEAP
      modifies this`currentHeap, this`currentOffset, this`firstDescriptor, pool
      modifies graphicsHandleCache`staleRootParams, computeHandleCache`staleRootParams
      ensures Valid() && Cache(graphics).staleRootParams == {} && currentHeap.Some?
      ensures old(currentHeap).Some? ==> currentHeap == old(currentHeap)
      ensures start == old(currentOffset) && currentOffset == start + neededSize
      ensures Cache(!graphics).staleRootParams == old(Cache(!graphics).staleRootParams)
      ensures binds ==
        Bindings(Extents(Cache(graphics).rootDescriptorTable[..]), Ascending(old(Cache(graphics).staleRootParams), MAX_TABLES), start)
      ensures copies == BoundCopies(Cache(graphics).rootDescriptorTable[..], binds, Cache(graphics).handleCache[..])
    {
      var cache := Cache(graphics);
      var heap := GetHeapPointer(lastCompleted, heapStart);
      start := currentOffset;
      var destHandle := Allocate(neededSize);
      binds, copies := cache.CopyAndBindStaleTables(start);
    }
  }
}

// The linear (bump) allocator for transient GPU memory and the page
// managers behind it (Core/LinearAllocator.h, Core/LinearAllocator.cpp).
// Pages are identified by number; creating one takes the next unused
// number.  Whether a fence has completed is decided by the last completed
// fence value, passed in as a parameter.
module LinearAlloc {
  import opened AlignMath
  import opened Wrappers

  /** LinearAllocatorType: kGpuExclusive (default heap) or kCpuWritable (upload heap). */
  const GPU_EXCLUSIVE: nat := 0
  const CPU_WRITABLE: nat := 1

  /** kGpuAllocatorPageSize and kCpuAllocatorPageSize. */
  const GPU_PAGE_SIZE: nat := 0x10000
  const CPU_PAGE_SIZE: nat := 0x20_0000

  /** DEFAULT_ALIGN: constant blocks are 256-byte aligned. */
  const DEFAULT_ALIGN: Word := 256

  function DefaultPageSize(allocationType: nat): (size: nat)
    ensures size == GPU_PAGE_SIZE || size == CPU_PAGE_SIZE
    ensures size == GPU_PAGE_SIZE <==> allocationType == GPU_EXCLUSIVE
  {
    if allocationType == GPU_EXCLUSIVE then GPU_PAGE_SIZE else CPU_PAGE_SIZE
  }

  /** A page waiting for its fence: (fence value, page). */
  type Retired = (nat, nat)

  /** g_CommandManager.IsFenceComplete, against the last completed fence value. */
  predicate IsFenceComplete(fence: nat, lastCompleted: nat)
  {
    fence <= lastCompleted
  }

  /** How many entries at the front of a fence queue have completed fences. */
  function ReadyCount(queue: seq<Retired>, lastCompleted: nat): (k: nat)
    ensures k <= |queue|
    ensures forall i :: 0 <= i < k ==> IsFenceComplete(queue[i].0, lastCompleted)
    ensures k < |queue| ==> !IsFenceComplete(queue[k].0, lastCompleted)
  {
    if |queue| > 0 && IsFenceComplete(queue[0].0, lastCompleted) then
      1 + ReadyCount(queue[1..], lastCompleted)
    else 0
  }

  /** The pages of a fence queue, in order. */
  function PagesOf(queue: seq<Retired>): (pages: seq<nat>)
    ensures |pages| == |queue|
    ensures forall i :: 0 <= i < |queue| ==> pages[i] == queue[i].1
  {
    seq(|queue|, i requires 0 <= i < |queue| => queue[i].1)
  }

  /** The pages of a list, each paired with one fence value. */
  function Tagged(fence: nat, pages: seq<nat>): (queue: seq<Retired>)
    ensures |queue| == |pages|
    ensures forall i :: 0 <= i < |pages| ==> queue[i] == (fence, pages[i])
  {
    seq(|pages|, i requires 0 <= i < |pages| => (fence, pages[i]))
  }

  /** The fields of a LinearAllocatorPageManager that RequestPage changes. */
  datatype PageQueues = PageQueues(
    pagePool: seq<nat>, retiredPages: seq<Retired>, availablePages: seq<nat>, nextPage: nat)

  /**
   * RequestPage: retired pages whose fence has completed join the back of
   * the available queue; the front available page is reused, and only when
   * there is none is a new page created and kept in the pool.
   */
  function Requested(s: PageQueues, lastCompleted: nat): (PageQueues, nat)
  {
    var k := ReadyCount(s.retiredPages, lastCompleted);
    var available := s.availablePages + PagesOf(s.retiredPages[..k]);
    if |available| > 0 then
      (s.(retiredPages := s.retiredPages[k..], availablePages := available[1..]), available[0])
    else
      (s.(retiredPages := s.retiredPages[k..], availablePages := [],
          pagePool := s.pagePool + [s.nextPage], nextPage := s.nextPage + 1), s.nextPage)
  }

  /**
   * RequestPage is first in, first out: an already available page is
   * handed out before any recycled one, recycled pages are taken in
   * retirement order, pages whose fence is pending stay retired in order,
   * and a new page is created only when nothing can be reused.
   */
  lemma RequestedFifo(s: PageQueues, lastCompleted: nat)
    ensures var (s', page) := Requested(s, lastCompleted);
      (|s.availablePages| > 0 ==> page == s.availablePages[0] && s'.nextPage == s.nextPage) &&
      (|s.availablePages| == 0 && |s.retiredPages| > 0 && IsFenceComplete(s.retiredPages[0].0, lastCompleted) ==>
        page == s.retiredPages[0].1 && s'.nextPage == s.nextPage) &&
      (s'.nextPage != s.nextPage <==>
        |s.availablePages| == 0 && (|s.retiredPages| == 0 || !IsFenceComplete(s.retiredPages[0].0, lastCompleted))) &&
      (s'.nextPage != s.nextPage ==> page == s.nextPage && s'.pagePool == s.pagePool + [page]) &&
      s.retiredPages == s.retiredPages[..|s.retiredPages| - |s'.retiredPages|] + s'.retiredPages &&
      (|s'.retiredPages| > 0 ==> !IsFenceComplete(s'.retiredPages[0].0, lastCompleted))
  {
    var k := ReadyCount(s.retiredPages, lastCompleted);
    assert s.retiredPages == s.retiredPages[..k] + s.retiredPages[k..];
    if |s.retiredPages| > 0 && IsFenceComplete(s.retiredPages[0].0, lastCompleted) {
      assert k > 0;
      assert (s.availablePages + PagesOf(s.retiredPages[..k]))[|s.availablePages|] == s.retiredPages[0].1;
    }
  }

  /** A page handed out by an allocator: Offset and Size within the page's buffer. */
  datatype DynAlloc = DynAlloc(page: nat, offset: Word, size: Word)

  class LinearAllocatorPageManager {
    const allocationType: nat
    var pagePool: seq<nat>
    var retiredPages: seq<Retired>
    var deletionQueue: seq<Retired>
    var availablePages: seq<nat>
    /** The buffer width of every page not yet deleted. */
    var pageWidths: map<nat, nat>
    /** The number the next created page gets. */
    var nextPage: nat

    function Queues(): PageQueues
      reads this
    {
      PageQueues(pagePool, retiredPages, availablePages, nextPage)
    }

    constructor (allocationType: nat)
      requires allocationType == GPU_EXCLUSIVE || allocationType == CPU_WRITABLE
      ensures this.allocationType == allocationType
      ensures pagePool == [] && retiredPages == [] && deletionQueue == [] && availablePages == []
      ensures pageWidths == map[] && nextPage == 0
    {
      this.allocationType := allocationType;
      pagePool, retiredPages, deletionQueue, availablePages := [], [], [], [];
      pageWidths, nextPage := map[], 0;
    }

    /** CreateNewPage: a new page whose width is pageSize, or the type's default for 0. */
    method CreateNewPage(pageSize: nat) returns (page: nat)
      modifies this`pageWidths, this`nextPage
      ensures page == old(nextPage) && nextPage == page + 1
      ensures pageWidths == old(pageWidths)[page := if pageSize == 0 then DefaultPageSize(allocationType) else pageSize]
    {
      page := nextPage;
      nextPage := nextPage + 1;
      pageWidths := pageWidths[page := if pageSize == 0 then DefaultPageSize(allocationType) else pageSize];
    }

    /** RequestPage: recycle what the fences allow, then reuse or create (see Requested). */
    method RequestPage(lastCompleted: nat) returns (page: nat)
      modifies this`pagePool, this`retiredPages, this`availablePages, this`pageWidths, this`nextPage
      ensures (Queues(), page) == Requested(old(Queues()), lastCompleted)
      ensures pageWidths == if nextPage == old(nextPage) then old(pageWidths)
        else old(pageWidths)[page := DefaultPageSize(allocationType)]
    {
      RecycleRetired(lastCompleted);
      if |availablePages| > 0 {
        page := availablePages[0];
        availablePages := availablePages[1..];
      } else {
        page := CreateNewPage(0);
        pagePool := pagePool + [page];
      }
    }

    /** The loop at the top of RequestPage: retired pages move to the available queue while their fence has completed. */
    method RecycleRetired(lastCompleted: nat)
      modifies this`retiredPages, this`availablePages
      ensures var k := ReadyCount(old(retiredPages), lastCompleted);
        retiredPages == old(retiredPages)[k..] &&
        availablePages == old(availablePages) + PagesOf(old(retiredPages)[..k])
    {
      ghost var q0 := retiredPages;
      ghost var a0 := availablePages;
      ghost var j := 0;
      while |retiredPages| > 0 && IsFenceComplete(retiredPages[0].0, lastCompleted)
        invariant j <= |q0| && retiredPages == q0[j..]
        invariant availablePages == a0 + PagesOf(q0[..j])
        invariant ReadyCount(q0, lastCompleted) == j + ReadyCount(retiredPages, lastCompleted)
        decreases |retiredPages|
      {
        assert PagesOf(q0[..j + 1]) == PagesOf(q0[..j]) + [retiredPages[0].1];
        availablePages := availablePages + [retiredPages[0].1];
        retiredPages := retiredPages[1..];
        j := j + 1;
      }
    }

    /** DiscardPages: the used pages wait, in order, for the fence before they are recycled. */
    method DiscardPages(fenceValue: nat, usedPages: seq<nat>)
      modifies this`retiredPages
      ensures retiredPages == old(retiredPages) + Tagged(fenceValue, usedPages)
    {
      for i := 0 to |usedPages|
        invariant retiredPages == old(retiredPages) + Tagged(fenceValue, usedPages[..i])
      {
        assert Tagged(fenceValue, usedPages[..i + 1]) == Tagged(fenceValue, usedPages[..i]) + [(fenceValue, usedPages[i])];
        retiredPages := retiredPages + [(fenceValue, usedPages[i])];
      }
    }

    /**
     * FreeLargePages: large pages whose fence has completed are deleted, and
     * the given pages queue for deletion behind the fence.
     */
    method FreeLargePages(fenceValue: nat, largePages: seq<nat>, lastCompleted: nat)
      modifies this`deletionQueue, this`pageWidths
      ensures var k := ReadyCount(old(deletionQueue), lastCompleted);
        deletionQueue == old(deletionQueue)[k..] + Tagged(fenceValue, largePages) &&
        pageWidths == old(pageWidths) - set i | 0 <= i < k :: old(deletionQueue)[i].1
    {
      DeleteCompleted(lastCompleted);
      QueueForDeletion(fenceValue, largePages);
    }

    /** The first loop of FreeLargePages: large pages whose fence has completed are deleted. */
    method DeleteCompleted(lastCompleted: nat)
      modifies this`deletionQueue, this`pageWidths
      ensures var k := ReadyCount(old(deletionQueue), lastCompleted);
        deletionQueue == old(deletionQueue)[k..] &&
        pageWidths == old(pageWidths) - set i | 0 <= i < k :: old(deletionQueue)[i].1
    {
      ghost var q0 := deletionQueue;
      ghost var w0 := pageWidths;
      ghost var j := 0;
      while |deletionQueue| > 0 && IsFenceComplete(deletionQueue[0].0, lastCompleted)
        invariant j <= |q0| && deletionQueue == q0[j..]
        invariant pageWidths == w0 - set i | 0 <= i < j :: q0[i].1
        invariant ReadyCount(q0, lastCompleted) == j + ReadyCount(deletionQueue, lastCompleted)
        decreases |deletionQueue|
      {
        assert (set i | 0 <= i < j + 1 :: q0[i].1) == (set i | 0 <= i < j :: q0[i].1) + {deletionQueue[0].1};
        pageWidths := pageWidths - {deletionQueue[0].1};
        deletionQueue := deletionQueue[1..];
        j := j + 1;
      }
    }

    /** The second loop of FreeLargePages: the given pages queue for deletion behind the fence. */
    method QueueForDeletion(fenceValue: nat, largePages: seq<nat>)
      modifies this`deletionQueue
      ensures deletionQueue == old(deletionQueue) + Tagged(fenceValue, largePages)
    {
      for i := 0 to |largePages|
        invariant deletionQueue == old(deletionQueue) + Tagged(fenceValue, largePages[..i])
      {
        assert Tagged(fenceValue, largePages[..i + 1]) == Tagged(fenceValue, largePages[..i]) + [(fenceValue, largePages[i])];
        deletionQueue := deletionQueue + [(fenceValue, largePages[i])];
      }
    }

    /** Destroy: the pool of recyclable pages is released. */
    method Destroy()
      modifies this`pagePool
      ensures pagePool == []
    {
      pagePool := [];
    }
  }

  /**
   * Where a small allocation lands: (whether a page must be requested, the
   * offset).  The offset is first aligned up; a page is requested when
   * there is none or the aligned request runs past the page.
   */
  function PlaceSmall(hasPage: bool, curOffset: Word, alignedSize: Word, alignment: Word, pageSize: nat)
    : (r: (bool, Word))
    ensures r.0 ==> r.1 == 0
    ensures !hasPage ==> r.0
  {
    var aligned := AlignUp(curOffset, alignment);
    var overflow := Wrap(aligned + alignedSize) > pageSize;
    if overflow || !hasPage then (true, 0) else (false, aligned)
  }

  /**
   * The ASSERT before retiring the current page: a page must exist
   * whenever the aligned offset runs past the page.
   */
  predicate RetireAssertHolds(curPage: Option<nat>, start: Word, alignedSize: Word, pageSize: nat)
  {
    curPage.Some? || alignedSize > pageSize || Wrap(start + alignedSize) <= pageSize
  }

  /**
   * The page ASSERT fails for exactly one kind of request: a zero-byte,
   * 1-aligned first allocation, while the offset still holds the all-ones
   * value the constructor gives it.  With any other alignment the all-ones
   * offset aligns up to 0, and any nonzero size wraps it past zero.
   */
  lemma RetireAssertFailsOnlyWhenFresh(curPage: Option<nat>, curOffset: Word, sizeInBytes: Word, alignment: Word, pageSize: nat)
    requires curPage.None? ==> curOffset == 0 || curOffset == WORD - 1
    requires IsPowerOfTwo(alignment) && 0 < pageSize < WORD - 1
    ensures !RetireAssertHolds(curPage, AlignUp(curOffset, alignment), AlignUp(sizeInBytes, alignment), pageSize) <==>
      curPage.None? && curOffset == WORD - 1 && alignment == 1 && sizeInBytes == 0
  {
    if curPage.None? {
      var start := AlignUp(curOffset, alignment);
      var alignedSize := AlignUp(sizeInBytes, alignment);
      FreshOffsetAligned(curOffset, alignment);
      if alignment == 1 {
        AlignUpByOne(sizeInBytes);
      }
      StartFits(curOffset == WORD - 1 && alignment == 1, start, alignedSize, sizeInBytes, pageSize);
    }
  }

  /** The page test on a fresh start: only the all-ones start with a zero size runs past the page. */
  lemma StartFits(allOnes: bool, start: Word, alignedSize: Word, sizeInBytes: Word, pageSize: nat)
    requires allOnes ==> start == WORD - 1 && alignedSize == sizeInBytes
    requires !allOnes ==> start == 0
    requires 0 < pageSize < WORD - 1
    ensures !(alignedSize > pageSize || Wrap(start + alignedSize) <= pageSize) <==> allOnes && sizeInBytes == 0
  {
  }

  /** Without a page, the offset aligns up to 0, except the all-ones offset under alignment 1. */
  lemma FreshOffsetAligned(curOffset: Word, alignment: Word)
    requires curOffset == 0 || curOffset == WORD - 1
    requires IsPowerOfTwo(alignment)
    ensures curOffset == WORD - 1 && alignment == 1 ==> AlignUp(curOffset, alignment) == curOffset
    ensures curOffset == 0 || alignment != 1 ==> AlignUp(curOffset, alignment) == 0
  {
    if alignment == 0 {
      AlignUpZeroAlignment(curOffset);
    } else if alignment == 1 {
      AlignUpByOne(curOffset);
    } else if curOffset == WORD - 1 {
      AlignUpOfAllOnes(alignment);
    } else {
      AlignUpOfZero(alignment);
    }
  }

  lemma AlignUpOfZero(alignment: Word)
    requires IsPow2(alignment)
    ensures AlignUp(0, alignment) == 0
  {
    var r := AlignUp(0, alignment);
    assert r < alignment;
    DivModUnique(r, alignment, 0, r);
  }

  /**
   * With a power-of-two alignment, a small allocation placed on the
   * current page starts at or after everything handed out from it, is
   * aligned, and ends within the page.
   */
  lemma PlaceSmallDisjoint(curOffset: Word, alignedSize: Word, alignment: Word, pageSize: nat)
    requires IsPow2(alignment) && curOffset <= pageSize && alignedSize <= pageSize && pageSize < WORD / 4
    ensures var (newPage, offset) := PlaceSmall(true, curOffset, alignedSize, alignment, pageSize);
      !newPage ==> curOffset <= offset && offset % alignment == 0 && offset + alignedSize <= pageSize
  {
    Pow2AtMostHalfWord(alignment);
    assert curOffset + alignment - 1 < WORD;
    var aligned := AlignUp(curOffset, alignment);
    assert curOffset <= aligned < curOffset + alignment && aligned % alignment == 0;
    assert aligned + alignedSize < WORD;
    assert Wrap(aligned + alignedSize) == aligned + alignedSize;
  }

  lemma ZeroAligned(a: nat)
    requires a >= 1
    ensures 0 % a == 0
  {
  }

  /** Wherever the small path places a block, it starts aligned and ends within the page. */
  lemma PlacedFits(hasPage: bool, curOffset: Word, alignedSize: Word, alignment: Word, pageSize: nat)
    requires IsPow2(alignment) && alignedSize <= pageSize && pageSize < WORD / 4
    requires hasPage ==> curOffset <= pageSize
    ensures var (newPage, offset) := PlaceSmall(hasPage, curOffset, alignedSize, alignment, pageSize);
      offset % alignment == 0 && offset + alignedSize <= pageSize && (!newPage ==> hasPage && curOffset <= offset)
  {
    var r := PlaceSmall(hasPage, curOffset, alignedSize, alignment, pageSize);
    if r.0 {
      assert alignment >= 1;
      ZeroAligned(alignment);
    } else {
      PlaceSmallDisjoint(curOffset, alignedSize, alignment, pageSize);
    }
  }

  /**
   * An alignment of 0 passes the power-of-two ASSERT but rewinds the
   * current page: whatever was handed out from it, the request lands at
   * offset 0 again, on top of it.
   */
  lemma ZeroAlignmentRewinds(curOffset: Word, alignedSize: Word, pageSize: nat)
    requires 0 < curOffset <= pageSize && alignedSize <= pageSize
    ensures IsPowerOfTwo(0)
    ensures PlaceSmall(true, curOffset, alignedSize, 0, pageSize) == (false, 0)
  {
    ZeroIsPowerOfTwo();
    AlignUpZeroAlignment(curOffset);
  }

  class LinearAllocator {
    const allocationType: nat
    const pageSize: nat
    /** sm_PageManager[m_AllocationType]. */
    const manager: LinearAllocatorPageManager
    var curOffset: Word
    var curPage: Option<nat>
    var retiredPages: seq<nat>
    var largePageList: seq<nat>

    /** Without a page the offset is 0 or still the constructor's all-ones; with one it lies in the page. */
    ghost predicate Valid()
      reads this
    {
      pageSize == DefaultPageSize(allocationType) &&
      (curPage.None? ==> curOffset == 0 || curOffset == WORD - 1) &&
      (curPage.Some? ==> curOffset <= pageSize)
    }

    constructor (allocationType: nat, manager: LinearAllocatorPageManager)
      requires allocationType == GPU_EXCLUSIVE || allocationType == CPU_WRITABLE
      requires manager.allocationType == allocationType
      ensures Valid()
      ensures this.allocationType == allocationType && this.manager == manager
      ensures pageSize == DefaultPageSize(allocationType)
      ensures curOffset == WORD - 1 && curPage == None && retiredPages == [] && largePageList == []
    {
      this.allocationType := allocationType;
      this.manager := manager;
      pageSize := DefaultPageSize(allocationType);
      curOffset := WORD - 1;
      curPage := None;
      retiredPages, largePageList := [], [];
    }

    /** AllocateLargePage: a dedicated page of exactly the requested size. */
    method AllocateLargePage(sizeInBytes: Word) returns (ret: DynAlloc)
      modifies this`largePageList, manager`pageWidths, manager`nextPage
      ensures ret == DynAlloc(old(manager.nextPage), 0, sizeInBytes)
      ensures largePageList == old(largePageList) + [ret.page]
      ensures manager.nextPage == ret.page + 1
      ensures manager.pageWidths == old(manager.pageWidths)[ret.page :=
        if sizeInBytes == 0 then DefaultPageSize(manager.allocationType) else sizeInBytes]
    {
      var oneOff := manager.CreateNewPage(sizeInBytes);
      largePageList := largePageList + [oneOff];
      ret := DynAlloc(oneOff, 0, sizeInBytes);
    }

    /**
     * Allocate: the size is aligned up; a size above the page gets its own
     * large page; otherwise the request is placed as PlaceSmall says,
     * retiring the current page when it overflows and requesting a new one
     * when needed, and the offset moves past the request.  The alignment
     * must be a power of two: 0, which the source's check lets through,
     * would rewind the page (ZeroAlignmentRewinds).
     */
    method Allocate(sizeInBytes: Word, alignment: Word, lastCompleted: nat) returns (ret: DynAlloc)
      requires Valid() && manager.allocationType == allocationType
      requires IsPow2(alignment)
      requires RetireAssertHolds(curPage, AlignUp(curOffset, alignment), AlignUp(sizeInBytes, alignment), pageSize)
      modifies this, manager
      ensures Valid()
      ensures ret.size == AlignUp(sizeInBytes, alignment)
      ensures ret.size > pageSize ==>
        ret.offset == 0 && largePageList == old(largePageList) + [ret.page] && ret.page == old(manager.nextPage) &&
        curPage == old(curPage) && curOffset == old(curOffset) && retiredPages == old(retiredPages) &&
        manager.nextPage == ret.page + 1 && manager.pageWidths == old(manager.pageWidths)[ret.page := ret.size] &&
        manager.pagePool == old(manager.pagePool) && manager.retiredPages == old(manager.retiredPages) &&
        manager.availablePages == old(manager.availablePages)
      ensures manager.deletionQueue == old(manager.deletionQueue)
      ensures ret.size <= pageSize ==>
        var (newPage, offset) := PlaceSmall(old(curPage).Some?, old(curOffset), ret.size, alignment, pageSize);
        ret.offset == offset && offset % alignment == 0 && offset + ret.size <= pageSize &&
        curPage == Some(ret.page) && curOffset == offset + ret.size && largePageList == old(largePageList) &&
        (newPage ==> (manager.Queues(), ret.page) == Requested(old(manager.Queues()), lastCompleted)) &&
        (newPage ==> manager.pageWidths == if manager.nextPage == old(manager.nextPage) then old(manager.pageWidths)
          else old(manager.pageWidths)[ret.page := DefaultPageSize(manager.allocationType)]) &&
        (!newPage ==> ret.page == old(curPage).value && old(curOffset) <= offset && retiredPages == old(retiredPages)) &&
        (!newPage ==> manager.Queues() == old(manager.Queues()) && manager.pageWidths == old(manager.pageWidths)) &&
        (newPage && old(curPage).Some? ==> retiredPages == old(retiredPages) + [old(curPage).value]) &&
        (newPage && old(curPage).None? ==> retiredPages == old(retiredPages))
    {
      var alignedSize := AlignUp(sizeInBytes, alignment);
      if alignedSize > pageSize {
        ret := AllocateLargePage(alignedSize);
      } else {
        ret := AllocateSmall(alignedSize, alignment, lastCompleted);
      }
    }

    /** The small-allocation path of Allocate, for an already aligned size that fits a page. */
    method AllocateSmall(alignedSize: Word, alignment: Word, lastCompleted: nat) returns (ret: DynAlloc)
      requires Valid() && manager.allocationType == allocationType
      requires IsPow2(alignment) && alignedSize <= pageSize
      requires RetireAssertHolds(curPage, AlignUp(curOffset, alignment), alignedSize, pageSize)
      modifies this, manager
      ensures Valid()
      ensures ret.size == alignedSize
      ensures var (newPage, offset) := PlaceSmall(old(curPage).Some?, old(curOffset), alignedSize, alignment, pageSize);
        ret.offset == offset && offset % alignment == 0 && offset + ret.size <= pageSize &&
        curPage == Some(ret.page) && curOffset == offset + ret.size && largePageList == old(largePageList) &&
        (newPage ==> (manager.Queues(), ret.page) == Requested(old(manager.Queues()), lastCompleted)) &&
        (newPage ==> manager.pageWidths == if manager.nextPage == old(manager.nextPage) then old(manager.pageWidths)
          else old(manager.pageWidths)[ret.page := DefaultPageSize(manager.allocationType)]) &&
        (!newPage ==> ret.page == old(curPage).value && old(curOffset) <= offset && retiredPages == old(retiredPages)) &&
        (!newPage ==> manager.Queues() == old(manager.Queues()) && manager.pageWidths == old(manager.pageWidths)) &&
        (newPage && old(curPage).Some? ==> retiredPages == old(retiredPages) + [old(curPage).value]) &&
        (newPage && old(curPage).None? ==> retiredPages == old(retiredPages))
      ensures manager.deletionQueue == old(manager.deletionQueue)
    {
      ghost var placed := PlaceSmall(curPage.Some?, curOffset, alignedSize, alignment, pageSize);
      PlacedFits(curPage.Some?, curOffset, alignedSize, alignment, pageSize);
      curOffset := AlignUp(curOffset, alignment);
      assert placed.0 == (Wrap(curOffset + alignedSize) > pageSize || curPage.None?);
      assert !placed.0 ==> placed.1 == curOffset;
      if Wrap(curOffset + alignedSize) > pageSize {
        retiredPages := retiredPages + [curPage.value];
        curPage := None;
      }
      if curPage.None? {
        var page := manager.RequestPage(lastCompleted);
        curPage := Some(page);
        curOffset := 0;
      }
      assert curOffset == placed.1;
      ret := DynAlloc(curPage.value, curOffset, alignedSize);
      curOffset := curOffset + alignedSize;
    }

    /**
     * CleanupUsedPages: the current page is retired, every retired page
     * waits for the fence before being recycled, the large pages queue for
     * deletion, and both lists are emptied.
     */
    method CleanupUsedPages(fenceId: nat, lastCompleted: nat)
      requires Valid()
      modifies this, manager`retiredPages, manager`deletionQueue, manager`pageWidths
      ensures Valid()
      ensures curPage == None && retiredPages == [] && largePageList == []
      ensures curOffset == if old(curPage).Some? then 0 else old(curOffset)
      ensures var used := old(retiredPages) + if old(curPage).Some? then [old(curPage).value] else [];
        manager.retiredPages == old(manager.retiredPages) + Tagged(fenceId, used)
      ensures var k := ReadyCount(old(manager.deletionQueue), lastCompleted);
        manager.deletionQueue == old(manager.deletionQueue)[k..] + Tagged(fenceId, old(largePageList))
    {
      if curPage.Some? {
        retiredPages := retiredPages + [curPage.value];
        curPage := None;
        curOffset := 0;
      }
      manager.DiscardPages(fenceId, retiredPages);
      retiredPages := [];
      manager.FreeLargePages(fenceId, largePageList, lastCompleted);
      largePageList := [];
    }
  }
}

// The dynamic descriptor heap and its per-pipeline handle cache
// (Core/DynamicDescriptorHeap.h, Core/DynamicDescriptorHeap.cpp).
// The 32-bit bitmaps of the source (root parameters that are descriptor
// tables, stale root parameters, assigned handles of one table) are sets
// of bit indices below 32; _BitScanForward and _BitScanReverse are Lowest
// and Highest.  The CPU handles staged in the cache are 64-bit words;
// positions in the shader-visible heap are descriptor indices.
module DynamicDescriptors {
  import opened AlignMath
  import opened Wrappers
  import Descriptors

  /** Width of every bitmap. */
  const BITS: nat := 32
  /** DescriptorHandleCache::kMaxNumDescriptorTables. */
  const MAX_TABLES: nat := 16
  /** DescriptorHandleCache::kMaxNumDescriptors: entries of the CPU handle cache. */
  const MAX_DESCRIPTORS: nat := 256
  /** kNumDescriptorsPerHeap: capacity of one shader-visible heap. */
  const NUM_DESCRIPTORS_PER_HEAP: nat := 1024

  /** Every bit of the bitmap lies below n. */
  predicate Within(s: set<nat>, n: nat)
  {
    forall x :: x in s ==> x < n
  }

  /** The bits lo .. hi - 1: the mask ((1 << (hi - lo)) - 1) << lo. */
  function Range(lo: nat, hi: nat): (r: set<nat>)
    ensures forall x :: x in r <==> lo <= x < hi
    decreases hi
  {
    if hi <= lo then {} else Range(lo, hi - 1) + {hi - 1}
  }

  /** _BitScanForward from bit i, when no bit below i is set. */
  function LowestFrom(s: set<nat>, i: nat): (r: nat)
    requires s != {} && forall x :: x in s ==> i <= x < BITS
    ensures r in s && forall x :: x in s ==> r <= x
    decreases BITS - i
  {
    if i in s then i else LowestFrom(s, i + 1)
  }

  /** _BitScanForward: the index of the lowest set bit. */
  function Lowest(s: set<nat>): (r: nat)
    requires s != {} && Within(s, BITS)
    ensures r in s && forall x :: x in s ==> r <= x
  {
    LowestFrom(s, 0)
  }

  /** _BitScanReverse below bit n: the index of the highest set bit. */
  function HighestBelow(s: set<nat>, n: nat): (r: nat)
    requires s != {} && Within(s, n)
    ensures r in s && forall x :: x in s ==> x <= r
  {
    if n - 1 in s then n - 1 else HighestBelow(s, n - 1)
  }

  /**
   * How many descriptors a table needs copied: the highest assigned handle
   * plus one, or 0 for a table with nothing assigned.
   */
  function Extent(assignedBits: set<nat>): (r: nat)
    requires Within(assignedBits, BITS)
    ensures Within(assignedBits, r) && r <= BITS
    ensures assignedBits == {} <==> r == 0
  {
    if assignedBits == {} then 0 else HighestBelow(assignedBits, BITS) + 1
  }

  /** The bits of s from n on. */
  function Above(s: set<nat>, n: nat): (r: set<nat>)
    ensures forall x :: x in r <==> x in s && n <= x
  {
    set x | x in s && n <= x
  }

  /** The bits of s below n, in increasing order: the order of a forward bit scan. */
  function Ascending(s: set<nat>, n: nat): (r: seq<nat>)
    ensures forall k :: 0 <= k < |r| ==> r[k] in s && r[k] < n
  {
    if n == 0 then [] else Ascending(s, n - 1) + (if n - 1 in s then [n - 1] else [])
  }

  /** The ascending list is sorted and holds every bit of s below n. */
  lemma {:induction false} AscendingSorted(s: set<nat>, n: nat)
    ensures var r := Ascending(s, n);
      (forall k, l :: 0 <= k < l < |r| ==> r[k] < r[l]) && forall x :: x in s && x < n ==> x in r
  {
    if n > 0 {
      AscendingSorted(s, n - 1);
    }
  }

  /** The weight of root x: w[x], or 0 past the end. */
  function Weight(w: seq<nat>, x: nat): nat
  {
    if x < |w| then w[x] else 0
  }

  /** The sum of the weights of the listed roots. */
  function Sum(w: seq<nat>, roots: seq<nat>): nat
  {
    if roots == [] then 0 else Sum(w, roots[..|roots| - 1]) + Weight(w, roots[|roots| - 1])
  }

  /** One entry of m_RootDescriptorTable: the assigned-handles bitmap, where the table starts in the handle cache, its size. */
  datatype DescriptorTableCache = DescriptorTableCache(assignedBits: set<nat>, start: nat, size: nat)

  /** The sizes of the tables below root n, added up. */
  function SizedBelow(tables: set<nat>, rt: seq<DescriptorTableCache>, n: nat): nat
    requires n <= |rt|
  {
    if n == 0 then 0 else SizedBelow(tables, rt, n - 1) + if n - 1 in tables then rt[n - 1].size else 0
  }

  /** The extent of one entry's bitmap, or 0 when the bitmap is out of range. */
  function ExtentOf(e: DescriptorTableCache): nat
  {
    if Within(e.assignedBits, BITS) then Extent(e.assignedBits) else 0
  }

  /** The extents of the assigned bitmaps, by root index. */
  function Extents(rt: seq<DescriptorTableCache>): (r: seq<nat>)
    ensures |r| == |rt| && forall i :: 0 <= i < |rt| ==> r[i] == ExtentOf(rt[i])
  {
    if rt == [] then [] else Extents(rt[..|rt| - 1]) + [ExtentOf(rt[|rt| - 1])]
  }

  /**
   * The layout ParseRootSignature produces: the tables lie one after the
   * other in increasing root order, each starting where the previous ones
   * end, and their total is the cache size in use, at most 256.  Assigned
   * handles stay inside their table and inside the 32-bit bitmap.
   */
  ghost predicate LaidOut(tables: set<nat>, rt: seq<DescriptorTableCache>, maxCached: nat)
  {
    |rt| == MAX_TABLES && Within(tables, MAX_TABLES) &&
    maxCached == SizedBelow(tables, rt, MAX_TABLES) && maxCached <= MAX_DESCRIPTORS &&
    LaidOutBelow(tables, rt, MAX_TABLES) &&
    forall t :: t in tables ==> TableFilled(rt[t])
  }

  /** The tables below root n each start at the sum of the sizes of the tables before them. */
  ghost predicate LaidOutBelow(tables: set<nat>, rt: seq<DescriptorTableCache>, n: nat)
    requires n <= |rt|
  {
    n == 0 ||
    (LaidOutBelow(tables, rt, n - 1) &&
     (n - 1 in tables ==> rt[n - 1].start == SizedBelow(tables, rt, n - 1)))
  }

  /** A nonempty table whose assigned handles lie inside it and inside 32 bits. */
  predicate TableFilled(t: DescriptorTableCache)
  {
    t.size > 0 && Within(t.assignedBits, t.size) && Within(t.assignedBits, BITS)
  }

  /** Handles needed to upload the stale tables below root n. */
  function StagedBelow(stale: set<nat>, rt: seq<DescriptorTableCache>, n: nat): nat
    requires n <= |rt|
  {
    if n == 0 then 0 else StagedBelow(stale, rt, n - 1) + if n - 1 in stale then ExtentOf(rt[n - 1]) else 0
  }

  /** Handles needed to upload the stale tables: ComputeStagedSize. */
  function StagedSize(stale: set<nat>, rt: seq<DescriptorTableCache>): nat
  {
    StagedBelow(stale, rt, |rt|)
  }

  /** The staged size is the sum of the extents of the stale roots in scan order. */
  lemma {:induction false} StagedIsSum(stale: set<nat>, rt: seq<DescriptorTableCache>, n: nat)
    requires n <= |rt|
    ensures StagedBelow(stale, rt, n) == Sum(Extents(rt), Ascending(stale, n))
  {
    if n > 0 {
      StagedIsSum(stale, rt, n - 1);
      SumStep(Extents(rt), stale, n - 1);
    }
  }

  /** The root signature as the cache reads it. */
  datatype RootSignature = RootSignature(
    numParameters: nat,
    descriptorTableBitMap: set<nat>,
    samplerTableBitMap: set<nat>,
    descriptorTableSize: seq<nat>)

  /** What RootSignature::Finalize guarantees: the bitmaps name existing parameters, sizes for all 16 slots. */
  ghost predicate Finalized(sig: RootSignature)
  {
    Within(sig.descriptorTableBitMap, sig.numParameters) &&
    Within(sig.samplerTableBitMap, sig.numParameters) &&
    |sig.descriptorTableSize| == MAX_TABLES
  }

  /** The table bitmap the cache adopts for a heap type. */
  function TablesFor(isSampler: bool, sig: RootSignature): set<nat>
  {
    if isSampler then sig.samplerTableBitMap else sig.descriptorTableBitMap
  }

  /** Where root r's descriptors land in the upload: after the extents of the stale roots before it. */
  function Bindings(w: seq<nat>, roots: seq<nat>, dest: nat): (r: seq<(nat, nat)>)
    ensures |r| == |roots|
  {
    if roots == [] then []
    else
      var prefix := roots[..|roots| - 1];
      Bindings(w, prefix, dest) + [(roots[|roots| - 1], dest + Sum(w, prefix))]
  }

  /** Binding one more root places it after everything bound so far. */
  lemma BindingsAppend(w: seq<nat>, roots: seq<nat>, x: nat, dest: nat)
    ensures Bindings(w, roots + [x], dest) == Bindings(w, roots, dest) + [(x, dest + Sum(w, roots))]
  {
    assert (roots + [x])[..|roots|] == roots;
  }

  /** The k-th binding is the k-th root, at dest plus the extents of the roots bound before it. */
  lemma {:induction false} BindingAt(w: seq<nat>, roots: seq<nat>, dest: nat, k: nat)
    requires k < |roots|
    ensures Bindings(w, roots, dest)[k] == (roots[k], dest + Sum(w, roots[..k]))
  {
    var prefix := roots[..|roots| - 1];
    if k < |prefix| {
      BindingAt(w, prefix, dest, k);
      assert prefix[..k] == roots[..k];
    }
  }

  /** No bit of s lies in lo .. hi - 1: the scan skips straight from lo to hi. */
  lemma {:induction false} AscendingGap(s: set<nat>, lo: nat, hi: nat)
    requires lo <= hi && forall x :: x in s && lo <= x ==> hi <= x
    ensures Ascending(s, hi) == Ascending(s, lo)
    decreases hi
  {
    if lo < hi {
      AscendingGap(s, lo, hi - 1);
      assert Ascending(s, hi) == Ascending(s, hi - 1) + [] == Ascending(s, hi - 1);
    }
  }

  /** One step of a forward bit scan: the lowest remaining bit is the next one in ascending order. */
  lemma ScanStep(s: set<nat>, next: nat, r: nat)
    requires r in s && next <= r && forall x :: x in s && next <= x ==> r <= x
    ensures Ascending(s, r) == Ascending(s, next)
    ensures Ascending(s, r + 1) == Ascending(s, next) + [r]
    ensures Above(s, r + 1) == Above(s, next) - {r}
  {
    AscendingGap(s, next, r);
  }

  /** Appending one root adds its weight. */
  lemma SumAppend(w: seq<nat>, roots: seq<nat>, x: nat)
    ensures Sum(w, roots + [x]) == Sum(w, roots) + Weight(w, x)
  {
    assert (roots + [x])[..|roots|] == roots;
  }

  /** The sum over the bits of s below n + 1 adds the weight of n when n is a bit of s. */
  lemma SumStep(w: seq<nat>, s: set<nat>, n: nat)
    ensures Sum(w, Ascending(s, n + 1)) == Sum(w, Ascending(s, n)) + if n in s then Weight(w, n) else 0
  {
    if n in s {
      SumAppend(w, Ascending(s, n), n);
    } else {
      assert Ascending(s, n + 1) == Ascending(s, n) + [] == Ascending(s, n);
    }
  }

  /** The sizes below m add up to no more than the sizes below n >= m. */
  lemma {:induction false} SizedMono(tables: set<nat>, rt: seq<DescriptorTableCache>, m: nat, n: nat)
    requires m <= n <= |rt|
    ensures SizedBelow(tables, rt, m) <= SizedBelow(tables, rt, n)
    decreases n
  {
    if m < n {
      SizedMono(tables, rt, m, n - 1);
    }
  }

  /** A table of the layout ends no later than the whole layout. */
  lemma TableFits(tables: set<nat>, rt: seq<DescriptorTableCache>, t: nat)
    requires t in tables && t < |rt|
    ensures SizedBelow(tables, rt, t) + rt[t].size <= SizedBelow(tables, rt, |rt|)
  {
    SizedMono(tables, rt, t + 1, |rt|);
  }

  /** Sizes added up over entries whose sizes agree agree. */
  lemma {:induction false} SizedAgree(tables: set<nat>, rt1: seq<DescriptorTableCache>, rt2: seq<DescriptorTableCache>, n: nat)
    requires n <= |rt1| && n <= |rt2| && forall k :: 0 <= k < n ==> rt1[k].size == rt2[k].size
    ensures SizedBelow(tables, rt1, n) == SizedBelow(tables, rt2, n)
  {
    if n > 0 {
      SizedAgree(tables, rt1, rt2, n - 1);
    }
  }

  /**
   * When the stale roots are a subset of the tables and every table's
   * extent fits its size, the staged extents sum to no more than the sizes.
   */
  lemma {:induction false} ExtentsWithinSizes(stale: set<nat>, tables: set<nat>, rt: seq<DescriptorTableCache>, n: nat)
    requires stale <= tables && n <= |rt|
    requires forall t :: t in tables && t < |rt| ==> TableFilled(rt[t])
    ensures StagedBelow(stale, rt, n) <= SizedBelow(tables, rt, n)
    decreases n
  {
    if n > 0 {
      var t := n - 1;
      ExtentsWithinSizes(stale, tables, rt, t);
      if t in stale {
        ExtentFits(rt[t].assignedBits, rt[t].size);
      }
    }
  }

  /** The entry of a table below n starts where the layout says. */
  lemma {:induction false} LaidOutAt(tables: set<nat>, rt: seq<DescriptorTableCache>, n: nat, t: nat)
    requires n <= |rt| && LaidOutBelow(tables, rt, n) && t in tables && t < n
    ensures rt[t].start == SizedBelow(tables, rt, t)
    decreases n
  {
    if t < n - 1 {
      LaidOutAt(tables, rt, n - 1, t);
    }
  }

  /** A bitmap inside a table of the given size has an extent no larger than the size. */
  lemma ExtentFits(bits: set<nat>, size: nat)
    requires Within(bits, BITS) && Within(bits, size)
    ensures Extent(bits) <= size
  {
    if bits != {} {
      assert HighestBelow(bits, BITS) in bits;
    }
  }

  /** Sums over longer prefixes of the roots are no smaller. */
  lemma {:induction false} SumPrefixes(w: seq<nat>, roots: seq<nat>, m: nat, n: nat)
    requires m <= n <= |roots|
    ensures Sum(w, roots[..m]) <= Sum(w, roots[..n])
    decreases n
  {
    if m < n {
      SumPrefixes(w, roots, m, n - 1);
      assert roots[..n] == roots[..n - 1] + [roots[n - 1]];
      SumAppend(w, roots[..n - 1], roots[n - 1]);
    }
  }

  /**
   * The bound tables are packed: each one starts where the previous one's
   * extent ends, and the last one ends at dest plus the sum of all extents.
   */
  lemma BindingsPacked(w: seq<nat>, roots: seq<nat>, dest: nat, k: nat)
    requires k < |roots|
    ensures var b := Bindings(w, roots, dest);
      (k + 1 < |roots| ==> b[k + 1].1 == b[k].1 + Weight(w, roots[k])) &&
      (k + 1 == |roots| ==> b[k].1 + Weight(w, roots[k]) == dest + Sum(w, roots))
  {
    BindingAt(w, roots, dest, k);
    assert roots[..k + 1] == roots[..k] + [roots[k]];
    SumAppend(w, roots[..k], roots[k]);
    if k + 1 < |roots| {
      BindingAt(w, roots, dest, k + 1);
    } else {
      assert roots[..k + 1] == roots;
    }
  }

  /** The entry ParseRootSignature gives table t: nothing assigned, after the tables before it. */
  function Placed(tables: set<nat>, sizes: seq<nat>, t: nat): (e: DescriptorTableCache)
    requires t < |sizes|
    ensures e.assignedBits == {} && e.size == sizes[t]
  {
    DescriptorTableCache({}, Sum(sizes, Ascending(tables, t)), sizes[t])
  }

  /** The entries after the tables of the bitmap below root n are placed over rt. */
  function PlacedBelow(rt: seq<DescriptorTableCache>, tables: set<nat>, sizes: seq<nat>, n: nat)
    : (r: seq<DescriptorTableCache>)
    requires n <= |rt| == |sizes|
    ensures |r| == |rt|
    decreases n
  {
    if n == 0 then rt
    else
      var p := PlacedBelow(rt, tables, sizes, n - 1);
      if n - 1 in tables then p[n - 1 := Placed(tables, sizes, n - 1)] else p
  }

  /** Entry t is placed when it is a table below n, and untouched otherwise. */
  lemma {:induction false} PlacedBelowAt(rt: seq<DescriptorTableCache>, tables: set<nat>, sizes: seq<nat>, n: nat, t: nat)
    requires n <= |rt| == |sizes| && t < |rt|
    ensures PlacedBelow(rt, tables, sizes, n)[t] == if t in tables && t < n then Placed(tables, sizes, t) else rt[t]
    decreases n
  {
    if n > 0 {
      PlacedBelowAt(rt, tables, sizes, n - 1, t);
    }
  }

  /** Across a gap with no table, placement changes nothing. */
  lemma {:induction false} PlacedGap(rt: seq<DescriptorTableCache>, tables: set<nat>, sizes: seq<nat>, lo: nat, hi: nat)
    requires lo <= hi <= |rt| == |sizes| && forall x :: x in tables && lo <= x ==> hi <= x
    ensures PlacedBelow(rt, tables, sizes, hi) == PlacedBelow(rt, tables, sizes, lo)
    decreases hi
  {
    if lo < hi {
      PlacedGap(rt, tables, sizes, lo, hi - 1);
    }
  }

  /** Every table of the bitmap holds its placed entry and has a nonzero size. */
  ghost predicate PlacedAll(tables: set<nat>, rt: seq<DescriptorTableCache>, sizes: seq<nat>)
  {
    |rt| == MAX_TABLES && |sizes| == MAX_TABLES && Within(tables, MAX_TABLES) &&
    forall t {:trigger rt[t]} :: t in tables ==> rt[t] == Placed(tables, sizes, t) && sizes[t] > 0
  }

  /**
   * Placing every table at the prefix sum of the sizes before it, with
   * nothing assigned, lays the cache out, when every table has a size and
   * the total fits the handle cache.
   */
  lemma ParsedLaidOut(tables: set<nat>, rt: seq<DescriptorTableCache>, sizes: seq<nat>, maxCached: nat)
    requires |rt| == MAX_TABLES && |sizes| == MAX_TABLES && Within(tables, MAX_TABLES)
    requires forall t :: t in tables ==> sizes[t] > 0
    requires maxCached == Sum(sizes, Ascending(tables, MAX_TABLES)) <= MAX_DESCRIPTORS
    ensures LaidOut(tables, PlacedBelow(rt, tables, sizes, MAX_TABLES), maxCached)
  {
    var placed := PlacedBelow(rt, tables, sizes, MAX_TABLES);
    forall t | t in tables
      ensures placed[t] == Placed(tables, sizes, t) && sizes[t] > 0
    {
      PlacedBelowAt(rt, tables, sizes, MAX_TABLES, t);
    }
    assert PlacedAll(tables, placed, sizes);
    ParsedBelow(tables, placed, sizes, MAX_TABLES);
    ParsedSums(tables, placed, sizes, MAX_TABLES);
  }

  lemma {:induction false} ParsedBelow(tables: set<nat>, rt: seq<DescriptorTableCache>, sizes: seq<nat>, n: nat)
    requires PlacedAll(tables, rt, sizes) && n <= MAX_TABLES
    ensures LaidOutBelow(tables, rt, n)
    decreases n
  {
    if n > 0 {
      ParsedBelow(tables, rt, sizes, n - 1);
      ParsedSums(tables, rt, sizes, n - 1);
    }
  }

  /** Over the tables, the sizes of the placed entries add up as the given sizes do. */
  lemma {:induction false} ParsedSums(tables: set<nat>, rt: seq<DescriptorTableCache>, sizes: seq<nat>, n: nat)
    requires PlacedAll(tables, rt, sizes) && n <= MAX_TABLES
    ensures SizedBelow(tables, rt, n) == Sum(sizes, Ascending(tables, n))
  {
    if n > 0 {
      ParsedSums(tables, rt, sizes, n - 1);
      SumStep(sizes, tables, n - 1);
      if n - 1 in tables {
        assert rt[n - 1].size == sizes[n - 1];
      }
    }
  }

  /** With no tables, any entries are laid out, in a cache of size 0. */
  lemma EmptyLaidOut(rt: seq<DescriptorTableCache>)
    requires |rt| == MAX_TABLES
    ensures LaidOut({}, rt, 0)
  {
    EmptyBelow(rt, MAX_TABLES);
  }

  lemma {:induction false} EmptyBelow(rt: seq<DescriptorTableCache>, n: nat)
    requires n <= |rt|
    ensures LaidOutBelow({}, rt, n) && SizedBelow({}, rt, n) == 0
  {
    if n > 0 {
      EmptyBelow(rt, n - 1);
    }
  }

  /** Changing one table's assigned handles, within its size, keeps the layout. */
  lemma AssignKeepsLayout(tables: set<nat>, rt: seq<DescriptorTableCache>, maxCached: nat, r: nat, bits: set<nat>)
    requires LaidOut(tables, rt, maxCached) && r in tables
    requires Within(bits, rt[r].size) && Within(bits, BITS)
    ensures LaidOut(tables, rt[r := rt[r].(assignedBits := bits)], maxCached)
  {
    var rt2 := rt[r := rt[r].(assignedBits := bits)];
    SizedAgree(tables, rt, rt2, MAX_TABLES);
    AssignKeepsBelow(tables, rt, r, bits, MAX_TABLES);
  }

  /**
   * Staging handles [offset, offset + n) of table r, inside its size and the
   * bitmap width, lands inside the handle cache and keeps the layout.
   */
  lemma StageFits(tables: set<nat>, rt: seq<DescriptorTableCache>, maxCached: nat, r: nat, offset: nat, n: nat)
    requires LaidOut(tables, rt, maxCached) && r in tables
    requires offset + n <= rt[r].size && offset + n <= BITS
    ensures rt[r].start + offset + n <= maxCached <= MAX_DESCRIPTORS
    ensures LaidOut(tables, rt[r := rt[r].(assignedBits := rt[r].assignedBits + Range(offset, offset + n))], maxCached)
  {
    assert TableFilled(rt[r]);
    LaidOutAt(tables, rt, MAX_TABLES, r);
    TableFits(tables, rt, r);
    AssignKeepsLayout(tables, rt, maxCached, r, rt[r].assignedBits + Range(offset, offset + n));
  }

  lemma {:induction false} AssignKeepsBelow(tables: set<nat>, rt: seq<DescriptorTableCache>, r: nat, bits: set<nat>, n: nat)
    requires n <= |rt| && r < |rt| && LaidOutBelow(tables, rt, n)
    ensures LaidOutBelow(tables, rt[r := rt[r].(assignedBits := bits)], n)
    decreases n
  {
    if n > 0 {
      AssignKeepsBelow(tables, rt, r, bits, n - 1);
      SizedAgree(tables, rt, rt[r := rt[r].(assignedBits := bits)], n - 1);
    }
  }

  /** A stale root below n contributes its extent to the staged size. */
  lemma {:induction false} StagedAtLeastMember(stale: set<nat>, rt: seq<DescriptorTableCache>, n: nat, t: nat)
    requires t in stale && t < n <= |rt|
    ensures ExtentOf(rt[t]) <= StagedBelow(stale, rt, n)
    decreases n
  {
    if t < n - 1 {
      StagedAtLeastMember(stale, rt, n - 1, t);
    }
  }

  /** With nothing stale, nothing is staged. */
  lemma {:induction false} StagedOfEmpty(rt: seq<DescriptorTableCache>, n: nat)
    requires n <= |rt|
    ensures StagedBelow({}, rt, n) == 0
  {
    if n > 0 {
      StagedOfEmpty(rt, n - 1);
    }
  }

  /** The scan of an empty bitmap finds nothing. */
  lemma {:induction false} AscendingOfEmpty(n: nat)
    ensures Ascending({}, n) == []
  {
    if n > 0 {
      AscendingOfEmpty(n - 1);
    }
  }

  /**
   * The staged size fits the cache in use (so at most 256), and it is zero
   * exactly when no root is stale, given that every stale root has an
   * assigned handle.
   */
  lemma StagedSizeBounds(tables: set<nat>, stale: set<nat>, rt: seq<DescriptorTableCache>, maxCached: nat)
    requires LaidOut(tables, rt, maxCached) && stale <= tables
    requires forall t :: t in stale ==> rt[t].assignedBits != {}
    ensures StagedSize(stale, rt) <= maxCached <= MAX_DESCRIPTORS
    ensures StagedSize(stale, rt) == 0 <==> stale == {}
  {
    ExtentsWithinSizes(stale, tables, rt, MAX_TABLES);
    if stale != {} {
      var t :| t in stale;
      StagedAtLeastMember(stale, rt, MAX_TABLES, t);
    } else {
      StagedOfEmpty(rt, MAX_TABLES);
    }
  }

  /**
   * DescriptorHandleCache: the CPU handles staged for one pipeline (graphics
   * or compute), laid out table by table as the root signature says, with
   * the bitmaps of descriptor-table roots and of stale roots.
   */
  class DescriptorHandleCache {
    /** m_RootDescriptorTablesBitMap. */
    var rootDescriptorTables: set<nat>
    /** m_StaleRootParamsBitMap. */
    var staleRootParams: set<nat>
    var maxCachedDescriptors: nat
    /** m_RootDescriptorTable[kMaxNumDescriptorTables]. */
    const rootDescriptorTable: array<DescriptorTableCache>
    /** m_HandleCache[kMaxNumDescriptors]. */
    const handleCache: array<Word>

    /** The table layout and the cache size ParseRootSignature sets up. */
    ghost predicate Layout()
      reads this`rootDescriptorTables, this`maxCachedDescriptors, rootDescriptorTable
    {
      rootDescriptorTable.Length == MAX_TABLES &&
      LaidOut(rootDescriptorTables, rootDescriptorTable[..], maxCachedDescriptors)
    }

    ghost predicate Valid()
      reads this, rootDescriptorTable
    {
      handleCache.Length == MAX_DESCRIPTORS && staleRootParams <= rootDescriptorTables && Layout()
    }

    /** Every stale root has an assigned handle: what ComputeStagedSize asserts. */
    ghost predicate StaleAssigned()
      reads this, rootDescriptorTable
    {
      forall t :: t in staleRootParams ==>
        t < rootDescriptorTable.Length && rootDescriptorTable[t].assignedBits != {} &&
        Within(rootDescriptorTable[t].assignedBits, BITS)
    }

    /** The constructor runs ClearCache; the table entries start with nothing assigned. */
    constructor ()
      ensures Valid() && fresh(rootDescriptorTable) && fresh(handleCache)
      ensures rootDescriptorTables == {} && staleRootParams == {} && maxCachedDescriptors == 0
      ensures forall t :: 0 <= t < MAX_TABLES ==> rootDescriptorTable[t].assignedBits == {}
    {
      rootDescriptorTable := new DescriptorTableCache[MAX_TABLES](_ => DescriptorTableCache({}, 0, 0));
      handleCache := new Word[MAX_DESCRIPTORS](_ => 0);
      rootDescriptorTables, staleRootParams, maxCachedDescriptors := {}, {}, 0;
      new;
      EmptyLaidOut(rootDescriptorTable[..]);
    }

    /** ClearCache: no tables, nothing stale, nothing cached. */
    method ClearCache()
      requires Valid()
      modifies this`rootDescriptorTables, this`staleRootParams, this`maxCachedDescriptors
      ensures Valid()
      ensures rootDescriptorTables == {} && staleRootParams == {} && maxCachedDescriptors == 0
    {
      rootDescriptorTables, staleRootParams, maxCachedDescriptors := {}, {}, 0;
      EmptyLaidOut(rootDescriptorTable[..]);
    }

    /**
     * StageDescriptorHandles: the root must be a descriptor table and the
     * handles must fit it; they are copied into the table's part of the
     * handle cache, their bits are set and the root is marked stale.
     */
    method StageDescriptorHandles(rootIndex: nat, offset: nat, numHandles: nat, handles: seq<Word>)
      requires Valid()
      requires rootIndex in rootDescriptorTables
      requires offset + numHandles <= rootDescriptorTable[rootIndex].size
      requires offset + numHandles <= BITS
      requires |handles| >= numHandles
      modifies this`staleRootParams, rootDescriptorTable, handleCache
      ensures Valid()
      ensures old(StaleAssigned()) && rootDescriptorTable[rootIndex].assignedBits != {} ==> StaleAssigned()
      ensures staleRootParams == old(staleRootParams) + {rootIndex}
      ensures rootDescriptorTable[..] == old(rootDescriptorTable[..])[rootIndex :=
        old(rootDescriptorTable[rootIndex]).(assignedBits :=
          old(rootDescriptorTable[rootIndex].assignedBits) + Range(offset, offset + numHandles))]
      ensures rootDescriptorTable[rootIndex].start + offset + numHandles <= maxCachedDescriptors
      ensures var at := rootDescriptorTable[rootIndex].start + offset;
        forall k :: 0 <= k < MAX_DESCRIPTORS ==>
          handleCache[k] == if at <= k < at + numHandles then handles[k - at] else old(handleCache[k])
    {
      var table := rootDescriptorTable[rootIndex];
      ghost var rt := rootDescriptorTable[..];
      StageFits(rootDescriptorTables, rt, maxCachedDescriptors, rootIndex, offset, numHandles);
      var copyDest := table.start + offset;
      for i := 0 to numHandles
        modifies handleCache
        invariant forall k :: 0 <= k < MAX_DESCRIPTORS ==>
          handleCache[k] == if copyDest <= k < copyDest + i then handles[k - copyDest] else old(handleCache[k])
      {
        handleCache[copyDest + i] := handles[i];
      }
      var bits := table.assignedBits + Range(offset, offset + numHandles);
      rootDescriptorTable[rootIndex] := table.(assignedBits := bits);
      assert rootDescriptorTable[..] == rt[rootIndex := table.(assignedBits := bits)];
      staleRootParams := staleRootParams + {rootIndex};
    }

    /**
     * The forward bit scan over the stale roots shared by ComputeStagedSize
     * and CopyAndBindStaleTables: the stale roots in increasing order, each
     * table's extent, and their sum.
     */
    method ScanStaleTables() returns (rootIndices: seq<nat>, tableSize: seq<nat>, neededSpace: nat)
      requires rootDescriptorTable.Length == MAX_TABLES && StaleAssigned()
      ensures rootIndices == Ascending(staleRootParams, MAX_TABLES)
      ensures |tableSize| == |rootIndices|
      ensures forall k :: 0 <= k < |rootIndices| ==>
        tableSize[k] == Extent(rootDescriptorTable[rootIndices[k]].assignedBits) > 0
      ensures neededSpace == StagedSize(staleRootParams, rootDescriptorTable[..])
    {
      ghost var ext := Extents(rootDescriptorTable[..]);
      rootIndices, tableSize, neededSpace := [], [], 0;
      var staleParams := staleRootParams;
      ghost var next := 0;
      assert staleParams == Above(staleRootParams, 0);
      while staleParams != {}
        invariant next <= MAX_TABLES
        invariant staleParams == Above(staleRootParams, next)
        invariant rootIndices == Ascending(staleRootParams, next)
        invariant |tableSize| == |rootIndices|
        invariant forall k :: 0 <= k < |rootIndices| ==>
          tableSize[k] == Extent(rootDescriptorTable[rootIndices[k]].assignedBits) > 0
        invariant neededSpace == Sum(ext, rootIndices)
        decreases |staleParams|
      {
        var rootIndex := Lowest(staleParams);
        staleParams := staleParams - {rootIndex};
        var maxSetHandle := HighestBelow(rootDescriptorTable[rootIndex].assignedBits, BITS);
        ScanStep(staleRootParams, next, rootIndex);
        SumAppend(ext, rootIndices, rootIndex);
        neededSpace := neededSpace + maxSetHandle + 1;
        tableSize := tableSize + [maxSetHandle + 1];
        rootIndices := rootIndices + [rootIndex];
        next := rootIndex + 1;
      }
      AscendingGap(staleRootParams, next, MAX_TABLES);
      StagedIsSum(staleRootParams, rootDescriptorTable[..], MAX_TABLES);
    }

    /** ComputeStagedSize: the sum over the stale tables of their highest assigned handle plus one. */
    method ComputeStagedSize() returns (neededSpace: nat)
      requires Valid() && StaleAssigned()
      ensures neededSpace == StagedSize(staleRootParams, rootDescriptorTable[..])
      ensures neededSpace <= maxCachedDescriptors <= MAX_DESCRIPTORS
      ensures neededSpace == 0 <==> staleRootParams == {}
    {
      var rootIndices, tableSize;
      rootIndices, tableSize, neededSpace := ScanStaleTables();
      StagedSizeBounds(rootDescriptorTables, staleRootParams, rootDescriptorTable[..], maxCachedDescriptors);
    }

    /**
     * CopyAndBindStaleTables: each stale table, in increasing root order, is
     * bound at the destination followed by the extents of the tables bound
     * before it, and no root stays stale.  Destinations count descriptors
     * from the start of the shader-visible heap.
     */
    method CopyAndBindStaleTables(destStart: nat) returns (binds: seq<(nat, nat)>, copies: seq<Copy>)
      requires Valid() && StaleAssigned()
      modifies this`staleRootParams
      ensures Valid() && StaleAssigned() && staleRootParams == {}
      ensures binds == Bindings(Extents(rootDescriptorTable[..]), Ascending(old(staleRootParams), MAX_TABLES), destStart)
      ensures copies == BoundCopies(rootDescriptorTable[..], binds, handleCache[..])
    {
      var rootIndices, tableSize, neededSpace := ScanStaleTables();
      var rt := rootDescriptorTable[..];
      assert RootsFit(rt, rootIndices) && forall k :: 0 <= k < |rootIndices| ==> tableSize[k] == Weight(Extents(rt), rootIndices[k]) by {
        forall k | 0 <= k < |rootIndices|
          ensures rootIndices[k] < |rt| && Within(rt[rootIndices[k]].assignedBits, BITS)
          ensures tableSize[k] == Weight(Extents(rt), rootIndices[k])
        {
          assert rootIndices[k] in staleRootParams;
          assert rt[rootIndices[k]] == rootDescriptorTable[rootIndices[k]];
        }
      }
      staleRootParams := {};
      binds, copies := BindTables(rootIndices, tableSize, destStart, Extents(rt), rt, handleCache[..]);
    }

    /** The scan in UnbindAllValid: the tables whose assigned bitmap is not empty. */
    method TablesWithHandles() returns (stale: set<nat>)
      requires rootDescriptorTable.Length == MAX_TABLES && Within(rootDescriptorTables, MAX_TABLES)
      ensures forall t :: t in stale <==> t in rootDescriptorTables && rootDescriptorTable[t].assignedBits != {}
    {
      stale := {};
      var tableParams := rootDescriptorTables;
      ghost var next := 0;
      while tableParams != {}
        invariant next <= MAX_TABLES
        invariant tableParams == Above(rootDescriptorTables, next)
        invariant forall t :: t in stale <==>
          t in rootDescriptorTables && t < next && rootDescriptorTable[t].assignedBits != {}
        decreases |tableParams|
      {
        var rootIndex := Lowest(tableParams);
        tableParams := tableParams - {rootIndex};
        ScanStep(rootDescriptorTables, next, rootIndex);
        if rootDescriptorTable[rootIndex].assignedBits != {} {
          stale := stale + {rootIndex};
        }
        next := rootIndex + 1;
      }
    }

    /** UnbindAllValid: exactly the tables with an assigned handle become stale. */
    method UnbindAllValid()
      requires Valid()
      modifies this`staleRootParams
      ensures Valid() && StaleAssigned()
      ensures forall t :: t in staleRootParams <==> t in rootDescriptorTables && rootDescriptorTable[t].assignedBits != {}
    {
      staleRootParams := TablesWithHandles();
      assert forall t :: t in rootDescriptorTables ==> TableFilled(rootDescriptorTable[..][t]);
    }

    /**
     * The loop of ParseRootSignature: the tables of the bitmap, in root
     * order, start one after the other with nothing assigned; the result
     * is where the last one ends.
     */
    method PlaceTables(tables: set<nat>, sizes: seq<nat>) returns (currentOffset: nat)
      requires rootDescriptorTable.Length == MAX_TABLES && |sizes| == MAX_TABLES && Within(tables, MAX_TABLES)
      modifies rootDescriptorTable
      ensures currentOffset == Sum(sizes, Ascending(tables, MAX_TABLES))
      ensures rootDescriptorTable[..] == PlacedBelow(old(rootDescriptorTable[..]), tables, sizes, MAX_TABLES)
    {
      ghost var rt0 := rootDescriptorTable[..];
      currentOffset := 0;
      var tableParams := tables;
      ghost var next := 0;
      while tableParams != {}
        invariant next <= MAX_TABLES
        invariant tableParams == Above(tables, next)
        invariant currentOffset == Sum(sizes, Ascending(tables, next))
        invariant rootDescriptorTable[..] == PlacedBelow(rt0, tables, sizes, next)
        decreases |tableParams|
      {
        var rootIndex := Lowest(tableParams);
        tableParams := tableParams - {rootIndex};
        var tableSize := sizes[rootIndex];
        ScanStep(tables, next, rootIndex);
        SumAppend(sizes, Ascending(tables, next), rootIndex);
        PlacedGap(rt0, tables, sizes, next, rootIndex);
        ghost var before := rootDescriptorTable[..];
        rootDescriptorTable[rootIndex] := DescriptorTableCache({}, currentOffset, tableSize);
        assert rootDescriptorTable[..] == before[rootIndex := Placed(tables, sizes, rootIndex)];
        currentOffset := currentOffset + tableSize;
        next := rootIndex + 1;
      }
      AscendingGap(tables, next, MAX_TABLES);
      PlacedGap(rt0, tables, sizes, next, MAX_TABLES);
    }

    /**
     * ParseRootSignature: the cache adopts the signature's table bitmap for
     * its heap type and lays the tables out one after the other in root
     * order, with nothing assigned and nothing stale.
     */
    method ParseRootSignature(isSampler: bool, sig: RootSignature)
      requires rootDescriptorTable.Length == MAX_TABLES && handleCache.Length == MAX_DESCRIPTORS
      requires Finalized(sig) && sig.numParameters <= MAX_TABLES
      requires forall t :: t in TablesFor(isSampler, sig) ==> sig.descriptorTableSize[t] > 0
      requires Sum(sig.descriptorTableSize, Ascending(TablesFor(isSampler, sig), MAX_TABLES)) <= MAX_DESCRIPTORS
      modifies this`rootDescriptorTables, this`staleRootParams, this`maxCachedDescriptors, rootDescriptorTable
      ensures Valid() && StaleAssigned()
      ensures rootDescriptorTables == TablesFor(isSampler, sig) && staleRootParams == {}
      ensures maxCachedDescriptors == Sum(sig.descriptorTableSize, Ascending(rootDescriptorTables, MAX_TABLES))
      ensures rootDescriptorTable[..] ==
        PlacedBelow(old(rootDescriptorTable[..]), rootDescriptorTables, sig.descriptorTableSize, MAX_TABLES)
    {
      staleRootParams := {};
      rootDescriptorTables := TablesFor(isSampler, sig);
      ghost var rt0 := rootDescriptorTable[..];
      maxCachedDescriptors := PlaceTables(rootDescriptorTables, sig.descriptorTableSize);
      ParsedLaidOut(rootDescriptorTables, rt0, sig.descriptorTableSize, maxCachedDescriptors);
    }
  }

  /** The binding loop of CopyAndBindStaleTables: each root at the running destination. */
  method BindTables(rootIndices: seq<nat>, tableSize: seq<nat>, destStart: nat, ghost w: seq<nat>,
                    rt: seq<DescriptorTableCache>, cache: seq<Word>)
    returns (binds: seq<(nat, nat)>, copies: seq<Copy>)
    requires |tableSize| == |rootIndices| && RootsFit(rt, rootIndices)
    requires forall k :: 0 <= k < |rootIndices| ==> tableSize[k] == Weight(w, rootIndices[k])
    ensures binds == Bindings(w, rootIndices, destStart)
    ensures copies == BoundCopies(rt, binds, cache)
  {
    binds, copies := [], [];
    var dest := destStart;
    ghost var bound: seq<nat> := [];
    for i := 0 to |rootIndices|
      invariant bound == rootIndices[..i]
      invariant binds == Bindings(w, bound, destStart)
      invariant copies == BoundCopies(rt, binds, cache)
      invariant dest == destStart + Sum(w, bound)
    {
      var rootIndex := rootIndices[i];
      RootAt(rt, rootIndices, tableSize, w, i);
      var tableCopies := CopyTable(rt[rootIndex].assignedBits, rt[rootIndex].start, dest, cache);
      BindTurn(w, bound, rootIndex, destStart, rt, cache, binds, dest, tableCopies);
      binds := binds + [(rootIndex, dest)];
      copies := copies + tableCopies;
      dest := dest + tableSize[i];
      bound := bound + [rootIndex];
    }
    assert rootIndices[..|rootIndices|] == rootIndices;
  }

  /** The i-th listed root: its table fits, its size is its weight, and it extends the prefix before it. */
  lemma RootAt(rt: seq<DescriptorTableCache>, roots: seq<nat>, tableSize: seq<nat>, w: seq<nat>, i: nat)
    requires i < |roots| == |tableSize| && RootsFit(rt, roots)
    requires forall k :: 0 <= k < |roots| ==> tableSize[k] == Weight(w, roots[k])
    ensures roots[i] < |rt| && Within(rt[roots[i]].assignedBits, BITS)
    ensures tableSize[i] == Weight(w, roots[i])
    ensures roots[..i + 1] == roots[..i] + [roots[i]]
  {
  }

  /** One turn of BindTables: root x is bound at dest and its table's copies follow the earlier ones. */
  lemma BindTurn(w: seq<nat>, bound: seq<nat>, x: nat, destStart: nat, rt: seq<DescriptorTableCache>, cache: seq<Word>,
                 binds: seq<(nat, nat)>, dest: nat, tableCopies: seq<Copy>)
    requires x < |rt| && binds == Bindings(w, bound, destStart) && dest == destStart + Sum(w, bound)
    requires tableCopies == TableCopies(Ascending(rt[x].assignedBits, BITS), rt[x].start, dest, cache)
    ensures binds + [(x, dest)] == Bindings(w, bound + [x], destStart)
    ensures dest + Weight(w, x) == destStart + Sum(w, bound + [x])
    ensures BoundCopies(rt, binds + [(x, dest)], cache) == BoundCopies(rt, binds, cache) + tableCopies
  {
    BindingsAppend(w, bound, x, destStart);
    SumAppend(w, bound, x);
    BindCopiesTurn(rt, binds, x, dest, cache, tableCopies);
  }

  /** Binding root x at dest appends the copies of its table. */
  lemma {:induction false} BindCopiesTurn(rt: seq<DescriptorTableCache>, binds: seq<(nat, nat)>, x: nat, dest: nat,
                                          cache: seq<Word>, tableCopies: seq<Copy>)
    requires x < |rt| && tableCopies == TableCopies(Ascending(rt[x].assignedBits, BITS), rt[x].start, dest, cache)
    ensures BoundCopies(rt, binds + [(x, dest)], cache) == BoundCopies(rt, binds, cache) + tableCopies
  {
    BoundCopiesAppend(rt, binds, x, dest, cache);
  }

  // ---------------------------------------------------------------------
  // The descriptors copied into the shader-visible heap.
  // ---------------------------------------------------------------------

  /** One descriptor copy: the handle copied into a slot of the shader-visible heap. */
  datatype Copy = Copy(slot: nat, handle: Word)

  /** The handle cached at slot i, or 0 past the end of the cache. */
  function Cached(cache: seq<Word>, i: nat): Word
  {
    if i < |cache| then cache[i] else 0
  }

  /**
   * The copies of one table, as (destination slot, source handle): for each
   * assigned handle b, lowest first, the handle cached at src + b goes to
   * slot dst + b of the heap, so unassigned handles leave gaps.
   */
  function TableCopies(bits: seq<nat>, src: nat, dst: nat, cache: seq<Word>): (r: seq<Copy>)
    ensures |r| == |bits|
  {
    if bits == [] then []
    else
      var b := bits[|bits| - 1];
      TableCopies(bits[..|bits| - 1], src, dst, cache) + [Copy(dst + b, Cached(cache, src + b))]
  }

  /** The copies of root x's table into the heap from slot at on; none for a root past the end. */
  function RootCopies(rt: seq<DescriptorTableCache>, x: nat, at: nat, cache: seq<Word>): seq<Copy>
  {
    if x < |rt| then TableCopies(Ascending(rt[x].assignedBits, BITS), rt[x].start, at, cache) else []
  }

  /** The copies for a list of bindings, in order: each bound root's table copied from the slot it is bound at. */
  function BoundCopies(rt: seq<DescriptorTableCache>, binds: seq<(nat, nat)>, cache: seq<Word>): seq<Copy>
  {
    if binds == [] then []
    else
      var last := binds[|binds| - 1];
      BoundCopies(rt, binds[..|binds| - 1], cache) + RootCopies(rt, last.0, last.1, cache)
  }

  /** One more binding appends its table's copies. */
  lemma {:induction false} BoundCopiesAppend(rt: seq<DescriptorTableCache>, binds: seq<(nat, nat)>, x: nat, at: nat, cache: seq<Word>)
    ensures BoundCopies(rt, binds + [(x, at)], cache) == BoundCopies(rt, binds, cache) + RootCopies(rt, x, at, cache)
  {
    assert (binds + [(x, at)])[..|binds|] == binds;
  }

  /** The copies of all the bindings but the last, then the last one's. */
  lemma {:induction false} BoundCopiesLast(rt: seq<DescriptorTableCache>, binds: seq<(nat, nat)>, cache: seq<Word>)
    requires binds != []
    ensures BoundCopies(rt, binds, cache) ==
      BoundCopies(rt, binds[..|binds| - 1], cache) + RootCopies(rt, binds[|binds| - 1].0, binds[|binds| - 1].1, cache)
  {
  }

  /** One more assigned handle appends its copy. */
  lemma {:induction false} TableCopiesAppend(bits: seq<nat>, b: nat, src: nat, dst: nat, cache: seq<Word>)
    ensures TableCopies(bits + [b], src, dst, cache) == TableCopies(bits, src, dst, cache) + [Copy(dst + b, Cached(cache, src + b))]
  {
    assert (bits + [b])[..|bits|] == bits;
  }

  /** The k-th copy of a table is its k-th assigned handle. */
  lemma {:induction false} TableCopiesAt(bits: seq<nat>, src: nat, dst: nat, cache: seq<Word>, k: nat)
    requires k < |bits|
    ensures TableCopies(bits, src, dst, cache)[k] == Copy(dst + bits[k], Cached(cache, src + bits[k]))
    decreases |bits|
  {
    if k < |bits| - 1 {
      TableCopiesAt(bits[..|bits| - 1], src, dst, cache, k);
    }
  }

  /** Every copy lands in a slot from lo up to hi. */
  predicate SlotsIn(c: seq<Copy>, lo: nat, hi: nat)
  {
    forall j :: 0 <= j < |c| ==> lo <= c[j].slot < hi
  }

  /** The slots increase, so no slot is written twice. */
  predicate SlotsIncrease(c: seq<Copy>)
  {
    forall i, j :: 0 <= i < j < |c| ==> c[i].slot < c[j].slot
  }

  /** The copies of one table land in increasing slots inside its binding, dst up to dst + its extent. */
  lemma TableCopiesInBinding(bits: set<nat>, src: nat, dst: nat, cache: seq<Word>)
    requires Within(bits, BITS)
    ensures var c := TableCopies(Ascending(bits, BITS), src, dst, cache);
      SlotsIn(c, dst, dst + Extent(bits)) && SlotsIncrease(c)
  {
    var a := Ascending(bits, BITS);
    var c := TableCopies(a, src, dst, cache);
    AscendingSorted(bits, BITS);
    forall j | 0 <= j < |c| ensures dst <= c[j].slot < dst + Extent(bits) && c[j].slot == dst + a[j] {
      TableCopiesAt(a, src, dst, cache, j);
    }
  }

  /** Every assigned handle of a table is copied: the handle cached at src + b goes to slot dst + b. */
  lemma TableCopiesHold(bits: set<nat>, src: nat, dst: nat, cache: seq<Word>, b: nat)
    requires b in bits && b < BITS
    ensures Copy(dst + b, Cached(cache, src + b)) in TableCopies(Ascending(bits, BITS), src, dst, cache)
  {
    var a := Ascending(bits, BITS);
    AscendingSorted(bits, BITS);
    var k :| 0 <= k < |a| && a[k] == b;
    TableCopiesAt(a, src, dst, cache, k);
  }

  /**
   * Every assigned handle of every bound table is copied: for binding j,
   * root x bound at slot at, the handle cached at x's start + b goes to
   * slot at + b.
   */
  lemma {:induction false} BoundCopiesHold(rt: seq<DescriptorTableCache>, binds: seq<(nat, nat)>, cache: seq<Word>, j: nat, b: nat)
    requires j < |binds| && binds[j].0 < |rt| && b in rt[binds[j].0].assignedBits && b < BITS
    ensures Copy(binds[j].1 + b, Cached(cache, rt[binds[j].0].start + b)) in BoundCopies(rt, binds, cache)
  {
    var x, at := binds[j].0, binds[j].1;
    var e := Copy(at + b, Cached(cache, rt[x].start + b));
    var prefix, last := binds[..|binds| - 1], binds[|binds| - 1];
    var c, t := BoundCopies(rt, prefix, cache), RootCopies(rt, last.0, last.1, cache);
    if j < |prefix| {
      assert e in c by {
        assert binds[j] == prefix[j];
        BoundCopiesHold(rt, prefix, cache, j, b);
      }
    } else {
      assert e in t by {
        assert last == (x, at);
        TableCopiesHold(rt[x].assignedBits, rt[x].start, at, cache, b);
      }
    }
    InAppend(c, t, e);
    BoundCopiesLast(rt, binds, cache);
  }

  /** What is in either part is in the concatenation. */
  lemma InAppend(c: seq<Copy>, t: seq<Copy>, e: Copy)
    requires e in c || e in t
    ensures e in c + t
  {
    if e in c {
      var i :| 0 <= i < |c| && c[i] == e;
      assert (c + t)[i] == e;
    } else {
      var i :| 0 <= i < |t| && t[i] == e;
      assert (c + t)[|c| + i] == e;
    }
  }

  /** Every listed root names a table whose bitmap fits the BITS-wide map. */
  predicate RootsFit(rt: seq<DescriptorTableCache>, roots: seq<nat>)
  {
    forall k :: 0 <= k < |roots| ==> roots[k] < |rt| && Within(rt[roots[k]].assignedBits, BITS)
  }

  /**
   * The inner scan of CopyAndBindStaleTables over the assigned handles
   * `bits` of one root's table, lowest first: the handle cached at the
   * table's start src plus b is copied to slot dst + b.  CopyAndBindStaleTables gathers runs
   * of set bits into ranges and hands them to CopyDescriptors sixteen
   * source ranges at a time; the copies made are these, in this order.
   */
  method CopyTable(bits: set<nat>, src: nat, dst: nat, cache: seq<Word>) returns (copies: seq<Copy>)
    requires Within(bits, BITS)
    ensures copies == TableCopies(Ascending(bits, BITS), src, dst, cache)
  {
    copies := [];
    var setHandles := bits;
    ghost var next: nat := 0;
    assert setHandles == Above(bits, 0);
    while setHandles != {}
      invariant next <= BITS
      invariant setHandles == Above(bits, next)
      invariant copies == TableCopies(Ascending(bits, next), src, dst, cache)
      decreases |setHandles|
    {
      var b := Lowest(setHandles);
      CopyStep(bits, next, setHandles, b, src, dst, cache);
      copies := copies + [Copy(dst + b, Cached(cache, src + b))];
      setHandles := setHandles - {b};
      next := b + 1;
    }
    CopyDone(bits, next, src, dst, cache);
  }

  /** One turn of the scan in CopyTable: the lowest remaining bit b extends the copies by its own. */
  lemma CopyStep(bits: set<nat>, next: nat, setHandles: set<nat>, b: nat, src: nat, dst: nat, cache: seq<Word>)
    requires Within(bits, BITS) && setHandles == Above(bits, next)
    requires b in setHandles && forall x :: x in setHandles ==> b <= x
    ensures next <= b < BITS && Above(bits, b + 1) == setHandles - {b}
    ensures TableCopies(Ascending(bits, b + 1), src, dst, cache) ==
      TableCopies(Ascending(bits, next), src, dst, cache) + [Copy(dst + b, Cached(cache, src + b))]
  {
    ScanStep(bits, next, b);
    TableCopiesAppend(Ascending(bits, next), b, src, dst, cache);
  }

  /** Once no bit at or above next is left, the scan has copied the whole table. */
  lemma CopyDone(bits: set<nat>, next: nat, src: nat, dst: nat, cache: seq<Word>)
    requires next <= BITS && Above(bits, next) == {}
    ensures TableCopies(Ascending(bits, BITS), src, dst, cache) == TableCopies(Ascending(bits, next), src, dst, cache)
  {
    AscendingGap(bits, next, BITS);
  }
}

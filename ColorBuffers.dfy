// The integer helpers of a colour render target (ColorBuffer.h): the mip
// count of a full chain, the resource flags, the MSAA mode and the
// defaults a new colour buffer starts with.
module ColorBuffers {
  import opened AlignMath
  import opened PixelFormats
  import D = Descriptors

  /** Bitwise OR of two naturals, one bit at a time from the least significant. */
  function Or(x: nat, y: nat): (r: nat)
    ensures r == 0 <==> x == 0 && y == 0
  {
    if x == 0 then y
    else if y == 0 then x
    else 2 * Or(x / 2, y / 2) + (if x % 2 == 1 || y % 2 == 1 then 1 else 0)
  }

  function Max(x: nat, y: nat): nat
  {
    if x < y then y else x
  }

  /** The levels of a mip chain that halves (truncating) a dimension n until it reaches 1. */
  function MipLevels(n: nat): (r: nat)
    requires n >= 1
    ensures r >= 1
  {
    if n == 1 then 1 else 1 + MipLevels(n / 2)
  }

  /** The highest set bit of x | y is the highest set bit of the larger of the two. */
  lemma {:induction false} OrMsb(x: nat, y: nat)
    requires x >= 1 || y >= 1
    ensures Or(x, y) >= 1 && Msb(Or(x, y)) == Msb(Max(x, y))
  {
    if x >= 1 && y >= 1 {
      var h := Or(x / 2, y / 2);
      assert Or(x, y) == 2 * h + (if x % 2 == 1 || y % 2 == 1 then 1 else 0);
      if x / 2 >= 1 || y / 2 >= 1 {
        OrMsb(x / 2, y / 2);
        assert Or(x, y) / 2 == h;
        assert Max(x, y) / 2 == Max(x / 2, y / 2);
      }
    }
  }

  /** A chain of k levels halves a dimension in [2^(k-1), 2^k) down to 1. */
  lemma {:induction false} MipLevelsMsb(n: nat)
    requires n >= 1
    ensures MipLevels(n) == Msb(n) + 1
  {
    if n > 1 {
      MipLevelsMsb(n / 2);
    }
  }

  /**
   * ComputeNumMips: the index of the highest set bit of Width | Height,
   * plus one.  The bit scan of 0 leaves its result unset, so one of the
   * dimensions must be nonzero.
   */
  function ComputeNumMips(width: nat, height: nat): (r: nat)
    requires width < WORD32 && height < WORD32 && (width > 0 || height > 0)
    ensures 1 <= r <= 32
    ensures Pow2(r - 1) <= Max(width, height) < Pow2(r)
  {
    OrMsb(width, height);
    var m := Msb(Or(width, height));
    Pow2Word();
    MsbBelow(Max(width, height), 32);
    assert Pow2(m + 1) == 2 * Pow2(m);
    m + 1
  }

  /** The mip count is the length of the halving chain of the larger dimension. */
  lemma NumMipsIsChain(width: nat, height: nat)
    requires width < WORD32 && height < WORD32 && (width > 0 || height > 0)
    ensures ComputeNumMips(width, height) == MipLevels(Max(width, height))
  {
    OrMsb(width, height);
    MipLevelsMsb(Max(width, height));
  }

  /** Every size whose larger dimension lies in [256, 511], such as 256 and 511, has 9 levels. */
  lemma NineLevels(width: nat, height: nat)
    requires width < WORD32 && height < WORD32 && 256 <= Max(width, height) < 512
    ensures ComputeNumMips(width, height) == 9
  {
    NineFromBounds(Max(width, height), ComputeNumMips(width, height));
  }

  /** The only k with 2^(k-1) <= v < 2^k, for v in [256, 512), is 9. */
  lemma NineFromBounds(v: nat, k: nat)
    requires 1 <= k && Pow2(k - 1) <= v < Pow2(k) && 256 <= v < 512
    ensures k == 9
  {
    assert Pow2(8) == 256;
    assert Pow2(9) == 512;
    if k < 9 {
      Pow2Monotone(k, 8);
    } else if k > 9 {
      Pow2Monotone(9, k - 1);
    }
  }

  /** D3D12_RESOURCE_FLAG_ALLOW_RENDER_TARGET and D3D12_RESOURCE_FLAG_ALLOW_UNORDERED_ACCESS. */
  const ALLOW_RENDER_TARGET: nat := 0x1
  const ALLOW_UNORDERED_ACCESS: nat := 0x4

  /** Whether the flag word holds the single-bit flag. */
  predicate HasFlag(flags: nat, flag: nat)
    requires flag > 0
  {
    (flags / flag) % 2 == 1
  }

  /** Shader-visible CPU descriptor slots of a colour buffer: m_UAVHandle holds one per mip. */
  const UAV_SLOTS: nat := 12

  /** A colour render target: a pixel buffer with its MSAA mode and view handles. */
  class ColorBuffer {
    const pixels: PixelBuffer
    var numMipMaps: nat
    var fragmentCount: nat
    var sampleCount: nat
    var srvHandle: Word
    var rtvHandle: Word
    var uavHandles: seq<Word>

    /** The constructor: no extra mips, one fragment and one sample, every view handle unknown. */
    constructor ()
      ensures fresh(pixels) && pixels.format == UNKNOWN && pixels.width == 0 && pixels.height == 0
      ensures numMipMaps == 0 && fragmentCount == 1 && sampleCount == 1
      ensures srvHandle == D.UNKNOWN && rtvHandle == D.UNKNOWN
      ensures |uavHandles| == UAV_SLOTS && forall i :: 0 <= i < UAV_SLOTS ==> uavHandles[i] == D.UNKNOWN
    {
      pixels := new PixelBuffer();
      numMipMaps, fragmentCount, sampleCount := 0, 1, 1;
      srvHandle, rtvHandle := D.UNKNOWN, D.UNKNOWN;
      uavHandles := seq(UAV_SLOTS, _ => D.UNKNOWN);
    }

    /** SetMsaaMode: at least as many coverage samples as colour samples; both are stored. */
    method SetMsaaMode(numColorSamples: nat, numCoverageSamples: nat)
      requires numCoverageSamples >= numColorSamples
      modifies this`fragmentCount, this`sampleCount
      ensures fragmentCount == numColorSamples && sampleCount == numCoverageSamples
    {
      fragmentCount := numColorSamples;
      sampleCount := numCoverageSamples;
    }

    /** CombineResourceFlags: the render-target flag, plus unordered access without MSAA. */
    function CombineResourceFlags(): (flags: nat)
      reads this`fragmentCount
      ensures flags in {ALLOW_RENDER_TARGET, ALLOW_RENDER_TARGET + ALLOW_UNORDERED_ACCESS}
    {
      ALLOW_RENDER_TARGET + if fragmentCount == 1 then ALLOW_UNORDERED_ACCESS else 0
    }

    /** The combined flags always allow rendering, and allow unordered access exactly without MSAA. */
    lemma CombinedFlags()
      ensures HasFlag(CombineResourceFlags(), ALLOW_RENDER_TARGET)
      ensures HasFlag(CombineResourceFlags(), ALLOW_UNORDERED_ACCESS) <==> fragmentCount == 1
    {
    }

    /**
     * The description Create builds: a full mip chain when no mip count is
     * given, the combined flags, the base format, and one sample per
     * fragment.
     */
    method DescribeCreate(width: nat, height: nat, numMips: nat, format: Format) returns (desc: ResourceDesc)
      requires width < WORD32 && height < WORD32 && numMips < WORD32 && fragmentCount < WORD32
      requires numMips > 0 || width > 0 || height > 0
      modifies pixels
      ensures pixels.width == width && pixels.height == height && pixels.arraySize == 1 && pixels.format == format
      ensures desc.mipLevels == (if numMips == 0 then ComputeNumMips(width, height) else numMips) % WORD16
      ensures desc.flags == CombineResourceFlags() && desc.format == GetBaseFormat(format)
      ensures desc.sampleCount == fragmentCount && desc.sampleQuality == 0 && desc.depthOrArraySize == 1
    {
      var mips := if numMips == 0 then ComputeNumMips(width, height) else numMips;
      var flags := CombineResourceFlags();
      desc := pixels.DescribeTex2D(width, height, 1, mips, format, flags);
      desc := desc.(sampleCount := fragmentCount, sampleQuality := 0);
    }
  }
}

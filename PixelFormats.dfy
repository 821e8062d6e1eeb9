// The DXGI format families of a pixel buffer (PixelBuffer.cpp): the
// typeless base format a texture is created with, the formats of its UAV,
// DSV, depth SRV and stencil SRV views, and the bytes per pixel.
module PixelFormats {
  import opened AlignMath

  /**
   * A DXGI_FORMAT.  Every format the pixel-buffer switches name has its own
   * constructor; Other(code) stands for any other format, which every
   * switch sends to its default case.
   */
  datatype Format =
    | UNKNOWN
    | R8G8B8A8_UNORM | R8G8B8A8_UNORM_SRGB | R8G8B8A8_TYPELESS | B8G8R8A8_UNORM
    | B8G8R8A8_UNORM_SRGB | B8G8R8A8_TYPELESS | B8G8R8X8_UNORM | B8G8R8X8_UNORM_SRGB
    | B8G8R8X8_TYPELESS | R32G8X24_TYPELESS | D32_FLOAT_S8X24_UINT | R32_FLOAT_X8X24_TYPELESS
    | X32_TYPELESS_G8X24_UINT | R32_TYPELESS | D32_FLOAT | R32_FLOAT
    | R24G8_TYPELESS | D24_UNORM_S8_UINT | R24_UNORM_X8_TYPELESS | X24_TYPELESS_G8_UINT
    | R16_TYPELESS | D16_UNORM | R16_UNORM | R32G32B32A32_TYPELESS
    | R32G32B32A32_FLOAT | R32G32B32A32_UINT | R32G32B32A32_SINT | R32G32B32_TYPELESS
    | R32G32B32_FLOAT | R32G32B32_UINT | R32G32B32_SINT | R16G16B16A16_TYPELESS
    | R16G16B16A16_FLOAT | R16G16B16A16_UNORM | R16G16B16A16_UINT | R16G16B16A16_SNORM
    | R16G16B16A16_SINT | R32G32_TYPELESS | R32G32_FLOAT | R32G32_UINT
    | R32G32_SINT | R10G10B10A2_TYPELESS | R10G10B10A2_UNORM | R10G10B10A2_UINT
    | R11G11B10_FLOAT | R8G8B8A8_UINT | R8G8B8A8_SNORM | R8G8B8A8_SINT
    | R16G16_TYPELESS | R16G16_FLOAT | R16G16_UNORM | R16G16_UINT
    | R16G16_SNORM | R16G16_SINT | R32_UINT | R32_SINT
    | R9G9B9E5_SHAREDEXP | R8G8_B8G8_UNORM | G8R8_G8B8_UNORM | R10G10B10_XR_BIAS_A2_UNORM
    | R8G8_TYPELESS | R8G8_UNORM | R8G8_UINT | R8G8_SNORM
    | R8G8_SINT | R16_FLOAT | R16_UINT | R16_SNORM
    | R16_SINT | B5G6R5_UNORM | B5G5R5A1_UNORM | A8P8
    | B4G4R4A4_UNORM | R8_TYPELESS | R8_UNORM | R8_UINT
    | R8_SNORM | R8_SINT | A8_UNORM | P8
    | Other(code: nat)

  /** The four depth-stencil families: 32-bit Z with stencil, 32-bit Z, 24-bit Z with stencil, 16-bit Z. */
  datatype DepthFamily = NotDepth | Depth32Stencil8 | Depth32 | Depth24Stencil8 | Depth16

  /** The depth family a format belongs to, by the formats the pixel-buffer switches group together. */
  function DepthFamilyOf(f: Format): DepthFamily
  {
    match f
    case R32G8X24_TYPELESS | D32_FLOAT_S8X24_UINT | R32_FLOAT_X8X24_TYPELESS | X32_TYPELESS_G8X24_UINT =>
      Depth32Stencil8
    case R32_TYPELESS | D32_FLOAT | R32_FLOAT => Depth32
    case R24G8_TYPELESS | D24_UNORM_S8_UINT | R24_UNORM_X8_TYPELESS | X24_TYPELESS_G8_UINT => Depth24Stencil8
    case R16_TYPELESS | D16_UNORM | R16_UNORM => Depth16
    case _ => NotDepth
  }

  predicate IsDepthStencil(f: Format)
  {
    DepthFamilyOf(f) != NotDepth
  }

  /** The two families with a stencil plane. */
  predicate HasStencil(f: Format)
  {
    DepthFamilyOf(f) == Depth32Stencil8 || DepthFamilyOf(f) == Depth24Stencil8
  }

  /** GetBaseFormat: the typeless format of the family; formats outside the listed families are their own base. */
  function GetBaseFormat(f: Format): (r: Format)
    ensures DepthFamilyOf(r) == DepthFamilyOf(f)
    ensures r == f || r in {R8G8B8A8_TYPELESS, B8G8R8A8_TYPELESS, B8G8R8X8_TYPELESS,
                            R32G8X24_TYPELESS, R32_TYPELESS, R24G8_TYPELESS, R16_TYPELESS}
  {
    match DepthFamilyOf(f)
    case Depth32Stencil8 => R32G8X24_TYPELESS
    case Depth32 => R32_TYPELESS
    case Depth24Stencil8 => R24G8_TYPELESS
    case Depth16 => R16_TYPELESS
    case NotDepth =>
      match f
      case R8G8B8A8_UNORM | R8G8B8A8_UNORM_SRGB => R8G8B8A8_TYPELESS
      case B8G8R8A8_UNORM | B8G8R8A8_UNORM_SRGB => B8G8R8A8_TYPELESS
      case B8G8R8X8_UNORM | B8G8R8X8_UNORM_SRGB => B8G8R8X8_TYPELESS
      case _ => f
  }

  /** The formats for which a debug build asserts that no UAV format may be requested. */
  predicate UavRefused(f: Format)
  {
    match f
    case R32G8X24_TYPELESS | D32_FLOAT_S8X24_UINT | R32_FLOAT_X8X24_TYPELESS | X32_TYPELESS_G8X24_UINT
      | D32_FLOAT | R24G8_TYPELESS | D24_UNORM_S8_UINT | R24_UNORM_X8_TYPELESS | X24_TYPELESS_G8_UINT | D16_UNORM => true
    case _ => false
  }

  /** GetUAVFormat: the UNORM (or FLOAT) member of a colour family; other formats are kept. */
  function GetUAVFormat(f: Format): (r: Format)
    requires !UavRefused(f)
    ensures !UavRefused(r)
    ensures r !in {R8G8B8A8_TYPELESS, R8G8B8A8_UNORM_SRGB, B8G8R8A8_TYPELESS, B8G8R8A8_UNORM_SRGB,
                   B8G8R8X8_TYPELESS, B8G8R8X8_UNORM_SRGB, R32_TYPELESS}
  {
    if f in {R8G8B8A8_TYPELESS, R8G8B8A8_UNORM, R8G8B8A8_UNORM_SRGB} then R8G8B8A8_UNORM
    else if f in {B8G8R8A8_TYPELESS, B8G8R8A8_UNORM, B8G8R8A8_UNORM_SRGB} then B8G8R8A8_UNORM
    else if f in {B8G8R8X8_TYPELESS, B8G8R8X8_UNORM, B8G8R8X8_UNORM_SRGB} then B8G8R8X8_UNORM
    else if f in {R32_TYPELESS, R32_FLOAT} then R32_FLOAT
    else f
  }

  /** GetDSVFormat: the depth-stencil member of a depth family; other formats are kept. */
  function GetDSVFormat(f: Format): (r: Format)
    ensures DepthFamilyOf(r) == DepthFamilyOf(f) && GetBaseFormat(r) == GetBaseFormat(f)
    ensures !IsDepthStencil(f) ==> r == f
    ensures IsDepthStencil(f) ==> r in {D32_FLOAT_S8X24_UINT, D32_FLOAT, D24_UNORM_S8_UINT, D16_UNORM}
  {
    match DepthFamilyOf(f)
    case Depth32Stencil8 => D32_FLOAT_S8X24_UINT
    case Depth32 => D32_FLOAT
    case Depth24Stencil8 => D24_UNORM_S8_UINT
    case Depth16 => D16_UNORM
    case NotDepth => f
  }

  /** GetDepthFormat: the format a shader reads the depth plane as; UNKNOWN outside the depth families. */
  function GetDepthFormat(f: Format): (r: Format)
    ensures r != UNKNOWN <==> IsDepthStencil(f)
    ensures r != UNKNOWN ==> DepthFamilyOf(r) == DepthFamilyOf(f) && GetBaseFormat(r) == GetBaseFormat(f)
  {
    match DepthFamilyOf(f)
    case Depth32Stencil8 => R32_FLOAT_X8X24_TYPELESS
    case Depth32 => R32_FLOAT
    case Depth24Stencil8 => R24_UNORM_X8_TYPELESS
    case Depth16 => R16_UNORM
    case NotDepth => UNKNOWN
  }

  /** GetStencilFormat: the format a shader reads the stencil plane as; UNKNOWN for formats without one. */
  function GetStencilFormat(f: Format): (r: Format)
    ensures r != UNKNOWN <==> HasStencil(f)
    ensures r != UNKNOWN ==> DepthFamilyOf(r) == DepthFamilyOf(f) && GetBaseFormat(r) == GetBaseFormat(f)
  {
    match DepthFamilyOf(f)
    case Depth32Stencil8 => X32_TYPELESS_G8X24_UINT
    case Depth24Stencil8 => X24_TYPELESS_G8_UINT
    case _ => UNKNOWN
  }

  /** BytesPerPixel: the size of one texel; 0 for formats the table does not list. */
  function BytesPerPixel(f: Format): (r: nat)
    ensures r in {0, 1, 2, 4, 8, 12, 16}
    ensures r == 0 <==> f == UNKNOWN || f.Other?
  {
    match f
    case R32G32B32A32_TYPELESS | R32G32B32A32_FLOAT | R32G32B32A32_UINT | R32G32B32A32_SINT => 16
    case R32G32B32_TYPELESS | R32G32B32_FLOAT | R32G32B32_UINT | R32G32B32_SINT => 12
    case R16G16B16A16_TYPELESS | R16G16B16A16_FLOAT | R16G16B16A16_UNORM | R16G16B16A16_UINT
      | R16G16B16A16_SNORM | R16G16B16A16_SINT | R32G32_TYPELESS | R32G32_FLOAT | R32G32_UINT | R32G32_SINT
      | R32G8X24_TYPELESS | D32_FLOAT_S8X24_UINT | R32_FLOAT_X8X24_TYPELESS | X32_TYPELESS_G8X24_UINT => 8
    case R10G10B10A2_TYPELESS | R10G10B10A2_UNORM | R10G10B10A2_UINT | R11G11B10_FLOAT
      | R8G8B8A8_TYPELESS | R8G8B8A8_UNORM | R8G8B8A8_UNORM_SRGB | R8G8B8A8_UINT | R8G8B8A8_SNORM | R8G8B8A8_SINT
      | R16G16_TYPELESS | R16G16_FLOAT | R16G16_UNORM | R16G16_UINT | R16G16_SNORM | R16G16_SINT
      | R32_TYPELESS | D32_FLOAT | R32_FLOAT | R32_UINT | R32_SINT
      | R24G8_TYPELESS | D24_UNORM_S8_UINT | R24_UNORM_X8_TYPELESS | X24_TYPELESS_G8_UINT
      | R9G9B9E5_SHAREDEXP | R8G8_B8G8_UNORM | G8R8_G8B8_UNORM | B8G8R8A8_UNORM | B8G8R8X8_UNORM
      | R10G10B10_XR_BIAS_A2_UNORM | B8G8R8A8_TYPELESS | B8G8R8A8_UNORM_SRGB | B8G8R8X8_TYPELESS
      | B8G8R8X8_UNORM_SRGB => 4
    case R8G8_TYPELESS | R8G8_UNORM | R8G8_UINT | R8G8_SNORM | R8G8_SINT
      | R16_TYPELESS | R16_FLOAT | D16_UNORM | R16_UNORM | R16_UINT | R16_SNORM | R16_SINT
      | B5G6R5_UNORM | B5G5R5A1_UNORM | A8P8 | B4G4R4A4_UNORM => 2
    case R8_TYPELESS | R8_UNORM | R8_UINT | R8_SNORM | R8_SINT | A8_UNORM | P8 => 1
    case _ => 0
  }

  /** The base format is a fixed point: taking it twice changes nothing. */
  lemma BaseIdempotent(f: Format)
    ensures GetBaseFormat(GetBaseFormat(f)) == GetBaseFormat(f)
  {
  }

  /** A format and its base have the same texel size. */
  lemma BaseKeepsSize(f: Format)
    ensures BytesPerPixel(GetBaseFormat(f)) == BytesPerPixel(f)
  {
  }

  /** Formats of one family (same base format) have the same texel size. */
  lemma SameBaseSameSize(f: Format, g: Format)
    requires GetBaseFormat(f) == GetBaseFormat(g)
    ensures BytesPerPixel(f) == BytesPerPixel(g)
  {
    BaseKeepsSize(f);
    BaseKeepsSize(g);
  }

  /** For a depth format, the DSV format is determined by the base format. */
  lemma DsvThroughBase(f: Format)
    requires IsDepthStencil(f)
    ensures GetDSVFormat(GetBaseFormat(f)) == GetDSVFormat(f)
  {
  }

  /** The depth and stencil read formats are determined by the base format, for every format. */
  lemma ViewsThroughBase(f: Format)
    ensures GetDepthFormat(GetBaseFormat(f)) == GetDepthFormat(f)
    ensures GetStencilFormat(GetBaseFormat(f)) == GetStencilFormat(f)
  {
  }

  /** Depth formats of one family share their DSV, depth and stencil formats. */
  lemma SameBaseSameViews(f: Format, g: Format)
    requires GetBaseFormat(f) == GetBaseFormat(g) && IsDepthStencil(f)
    ensures GetDSVFormat(f) == GetDSVFormat(g)
    ensures GetDepthFormat(f) == GetDepthFormat(g) && GetStencilFormat(f) == GetStencilFormat(g)
  {
    DsvThroughBase(f);
    DsvThroughBase(g);
    ViewsThroughBase(f);
    ViewsThroughBase(g);
  }

  /** The UAV format is a fixed point. */
  lemma UavIdempotent(f: Format)
    requires !UavRefused(f)
    ensures GetUAVFormat(GetUAVFormat(f)) == GetUAVFormat(f)
  {
    var r := GetUAVFormat(f);
    if r != f {
      assert r in {R8G8B8A8_UNORM, B8G8R8A8_UNORM, B8G8R8X8_UNORM, R32_FLOAT};
    }
  }

  /** The UAV format stays in the family of the format asked for. */
  lemma UavKeepsBase(f: Format)
    requires !UavRefused(f)
    ensures GetBaseFormat(GetUAVFormat(f)) == GetBaseFormat(f)
  {
    if f in {R8G8B8A8_TYPELESS, R8G8B8A8_UNORM, R8G8B8A8_UNORM_SRGB} {
      assert GetBaseFormat(f) == R8G8B8A8_TYPELESS == GetBaseFormat(R8G8B8A8_UNORM);
    } else if f in {B8G8R8A8_TYPELESS, B8G8R8A8_UNORM, B8G8R8A8_UNORM_SRGB} {
      assert GetBaseFormat(f) == B8G8R8A8_TYPELESS == GetBaseFormat(B8G8R8A8_UNORM);
    } else if f in {B8G8R8X8_TYPELESS, B8G8R8X8_UNORM, B8G8R8X8_UNORM_SRGB} {
      assert GetBaseFormat(f) == B8G8R8X8_TYPELESS == GetBaseFormat(B8G8R8X8_UNORM);
    } else if f in {R32_TYPELESS, R32_FLOAT} {
      assert GetBaseFormat(f) == R32_TYPELESS == GetBaseFormat(R32_FLOAT);
    } else {
      assert GetUAVFormat(f) == f;
    }
  }

  /** The D3D12_RESOURCE_DESC DescribeTex2D fills in (dimension TEXTURE2D, row-major layout unknown, alignment 0). */
  datatype ResourceDesc = ResourceDesc(
    width: nat, height: nat, depthOrArraySize: nat, mipLevels: nat,
    format: Format, flags: nat, sampleCount: nat, sampleQuality: nat)

  /** 2^16: DepthOrArraySize and MipLevels are UINT16 fields. */
  const WORD16: nat := 0x1_0000

  /** The size, array size and format of a 2D texture. */
  class PixelBuffer {
    var width: nat
    var height: nat
    var arraySize: nat
    var format: Format

    /** The default constructor: an empty buffer of unknown format. */
    constructor ()
      ensures width == 0 && height == 0 && arraySize == 0 && format == UNKNOWN
    {
      width, height, arraySize, format := 0, 0, 0, UNKNOWN;
    }

    /**
     * DescribeTex2D: the buffer records the requested size and format; the
     * description uses the base format, one sample, and truncates the array
     * size and mip count to 16 bits.
     */
    method DescribeTex2D(width: nat, height: nat, depthOrArraySize: nat, numMips: nat, format: Format, flags: nat)
      returns (desc: ResourceDesc)
      requires width < WORD32 && height < WORD32 && depthOrArraySize < WORD32 && numMips < WORD32 && flags < WORD32
      modifies this
      ensures this.width == width && this.height == height && this.arraySize == depthOrArraySize
      ensures this.format == format
      ensures desc.width == width && desc.height == height && desc.flags == flags
      ensures desc.depthOrArraySize == depthOrArraySize % WORD16 && desc.mipLevels == numMips % WORD16
      ensures desc.format == GetBaseFormat(format) && desc.sampleCount == 1 && desc.sampleQuality == 0
    {
      this.width, this.height, this.arraySize, this.format := width, height, depthOrArraySize, format;
      desc := ResourceDesc(width, height, depthOrArraySize % WORD16, numMips % WORD16, GetBaseFormat(format), flags, 1, 0);
    }
  }
}

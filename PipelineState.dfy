// The render-target, depth, sample, topology and input-layout fields of a
// graphics pipeline-state description, as the GraphicsPSO setters write
// them (PipelineState.cpp).
module PipelineState {
  import opened PixelFormats
  import opened Wrappers

  /** D3D12_SIMULTANEOUS_RENDER_TARGET_COUNT: the RTVFormats array of the description. */
  const MAX_RENDER_TARGETS: nat := 8

  /** The full 32-bit sample mask the constructor sets. */
  const FULL_SAMPLE_MASK: nat := 0xFFFF_FFFF

  /** D3D12_PRIMITIVE_TOPOLOGY_TYPE. */
  datatype TopologyType = UndefinedTopology | PointTopology | LineTopology | TriangleTopology | PatchTopology

  /** One D3D12_INPUT_ELEMENT_DESC. */
  datatype InputElement = InputElement(
    semanticName: string, semanticIndex: nat, format: Format, inputSlot: nat, alignedByteOffset: nat)

  /** Count copies of UNKNOWN: the render-target slots past the ones in use. */
  function Unknowns(count: nat): (r: seq<Format>)
    ensures |r| == count && forall i :: 0 <= i < count ==> r[i] == UNKNOWN
  {
    seq(count, _ => UNKNOWN)
  }

  function Max(x: nat, y: nat): nat
  {
    if x < y then y else x
  }

  /** A graphics pipeline state under construction: the parts of m_PSODesc the setters below write. */
  class GraphicsPSO {
    const rtvFormats: array<Format>
    var numRenderTargets: nat
    var dsvFormat: Format
    var sampleCount: nat
    var sampleQuality: nat
    var sampleMask: nat
    var nodeMask: nat
    var topology: TopologyType
    var ibStripCutValue: nat
    var numElements: nat
    /** m_InputLayouts: the owned copy of the input elements, or null. */
    var inputLayout: Option<seq<InputElement>>

    /** Every render-target slot from numRenderTargets on holds UNKNOWN. */
    ghost predicate Valid()
      reads this, rtvFormats
    {
      rtvFormats.Length == MAX_RENDER_TARGETS && numRenderTargets <= MAX_RENDER_TARGETS &&
      forall i :: numRenderTargets <= i < MAX_RENDER_TARGETS ==> rtvFormats[i] == UNKNOWN
    }

    /**
     * The constructor zeroes the description (no render targets, every
     * format UNKNOWN, undefined topology, empty input layout), then sets
     * node mask 1, the full sample mask and one sample.
     */
    constructor ()
      ensures Valid() && fresh(rtvFormats)
      ensures numRenderTargets == 0 && dsvFormat == UNKNOWN && rtvFormats[..] == Unknowns(MAX_RENDER_TARGETS)
      ensures nodeMask == 1 && sampleMask == FULL_SAMPLE_MASK && sampleCount == 1 && sampleQuality == 0
      ensures topology == UndefinedTopology && numElements == 0 && inputLayout == None && ibStripCutValue == 0
    {
      rtvFormats := new Format[MAX_RENDER_TARGETS](_ => UNKNOWN);
      numRenderTargets, dsvFormat := 0, UNKNOWN;
      nodeMask, sampleMask, sampleCount, sampleQuality := 1, FULL_SAMPLE_MASK, 1, 0;
      topology, numElements, inputLayout, ibStripCutValue := UndefinedTopology, 0, None, 0;
    }

    /** SetSampleMask. */
    method SetSampleMask(mask: nat)
      modifies this`sampleMask
      ensures sampleMask == mask
    {
      sampleMask := mask;
    }

    /** SetPrimitiveTopologyType: an undefined topology is refused. */
    method SetPrimitiveTopologyType(topologyType: TopologyType)
      requires topologyType != UndefinedTopology
      modifies this`topology
      ensures topology == topologyType
    {
      topology := topologyType;
    }

    /** SetPrimitiveRestart: the index-buffer strip-cut value. */
    method SetPrimitiveRestart(ibProps: nat)
      modifies this`ibStripCutValue
      ensures ibStripCutValue == ibProps
    {
      ibStripCutValue := ibProps;
    }

    /**
     * SetRenderTargetFormats: the first numRTVs formats are copied (none
     * may be UNKNOWN), the slots from numRTVs up to the previous count are
     * reset to UNKNOWN, and the count, DSV format and MSAA count and
     * quality are stored.
     */
    method SetRenderTargetFormats(numRTVs: nat, formats: seq<Format>, dsv: Format, msaaCount: nat, msaaQuality: nat)
      requires Valid() && numRTVs <= MAX_RENDER_TARGETS
      requires |formats| >= numRTVs && forall i :: 0 <= i < numRTVs ==> formats[i] != UNKNOWN
      modifies this`numRenderTargets, this`dsvFormat, this`sampleCount, this`sampleQuality, rtvFormats
      ensures Valid() && numRenderTargets == numRTVs && dsvFormat == dsv
      ensures sampleCount == msaaCount && sampleQuality == msaaQuality
      ensures rtvFormats[..] == formats[..numRTVs] + Unknowns(MAX_RENDER_TARGETS - numRTVs)
    {
      for i := 0 to numRTVs
        modifies rtvFormats
        invariant forall k :: 0 <= k < MAX_RENDER_TARGETS ==>
          rtvFormats[k] == if k < i then formats[k] else old(rtvFormats[k])
      {
        rtvFormats[i] := formats[i];
      }
      for i := numRTVs to Max(numRTVs, numRenderTargets)
        modifies rtvFormats
        invariant forall k :: 0 <= k < MAX_RENDER_TARGETS ==>
          rtvFormats[k] == if k < numRTVs then formats[k] else if k < i then UNKNOWN else old(rtvFormats[k])
      {
        rtvFormats[i] := UNKNOWN;
      }
      numRenderTargets, dsvFormat, sampleCount, sampleQuality := numRTVs, dsv, msaaCount, msaaQuality;
      assert rtvFormats[..] == formats[..numRTVs] + Unknowns(MAX_RENDER_TARGETS - numRTVs);
    }

    /** SetRenderTargetFormat: one render target. */
    method SetRenderTargetFormat(rtv: Format, dsv: Format, msaaCount: nat, msaaQuality: nat)
      requires Valid() && rtv != UNKNOWN
      modifies this`numRenderTargets, this`dsvFormat, this`sampleCount, this`sampleQuality, rtvFormats
      ensures Valid() && numRenderTargets == 1 && dsvFormat == dsv
      ensures sampleCount == msaaCount && sampleQuality == msaaQuality
      ensures rtvFormats[..] == [rtv] + Unknowns(MAX_RENDER_TARGETS - 1)
    {
      SetRenderTargetFormats(1, [rtv], dsv, msaaCount, msaaQuality);
    }

    /** SetDepthTargetFormat: no render target, only a depth target. */
    method SetDepthTargetFormat(dsv: Format, msaaCount: nat, msaaQuality: nat)
      requires Valid()
      modifies this`numRenderTargets, this`dsvFormat, this`sampleCount, this`sampleQuality, rtvFormats
      ensures Valid() && numRenderTargets == 0 && dsvFormat == dsv
      ensures sampleCount == msaaCount && sampleQuality == msaaQuality
      ensures rtvFormats[..] == Unknowns(MAX_RENDER_TARGETS)
    {
      SetRenderTargetFormats(0, [], dsv, msaaCount, msaaQuality);
    }

    /** SetInputLayout: the count is stored; a copy of exactly that many elements is kept, none for zero. */
    method SetInputLayout(count: nat, elements: seq<InputElement>)
      requires count <= |elements|
      modifies this`numElements, this`inputLayout
      ensures numElements == count
      ensures inputLayout == if count > 0 then Some(elements[..count]) else None
    {
      numElements := count;
      if count > 0 {
        inputLayout := Some(elements[..count]);
      } else {
        inputLayout := None;
      }
    }
  }
}

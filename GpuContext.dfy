// The part of a graphics command context that the renderers drive: the
// commands they record, in order, and the usage state of every resource they
// transition. Device calls are not made; each call becomes one log entry.
module GpuContext {

  /** Resource usage states used by the renderers (a subset of D3D12_RESOURCE_STATES). */
  datatype ResourceState =
    | Common
    | RenderTarget
    | DepthWrite
    | DepthRead
    | PixelShaderResource
    | NonPixelShaderResource
    | UnorderedAccess
    | VertexAndConstantBuffer

  /** The GPU resources the renderers touch; Other stands for any further depth or colour buffer. */
  datatype Resource =
    | SceneColor
    | SceneDepth
    | ShadowMap
    | RsmDepth
    | RsmNormal
    | RsmDiffuse
    | RsmSpecular
    | SgLightBuffer
    | Other(id: nat)

  /** The named pipeline state objects of the frame renderers, and entries of the mesh sorter's PSO list. */
  datatype Pipeline =
    | DepthPso
    | DepthCutoutPso
    | ShadowMapPso
    | ShadowMapCutoutPso
    | RsmPso
    | RsmCutoutPso
    | LightingPso
    | LightingCutoutPso
    | LightingHsgPso
    | LightingHsgCutoutPso
    | VsglDiffusePso
    | VsglSpecularPso
    | Listed(index: nat)

  /** The root signatures of the frame renderers' passes. */
  datatype RootSignature = DepthRootSig | RsmRootSig | LightingRootSig | VsglRootSig

  /** Which model of a scene a buffer belongs to. */
  datatype ModelKind = MainModel | CutoutModel

  /** A vertex or index buffer: a model's own buffer (full or depth-only stream) or an explicit view. */
  datatype BufferView =
    | ModelBuffer(model: ModelKind, depthStream: bool)
    | View(address: nat, size: nat, layout: nat)

  datatype Command =
    | Transition(resource: Resource, state: ResourceState)
    | BeginTransition(resource: Resource, state: ResourceState)
    | ClearDepth(resource: Resource)
    | ClearColor(resource: Resource)
    | SetRenderTargets(colour: seq<Resource>, depth: Resource, depthReadOnly: bool)
    | SetRootSignature(signature: RootSignature)
    | SetPipelineState(pso: Pipeline)
    | SetIndexBuffer(view: BufferView)
    | SetVertexBuffer(view: BufferView)
    | SetMaterialTable(material: nat)
    | SetMaterialDescriptors(material: nat, count: nat)
    | SetLightingTable
    | SetDynamicDescriptors(offset: nat, sources: seq<Resource>)
    | SetBufferUav(resource: Resource)
    | SetBufferCbv(resource: Resource)
    | SetConstants(value: nat)
    | SetMeshConstants(meshCbv: nat, materialCbv: nat)
    | SetMaterialTables(srvTable: nat, samplerTable: nat)
    | SetSkinMatrices(count: nat, startJoint: nat)
    | DrawIndexed(indexCount: nat, startIndex: nat, baseVertex: nat)
    | Dispatch(x: nat, y: nat, z: nat)
  {
    /** Commands that leave every resource state alone. */
    predicate Plain() {
      !Transition? && !BeginTransition?
    }
  }

  /** Usage states after replaying cmds: a transition sets its resource's state. */
  function StatesAfter(states: map<Resource, ResourceState>, cmds: seq<Command>): (r: map<Resource, ResourceState>)
    ensures states.Keys <= r.Keys
    decreases |cmds|
  {
    if cmds == [] then states
    else
      var next := if cmds[0].Transition? then states[cmds[0].resource := cmds[0].state] else states;
      StatesAfter(next, cmds[1..])
  }

  /** Transitions begun and not yet completed, after replaying cmds. */
  function PendingAfter(pending: map<Resource, ResourceState>, cmds: seq<Command>): map<Resource, ResourceState>
    decreases |cmds|
  {
    if cmds == [] then pending
    else
      var c := cmds[0];
      var next :=
        if c.Transition? then pending - {c.resource}
        else if c.BeginTransition? then pending[c.resource := c.state]
        else pending;
      PendingAfter(next, cmds[1..])
  }

  /** Replaying a log in two pieces is replaying it whole. */
  lemma {:induction false} ReplaySplit(states: map<Resource, ResourceState>, pending: map<Resource, ResourceState>,
                                       a: seq<Command>, b: seq<Command>)
    ensures StatesAfter(states, a + b) == StatesAfter(StatesAfter(states, a), b)
    ensures PendingAfter(pending, a + b) == PendingAfter(PendingAfter(pending, a), b)
    decreases |a|
  {
    if a == [] {
      assert a + b == b;
    } else {
      assert (a + b)[0] == a[0];
      assert (a + b)[1..] == a[1..] + b;
      var c := a[0];
      var nextS := if c.Transition? then states[c.resource := c.state] else states;
      var nextP :=
        if c.Transition? then pending - {c.resource}
        else if c.BeginTransition? then pending[c.resource := c.state]
        else pending;
      ReplaySplit(nextS, nextP, a[1..], b);
    }
  }

  /** A log of plain commands changes no state. */
  lemma {:induction false} PlainKeepsStates(states: map<Resource, ResourceState>, pending: map<Resource, ResourceState>,
                                            cmds: seq<Command>)
    requires forall c :: c in cmds ==> c.Plain()
    ensures StatesAfter(states, cmds) == states
    ensures PendingAfter(pending, cmds) == pending
    decreases |cmds|
  {
    if cmds != [] {
      assert cmds[0] in cmds;
      assert forall c :: c in cmds[1..] ==> c in cmds;
      PlainKeepsStates(states, pending, cmds[1..]);
    }
  }

  /** The recording side of a GraphicsContext/ComputeContext. */
  class GraphicsContext {
    var commands: seq<Command>
    var usage: map<Resource, ResourceState>
    var transitioning: map<Resource, ResourceState>

    /** r is in state s and no split transition of r is outstanding. */
    predicate InState(r: Resource, s: ResourceState)
      reads this`usage, this`transitioning
    {
      r in usage && usage[r] == s && r !in transitioning
    }

    constructor (states: map<Resource, ResourceState>)
      ensures commands == [] && usage == states && transitioning == map[]
    {
      commands := [];
      usage := states;
      transitioning := map[];
    }

    /** Records a command that changes no resource state. */
    method Issue(c: Command)
      requires c.Plain()
      modifies this`commands
      ensures commands == old(commands) + [c]
    {
      commands := commands + [c];
    }

    /** TransitionResource: the resource moves to the new state, completing any split transition. */
    method TransitionResource(r: Resource, s: ResourceState)
      modifies this`commands, this`usage, this`transitioning
      ensures commands == old(commands) + [Transition(r, s)]
      ensures usage == old(usage)[r := s] && transitioning == old(transitioning) - {r}
      ensures InState(r, s)
    {
      commands := commands + [Transition(r, s)];
      usage := usage[r := s];
      transitioning := transitioning - {r};
    }

    /** BeginResourceTransition: a split barrier whose end must be recorded before the new state is used. */
    method BeginResourceTransition(r: Resource, s: ResourceState)
      modifies this`commands, this`transitioning
      ensures commands == old(commands) + [BeginTransition(r, s)]
      ensures transitioning == old(transitioning)[r := s]
    {
      commands := commands + [BeginTransition(r, s)];
      transitioning := transitioning[r := s];
    }
  }
}
